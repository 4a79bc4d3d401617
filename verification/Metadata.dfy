/**
 * The metadata of a cache entry (src/query_cache.go:20-25, 52-57, 97-101) as far as
 * expires_at goes, and the max-age that a hit computes from it (67-72).  Instants are in
 * milliseconds, expires_at in seconds.
 */
module Metadata {
  import opened Common

  /** The opening of the JSON object, {"expires_at": in bytes. */
  const PREFIX: seq<byte> := [123, 34, 101, 120, 112, 105, 114, 101, 115, 95, 97, 116, 34, 58]

  const MINUS: byte := 45
  const COMMA: byte := 44

  predicate IsDigit(b: byte) {
    48 <= b <= 57
  }

  function Digits(n: nat): seq<byte> {
    if n < 10 then [48 + n] else Digits(n / 10) + [48 + n % 10]
  }

  function Print(x: int): seq<byte> {
    if x < 0 then [MINUS] + Digits(-x) else Digits(x)
  }

  /** The JSON object: expires_at comes first, and `types` is what follows the comma. */
  function Marshal(expiresAt: int, types: seq<byte>): (r: seq<byte>)
    ensures |r| > 0
  {
    PREFIX + (Print(expiresAt) + ([COMMA] + types))
  }

  /** The printed object opens with the name of the field. */
  lemma MarshalNamesTheField(expiresAt: int, types: seq<byte>, name: string)
    requires name == "{\"expires_at\":"
    ensures |PREFIX| == |name|
    ensures forall i :: 0 <= i < |name| ==> Marshal(expiresAt, types)[i] == name[i] as int
  {
    assert Marshal(expiresAt, types)[..|PREFIX|] == PREFIX;
    forall i | 0 <= i < |name|
      ensures PREFIX[i] == name[i] as int
    {
    }
  }

  /** How many digits the data starts with. */
  function DigitRun(data: seq<byte>): (n: nat)
    ensures n <= |data|
  {
    if data != [] && IsDigit(data[0]) then 1 + DigitRun(data[1..]) else 0
  }

  function Value(digits: seq<byte>): int {
    if digits == [] then 0 else 10 * Value(digits[..|digits| - 1]) + digits[|digits| - 1] as int - 48
  }

  function ReadNumber(data: seq<byte>): Option<int> {
    var n := DigitRun(data);
    if n == 0 then None else Some(Value(data[..n]))
  }

  /** The expires_at of the object; None stands for the error return. */
  function Unmarshal(meta: seq<byte>): Option<int> {
    if !(PREFIX <= meta) then None
    else
      var data := meta[|PREFIX|..];
      if data != [] && data[0] == MINUS then
        match ReadNumber(data[1..])
        case Some(n) => Some(-n)
        case None => None
      else ReadNumber(data)
  }

  lemma {:induction false} DigitsAreDigits(n: nat)
    ensures Digits(n) != [] && forall i :: 0 <= i < |Digits(n)| ==> IsDigit(Digits(n)[i])
  {
    if n >= 10 {
      DigitsAreDigits(n / 10);
    }
  }

  lemma {:induction false} DigitsHaveValue(n: nat)
    ensures Value(Digits(n)) == n
  {
    var d := Digits(n);
    if n < 10 {
      assert d[..0] == [];
    } else {
      DigitsHaveValue(n / 10);
      assert d[..|d| - 1] == Digits(n / 10);
    }
  }

  lemma {:induction false} RunOfDigits(digits: seq<byte>, rest: seq<byte>)
    requires forall i :: 0 <= i < |digits| ==> IsDigit(digits[i])
    requires rest != [] && !IsDigit(rest[0])
    ensures DigitRun(digits + rest) == |digits|
  {
    if digits == [] {
      assert digits + rest == rest;
    } else {
      assert (digits + rest)[1..] == digits[1..] + rest;
      RunOfDigits(digits[1..], rest);
    }
  }

  lemma ReadsDigits(n: nat, rest: seq<byte>)
    requires rest != [] && !IsDigit(rest[0])
    ensures ReadNumber(Digits(n) + rest) == Some(n)
  {
    DigitsAreDigits(n);
    DigitsHaveValue(n);
    RunOfDigits(Digits(n), rest);
    assert (Digits(n) + rest)[..|Digits(n)|] == Digits(n);
  }

  /** The expires_at read is the one written, for every instant and whatever follows it. */
  lemma UnmarshalReadsExpiry(expiresAt: int, types: seq<byte>)
    ensures Unmarshal(Marshal(expiresAt, types)) == Some(expiresAt)
  {
    var rest := [COMMA] + types;
    var data := Print(expiresAt) + rest;
    assert Marshal(expiresAt, types)[|PREFIX|..] == data;
    if expiresAt < 0 {
      assert data[1..] == Digits(-expiresAt) + rest;
      ReadsDigits(-expiresAt, rest);
    } else {
      DigitsAreDigits(expiresAt);
      assert data[0] == Digits(expiresAt)[0];
      ReadsDigits(expiresAt, rest);
    }
  }

  // ----- max-age -----

  /** The second written as expires_at when the metadata is built at `built`. */
  function ExpiresAt(built: int, ttl: int): int {
    (built + ttl * 1000) / 1000
  }

  /** The max-age sent at instant `now`. */
  function MaxAge(expiresAt: int, now: int): int {
    var left := expiresAt - now / 1000;
    if left < 0 then 0 else left
  }

  /**
   * For an entry whose metadata is built at `built`, which Redis takes at `written` and
   * which is sent at `now`: max-age is at most the TTL, and 0 for an entry without expiry.
   * A positive one ends within the entry's life exactly when the hit falls no later in its
   * second than the build did, plus the time the write took; it never overruns by a second.
   * With an expiry it is the TTL less the seconds gone by since the build, as long as that is
   * not negative, so it never falls short by more than a second of the life counted from the build.
   */
  lemma MaxAgeAgainstLife(built: int, written: int, ttl: int, now: int)
    requires built <= written <= now
    ensures var age := MaxAge(ExpiresAt(built, ttl), now);
            && 0 <= age && (ttl > 0 ==> age <= ttl) && (ttl <= 0 ==> age == 0)
            && (age > 0 ==>
                 (now + 1000 * age <= written + ttl * 1000 <==> now % 1000 <= built % 1000 + (written - built)))
            && (age > 0 ==> now + 1000 * age < written + ttl * 1000 + 1000)
            && (ttl > 0 && now / 1000 - built / 1000 <= ttl ==> age == ttl - (now / 1000 - built / 1000))
            && (ttl > 0 ==> now + 1000 * age > built + ttl * 1000 - 1000)
  {
    assert (built + ttl * 1000) / 1000 == built / 1000 + ttl;
    assert now == now / 1000 * 1000 + now % 1000 && built == built / 1000 * 1000 + built % 1000;
    assert built / 1000 <= now / 1000;
  }
}
