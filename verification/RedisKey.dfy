/** Redis key names: the two 64-bit keys printed in base 36 (src/query_cache.go:198-208). */
module RedisKey {
  import opened Common

  const PREFIX := "graphql-engine-plus:"

  /** Digits run 0-9 and then a-z. */
  function Digit(d: nat): (c: char)
    requires d < 36
    ensures c != ':'
    ensures DigitValue(c) == d
  {
    if d < 10 then '0' + d as char else 'a' + (d - 10) as char
  }

  /** strconv.FormatUint(x, 36). */
  function FormatBase36(x: nat): string {
    if x < 36 then [Digit(x)] else FormatBase36(x / 36) + [Digit(x % 36)]
  }

  /** The value of a digit character. */
  function DigitValue(c: char): nat {
    if '0' <= c <= '9' then c as nat - '0' as nat
    else if 'a' <= c <= 'z' then c as nat - 'a' as nat + 10
    else 0
  }

  function ParseBase36(s: string): nat {
    if s == "" then 0 else 36 * ParseBase36(s[..|s| - 1]) + DigitValue(s[|s| - 1])
  }

  function CreateRedisKey(family: uint64, cache: uint64): string {
    PREFIX + FormatBase36(family) + ":" + FormatBase36(cache)
  }

  /** Reading a printed key gives the key back, so printing is one-to-one. */
  lemma {:induction false} FormatParses(x: nat)
    ensures ParseBase36(FormatBase36(x)) == x
  {
    var s := FormatBase36(x);
    if x < 36 {
      assert s[..0] == "";
    } else {
      FormatParses(x / 36);
      assert s[..|s| - 1] == FormatBase36(x / 36);
    }
  }

  lemma {:induction false} FormatHasNoColon(x: nat)
    ensures ':' !in FormatBase36(x)
  {
    if x >= 36 {
      FormatHasNoColon(x / 36);
    }
  }

  /** A separator that occurs in neither left part fixes where both strings split. */
  lemma SplitAtSeparator(a1: string, b1: string, a2: string, b2: string, sep: char)
    requires sep !in a1 && sep !in a2
    requires a1 + [sep] + b1 == a2 + [sep] + b2
    ensures a1 == a2 && b1 == b2
  {
    var s, t := a1 + [sep] + b1, a2 + [sep] + b2;
    assert s[|a1|] == sep && t[|a2|] == sep;
    assert |a1| == |a2|;
    assert s[..|a1|] == a1 && t[..|a2|] == a2;
    assert s[|a1| + 1..] == b1 && t[|a2| + 1..] == b2;
  }

  /** Distinct (family, cache) pairs never share a Redis key. */
  lemma RedisKeyInjective(f1: uint64, c1: uint64, f2: uint64, c2: uint64)
    requires CreateRedisKey(f1, c1) == CreateRedisKey(f2, c2)
    ensures f1 == f2 && c1 == c2
  {
    var a1, b1, a2, b2 := FormatBase36(f1), FormatBase36(c1), FormatBase36(f2), FormatBase36(c2);
    assert CreateRedisKey(f1, c1)[|PREFIX|..] == a1 + ":" + b1;
    assert CreateRedisKey(f2, c2)[|PREFIX|..] == a2 + ":" + b2;
    FormatHasNoColon(f1);
    FormatHasNoColon(f2);
    SplitAtSeparator(a1, b1, a2, b2, ':');
    FormatParses(f1);
    FormatParses(c1);
    FormatParses(f2);
    FormatParses(c2);
  }

  /** The keys as the server writes them: lower-case base 36 after the prefix. */
  lemma KeysLookLike()
    ensures CreateRedisKey(0, 35) == "graphql-engine-plus:0:z"
    ensures CreateRedisKey(36, 1331) == "graphql-engine-plus:10:10z"
  {
    assert FormatBase36(36) == FormatBase36(1) + "0" == "10";
    assert FormatBase36(36 * 36 + 35) == FormatBase36(36) + "z";
  }
}
