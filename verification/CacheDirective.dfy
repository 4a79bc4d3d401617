/**
 * The TTL of a request: IsCachedQueryGraphQLRequest (src/gql_parser.go:45-73) and what
 * later uses of the TTL may rely on (src/cache_service.go:407-415).
 */
module CacheDirective {
  import opened Common
  import opened Regex
  import opened GraphqlText

  // ----- @cached\((ttl|refresh)\s*:\s*(\d+|true)\), line 33 -----

  datatype Params = Params(key: string, value: string)

  predicate ExactAt(w: string, s: string, i: nat) {
    i + |w| <= |s| && s[i..i + |w|] == w
  }

  predicate IsDigit(c: char) {
    '0' <= c <= '9'
  }

  predicate AllDigits(s: string) {
    forall i :: 0 <= i < |s| ==> IsDigit(s[i])
  }

  function SkipDigits(s: string, i: nat): (j: nat)
    requires i <= |s|
    ensures i <= j <= |s| && (forall k :: i <= k < j ==> IsDigit(s[k])) && (j < |s| ==> !IsDigit(s[j]))
    decreases |s| - i
  {
    if i < |s| && IsDigit(s[i]) then SkipDigits(s, i + 1) else i
  }

  /** The end of the value that starts at `i`: digits, or the word true. */
  function ValueEnd(s: string, i: nat): nat
    requires i <= |s|
  {
    var e := SkipDigits(s, i);
    if e > i then e else if ExactAt("true", s, i) then i + 4 else i
  }

  /** The colon, the value and the closing parenthesis, after a key that ends at `p`. */
  function ValueAfter(q: string, p: nat): Option<string>
    requires p <= |q|
  {
    var c := SkipSpaces(q, p);
    if c < |q| && q[c] == ':' then
      var v := SkipSpaces(q, c + 1);
      var e := ValueEnd(q, v);
      if v < e < |q| && q[e] == ')' then Some(q[v..e]) else None
    else None
  }

  function ParamsAt(q: string, i: nat): Option<Params> {
    if !ExactAt("@cached(", q, i) then None
    else
      var key := if ExactAt("ttl", q, i + 8) then "ttl" else if ExactAt("refresh", q, i + 8) then "refresh" else "";
      if key == "" then None
      else match ValueAfter(q, i + 8 + |key|)
        case Some(value) => Some(Params(key, value))
        case None => None
  }

  /** The first result of `f` on i..n. */
  function FirstFrom<T>(f: nat -> Option<T>, i: nat, n: nat): Option<T>
    requires i <= n
    decreases n - i
  {
    if f(i).Some? then f(i) else if i < n then FirstFrom(f, i + 1, n) else None
  }

  /** FindStringSubmatch: the groups of the leftmost match. */
  function FirstParams(q: string): Option<Params> {
    FirstFrom(i => ParamsAt(q, i), 0, |q|)
  }

  predicate IsValue(s: string) {
    s == "true" || (s != "" && AllDigits(s))
  }

  /** The text between positions p and e+1 reads: spaces, colon, spaces, value, parenthesis. */
  ghost predicate ReadsValue(q: string, p: nat, value: string, c: nat, v: nat) {
    var e := v + |value|;
    && p <= c < v <= e < |q|
    && AllIn(Space, q, p, c) && q[c] == ':' && AllIn(Space, q, c + 1, v)
    && q[v..e] == value && IsValue(value) && q[e] == ')'
  }

  ghost predicate Readable(q: string, p: nat, value: string) {
    exists c: nat, v: nat :: ReadsValue(q, p, value, c, v)
  }

  /** The pattern matches at `i` with these groups. */
  ghost predicate Denotes(q: string, i: nat, p: Params) {
    && ExactAt("@cached(", q, i)
    && (p.key == "ttl" || p.key == "refresh") && ExactAt(p.key, q, i + 8)
    && Readable(q, i + 8 + |p.key|, p.value)
  }

  lemma DigitRun(q: string, v: nat, e: nat)
    requires v < e < |q| && AllDigits(q[v..e]) && q[e] == ')'
    ensures ValueEnd(q, v) == e
  {
    assert forall k :: v <= k < e ==> q[k] == q[v..e][k - v];
  }

  lemma ValueAfterReads(q: string, p: nat, value: string)
    requires p <= |q| && ValueAfter(q, p) == Some(value)
    ensures Readable(q, p, value)
  {
    var c := SkipSpaces(q, p);
    var v := SkipSpaces(q, c + 1);
    assert |value| == ValueEnd(q, v) - v;
    assert ReadsValue(q, p, value, c, v);
  }

  lemma ReadsValueIsFound(q: string, p: nat, value: string, c: nat, v: nat)
    requires p <= |q| && ReadsValue(q, p, value, c, v)
    ensures ValueAfter(q, p) == Some(value)
  {
    assert SkipSpaces(q, p) == c;
    assert q[v] == q[v..v + |value|][0];
    assert SkipSpaces(q, c + 1) == v;
    if value == "true" {
      assert SkipDigits(q, v) == v;
    } else {
      DigitRun(q, v, v + |value|);
    }
  }

  lemma ValueAfterIffReadable(q: string, p: nat, value: string)
    requires p <= |q|
    ensures ValueAfter(q, p) == Some(value) <==> Readable(q, p, value)
  {
    if ValueAfter(q, p) == Some(value) {
      ValueAfterReads(q, p, value);
    }
    if c: nat, v: nat :| ReadsValue(q, p, value, c, v) {
      ReadsValueIsFound(q, p, value, c, v);
    }
  }

  lemma FirstCharacter(w: string, q: string, i: nat)
    requires w != "" && ExactAt(w, q, i)
    ensures q[i] == w[0]
  {
    assert q[i] == q[i..i + |w|][0];
  }

  /** At most one of the two keys stands at a position, so the parser picks the one the pattern picks. */
  lemma KeyIsUnique(q: string, i: nat, key: string)
    requires (key == "ttl" || key == "refresh") && ExactAt(key, q, i)
    ensures key == if ExactAt("ttl", q, i) then "ttl" else if ExactAt("refresh", q, i) then "refresh" else ""
  {
    FirstCharacter(key, q, i);
    if ExactAt("ttl", q, i) {
      FirstCharacter("ttl", q, i);
    }
  }

  lemma DenotedIsRead(q: string, i: nat, p: Params)
    requires Denotes(q, i, p)
    ensures ParamsAt(q, i) == Some(p)
  {
    KeyIsUnique(q, i + 8, p.key);
    ValueAfterIffReadable(q, i + 8 + |p.key|, p.value);
  }

  lemma ReadIsDenoted(q: string, i: nat, p: Params)
    requires ParamsAt(q, i) == Some(p)
    ensures Denotes(q, i, p)
  {
    ValueAfterIffReadable(q, i + 8 + |p.key|, p.value);
  }

  /** The parser reads at a position exactly the groups the pattern has there; so they are unique. */
  lemma ParamsAtIffDenotes(q: string, i: nat, p: Params)
    ensures ParamsAt(q, i) == Some(p) <==> Denotes(q, i, p)
  {
    if ParamsAt(q, i) == Some(p) {
      ReadIsDenoted(q, i, p);
    }
    if Denotes(q, i, p) {
      DenotedIsRead(q, i, p);
    }
  }

  lemma {:induction false} FirstFromIsFirst<T>(f: nat -> Option<T>, i: nat, n: nat)
    requires i <= n
    ensures FirstFrom(f, i, n).Some? ==>
            exists j: nat :: i <= j <= n && f(j) == FirstFrom(f, i, n) && forall k: nat :: i <= k < j ==> f(k).None?
    ensures FirstFrom(f, i, n).None? ==> forall j: nat :: i <= j <= n ==> f(j).None?
    decreases n - i
  {
    if f(i).None? && i < n {
      FirstFromIsFirst(f, i + 1, n);
    }
  }

  ghost predicate DenotedFirst(q: string, j: nat, p: Params) {
    Denotes(q, j, p) && forall k: nat, p' :: k < j ==> !Denotes(q, k, p')
  }

  /** The search returns the groups of the leftmost match of the pattern, and nothing exactly when there is none. */
  lemma FirstParamsIsLeftmost(q: string)
    ensures FirstParams(q).Some? ==> exists j: nat :: DenotedFirst(q, j, FirstParams(q).value)
    ensures FirstParams(q).None? ==> forall j: nat, p :: j <= |q| ==> !Denotes(q, j, p)
  {
    var f := i => ParamsAt(q, i);
    FirstFromIsFirst(f, 0, |q|);
    forall k: nat, p ensures f(k) == Some(p) <==> Denotes(q, k, p) {
      ParamsAtIffDenotes(q, k, p);
    }
    if FirstParams(q).Some? {
      var j: nat :| 0 <= j <= |q| && f(j) == FirstParams(q) && forall k: nat :: 0 <= k < j ==> f(k).None?;
      assert DenotedFirst(q, j, FirstParams(q).value);
    }
  }

  // ----- the TTL -----

  function Decimal(s: string): nat {
    if s == "" || !IsDigit(s[|s| - 1]) then 0
    else 10 * Decimal(s[..|s| - 1]) + (s[|s| - 1] as nat - '0' as nat)
  }

  /** strconv.Atoi on a value group: an error for `true` and for numbers that do not fit an int. */
  function Atoi(s: string): Option<int> {
    if s == "" || !AllDigits(s) then None
    else if Decimal(s) >= TWO_63 then None
    else Some(Decimal(s))
  }

  function CachedTtl(q: string, maxTtl: int): int {
    if !IsCachedQuery(q) then 0
    else match FirstParams(q)
      case None => maxTtl
      case Some(p) =>
        if p.key == "ttl" then
          match Atoi(p.value)
          case Some(ttl) => if ttl > maxTtl then maxTtl else ttl
          case None => maxTtl
        else if p.key == "refresh" && p.value == "true" then 0
        else maxTtl
  }

  function Min(a: int, b: int): int {
    if a < b then a else b
  }

  /** A digit string of any length, also one that overflows Atoi, gives min(value, maximum). */
  lemma DigitsGiveMinimum(q: string, maxTtl: int, digits: string)
    requires maxTtl < TWO_63
    requires IsCachedQuery(q) && digits != "" && AllDigits(digits)
    requires FirstParams(q) == Some(Params("ttl", digits))
    ensures CachedTtl(q, maxTtl) == Min(Decimal(digits), maxTtl)
  {
    assert Atoi(digits).Some? <==> Decimal(digits) < TWO_63;
  }

  // ----- every case of the TTL, by what the text denotes -----

  /** The decimal digits of a number. */
  function Printed(n: nat): string {
    if n < 10 then ['0' + n as char] else Printed(n / 10) + ['0' + (n % 10) as char]
  }

  function Zeros(k: nat): string {
    if k == 0 then "" else "0" + Zeros(k - 1)
  }

  lemma {:induction false} PrintedReadsBack(n: nat)
    ensures Printed(n) != "" && AllDigits(Printed(n)) && Decimal(Printed(n)) == n
  {
    var s := Printed(n);
    if n < 10 {
      assert s[..0] == "";
    } else {
      PrintedReadsBack(n / 10);
      assert s[..|s| - 1] == Printed(n / 10);
    }
  }

  lemma {:induction false} LeadingZero(s: string)
    requires AllDigits(s)
    ensures AllDigits("0" + s) && Decimal("0" + s) == Decimal(s)
  {
    var t := "0" + s;
    if s == "" {
      assert t[..0] == "";
    } else {
      assert t[..|t| - 1] == "0" + s[..|s| - 1];
      LeadingZero(s[..|s| - 1]);
    }
  }

  /** Reading digits undoes printing, with any number of zeros in front. */
  lemma {:induction false} DecimalInvertsPrinting(k: nat, n: nat)
    ensures var s := Zeros(k) + Printed(n); s != "" && AllDigits(s) && Decimal(s) == n
  {
    PrintedReadsBack(n);
    var p := Printed(n);
    if k == 0 {
      assert Zeros(k) + p == p;
    } else {
      DecimalInvertsPrinting(k - 1, n);
      LeadingZero(Zeros(k - 1) + p);
      assert "0" + Zeros(k - 1) + p == "0" + (Zeros(k - 1) + p);
    }
  }

  /** Every digit string is a printed number with zeros in front. */
  lemma {:induction false} DigitsArePrinted(s: string) returns (k: nat)
    requires s != "" && AllDigits(s)
    ensures s == Zeros(k) + Printed(Decimal(s))
  {
    var m := |s| - 1;
    var rest, d := s[..m], s[m];
    assert s == rest + [d];
    if rest == "" {
      assert Decimal(s) == d as nat - '0' as nat;
      k := 0;
      assert Zeros(0) + Printed(Decimal(s)) == s;
    } else {
      k := DigitsArePrinted(rest);
      if Decimal(rest) == 0 {
        k := k + 1;
        ZerosSnoc(k - 1);
        assert Printed(0) == "0";
        assert Printed(Decimal(s)) == [d];
      } else {
        assert Printed(Decimal(s)) == Printed(Decimal(rest)) + [d];
        assert Zeros(k) + (Printed(Decimal(rest)) + [d]) == Zeros(k) + Printed(Decimal(rest)) + [d];
      }
    }
  }

  lemma {:induction false} ZerosSnoc(k: nat)
    ensures Zeros(k + 1) == Zeros(k) + "0"
  {
    if k > 0 {
      ZerosSnoc(k - 1);
    }
  }

  /** The leftmost parameters that a text denotes are the ones found. */
  lemma DenotedFirstIsFound(q: string, j: nat, p: Params)
    requires DenotedFirst(q, j, p)
    ensures FirstParams(q) == Some(p)
  {
    FirstParamsIsLeftmost(q);
    assert j <= |q|;
    var j': nat :| DenotedFirst(q, j', FirstParams(q).value);
    assert j == j';
    ParamsAtIffDenotes(q, j, p);
    ParamsAtIffDenotes(q, j, FirstParams(q).value);
  }

  /** The text denotes no parameters, or first ttl:true, or first refresh with digits. */
  ghost predicate NamesNoTtl(q: string) {
    || (forall j: nat, p :: !Denotes(q, j, p))
    || (exists j: nat, p :: DenotedFirst(q, j, p) && (if p.key == "ttl" then p.value == "true" else p.value != "true"))
  }

  /** For every maximum, a cached query that names no TTL gets exactly the maximum. */
  lemma NoTtlGivesMaximum(q: string, maxTtl: int)
    requires IsCachedQuery(q) && NamesNoTtl(q)
    ensures CachedTtl(q, maxTtl) == maxTtl
  {
    if forall j: nat, p :: !Denotes(q, j, p) {
      FirstParamsIsLeftmost(q);
    } else {
      var j: nat, p :| DenotedFirst(q, j, p) && (if p.key == "ttl" then p.value == "true" else p.value != "true");
      DenotedFirstIsFound(q, j, p);
      if p.key == "ttl" {
        assert !IsDigit(p.value[0]);
      }
    }
  }

  /** A cached query that first names a TTL gets that number or the maximum, whichever is less. */
  lemma TtlGivesMinimum(q: string, maxTtl: int, j: nat, zeros: nat, n: nat)
    requires maxTtl < TWO_63
    requires IsCachedQuery(q) && DenotedFirst(q, j, Params("ttl", Zeros(zeros) + Printed(n)))
    ensures CachedTtl(q, maxTtl) <= n && CachedTtl(q, maxTtl) <= maxTtl
    ensures CachedTtl(q, maxTtl) == n || CachedTtl(q, maxTtl) == maxTtl
  {
    DenotedFirstIsFound(q, j, Params("ttl", Zeros(zeros) + Printed(n)));
    DecimalInvertsPrinting(zeros, n);
    DigitsGiveMinimum(q, maxTtl, Zeros(zeros) + Printed(n));
  }

  /** A text that first asks for a refresh, or is no cached query, gets 0. */
  lemma RefreshGivesZero(q: string, maxTtl: int, j: nat)
    requires !IsCachedQuery(q) || DenotedFirst(q, j, Params("refresh", "true"))
    ensures CachedTtl(q, maxTtl) == 0
  {
    if IsCachedQuery(q) {
      DenotedFirstIsFound(q, j, Params("refresh", "true"));
      assert "refresh" != "ttl" by { assert |"refresh"| != |"ttl"|; }
    }
  }

  /** These are all the cases. */
  lemma TtlCases(q: string)
    ensures || NamesNoTtl(q)
            || (exists j: nat :: DenotedFirst(q, j, Params("refresh", "true")))
            || (exists j: nat, k: nat, n: nat :: DenotedFirst(q, j, Params("ttl", Zeros(k) + Printed(n))))
  {
    FirstParamsIsLeftmost(q);
    if FirstParams(q).Some? {
      var p := FirstParams(q).value;
      var j: nat :| DenotedFirst(q, j, p);
      if p.key == "ttl" && p.value != "true" {
        var k := DigitsArePrinted(p.value);
        assert p == Params("ttl", Zeros(k) + Printed(Decimal(p.value)));
      } else if p.key == "refresh" && p.value == "true" {
        assert p == Params("refresh", "true");
      } else {
        assert NamesNoTtl(q);
      }
    }
  }

  /** RedisCacheClient.Set accepts this TTL (src/cache_service.go:407). */
  predicate Accepted(ttl: int) {
    ttl == -1 || ttl > 0
  }

  /**
   * With a non-negative maximum every TTL that switches the cache on is in 1..maximum,
   * hence accepted by Set; the cache stays off exactly for uncached texts, refresh:true,
   * a zero TTL, or a zero maximum.
   */
  lemma TtlRange(q: string, maxTtl: int)
    requires 0 <= maxTtl < TWO_63
    ensures 0 <= CachedTtl(q, maxTtl) <= maxTtl
    ensures CachedTtl(q, maxTtl) != 0 ==> Accepted(CachedTtl(q, maxTtl))
    ensures CachedTtl(q, maxTtl) == 0 <==>
            || !IsCachedQuery(q) || maxTtl == 0
            || FirstParams(q) == Some(Params("refresh", "true"))
            || (exists d :: FirstParams(q) == Some(Params("ttl", d)) && Atoi(d) == Some(0))
  {
    var found := FirstParams(q);
    if found.Some? && found.value.key == "ttl" {
      var d := found.value.value;
      assert found == Some(Params("ttl", d));
    }
  }

  /** The text asks for caching, and its first directive is not refresh:true. */
  predicate AsksForCaching(q: string) {
    IsCachedQuery(q) && FirstParams(q) != Some(Params("refresh", "true"))
  }

  /** A negative maximum is the TTL of every text that asks for caching, whatever TTL it asks for. */
  lemma NegativeMaximumWins(q: string, maxTtl: int)
    requires maxTtl < 0
    ensures CachedTtl(q, maxTtl) == if AsksForCaching(q) then maxTtl else 0
  {
    if IsCachedQuery(q) && FirstParams(q).Some? && FirstParams(q).value.key == "ttl" {
      var p := FirstParams(q).value;
      assert p != Params("refresh", "true") by {
        assert |p.key| != |"refresh"|;
      }
    }
  }

  /**
   * A request switches the cache on with a TTL that Set refuses exactly if it asks for caching and the
   * maximum is below -1.
   */
  lemma RefusedTtlIff(q: string, maxTtl: int)
    requires maxTtl < TWO_63
    ensures CachedTtl(q, maxTtl) != 0 && !Accepted(CachedTtl(q, maxTtl)) <==> maxTtl < -1 && AsksForCaching(q)
  {
    if maxTtl >= 0 {
      TtlRange(q, maxTtl);
    } else {
      NegativeMaximumWins(q, maxTtl);
    }
  }

  /** The indefinite TTL, -1, is answered exactly if the request asks for caching and the maximum is -1. */
  lemma IndefiniteTtlIff(q: string, maxTtl: int)
    requires maxTtl < TWO_63
    ensures CachedTtl(q, maxTtl) == -1 <==> maxTtl == -1 && AsksForCaching(q)
  {
    if maxTtl >= 0 {
      TtlRange(q, maxTtl);
    } else {
      NegativeMaximumWins(q, maxTtl);
    }
  }

  // ----- texts that ask for caching -----

  lemma LiteralInside(pre: string, w: string, rest: string)
    ensures LiteralAt(w, pre + w + rest, |pre|)
  {
    var q := pre + w + rest;
    forall k | 0 <= k < |w| ensures FoldCase(q[|pre| + k]) == FoldCase(w[k]) {
      assert q[|pre| + k] == w[k];
    }
  }

  /** The operation and the directive stand at the start. */
  predicate StartsLikeCached(q: string) {
    |q| >= 6 && q[0] == 'q' && q[5] == ' ' && LiteralAt("query", q, 0) && LiteralAt("@cached", q, 6)
  }

  lemma StartIsLikeCached(rest: string)
    ensures StartsLikeCached("query @cached" + rest)
  {
    var q := "query @cached" + rest;
    assert q == [] + "query" + (" @cached" + rest);
    LiteralInside([], "query", " @cached" + rest);
    assert q == "query " + "@cached" + rest;
    LiteralInside("query ", "@cached", rest);
  }

  lemma StartsWithOperation(q: string)
    requires StartsLikeCached(q)
    ensures IsOperation(q, "query") && HasDirective(q, SkipSpaces(q, 0) + 6)
  {
    assert SkipSpaces(q, 0) == 0;
    assert AllIn(NonWord, q, 6, 6) && AllIn(NotNewline, q, 6, 6) && AllIn(Space, q, 6, 6);
    assert DirectiveReachable(q, 6, 6);
  }

  lemma CachedFromStart(q: string)
    requires StartsLikeCached(q)
    ensures IsCachedQuery(q)
  {
    StartsWithOperation(q);
    CachedQueryMatches(q);
  }

  /** Whatever follows, a text that starts like this is a cached query. */
  lemma StartsCached(rest: string)
    ensures IsCachedQuery("query @cached" + rest)
  {
    StartIsLikeCached(rest);
    CachedFromStart("query @cached" + rest);
  }

  lemma ExactCharacter(w: string, q: string, i: nat, k: nat)
    requires ExactAt(w, q, i) && k < |w|
    ensures q[i + k] == w[k]
  {
    assert q[i + k] == q[i..i + |w|][k];
  }

  lemma ParamsNeedParenthesis(q: string)
    requires FirstParams(q).Some?
    ensures '(' in q
  {
    FirstParamsIsLeftmost(q);
    var j: nat :| DenotedFirst(q, j, FirstParams(q).value);
    ExactCharacter("@cached(", q, j, 7);
  }

  /** A query with no parameters asks for caching, so with a maximum of -2 its answer is refused. */
  lemma QueryCanBeRefused(rest: string)
    requires '(' !in rest
    ensures var q := "query @cached" + rest;
            AsksForCaching(q) && CachedTtl(q, -2) == -2 && !Accepted(CachedTtl(q, -2))
  {
    var q := "query @cached" + rest;
    StartsCached(rest);
    if FirstParams(q).Some? {
      ParamsNeedParenthesis(q);
    }
    NegativeMaximumWins(q, -2);
  }
}
