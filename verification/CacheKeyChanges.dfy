/**
 * What does enter the cache keys: values of ordinary headers, and claims of tokens.  The
 * names that are left out, and the headers that carry tokens, are spelled out here.
 */
module CacheKeyChanges {
  import opened Common
  import opened Fnv
  import opened Lines
  import opened Bags
  import opened Text
  import opened CacheKey

  /** The header is none of the nine that are left out, in any case. */
  predicate NoneOfTheNine(name: string) {
    && !EqualFold(name, "Host") && !EqualFold(name, "Connection") && !EqualFold(name, "X-Forwarded-For")
    && !EqualFold(name, "X-Request-ID") && !EqualFold(name, "User-Agent") && !EqualFold(name, "Content-Length")
    && !EqualFold(name, "Content-Type") && !EqualFold(name, "X-Envoy-External-Address")
    && !EqualFold(name, "X-Envoy-Expected-Rq-Timeout-Ms")
  }

  predicate NoneOfTheFour(claim: string) {
    claim != "exp" && claim != "nbf" && claim != "iat" && claim != "jti"
  }

  predicate IsTokenHeader(jwt: Jwt, name: string) {
    name == jwt.header || name == "Authorization"
  }

  /** Exactly the nine headers are left out. */
  lemma FilteredIff(name: string)
    ensures Filtered(name) <==> !NoneOfTheNine(name)
  {
    OneOf(name, UNCACHED_HEADERS, 9);
    var u := UNCACHED_HEADERS;
    assert u[0] == "Host" && u[1] == "Connection" && u[2] == "X-Forwarded-For";
    assert u[3] == "X-Request-ID" && u[4] == "User-Agent" && u[5] == "Content-Length";
    assert u[6] == "Content-Type" && u[7] == "X-Envoy-External-Address" && u[8] == "X-Envoy-Expected-Rq-Timeout-Ms";
  }

  lemma {:induction false} OneOf(name: string, alternatives: seq<string>, n: nat)
    requires |alternatives| == n
    ensures EqualsAny(name, alternatives) <==> exists i :: 0 <= i < n && EqualFold(name, alternatives[i])
  {
    if n > 0 {
      OneOf(name, alternatives[1..], n - 1);
      assert forall i :: 0 <= i < n - 1 ==> alternatives[1..][i] == alternatives[i + 1];
      assert forall i :: 1 <= i < n ==> alternatives[i] == alternatives[1..][i - 1];
    }
  }

  /** The computation panics exactly on a value under seven bytes of an unfiltered header that may carry a token. */
  lemma PanicsOnShortTokens(jwt: Jwt, headers: map<string, seq<string>>)
    ensures Panics(jwt, headers) <==>
            exists k, j :: k in headers && 0 <= j < |headers[k]|
                           && NoneOfTheNine(k) && IsTokenHeader(jwt, k) && |Utf8(headers[k][j])| < 7
  {
    PanicsIff(jwt, headers);
    forall k, j | k in headers && 0 <= j < |headers[k]|
      ensures TooShortForBearer(jwt, k, headers[k][j])
              <==> NoneOfTheNine(k) && IsTokenHeader(jwt, k) && |Utf8(headers[k][j])| < 7
    {
      FilteredIff(k);
    }
  }

  // ----- one line replaced -----

  /** The lines of a header's first `n` values when those of the i-th trade line `a` for line `b`. */
  ghost predicate Traded(
    jwt: Jwt, name: string, vs: seq<string>, i: nat, w: string, a: string, b: string, n: nat)
    requires i < |vs| && n <= |vs|
  {
    if n <= i then LinesUpTo(jwt, name, vs[i := w], n) == LinesUpTo(jwt, name, vs, n)
    else LinesUpTo(jwt, name, vs[i := w], n) + multiset{a} == LinesUpTo(jwt, name, vs, n) + multiset{b}
  }

  lemma TradedStep(jwt: Jwt, name: string, vs: seq<string>, i: nat, w: string, a: string, b: string, n: nat)
    requires i < |vs| && n < |vs| && Traded(jwt, name, vs, i, w, a, b, n)
    requires ValueLines(jwt, name, w) + multiset{a} == ValueLines(jwt, name, vs[i]) + multiset{b}
    ensures Traded(jwt, name, vs, i, w, a, b, n + 1)
  {
    var v, v' := vs[n], vs[i := w][n];
    assert v' == if n == i then w else v;
    Trade(LinesUpTo(jwt, name, vs, n), LinesUpTo(jwt, name, vs[i := w], n),
          ValueLines(jwt, name, v), ValueLines(jwt, name, v'), a, b, n < i, n == i);
  }

  lemma {:induction false} LinesTrade(
    jwt: Jwt, name: string, vs: seq<string>, i: nat, w: string, a: string, b: string, n: nat)
    requires i < |vs| && n <= |vs|
    requires ValueLines(jwt, name, w) + multiset{a} == ValueLines(jwt, name, vs[i]) + multiset{b}
    ensures Traded(jwt, name, vs, i, w, a, b, n)
  {
    if n > 0 {
      LinesTrade(jwt, name, vs, i, w, a, b, n - 1);
      TradedStep(jwt, name, vs, i, w, a, b, n - 1);
    }
  }

  lemma Trade(
    x: multiset<string>, x': multiset<string>, y: multiset<string>, y': multiset<string>, a: string, b: string,
    before: bool, at: bool)
    requires !(before && at)
    requires if before || at then x' == x else x' + multiset{a} == x + multiset{b}
    requires if at then y' + multiset{a} == y + multiset{b} else y' == y
    ensures if before then x' + y' == x + y else x' + y' + multiset{a} == x + y + multiset{b}
  {
    if at {
      assert x' + y' + multiset{a} == x' + (y' + multiset{a});
    } else if !before {
      assert x' + y' + multiset{a} == (x' + multiset{a}) + y';
      assert x + y + multiset{b} == (x + multiset{b}) + y;
    }
  }

  /** The request with the i-th value of a header replaced. */
  function WithValue(req: Request, name: string, i: nat, w: string): Request
    requires name in req.headers && i < |req.headers[name]|
  {
    req.(headers := req.headers[name := req.headers[name][i := w]])
  }

  lemma AllLinesTrade(jwt: Jwt, req: Request, name: string, i: nat, w: string, a: string, b: string)
    requires name in req.headers && i < |req.headers[name]|
    requires ValueLines(jwt, name, w) + multiset{a} == ValueLines(jwt, name, req.headers[name][i]) + multiset{b}
    ensures AllLines(jwt, WithValue(req, name, i, w).headers) + multiset{a} == AllLines(jwt, req.headers) + multiset{b}
  {
    var vs := req.headers[name];
    var headers' := req.headers[name := vs[i := w]];
    LinesTrade(jwt, name, vs, i, w, a, b, |vs|);
    AllLinesTake(jwt, req.headers, name);
    AllLinesTake(jwt, headers', name);
    assert headers' - {name} == req.headers - {name};
    var rest := AllLines(jwt, req.headers - {name});
    Trade(rest, rest, HeaderLines(jwt, name, vs), HeaderLines(jwt, name, vs[i := w]), a, b, false, true);
  }

  lemma AllLinesTake(jwt: Jwt, headers: map<string, seq<string>>, name: string)
    requires name in headers
    ensures AllLines(jwt, headers) == AllLines(jwt, headers - {name}) + HeaderLines(jwt, name, headers[name])
  {
    var f := (k: string, vs: seq<string>) => HeaderLines(jwt, k, vs);
    assert AllLines(jwt, headers) == Bag(headers, f);
    assert AllLines(jwt, headers - {name}) == Bag(headers - {name}, f);
    BagTake(headers, f, name);
  }

  lemma TradesDiffer(x: multiset<string>, x': multiset<string>, a: string, b: string)
    requires x' + multiset{a} == x + multiset{b} && a != b
    ensures x' != x && a in x && x' == x - multiset{a} + multiset{b}
  {
    assert (x' + multiset{a})[a] == (x + multiset{b})[a];
    assert (x' + multiset{a})[b] == (x + multiset{b})[b];
    forall c ensures x'[c] == (x - multiset{a} + multiset{b})[c] {
      assert (x' + multiset{a})[c] == (x + multiset{b})[c];
    }
  }

  // ----- from lines to keys -----

  lemma AffixesKeepDifference(pre: seq<byte>, a: seq<byte>, b: seq<byte>, post: seq<byte>, i: nat)
    requires DifferInOneByte(a, b, i)
    ensures DifferInOneByte(pre + a + post, pre + b + post, |pre| + i)
  {
  }

  lemma {:induction false} LinesBytesSplit(lines: seq<string>, k: nat)
    requires k < |lines|
    ensures LinesBytes(lines) == LinesBytes(lines[..k]) + Utf8(lines[k]) + Tail(lines, k + 1)
  {
    var m := |lines| - 1;
    if k == m {
      assert lines[..k + 1] == lines;
      assert Tail(lines, k + 1) == [];
    } else {
      LinesBytesSplit(lines[..m], k);
      assert lines[..m][..k] == lines[..k];
      TailSnoc(lines, k + 1);
      Regroup(LinesBytes(lines[..k]), Utf8(lines[k]), Tail(lines[..m], k + 1), Utf8(lines[m]));
    }
  }

  lemma Regroup<T>(a: seq<T>, b: seq<T>, c: seq<T>, d: seq<T>)
    ensures a + b + c + d == a + b + (c + d)
  {
  }

  /** The bytes of the lines from the k-th on. */
  function Tail(lines: seq<string>, k: nat): seq<byte>
    requires k <= |lines|
    decreases |lines| - k
  {
    if k == |lines| then [] else Utf8(lines[k]) + Tail(lines, k + 1)
  }

  lemma {:induction false} TailSnoc(lines: seq<string>, k: nat)
    requires k < |lines|
    ensures Tail(lines, k) == Tail(lines[..|lines| - 1], k) + Utf8(lines[|lines| - 1])
    decreases |lines| - k
  {
    if k + 1 < |lines| {
      TailSnoc(lines, k + 1);
    } else {
      assert Tail(lines, k + 1) == [];
    }
  }

  lemma {:induction false} TailOfChange(lines: seq<string>, k: nat, b: string, n: nat)
    requires k < n <= |lines|
    ensures Tail(lines[k := b], n) == Tail(lines, n)
    decreases |lines| - n
  {
    if n < |lines| {
      TailOfChange(lines, k, b, n + 1);
    }
  }

  /** A byte changed in one line is a byte changed in all of them. */
  lemma LinesBytesDiffer(l1: seq<string>, l2: seq<string>, k: nat, b: string, i: nat) returns (at: nat)
    requires k < |l1| && l2 == l1[k := b] && DifferInOneByte(Utf8(l1[k]), Utf8(b), i)
    ensures DifferInOneByte(LinesBytes(l1), LinesBytes(l2), at)
  {
    LinesBytesSplit(l1, k);
    LinesBytesSplit(l2, k);
    TailOfChange(l1, k, b, k + 1);
    assert l2[..k] == l1[..k];
    AffixesKeepDifference(LinesBytes(l1[..k]), Utf8(l1[k]), Utf8(b), Tail(l1, k + 1), i);
    at := |LinesBytes(l1[..k])| + i;
  }

  /** The sorted list of a request's lines has line `a` at `k`, and stays sorted with `b` in its place. */
  ghost predicate KeepsPlace(jwt: Jwt, req: Request, a: string, b: string, k: nat) {
    var lines := SortedList(AllLines(jwt, req.headers));
    k < |lines| && lines[k] == a && Sorted(lines[k := b])
  }

  lemma SortedTrade(lines: seq<string>, m: multiset<string>, a: string, b: string, k: nat)
    requires k < |lines| && lines[k] == a && Sorted(lines[k := b]) && m + multiset{a} == multiset(lines) + multiset{b}
    ensures SortedList(m) == lines[k := b]
  {
    assert multiset(lines[k := b]) + multiset{a} == multiset(lines) + multiset{b};
    SameAfterAdding(multiset(lines[k := b]), m, a);
    SortedIsUnique(lines[k := b], SortedList(m));
  }

  lemma SameAfterAdding(x: multiset<string>, y: multiset<string>, a: string)
    requires x + multiset{a} == y + multiset{a}
    ensures x == y
  {
    forall c ensures x[c] == y[c] {
      assert (x + multiset{a})[c] == (y + multiset{a})[c];
    }
  }

  /** Two requests whose lines differ in one, in one byte and at the same place, have different keys. */
  lemma LineChangesKeys(jwt: Jwt, r1: Request, r2: Request, a: string, b: string, k: nat, i: nat)
    requires r2 == r1.(headers := r2.headers)
    requires AllLines(jwt, r2.headers) + multiset{a} == AllLines(jwt, r1.headers) + multiset{b}
    requires KeepsPlace(jwt, r1, a, b, k) && DifferInOneByte(Utf8(a), Utf8(b), i)
    ensures FamilyKey(jwt, r1) != FamilyKey(jwt, r2) && FullKey(jwt, r1) != FullKey(jwt, r2)
  {
    var lines := SortedList(AllLines(jwt, r1.headers));
    SortedTrade(lines, AllLines(jwt, r2.headers), a, b, k);
    ListsDiffer(jwt, r1, r2, lines, SortedList(AllLines(jwt, r2.headers)), k, b, i);
  }

  lemma ListsDiffer(
    jwt: Jwt, r1: Request, r2: Request, l1: seq<string>, l2: seq<string>, k: nat, b: string, i: nat)
    requires r2 == r1.(headers := r2.headers)
    requires SortedList(AllLines(jwt, r1.headers)) == l1 && SortedList(AllLines(jwt, r2.headers)) == l2
    requires k < |l1| && l2 == l1[k := b] && DifferInOneByte(Utf8(l1[k]), Utf8(b), i)
    ensures FamilyKey(jwt, r1) != FamilyKey(jwt, r2) && FullKey(jwt, r1) != FullKey(jwt, r2)
  {
    var at := LinesBytesDiffer(l1, l2, k, b, i);
    InputsDiffer(jwt, r1, r2, LinesBytes(l1), LinesBytes(l2), at);
  }

  lemma InputsDiffer(jwt: Jwt, r1: Request, r2: Request, d1: seq<byte>, d2: seq<byte>, i: nat)
    requires r2 == r1.(headers := r2.headers)
    requires d1 == LinesBytes(SortedList(AllLines(jwt, r1.headers)))
    requires d2 == LinesBytes(SortedList(AllLines(jwt, r2.headers)))
    requires DifferInOneByte(d1, d2, i)
    ensures FamilyKey(jwt, r1) != FamilyKey(jwt, r2) && FullKey(jwt, r1) != FullKey(jwt, r2)
  {
    var pre := Utf8(r1.query) + Utf8(r1.operationName);
    AffixesKeepDifference(pre, d1, d2, [], i);
    AffixesKeepDifference(pre, d1, d2, Utf8(r1.variables), i);
    assert pre + d1 + [] == pre + d1 && pre + d2 + [] == pre + d2;
    NearbyRequestsGetDifferentKeys(jwt, r1, r2, |pre| + i);
  }

  // ----- ordinary headers -----

  function HeaderLine(name: string, v: string): string {
    name + ":" + v
  }

  /** The value is not that of a parseable bearer token in a token header. */
  predicate IsPlain(jwt: Jwt, name: string, v: string) {
    !(IsTokenHeader(jwt, name) && "Bearer " <= v && jwt.parse(v[7..]).Some?)
  }

  /** Such a value of a header that is none of the nine is hashed as it is, after the header's name. */
  lemma PlainLines(jwt: Jwt, name: string, v: string)
    requires NoneOfTheNine(name) && IsPlain(jwt, name, v)
    ensures ValueLines(jwt, name, v) == multiset{HeaderLine(name, v)}
  {
    FilteredIff(name);
  }

  lemma HeaderLineTellsParts(name: string, name': string, v: string, v': string)
    ensures HeaderLine(name, v) == HeaderLine(name, v') ==> v == v'
    ensures HeaderLine(name, v) == HeaderLine(name', v) ==> name == name'
  {
    if HeaderLine(name, v) == HeaderLine(name, v') {
      assert HeaderLine(name, v)[|name| + 1..] == v && HeaderLine(name, v')[|name| + 1..] == v';
    }
    if HeaderLine(name, v) == HeaderLine(name', v) {
      assert |name| == |name'|;
      assert HeaderLine(name, v)[..|name|] == name && HeaderLine(name', v)[..|name'|] == name';
    }
  }

  /** Any change of such a value changes the lines that are hashed. */
  lemma ValueChangesLines(jwt: Jwt, req: Request, name: string, i: nat, w: string)
    requires name in req.headers && i < |req.headers[name]| && w != req.headers[name][i]
    requires NoneOfTheNine(name) && IsPlain(jwt, name, req.headers[name][i]) && IsPlain(jwt, name, w)
    ensures AllLines(jwt, WithValue(req, name, i, w).headers) != AllLines(jwt, req.headers)
    ensures AllLines(jwt, WithValue(req, name, i, w).headers) + multiset{HeaderLine(name, req.headers[name][i])}
            == AllLines(jwt, req.headers) + multiset{HeaderLine(name, w)}
  {
    var v := req.headers[name][i];
    PlainLines(jwt, name, v);
    PlainLines(jwt, name, w);
    HeaderLineTellsParts(name, name, v, w);
    AllLinesTrade(jwt, req, name, i, w, HeaderLine(name, v), HeaderLine(name, w));
    TradesDiffer(AllLines(jwt, req.headers), AllLines(jwt, WithValue(req, name, i, w).headers),
                 HeaderLine(name, v), HeaderLine(name, w));
  }

  lemma HeaderLineDiffers(name: string, v: string, w: string, i: nat) returns (j: nat)
    requires DifferInOneByte(Utf8(v), Utf8(w), i)
    ensures DifferInOneByte(Utf8(HeaderLine(name, v)), Utf8(HeaderLine(name, w)), j)
  {
    var pre := Utf8(name + ":");
    Utf8Concat(name + ":", v);
    Utf8Concat(name + ":", w);
    AffixesKeepDifference(pre, Utf8(v), Utf8(w), [], i);
    assert pre + Utf8(v) + [] == pre + Utf8(v) && pre + Utf8(w) + [] == pre + Utf8(w);
    j := |pre| + i;
  }

  /** And a change of one byte that leaves the line its place changes both keys. */
  lemma ValueChangesKeys(jwt: Jwt, req: Request, name: string, i: nat, w: string, k: nat, b: nat)
    requires name in req.headers && i < |req.headers[name]|
    requires NoneOfTheNine(name) && IsPlain(jwt, name, req.headers[name][i]) && IsPlain(jwt, name, w)
    requires DifferInOneByte(Utf8(req.headers[name][i]), Utf8(w), b)
    requires KeepsPlace(jwt, req, HeaderLine(name, req.headers[name][i]), HeaderLine(name, w), k)
    ensures var req' := WithValue(req, name, i, w);
            FamilyKey(jwt, req) != FamilyKey(jwt, req') && FullKey(jwt, req) != FullKey(jwt, req')
  {
    var v, req' := req.headers[name][i], WithValue(req, name, i, w);
    ValueChangesLines(jwt, req, name, i, w);
    var j := HeaderLineDiffers(name, v, w, b);
    LineChangesKeys(jwt, req, req', HeaderLine(name, v), HeaderLine(name, w), k, j);
  }

  // ----- claims -----

  /** A claim's line tells its value, its name and its header, each given the other two. */
  lemma ClaimLineTellsParts(name: string, name': string, c: string, c': string, v: string, v': string)
    ensures ClaimLine(name, c, v) == ClaimLine(name, c, v') ==> v == v'
    ensures ClaimLine(name, c, v) == ClaimLine(name, c', v) ==> c == c'
    ensures ClaimLine(name, c, v) == ClaimLine(name', c, v) ==> name == name'
  {
    var n, x := |name|, |":jwt.Claims<"|;
    if ClaimLine(name, c, v) == ClaimLine(name, c, v') {
      assert |v| == |v'|;
      assert ClaimLine(name, c, v)[n + x + |c| + 1..][..|v|] == v;
      assert ClaimLine(name, c, v')[n + x + |c| + 1..][..|v|] == v';
    }
    if ClaimLine(name, c, v) == ClaimLine(name, c', v) {
      assert |c| == |c'|;
      assert ClaimLine(name, c, v)[n + x..][..|c|] == c && ClaimLine(name, c', v)[n + x..][..|c|] == c';
    }
    if ClaimLine(name, c, v) == ClaimLine(name', c, v) {
      assert |name| == |name'|;
      assert ClaimLine(name, c, v)[..n] == name && ClaimLine(name', c, v)[..n] == name';
    }
  }

  lemma TokenClaimLines(jwt: Jwt, name: string, token: string)
    requires NoneOfTheNine(name) && IsTokenHeader(jwt, name) && jwt.parse(token).Some?
    ensures ValueLines(jwt, name, "Bearer " + token) == ClaimLines(name, jwt.parse(token).value - TIMED_CLAIMS)
  {
    FilteredIff(name);
    TokenLines(jwt, name, token);
  }

  /** The lines of the claims when one claim gets another value. */
  lemma ClaimLinesTrade(name: string, claims: map<string, string>, c: string, w: string)
    requires c in claims && NoneOfTheFour(c)
    ensures ClaimLines(name, claims[c := w] - TIMED_CLAIMS) + multiset{ClaimLine(name, c, claims[c])}
            == ClaimLines(name, claims - TIMED_CLAIMS) + multiset{ClaimLine(name, c, w)}
  {
    var m, m' := claims - TIMED_CLAIMS, claims[c := w] - TIMED_CLAIMS;
    ClaimLinesTake(name, m, c);
    ClaimLinesTake(name, m', c);
    assert m - {c} == m' - {c};
    Swap(ClaimLine(name, c, claims[c]), ClaimLine(name, c, w), ClaimLines(name, m - {c}));
  }

  lemma ClaimLinesTake(name: string, claims: map<string, string>, c: string)
    requires c in claims
    ensures ClaimLines(name, claims) == multiset{ClaimLine(name, c, claims[c])} + ClaimLines(name, claims - {c})
  {
    BagTake(claims, OneLine(name), c);
  }

  lemma Swap(a: string, b: string, rest: multiset<string>)
    ensures multiset{b} + rest + multiset{a} == multiset{a} + rest + multiset{b}
  {
  }

  /** The i-th value of the header is a token with the claims, and `token'` has them with another value for `c`. */
  predicate ChangesClaim(
    jwt: Jwt, req: Request, name: string, i: nat, token: string, token': string, c: string, w: string)
  {
    && name in req.headers && i < |req.headers[name]| && req.headers[name][i] == "Bearer " + token
    && NoneOfTheNine(name) && IsTokenHeader(jwt, name)
    && jwt.parse(token).Some? && c in jwt.parse(token).value && NoneOfTheFour(c)
    && jwt.parse(token') == Some(jwt.parse(token).value[c := w])
  }

  /** Any change of a claim that is none of the four changes the lines that are hashed. */
  lemma ClaimChangesLines(
    jwt: Jwt, req: Request, name: string, i: nat, token: string, token': string, c: string, w: string)
    requires ChangesClaim(jwt, req, name, i, token, token', c, w) && w != jwt.parse(token).value[c]
    ensures var req' := WithValue(req, name, i, "Bearer " + token');
            && AllLines(jwt, req'.headers) != AllLines(jwt, req.headers)
            && AllLines(jwt, req'.headers) + multiset{ClaimLine(name, c, jwt.parse(token).value[c])}
               == AllLines(jwt, req.headers) + multiset{ClaimLine(name, c, w)}
  {
    var claims := jwt.parse(token).value;
    var a, b := ClaimLine(name, c, claims[c]), ClaimLine(name, c, w);
    TokenClaimLines(jwt, name, token);
    TokenClaimLines(jwt, name, token');
    ClaimLinesTrade(name, claims, c, w);
    ClaimLineTellsParts(name, name, c, c, claims[c], w);
    AllLinesTrade(jwt, req, name, i, "Bearer " + token', a, b);
    TradesDiffer(AllLines(jwt, req.headers), AllLines(jwt, WithValue(req, name, i, "Bearer " + token').headers), a, b);
  }

  lemma ClaimLineDiffers(name: string, c: string, v: string, w: string, i: nat) returns (j: nat)
    requires DifferInOneByte(Utf8(v), Utf8(w), i)
    ensures DifferInOneByte(Utf8(ClaimLine(name, c, v)), Utf8(ClaimLine(name, c, w)), j)
  {
    var pre := name + ":jwt.Claims<" + c + ":";
    Utf8Concat(pre + v, ">");
    Utf8Concat(pre, v);
    Utf8Concat(pre + w, ">");
    Utf8Concat(pre, w);
    AffixesKeepDifference(Utf8(pre), Utf8(v), Utf8(w), Utf8(">"), i);
    j := |Utf8(pre)| + i;
  }

  /** And a change of one byte that leaves the claim's line its place changes both keys. */
  lemma ClaimChangesKeys(
    jwt: Jwt, req: Request, name: string, i: nat, token: string, token': string, c: string, w: string, k: nat, b: nat)
    requires ChangesClaim(jwt, req, name, i, token, token', c, w)
    requires DifferInOneByte(Utf8(jwt.parse(token).value[c]), Utf8(w), b)
    requires KeepsPlace(jwt, req, ClaimLine(name, c, jwt.parse(token).value[c]), ClaimLine(name, c, w), k)
    ensures var req' := WithValue(req, name, i, "Bearer " + token');
            FamilyKey(jwt, req) != FamilyKey(jwt, req') && FullKey(jwt, req) != FullKey(jwt, req')
  {
    var v, req' := jwt.parse(token).value[c], WithValue(req, name, i, "Bearer " + token');
    ClaimChangesLines(jwt, req, name, i, token, token', c, w);
    var j := ClaimLineDiffers(name, c, v, w, b);
    LineChangesKeys(jwt, req, req', ClaimLine(name, c, v), ClaimLine(name, c, w), k, j);
  }
}
