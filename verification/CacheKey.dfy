/**
 * CalculateCacheKey (src/query_cache.go:119-196): the pair of keys computed from the
 * query, the operation name, the filtered headers or JWT claims, and the variables.
 * Go iterates both maps in an arbitrary order; the loops below do the same, and the
 * result is proved to be a function of the request alone.
 */
module CacheKey {
  import opened Common
  import opened Fnv
  import opened Lines
  import opened Bags
  import opened Text

  /** `variables` is the printed form of the variables, fmt.Sprint at line 193. */
  datatype Request = Request(
    query: string,
    operationName: string,
    variables: string,
    headers: map<string, seq<string>>)

  /** The JWT settings: the configured header, and parsing as a partial function to printed claims. */
  datatype Jwt = Jwt(header: string, parse: string -> Option<map<string, string>>)

  const BEARER := "Bearer "

  const TIMED_CLAIMS: set<string> := {"exp", "nbf", "iat", "jti"}

  /** notCacheHeaderRegex: an anchored, case-insensitive alternation of nine names. */
  const UNCACHED_HEADERS: seq<string> := [
    "Host", "Connection", "X-Forwarded-For", "X-Request-ID", "User-Agent", "Content-Length", "Content-Type",
    "X-Envoy-External-Address", "X-Envoy-Expected-Rq-Timeout-Ms"
  ]

  predicate Filtered(name: string) {
    EqualsAny(name, UNCACHED_HEADERS)
  }

  predicate EqualsAny(name: string, alternatives: seq<string>) {
    alternatives != [] && (EqualFold(name, alternatives[0]) || EqualsAny(name, alternatives[1..]))
  }

  predicate CarriesToken(jwt: Jwt, name: string) {
    name == jwt.header || name == "Authorization"
  }

  /** The values on which the slice v[:7] is out of range. */
  predicate TooShortForBearer(jwt: Jwt, name: string, v: string) {
    !Filtered(name) && CarriesToken(jwt, name) && |Utf8(v)| < 7
  }

  /** One of the first `n` values of a header is such a value. */
  predicate AnyTooShort(jwt: Jwt, name: string, vs: seq<string>, n: nat)
    requires n <= |vs|
  {
    n > 0 && (AnyTooShort(jwt, name, vs, n - 1) || TooShortForBearer(jwt, name, vs[n - 1]))
  }

  lemma {:induction false} AnyTooShortGrows(jwt: Jwt, name: string, vs: seq<string>, m: nat, n: nat)
    requires m <= n <= |vs| && AnyTooShort(jwt, name, vs, m)
    ensures AnyTooShort(jwt, name, vs, n)
  {
    if m < n {
      AnyTooShortGrows(jwt, name, vs, m, n - 1);
    }
  }

  lemma {:induction false} AnyTooShortMeans(jwt: Jwt, name: string, vs: seq<string>, n: nat)
    requires n <= |vs|
    ensures AnyTooShort(jwt, name, vs, n) <==> exists j :: 0 <= j < n && TooShortForBearer(jwt, name, vs[j])
  {
    if n > 0 {
      AnyTooShortMeans(jwt, name, vs, n - 1);
    }
  }

  /** The request makes the computation panic. */
  ghost predicate Panics(jwt: Jwt, headers: map<string, seq<string>>) {
    exists k :: k in headers && AnyTooShort(jwt, k, headers[k], |headers[k]|)
  }

  /** The computation panics exactly if some value is such a value. */
  lemma PanicsIff(jwt: Jwt, headers: map<string, seq<string>>)
    ensures Panics(jwt, headers) <==>
            exists k, j :: k in headers && 0 <= j < |headers[k]| && TooShortForBearer(jwt, k, headers[k][j])
  {
    forall k | k in headers
      ensures AnyTooShort(jwt, k, headers[k], |headers[k]|) <==>
              exists j :: 0 <= j < |headers[k]| && TooShortForBearer(jwt, k, headers[k][j])
    {
      AnyTooShortMeans(jwt, k, headers[k], |headers[k]|);
    }
  }

  function ClaimLine(name: string, claim: string, value: string): string {
    name + ":jwt.Claims<" + claim + ":" + value + ">"
  }

  function OneLine(name: string): (string, string) -> multiset<string> {
    (c, v) => multiset{ClaimLine(name, c, v)}
  }

  ghost function ClaimLines(name: string, claims: map<string, string>): multiset<string> {
    Bag(claims, OneLine(name))
  }

  /** The lines one header value contributes. */
  ghost function ValueLines(jwt: Jwt, name: string, v: string): multiset<string> {
    if Filtered(name) then multiset{}
    else if CarriesToken(jwt, name) && BEARER <= v then
      match jwt.parse(v[|BEARER|..])
      case Some(claims) => ClaimLines(name, claims - TIMED_CLAIMS)
      case None => multiset{name + ":" + v}
    else multiset{name + ":" + v}
  }

  /** The lines of the first `n` values of a header. */
  ghost function LinesUpTo(jwt: Jwt, name: string, vs: seq<string>, n: nat): multiset<string>
    requires n <= |vs|
  {
    if n == 0 then multiset{} else LinesUpTo(jwt, name, vs, n - 1) + ValueLines(jwt, name, vs[n - 1])
  }

  ghost function HeaderLines(jwt: Jwt, name: string, vs: seq<string>): multiset<string> {
    LinesUpTo(jwt, name, vs, |vs|)
  }

  ghost function AllLines(jwt: Jwt, headers: map<string, seq<string>>): multiset<string> {
    Bag(headers, (k, vs) => HeaderLines(jwt, k, vs))
  }

  function AbsorbLines(h: uint64, lines: seq<string>): uint64 {
    if lines == [] then h
    else Absorb(AbsorbLines(h, lines[..|lines| - 1]), Utf8(lines[|lines| - 1]))
  }

  ghost function FamilyKey(jwt: Jwt, req: Request): uint64 {
    AbsorbLines(Absorb(Absorb(OFFSET_BASIS, Utf8(req.query)), Utf8(req.operationName)),
                SortedList(AllLines(jwt, req.headers)))
  }

  ghost function FullKey(jwt: Jwt, req: Request): uint64 {
    Absorb(FamilyKey(jwt, req), Utf8(req.variables))
  }

  // ----- the computation -----

  /** Lines 160-164: one line per remaining claim, in map order. */
  method AppendClaims(lines: seq<string>, name: string, claims: map<string, string>) returns (r: seq<string>)
    ensures multiset(r) == multiset(lines) + ClaimLines(name, claims)
  {
    r := lines;
    var todo := claims;
    ghost var f := OneLine(name);
    while todo != map[]
      invariant multiset(r) + Bag(todo, f) == multiset(lines) + Bag(claims, f)
      decreases |todo|
    {
      var c :| c in todo;
      BagTake(todo, f, c);
      r := r + [ClaimLine(name, c, todo[c])];
      todo := todo - {c};
    }
  }

  /** The body of the inner loop, lines 139-181. */
  method AppendValue(jwt: Jwt, lines: seq<string>, name: string, v: string) returns (r: Option<seq<string>>)
    ensures r.None? <==> TooShortForBearer(jwt, name, v)
    ensures r.Some? ==> multiset(r.value) == multiset(lines) + ValueLines(jwt, name, v)
  {
    if Filtered(name) {
      return Some(lines);
    }
    if CarriesToken(jwt, name) {
      if |Utf8(v)| < 7 {
        return None;
      }
      if BEARER <= v {
        match jwt.parse(v[|BEARER|..])
        case Some(claims) =>
          var extended := AppendClaims(lines, name, claims - TIMED_CLAIMS);
          return Some(extended);
        case None =>
      }
    }
    r := Some(lines + [name + ":" + v]);
  }

  /** The lines of the first `i` values are appended. */
  ghost predicate Gathered(jwt: Jwt, lines: seq<string>, acc: seq<string>, name: string, vs: seq<string>, i: nat) {
    i <= |vs| && multiset(acc) == multiset(lines) + LinesUpTo(jwt, name, vs, i)
  }

  /** One more value of a header, after the first `i`. */
  method AppendNext(jwt: Jwt, lines: seq<string>, acc: seq<string>, name: string, vs: seq<string>, i: nat)
      returns (r: Option<seq<string>>)
    requires i < |vs| && !AnyTooShort(jwt, name, vs, i)
    requires Gathered(jwt, lines, acc, name, vs, i)
    ensures r.None? <==> AnyTooShort(jwt, name, vs, i + 1)
    ensures r.Some? ==> Gathered(jwt, lines, r.value, name, vs, i + 1)
  {
    r := AppendValue(jwt, acc, name, vs[i]);
  }

  /** Lines 138-182: the values of one header. */
  method AppendHeader(jwt: Jwt, lines: seq<string>, name: string, vs: seq<string>) returns (r: Option<seq<string>>)
    ensures r.None? <==> AnyTooShort(jwt, name, vs, |vs|)
    ensures r.Some? ==> multiset(r.value) == multiset(lines) + HeaderLines(jwt, name, vs)
  {
    var acc := lines;
    for i := 0 to |vs|
      invariant Gathered(jwt, lines, acc, name, vs, i)
      invariant !AnyTooShort(jwt, name, vs, i)
    {
      var next := AppendNext(jwt, lines, acc, name, vs, i);
      if next.None? {
        AnyTooShortGrows(jwt, name, vs, i + 1, |vs|);
        return None;
      }
      acc := next.value;
    }
    r := Some(acc);
  }

  /** Lines 135-183: all headers, in map order. */
  method CollectLines(jwt: Jwt, headers: map<string, seq<string>>) returns (r: Option<seq<string>>)
    ensures r.None? <==> Panics(jwt, headers)
    ensures r.Some? ==> multiset(r.value) == AllLines(jwt, headers)
  {
    var acc: seq<string> := [];
    var todo := headers;
    ghost var f := (k: string, vs: seq<string>) => HeaderLines(jwt, k, vs);
    assert AllLines(jwt, headers) == Bag(headers, f);
    while todo != map[]
      invariant todo.Keys <= headers.Keys && forall k :: k in todo ==> todo[k] == headers[k]
      invariant multiset(acc) + Bag(todo, f) == Bag(headers, f)
      invariant forall k :: k in headers && k !in todo ==> !AnyTooShort(jwt, k, headers[k], |headers[k]|)
      decreases |todo|
    {
      var k :| k in todo;
      BagTake(todo, f, k);
      var next := AppendHeader(jwt, acc, k, todo[k]);
      if next.None? {
        return None;
      }
      acc := next.value;
      todo := todo - {k};
    }
    r := Some(acc);
  }

  /** Lines 189-191. */
  method WriteLines(h: Hash64a, lines: seq<string>)
    modifies h
    ensures h.h == AbsorbLines(old(h.h), lines)
  {
    for i := 0 to |lines|
      invariant h.h == AbsorbLines(old(h.h), lines[..i])
    {
      assert lines[..i + 1][..i] == lines[..i];
      h.Write(Utf8(lines[i]));
    }
    assert lines[..|lines|] == lines;
  }

  /** The keys are a function of the request: no iteration order shows, and only a short token value panics. */
  method CalculateCacheKey(jwt: Jwt, req: Request) returns (keys: Option<(uint64, uint64)>)
    ensures keys.None? <==> Panics(jwt, req.headers)
    ensures keys.Some? ==> keys.value == (FamilyKey(jwt, req), FullKey(jwt, req))
  {
    var h := new Hash64a();
    h.Write(Utf8(req.query));
    h.Write(Utf8(req.operationName));
    var collected := CollectLines(jwt, req.headers);
    if collected.None? {
      return None;
    }
    var headers := SortStrings(collected.value);
    WriteLines(h, headers);
    var family := h.Sum64();
    h.Write(Utf8(req.variables));
    var cache := h.Sum64();
    keys := Some((family, cache));
  }

  // ----- canonicality -----

  lemma {:induction false} FilteredHeaderHasNoLines(jwt: Jwt, name: string, vs: seq<string>, n: nat)
    requires Filtered(name) && n <= |vs|
    ensures LinesUpTo(jwt, name, vs, n) == multiset{} && !AnyTooShort(jwt, name, vs, n)
  {
    if n > 0 {
      FilteredHeaderHasNoLines(jwt, name, vs, n - 1);
    }
  }

  lemma FilteredHeaderAddsNoLines(jwt: Jwt, headers: map<string, seq<string>>, name: string, vs: seq<string>)
    requires Filtered(name)
    ensures AllLines(jwt, headers[name := vs]) == AllLines(jwt, headers)
  {
    var f := (k: string, vs: seq<string>) => HeaderLines(jwt, k, vs);
    FilteredHeaderHasNoLines(jwt, name, vs, |vs|);
    if name in headers {
      FilteredHeaderHasNoLines(jwt, name, headers[name], |headers[name]|);
    }
    BagIgnores(headers, f, name, vs);
  }

  lemma FilteredHeaderNeverPanics(jwt: Jwt, headers: map<string, seq<string>>, name: string, vs: seq<string>)
    requires Filtered(name)
    ensures Panics(jwt, headers[name := vs]) <==> Panics(jwt, headers)
  {
    var headers' := headers[name := vs];
    FilteredHeaderHasNoLines(jwt, name, vs, |vs|);
    if name in headers {
      FilteredHeaderHasNoLines(jwt, name, headers[name], |headers[name]|);
    }
    assert forall k :: k in headers' && k != name ==> k in headers && headers'[k] == headers[k];
    assert forall k :: k in headers && k != name ==> k in headers' && headers'[k] == headers[k];
  }

  /** Headers enter the keys through their lines alone. */
  lemma KeysDependOnLines(jwt: Jwt, r1: Request, r2: Request)
    requires r1 == r2.(headers := r1.headers) && AllLines(jwt, r1.headers) == AllLines(jwt, r2.headers)
    ensures FamilyKey(jwt, r1) == FamilyKey(jwt, r2) && FullKey(jwt, r1) == FullKey(jwt, r2)
  {
  }

  /** Adding or altering a filtered header changes neither key, nor whether the computation panics. */
  lemma FilteredHeadersDoNotMatter(jwt: Jwt, req: Request, name: string, vs: seq<string>)
    requires Filtered(name)
    ensures var req' := req.(headers := req.headers[name := vs]);
            && FamilyKey(jwt, req') == FamilyKey(jwt, req)
            && FullKey(jwt, req') == FullKey(jwt, req)
            && (Panics(jwt, req'.headers) <==> Panics(jwt, req.headers))
  {
    FilteredHeaderAddsNoLines(jwt, req.headers, name, vs);
    FilteredHeaderNeverPanics(jwt, req.headers, name, vs);
    KeysDependOnLines(jwt, req.(headers := req.headers[name := vs]), req);
  }

  lemma LinesSnoc(jwt: Jwt, name: string, vs: seq<string>, n: nat)
    requires 0 < n <= |vs|
    ensures LinesUpTo(jwt, name, vs, n) == LinesUpTo(jwt, name, vs, n - 1) + ValueLines(jwt, name, vs[n - 1])
  {
  }

  lemma {:induction false} LinesOfOneChange(jwt: Jwt, name: string, vs: seq<string>, i: nat, w: string, n: nat)
    requires i < |vs| && n <= |vs| && ValueLines(jwt, name, vs[i]) == ValueLines(jwt, name, w)
    ensures LinesUpTo(jwt, name, vs[i := w], n) == LinesUpTo(jwt, name, vs, n)
  {
    if n > 0 {
      LinesOfOneChange(jwt, name, vs, i, w, n - 1);
      LinesSnoc(jwt, name, vs, n);
      LinesSnoc(jwt, name, vs[i := w], n);
    }
  }

  /** The claims other than exp, nbf, iat and jti are the same. */
  ghost predicate AgreeApartFromTimes(a: map<string, string>, b: map<string, string>) {
    forall c :: c != "exp" && c != "nbf" && c != "iat" && c != "jti" ==>
      (c in a <==> c in b) && (c in a ==> a[c] == b[c])
  }

  lemma OtherClaimsAgree(a: map<string, string>, b: map<string, string>)
    requires AgreeApartFromTimes(a, b)
    ensures a - TIMED_CLAIMS == b - TIMED_CLAIMS
  {
  }

  /** Two parseable tokens whose claims agree outside exp, nbf, iat and jti give the same keys. */
  lemma TimedClaimsDoNotMatter(jwt: Jwt, req: Request, name: string, i: nat, token: string, token': string)
    requires name in req.headers && i < |req.headers[name]|
    requires req.headers[name][i] == BEARER + token
    requires CarriesToken(jwt, name)
    requires jwt.parse(token).Some? && jwt.parse(token').Some?
    requires AgreeApartFromTimes(jwt.parse(token).value, jwt.parse(token').value)
    ensures var req' := req.(headers := req.headers[name := req.headers[name][i := BEARER + token']]);
            FamilyKey(jwt, req') == FamilyKey(jwt, req) && FullKey(jwt, req') == FullKey(jwt, req)
  {
    var vs := req.headers[name];
    var vs' := vs[i := BEARER + token'];
    OtherClaimsAgree(jwt.parse(token).value, jwt.parse(token').value);
    TokenLines(jwt, name, token);
    TokenLines(jwt, name, token');
    LinesOfOneChange(jwt, name, vs, i, BEARER + token', |vs|);
    BagSwaps(req.headers, (k: string, vs: seq<string>) => HeaderLines(jwt, k, vs), name, vs, vs');
    assert req.headers[name := vs] == req.headers;
  }

  /** A parseable token contributes its claims, unless the header is filtered. */
  lemma TokenLines(jwt: Jwt, name: string, token: string)
    requires CarriesToken(jwt, name) && jwt.parse(token).Some?
    ensures ValueLines(jwt, name, BEARER + token) ==
            if Filtered(name) then multiset{} else ClaimLines(name, jwt.parse(token).value - TIMED_CLAIMS)
  {
    assert (BEARER + token)[|BEARER|..] == token;
  }

  /**
   * For fixed printed variables the family key determines the cache key and is
   * determined by it, and can be computed back from it.
   */
  lemma FamilyAndCacheKeyDetermineEachOther(jwt: Jwt, r1: Request, r2: Request)
    requires r1.variables == r2.variables
    ensures FamilyKey(jwt, r1) == FamilyKey(jwt, r2) <==> FullKey(jwt, r1) == FullKey(jwt, r2)
    ensures Unabsorb(FullKey(jwt, r1), Utf8(r1.variables)) == FamilyKey(jwt, r1)
  {
    AbsorbIsABijection(FamilyKey(jwt, r1), Utf8(r1.variables));
    AbsorbIsABijection(FamilyKey(jwt, r2), Utf8(r2.variables));
  }

  /** Within a family, variables whose bytes differ in exactly one position get different cache keys. */
  lemma NearbyVariablesGetDifferentKeys(jwt: Jwt, r1: Request, r2: Request, i: nat)
    requires FamilyKey(jwt, r1) == FamilyKey(jwt, r2)
    requires DifferInOneByte(Utf8(r1.variables), Utf8(r2.variables), i)
    ensures FullKey(jwt, r1) != FullKey(jwt, r2)
  {
    OneByteChangesDigest(FamilyKey(jwt, r1), Utf8(r1.variables), Utf8(r2.variables), i);
  }

  // ----- the keys as digests of one byte stream -----

  function LinesBytes(lines: seq<string>): seq<byte> {
    if lines == [] then [] else LinesBytes(lines[..|lines| - 1]) + Utf8(lines[|lines| - 1])
  }

  /** All that is hashed before the family key is read. */
  ghost function FamilyInput(jwt: Jwt, req: Request): seq<byte> {
    Utf8(req.query) + Utf8(req.operationName) + LinesBytes(SortedList(AllLines(jwt, req.headers)))
  }

  /** All that is hashed before the cache key is read. */
  ghost function FullInput(jwt: Jwt, req: Request): seq<byte> {
    FamilyInput(jwt, req) + Utf8(req.variables)
  }

  lemma {:induction false} AbsorbLinesIsAbsorb(h: uint64, lines: seq<string>)
    ensures AbsorbLines(h, lines) == Absorb(h, LinesBytes(lines))
  {
    if lines != [] {
      var rest := lines[..|lines| - 1];
      AbsorbLinesIsAbsorb(h, rest);
      AbsorbConcat(h, LinesBytes(rest), Utf8(lines[|lines| - 1]));
    }
  }

  /** Both keys are plain FNV-1a digests, the family's input being a prefix of the whole. */
  lemma KeysDigestOneStream(jwt: Jwt, req: Request)
    ensures FamilyKey(jwt, req) == Absorb(OFFSET_BASIS, FamilyInput(jwt, req))
    ensures FullKey(jwt, req) == Absorb(OFFSET_BASIS, FullInput(jwt, req))
  {
    var lines := SortedList(AllLines(jwt, req.headers));
    AbsorbConcat(OFFSET_BASIS, Utf8(req.query), Utf8(req.operationName));
    AbsorbLinesIsAbsorb(Absorb(OFFSET_BASIS, Utf8(req.query) + Utf8(req.operationName)), lines);
    AbsorbConcat(OFFSET_BASIS, Utf8(req.query) + Utf8(req.operationName), LinesBytes(lines));
    AbsorbConcat(OFFSET_BASIS, FamilyInput(jwt, req), Utf8(req.variables));
  }

  predicate DifferInOneByte(a: seq<byte>, b: seq<byte>, i: nat) {
    |a| == |b| && i < |a| && a[i] != b[i] && forall j :: 0 <= j < |a| && j != i ==> a[j] == b[j]
  }

  /** Requests whose hashed input differs in exactly one byte never share a key. */
  lemma NearbyRequestsGetDifferentKeys(jwt: Jwt, r1: Request, r2: Request, i: nat)
    ensures DifferInOneByte(FamilyInput(jwt, r1), FamilyInput(jwt, r2), i) ==> FamilyKey(jwt, r1) != FamilyKey(jwt, r2)
    ensures DifferInOneByte(FullInput(jwt, r1), FullInput(jwt, r2), i) ==> FullKey(jwt, r1) != FullKey(jwt, r2)
  {
    KeysDigestOneStream(jwt, r1);
    KeysDigestOneStream(jwt, r2);
    if DifferInOneByte(FamilyInput(jwt, r1), FamilyInput(jwt, r2), i) {
      OneByteChangesDigest(OFFSET_BASIS, FamilyInput(jwt, r1), FamilyInput(jwt, r2), i);
    }
    if DifferInOneByte(FullInput(jwt, r1), FullInput(jwt, r2), i) {
      OneByteChangesDigest(OFFSET_BASIS, FullInput(jwt, r1), FullInput(jwt, r2), i);
    }
  }

  // ----- what the stream does not tell apart -----

  function Joined(lines: seq<string>): string {
    if lines == [] then "" else Joined(lines[..|lines| - 1]) + lines[|lines| - 1]
  }

  /** The hashed parts written one after the other: nothing marks where one ends. */
  ghost function FamilyText(jwt: Jwt, req: Request): string {
    req.query + req.operationName + Joined(SortedList(AllLines(jwt, req.headers)))
  }

  lemma {:induction false} LinesBytesOfJoined(lines: seq<string>)
    ensures LinesBytes(lines) == Utf8(Joined(lines))
  {
    if lines != [] {
      var rest := lines[..|lines| - 1];
      LinesBytesOfJoined(rest);
      Utf8Concat(Joined(rest), lines[|lines| - 1]);
    }
  }

  lemma InputIsText(jwt: Jwt, req: Request)
    ensures FamilyInput(jwt, req) == Utf8(FamilyText(jwt, req))
    ensures FullInput(jwt, req) == Utf8(FamilyText(jwt, req) + req.variables)
  {
    var lines := SortedList(AllLines(jwt, req.headers));
    LinesBytesOfJoined(lines);
    Utf8Concat(req.query, req.operationName);
    Utf8Concat(req.query + req.operationName, Joined(lines));
    Utf8Concat(FamilyText(jwt, req), req.variables);
  }

  /** Two requests are hashed from the same bytes exactly if their parts, joined, read the same. */
  lemma InputsAgreeIff(jwt: Jwt, r1: Request, r2: Request)
    ensures FamilyInput(jwt, r1) == FamilyInput(jwt, r2) <==> FamilyText(jwt, r1) == FamilyText(jwt, r2)
    ensures FullInput(jwt, r1) == FullInput(jwt, r2) <==>
            FamilyText(jwt, r1) + r1.variables == FamilyText(jwt, r2) + r2.variables
  {
    InputIsText(jwt, r1);
    InputIsText(jwt, r2);
    if FamilyInput(jwt, r1) == FamilyInput(jwt, r2) {
      Utf8Injective(FamilyText(jwt, r1), FamilyText(jwt, r2));
    }
    if FullInput(jwt, r1) == FullInput(jwt, r2) {
      Utf8Injective(FamilyText(jwt, r1) + r1.variables, FamilyText(jwt, r2) + r2.variables);
    }
  }

  /**
   * With equal headers, requests are hashed from the same bytes exactly if query and
   * operation name, joined, read the same; then, with equal variables, both keys are equal
   * without any collision of the hash.
   */
  lemma QueryAndNameShareOneStream(jwt: Jwt, r1: Request, r2: Request)
    requires r1.headers == r2.headers && r1.variables == r2.variables
    ensures FamilyInput(jwt, r1) == FamilyInput(jwt, r2) <==> r1.query + r1.operationName == r2.query + r2.operationName
    ensures r1.query + r1.operationName == r2.query + r2.operationName ==>
              FamilyKey(jwt, r1) == FamilyKey(jwt, r2) && FullKey(jwt, r1) == FullKey(jwt, r2)
  {
    InputsAgreeIff(jwt, r1, r2);
    var a, b, tail := r1.query + r1.operationName, r2.query + r2.operationName,
        Joined(SortedList(AllLines(jwt, r1.headers)));
    if a + tail == b + tail {
      assert |a| == |b|;
      assert (a + tail)[..|a|] == a && (b + tail)[..|b|] == b;
    }
    KeysDigestOneStream(jwt, r1);
    KeysDigestOneStream(jwt, r2);
  }
}
