/**
 * The cache protocol under the keys the handler computes (src/fiber_graphql_handler.go:49-52):
 * what a hit says about the request whose response it serves.
 */
module CacheIdentity {
  import opened Common
  import opened CacheProtocol
  import opened CacheTheorems
  import RedisKey
  import CacheKey
  import CacheDirective
  import GraphqlText
  import Fnv
  import Text

  /** A rule that a request's Redis key and cache key obey. */
  type KeyRule = (string, uint64) -> bool

  predicate StepKeyed(rule: KeyRule, step: Step) {
    step.Arrive? ==> rule(step.key, step.cacheKey)
  }

  ghost predicate AllKeyed(rule: KeyRule, s: State) {
    && (forall p :: p in s.procs ==> rule(s.procs[p].key, s.procs[p].cacheKey))
    && (forall i :: 0 <= i < |s.log| && s.log[i].Responded? ==> rule(s.log[i].key, s.log[i].cacheKey))
  }

  /** Only an answer from upstream records a response. */
  lemma OthersRecordNoResponse(s: State, p: nat, a: Action)
    requires p in s.procs && !a.Answer?
    ensures var t := Acted(s, p, a);
            t.log == s.log || (t.log == s.log + [t.log[|s.log|]] && !t.log[|s.log|].Responded?)
  {
  }

  lemma ActedKeepsKeys(rule: KeyRule, s: State, p: nat, a: Action)
    requires AllKeyed(rule, s) && p in s.procs
    ensures AllKeyed(rule, Acted(s, p, a))
  {
    assert Moves(s, Acted(s, p, a), p);
    if !a.Answer? {
      OthersRecordNoResponse(s, p, a);
    }
  }

  lemma StepKeepsKeys(rule: KeyRule, s: State, step: Step)
    requires AllKeyed(rule, s) && StepKeyed(rule, step)
    ensures AllKeyed(rule, Apply(s, step))
  {
    if step.Act? && step.proc in s.procs {
      ActedKeepsKeys(rule, s, step.proc, step.action);
    }
  }

  /** If every request that arrives obeys the rule, so does every request whose response is recorded. */
  lemma {:induction false} RunKeepsKeys(rule: KeyRule, now: Time, waitEta: nat, steps: seq<Step>)
    requires forall i :: 0 <= i < |steps| ==> StepKeyed(rule, steps[i])
    ensures AllKeyed(rule, Run(Init(now, waitEta), steps))
  {
    if steps != [] {
      var m := |steps| - 1;
      RunKeepsKeys(rule, now, waitEta, steps[..m]);
      StepKeepsKeys(rule, Run(Init(now, waitEta), steps[..m]), steps[m]);
    }
  }

  lemma {:induction false} RunKeepsWait(now: Time, waitEta: nat, steps: seq<Step>)
    ensures Run(Init(now, waitEta), steps).waitEta == waitEta
  {
    if steps != [] {
      RunKeepsWait(now, waitEta, steps[..|steps| - 1]);
    }
  }

  /** A hit serves a response to a request that obeys the rule and has the same Redis key. */
  lemma HitsObeyTheRule(rule: KeyRule, now: Time, waitEta: nat, steps: seq<Step>, j: nat) returns (r: nat, i: nat)
    requires forall k :: 0 <= k < |steps| ==> StepKeyed(rule, steps[k])
    requires var s := Run(Init(now, waitEta), steps); j < |s.log| && s.log[j].Served?
    ensures var s := Run(Init(now, waitEta), steps);
            && i < j && StoredFromResponse(s.log, s.log[j].key, s.log[j].body, s.log[j].meta, r, i)
            && rule(s.log[j].key, s.log[r].cacheKey)
  {
    var s := Run(Init(now, waitEta), steps);
    RunKeepsKeys(rule, now, waitEta, steps);
    RunKeepsWait(now, waitEta, steps);
    HitsAreTransparent(s, j);
    r, i :| i < j && StoredFromResponse(s.log, s.log[j].key, s.log[j].body, s.log[j].meta, r, i);
  }

  // ----- keys made by CreateRedisKey -----

  /** The Redis key is made of some family key and this cache key. */
  ghost predicate Keyed(key: string, cacheKey: uint64) {
    exists family: uint64 :: key == RedisKey.CreateRedisKey(family, cacheKey)
  }

  /** A status 200 response with this body was stored by event `i` for a request with this cache key. */
  ghost predicate AnswersKey(log: seq<Event>, key: string, cacheKey: uint64, body: Bytes, meta: Bytes, r: nat, i: nat) {
    StoredFromResponse(log, key, body, meta, r, i) && log[r].cacheKey == cacheKey
  }

  /**
   * In every run whose requests use the keys they computed, a hit on the key of (family,
   * cacheKey) serves a response to a request with that very cache key.
   */
  lemma HitsAnswerTheSameKey(now: Time, waitEta: nat, steps: seq<Step>, j: nat, family: uint64, cacheKey: uint64)
    requires forall i :: 0 <= i < |steps| && steps[i].Arrive? ==> Keyed(steps[i].key, steps[i].cacheKey)
    requires var s := Run(Init(now, waitEta), steps);
             j < |s.log| && s.log[j].Served? && s.log[j].key == RedisKey.CreateRedisKey(family, cacheKey)
    ensures var s := Run(Init(now, waitEta), steps);
            exists r: nat, i: nat ::
                i < j && AnswersKey(s.log, s.log[j].key, cacheKey, s.log[j].body, s.log[j].meta, r, i)
  {
    var s := Run(Init(now, waitEta), steps);
    var r, i := HitsObeyTheRule((key: string, cache: uint64) => Keyed(key, cache), now, waitEta, steps, j);
    var f: uint64 :| s.log[j].key == RedisKey.CreateRedisKey(f, s.log[r].cacheKey);
    RedisKey.RedisKeyInjective(family, cacheKey, f, s.log[r].cacheKey);
    assert AnswersKey(s.log, s.log[j].key, cacheKey, s.log[j].body, s.log[j].meta, r, i);
  }

  // ----- from hits to requests -----

  ghost function RedisKeyOf(jwt: CacheKey.Jwt, req: CacheKey.Request): string {
    RedisKey.CreateRedisKey(CacheKey.FamilyKey(jwt, req), CacheKey.FullKey(jwt, req))
  }

  function Digest(text: string): uint64 {
    Fnv.Absorb(Fnv.OFFSET_BASIS, Utf8(text))
  }

  /** The texts hashed before the family key and before the cache key are read have equal digests. */
  ghost predicate SameDigests(jwt: CacheKey.Jwt, r1: CacheKey.Request, r2: CacheKey.Request) {
    && Digest(CacheKey.FamilyText(jwt, r1)) == Digest(CacheKey.FamilyText(jwt, r2))
    && Digest(CacheKey.FamilyText(jwt, r1) + r1.variables) == Digest(CacheKey.FamilyText(jwt, r2) + r2.variables)
  }

  lemma KeysAreDigests(jwt: CacheKey.Jwt, req: CacheKey.Request)
    ensures CacheKey.FamilyKey(jwt, req) == Digest(CacheKey.FamilyText(jwt, req))
    ensures CacheKey.FullKey(jwt, req) == Digest(CacheKey.FamilyText(jwt, req) + req.variables)
  {
    CacheKey.KeysDigestOneStream(jwt, req);
    CacheKey.InputIsText(jwt, req);
  }

  /**
   * Two requests share a Redis key if and only if the texts hashed before and after the
   * variables have equal digests.
   */
  lemma SharedRedisKeyIff(jwt: CacheKey.Jwt, r1: CacheKey.Request, r2: CacheKey.Request)
    ensures RedisKeyOf(jwt, r1) == RedisKeyOf(jwt, r2) <==> SameDigests(jwt, r1, r2)
  {
    KeysAreDigests(jwt, r1);
    KeysAreDigests(jwt, r2);
    if RedisKeyOf(jwt, r1) == RedisKeyOf(jwt, r2) {
      RedisKey.RedisKeyInjective(CacheKey.FamilyKey(jwt, r1), CacheKey.FullKey(jwt, r1),
                                 CacheKey.FamilyKey(jwt, r2), CacheKey.FullKey(jwt, r2));
    }
  }

  /** The keys are those of some request. */
  ghost predicate OfRequest(jwt: CacheKey.Jwt, key: string, cacheKey: uint64) {
    exists req :: IsKeyOf(jwt, req, key, cacheKey)
  }

  ghost predicate IsKeyOf(jwt: CacheKey.Jwt, req: CacheKey.Request, key: string, cacheKey: uint64) {
    key == RedisKeyOf(jwt, req) && cacheKey == CacheKey.FullKey(jwt, req)
  }

  /**
   * The response `r` was to some request, and every request it can have been to, given the
   * keys that were recorded with it, has texts with the same digests as `req`.
   */
  ghost predicate ToSameDigests(jwt: CacheKey.Jwt, req: CacheKey.Request, e: Event)
    requires e.Responded?
  {
    && OfRequest(jwt, e.key, e.cacheKey)
    && forall req' :: IsKeyOf(jwt, req', e.key, e.cacheKey) ==> SameDigests(jwt, req, req')
  }

  /**
   * End to end: in every run whose requests use the keys computed from them, the response
   * that a hit for a request serves was to a request whose hashed texts have the same
   * digests, whichever of the requests with its recorded keys that was.
   */
  lemma HitsAnswerSameDigests(
    jwt: CacheKey.Jwt, now: Time, waitEta: nat, steps: seq<Step>, j: nat, req: CacheKey.Request)
    requires forall i :: 0 <= i < |steps| && steps[i].Arrive? ==> OfRequest(jwt, steps[i].key, steps[i].cacheKey)
    requires var s := Run(Init(now, waitEta), steps);
             j < |s.log| && s.log[j].Served? && s.log[j].key == RedisKeyOf(jwt, req)
    ensures var s := Run(Init(now, waitEta), steps);
            exists r: nat, i: nat ::
              && i < j && StoredFromResponse(s.log, s.log[j].key, s.log[j].body, s.log[j].meta, r, i)
              && ToSameDigests(jwt, req, s.log[r])
  {
    var r, i := HitsObeyTheRule((key: string, cache: uint64) => OfRequest(jwt, key, cache), now, waitEta, steps, j);
    KeySharersHaveSameDigests(jwt, req, Run(Init(now, waitEta), steps).log[r]);
  }

  lemma KeySharersHaveSameDigests(jwt: CacheKey.Jwt, req: CacheKey.Request, e: Event)
    requires e.Responded? && e.key == RedisKeyOf(jwt, req) && OfRequest(jwt, e.key, e.cacheKey)
    ensures ToSameDigests(jwt, req, e)
  {
    forall req' | IsKeyOf(jwt, req', e.key, e.cacheKey) ensures SameDigests(jwt, req, req') {
      SharedRedisKeyIff(jwt, req, req');
    }
  }

  // ----- requests that are not told apart -----

  lemma JoinedPartsShareKeys(jwt: CacheKey.Jwt, r1: CacheKey.Request, r2: CacheKey.Request)
    requires r1.headers == r2.headers && r1.variables == r2.variables
    requires r1.query + r1.operationName == r2.query + r2.operationName
    ensures CacheKey.FamilyText(jwt, r1) == CacheKey.FamilyText(jwt, r2) && RedisKeyOf(jwt, r1) == RedisKeyOf(jwt, r2)
  {
    CacheKey.QueryAndNameShareOneStream(jwt, r1, r2);
  }

  /** Two cached queries that differ in query and operation name and share both keys, without any collision. */
  lemma BoundaryIsNotHashed(jwt: CacheKey.Jwt, headers: map<string, seq<string>>, variables: string)
    ensures var r1 := CacheKey.Request("query @cached" + "{a}b", "c", variables, headers);
            var r2 := CacheKey.Request("query @cached" + "{a}", "bc", variables, headers);
            && r1.query != r2.query && r1.operationName != r2.operationName
            && CacheDirective.AsksForCaching(r1.query) && CacheDirective.AsksForCaching(r2.query)
            && CacheKey.FamilyText(jwt, r1) == CacheKey.FamilyText(jwt, r2)
            && RedisKeyOf(jwt, r1) == RedisKeyOf(jwt, r2)
  {
    var r1 := CacheKey.Request("query @cached" + "{a}b", "c", variables, headers);
    var r2 := CacheKey.Request("query @cached" + "{a}", "bc", variables, headers);
    CacheDirective.QueryCanBeRefused("{a}b");
    CacheDirective.QueryCanBeRefused("{a}");
    TextsDiffer();
    JoinedPartsShareKeys(jwt, r1, r2);
  }

  lemma TextsDiffer()
    ensures "query @cached" + "{a}b" != "query @cached" + "{a}" && "c" != "bc"
    ensures "query @cached" + "{a}b" + "c" == "query @cached" + "{a}" + "bc"
  {
    assert |"query @cached" + "{a}b"| != |"query @cached" + "{a}"| && |"c"| != |"bc"|;
    assert "{a}b" + "c" == "{a}" + "bc";
  }
}
