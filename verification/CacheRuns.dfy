/** Concrete runs that show which guarantees the cache protocol does not give. */
module CacheRuns {
  import opened Common
  import opened CacheProtocol
  import opened CacheTheorems
  import opened CacheSteps
  import Codec
  import Metadata

  /** One more step from a reachable state. */
  lemma Extend(s: State, step: Step)
    requires Reachable(s)
    ensures Reachable(Apply(s, step)) || Apply(s, step).waitEta != s.waitEta
  {
    var now, steps :| s == Run(Init(now, s.waitEta), steps);
    RunSnoc(Init(now, s.waitEta), steps, step);
  }

  lemma ArriveReaches(s: State, p: nat, key: string, ttl: int)
    requires Reachable(s) && p !in s.procs && ttl != 0
    ensures Reachable(s.(procs := s.procs[p := Proc(key, 1, ttl, s.now, Lookup)]))
  {
    Extend(s, Arrive(p, key, 1, ttl));
  }

  /** An action that moves one process and changes nothing else. */
  lemma MoveReaches(s: State, p: nat, a: Action, pc: Pc)
    requires Reachable(s) && p in s.procs && Acted(s, p, a) == Goto(s, p, pc)
    ensures Reachable(Goto(s, p, pc))
  {
    Extend(s, Act(p, a));
  }

  /** Metadata built at instant 0 for a TTL, with no content type. */
  function Meta(ttl: int): Bytes {
    Metadata.Marshal(Metadata.ExpiresAt(0, ttl), [])
  }

  lemma MetaIsShort(ttl: int)
    requires 0 < ttl <= 3600
    ensures |Meta(ttl)| <= 19
  {
    assert (ttl * 1000) / 1000 == ttl;
    assert Pow10(4) == 10000;
    DigitsAreShort(ttl, 4);
  }

  ghost function Pow10(k: nat): nat {
    if k == 0 then 1 else 10 * Pow10(k - 1)
  }

  lemma {:induction false} DigitsAreShort(n: nat, k: nat)
    requires 0 < k && n < Pow10(k)
    ensures |Metadata.Digits(n)| <= k
  {
    if n >= 10 {
      assert k > 1;
      DigitsAreShort(n / 10, k - 1);
    }
  }

  lemma AnswerReaches(s: State, p: nat, body: Bytes, failed: bool)
    requires Reachable(s) && s.now == 0 && p in s.procs && s.procs[p].pc == Upstream && |body| < 1000
    requires 0 < s.procs[p].ttl <= 3600 && s.procs[p].cacheKey > 0
    ensures var pr := s.procs[p];
            Reachable(Goto(s, p, Save(body, Meta(pr.ttl), |s.log|)).(
              log := s.log + [Responded(pr.key, pr.cacheKey, 200, body, Meta(pr.ttl), failed, pr.ttl, 0)]))
  {
    MetaIsShort(s.procs[p].ttl);
    Extend(s, Act(p, Answer(200, body, [], failed)));
  }

  lemma SaveReaches(s: State, p: nat)
    requires Reachable(s) && p in s.procs && s.procs[p].pc.Save? && s.procs[p].ttl > 0
    ensures Reachable(SetRedisCommand(s, p, s.procs[p].pc.body, s.procs[p].pc.meta, s.procs[p].pc.respSrc, false))
  {
    Extend(s, Act(p, SetRedis(false)));
  }

  /** From any state, a new request can arrive and miss. */
  lemma MissingIsReachable(s: State, p: nat, key: string, ttl: int)
    requires Reachable(s) && p !in s.procs && ttl != 0
    ensures Reachable(s.(procs := s.procs[p := Proc(key, 1, ttl, s.now, Upstream)]))
  {
    ArriveReaches(s, p, key, ttl);
    var s1 := s.(procs := s.procs[p := Proc(key, 1, ttl, s.now, Lookup)]);
    MoveReaches(s1, p, Abort, Upstream);
    assert Goto(s1, p, Upstream) == s.(procs := s.procs[p := Proc(key, 1, ttl, s.now, Upstream)]);
  }

  /** From any state, a new request can arrive, skip the cache and have its response saved. */
  function Saving(s: State, p: nat, key: string, ttl: int, body: Bytes, failed: bool): State
    requires p !in s.procs && 0 < ttl <= 3600
  {
    var entry := Codec.Encode(body, Meta(ttl));
    s.(procs := s.procs[p := Proc(key, 1, ttl, s.now, SaveLocal(Found(entry, |s.log| + 1), s.now))],
       redis := s.redis[key := Entry(entry, Some(s.now + ttl * 1000), |s.log| + 1)],
       log := s.log + [Responded(key, 1, 200, body, Meta(ttl), failed, ttl, s.now)]
           + [Stored(key, entry, ttl, Some(s.now + ttl * 1000), s.now, |s.log|)])
  }

  /** That request, its answer received and about to be saved. */
  function Answering(s: State, p: nat, key: string, ttl: int, body: Bytes, failed: bool): State
    requires p !in s.procs && 0 < ttl <= 3600
  {
    s.(procs := s.procs[p := Proc(key, 1, ttl, s.now, Save(body, Meta(ttl), |s.log|))],
       log := s.log + [Responded(key, 1, 200, body, Meta(ttl), failed, ttl, s.now)])
  }

  lemma AnsweringIsReachable(s: State, p: nat, key: string, ttl: int, body: Bytes, failed: bool)
    requires Reachable(s) && s.now == 0 && p !in s.procs && 0 < ttl <= 3600 && |body| < 1000
    ensures Reachable(Answering(s, p, key, ttl, body, failed))
  {
    MissingIsReachable(s, p, key, ttl);
    var s1 := s.(procs := s.procs[p := Proc(key, 1, ttl, s.now, Upstream)]);
    AnswerReaches(s1, p, body, failed);
    assert s1.procs[p := Proc(key, 1, ttl, s.now, Save(body, Meta(ttl), |s.log|))]
        == Answering(s, p, key, ttl, body, failed).procs;
  }

  lemma SavingIsReachable(s: State, p: nat, key: string, ttl: int, body: Bytes, failed: bool)
    requires Reachable(s) && s.now == 0 && p !in s.procs && 0 < ttl <= 3600 && |body| < 1000
    ensures Reachable(Saving(s, p, key, ttl, body, failed))
  {
    AnsweringIsReachable(s, p, key, ttl, body, failed);
    var s1 := Answering(s, p, key, ttl, body, failed);
    SaveReaches(s1, p);
    assert SetRedisCommand(s1, p, body, Meta(ttl), |s.log|, false).procs == Saving(s, p, key, ttl, body, failed).procs;
  }

  lemma StartIsReachable()
    ensures Reachable(Init(0, 0))
  {
    assert Init(0, 0) == Run(Init(0, 0), []);
  }

  /**
   * An upstream failure can fill the cache: the handler does not look at the error, so a
   * response object that reads status 200 is stored whatever the call returned.
   */
  lemma FailedUpstreamCanBeStored()
    ensures exists s, i: nat ::
              Reachable(s) && i < |s.log| && s.log[i].Stored? && s.log[i].respSrc < |s.log|
              && s.log[s.log[i].respSrc].Responded? && s.log[s.log[i].respSrc].failed
  {
    StartIsReachable();
    SavingIsReachable(Init(0, 0), 0, "k", 60, [], true);
    var s := Saving(Init(0, 0), 0, "k", 60, [], true);
    assert s.log[1].Stored? && s.log[1].respSrc == 0;
  }

  /** A request that read the entry of `key` with GET and is about to ask for its TTL. */
  function Reading(s: State, p: nat, key: string): State
    requires p !in s.procs && InRedis(s, key)
  {
    s.(procs := s.procs[p := Proc(key, 1, 1, s.now, SendTtl(s.now, GetCommand(s, key)))])
  }

  lemma ReadingIsReachable(s: State, p: nat, key: string)
    requires Reachable(s) && p !in s.procs && InRedis(s, key)
    ensures Reachable(Reading(s, p, key))
  {
    ArriveReaches(s, p, key, 1);
    var s1 := s.(procs := s.procs[p := Proc(key, 1, 1, s.now, Lookup)]);
    MoveReaches(s1, p, LookupMiss, SendGet(s.now));
    var s2 := Goto(s1, p, SendGet(s.now));
    MoveReaches(s2, p, Get(false), SendTtl(s.now, GetCommand(s, key)));
    assert Goto(s2, p, SendTtl(s.now, GetCommand(s, key))) == Reading(s, p, key);
  }

  /** That request finishes the pipeline and stores its copy on node 0. */
  function Copying(s: State, p: nat): State
    requires p in s.procs && s.procs[p].pc.SendTtl? && s.procs[p].pc.reply.Hit?
  {
    var pr := s.procs[p];
    var ttl := TtlCommand(s, pr.key, false);
    PutCopy(Goto(s, p, Serve(pr.pc.reply.found)), p, 0, pr.key, pr.pc.reply.found, ExpireIn(s.now, ttl.seconds),
        ttl, pr.pc.built, Direct)
  }

  lemma CopyingIsReachable(s: State, p: nat)
    requires Reachable(s) && s.waitEta == 0 && p in s.procs && s.procs[p].pc.SendTtl? && s.procs[p].pc.reply.Hit?
    ensures Reachable(Copying(s, p))
  {
    var pr := s.procs[p];
    var SendTtl(built, reply) := pr.pc;
    var ttl := TtlCommand(s, pr.key, false);
    MoveReaches(s, p, Ttl(false), SendSetNx(built, reply, ttl));
    var s1 := Goto(s, p, SendSetNx(built, reply, ttl));
    MoveReaches(s1, p, SetNx(false), Decide(built, reply, ttl, false));
    var s2 := Goto(s1, p, Decide(built, reply, ttl, false));
    MoveReaches(s2, p, Branch, Fill(reply.found, ttl, built, Direct));
    var s3 := Goto(s2, p, Fill(reply.found, ttl, built, Direct));
    FillReaches(s3, p);
    assert Goto(s3, p, Serve(reply.found)) == Goto(s, p, Serve(reply.found));
  }

  lemma FillReaches(s: State, p: nat)
    requires Reachable(s) && p in s.procs && s.procs[p].pc.Fill?
    ensures var Fill(found, ttl, began, path) := s.procs[p].pc;
            Reachable(PutCopy(Goto(s, p, Serve(found)), p, 0, s.procs[p].key, found,
                ExpireIn(s.now, ttl.seconds), ttl, began, path))
  {
    Extend(s, Act(p, SetBytes(0)));
  }

  /**
   * The direct path can make a copy that never expires of an entry that does: the TTL
   * reply of an entry with under half a second left rounds to 0.
   */
  lemma DirectCopyCanBecomeImmortal()
    ensures exists s, key ::
              Reachable(s) && (0, key) in s.local && s.local[(0, key)].expire.None?
              && !InRedis(s, key) && forall i :: 0 <= i < |s.log| && s.log[i].Stored? ==> s.log[i].expiry.Some?
  {
    StartIsReachable();
    var s0 := Init(0, 0);
    SavingIsReachable(s0, 0, "k", 1, [], false);
    var s1 := Saving(s0, 0, "k", 1, [], false);
    Extend(s1, Tick(600));
    var s2 := Apply(s1, Tick(600));
    ReadingIsReachable(s2, 1, "k");
    var s3 := Reading(s2, 1, "k");
    CopyingIsReachable(s3, 1);
    var s4 := Copying(s3, 1);
    Extend(s4, Tick(3600000));
    var s5 := Apply(s4, Tick(3600000));
    assert (0, "k") in s5.local && !InRedis(s5, "k");
  }

  /** A copy on node 0 carries an older body than Redis, and lives as long as the newer entry. */
  ghost predicate MixesTwoWrites(s: State, key: string) {
    && (0, key) in s.local && key in s.redis
    && var c := s.local[(0, key)];
       && c.found.src < |s.log| && s.log[c.found.src].Stored? && s.log[c.found.src].expiry == Some(1000)
       && c.expire == Some(3600000) && s.redis[key].expiry == Some(3600000)
       && s.redis[key].data != c.found.data
  }

  /** A reader between its GET and its TTL. */
  lemma ReaderOfOldBody() returns (s: State)
    ensures Reachable(s) && s.waitEta == 0 && s.now == 0
    ensures s.procs.Keys == {0, 1} && s.procs[1] == Proc("k", 1, 1, 0,
        SendTtl(0, Hit(Found(Codec.Encode([7], Meta(1)), 1))))
    ensures |s.log| == 2 && s.log[1] == Stored("k", Codec.Encode([7], Meta(1)), 1, Some(1000), 0, 0)
    ensures s.redis.Keys == {"k"}
  {
    StartIsReachable();
    SavingIsReachable(Init(0, 0), 0, "k", 1, [7], false);
    var s1 := Saving(Init(0, 0), 0, "k", 1, [7], false);
    ReadingIsReachable(s1, 1, "k");
    s := Reading(s1, 1, "k");
  }

  /** The reader is overtaken by a write of another body. */
  lemma Overtaken() returns (s: State)
    ensures Reachable(s) && s.waitEta == 0 && s.now == 0
    ensures 1 in s.procs && s.procs[1] == Proc("k", 1, 1, 0, SendTtl(0, Hit(Found(Codec.Encode([7], Meta(1)), 1))))
    ensures |s.log| > 1 && s.log[1] == Stored("k", Codec.Encode([7], Meta(1)), 1, Some(1000), 0, 0)
    ensures s.redis == map["k" := Entry(Codec.Encode([8], Meta(3600)), Some(3600000), 3)]
  {
    var s2 := ReaderOfOldBody();
    SavingIsReachable(s2, 2, "k", 3600, [8], false);
    s := Saving(s2, 2, "k", 3600, [8], false);
  }

  lemma OvertakenCopyMixes(s: State, older: Bytes, newer: Bytes)
    requires s.now == 0 && 1 in s.procs && s.procs[1].key == "k"
    requires s.procs[1].pc == SendTtl(0, Hit(Found(older, 1))) && older != newer
    requires |s.log| > 1 && s.log[1] == Stored("k", older, 1, Some(1000), 0, 0)
    requires s.redis == map["k" := Entry(newer, Some(3600000), 3)]
    ensures MixesTwoWrites(Copying(s, 1), "k")
  {
    assert TtlCommand(s, "k", false) == TtlReply(3600, 0, 3);
  }

  lemma EntriesDiffer()
    ensures Codec.Encode([7], Meta(1)) != Codec.Encode([8], Meta(3600))
  {
    assert Codec.Encode([7], Meta(1))[8] == 7 && Codec.Encode([8], Meta(3600))[8] == 8;
  }

  /**
   * GET and TTL are separate commands: a write between them gives the copy the old body
   * with the new write's lifetime, past the expiry the old body was written with.
   */
  lemma CopyCanMixTwoWrites()
    ensures exists s, key :: Reachable(s) && MixesTwoWrites(s, key)
  {
    var s := Overtaken();
    CopyingIsReachable(s, 1);
    EntriesDiffer();
    OvertakenCopyMixes(s, Codec.Encode([7], Meta(1)), Codec.Encode([8], Meta(3600)));
  }

  lemma LateEntryDecodes(body: Bytes, ttl: int)
    requires ttl == 1 && |body| == 1
    ensures var data := Codec.Encode(body, Meta(ttl));
            Codec.Holdable(data) && Codec.Decode(data) == Codec.Decoded(body, Meta(ttl))
    ensures Metadata.Unmarshal(Meta(ttl)) == Some(1) && Metadata.MaxAge(1, 999) == 1
  {
    MetaIsShort(ttl);
    Codec.EncodeDecodes(body, Meta(ttl));
    Metadata.UnmarshalReadsExpiry(Metadata.ExpiresAt(0, ttl), []);
  }

  lemma SendServes(s: State, p: nat, found: Found, body: Bytes, meta: Bytes, expiresAt: int)
    requires Reachable(s) && p in s.procs && s.procs[p].pc == Serve(found) && Codec.Holdable(found.data)
    requires Codec.Decode(found.data) == Codec.Decoded(body, meta) && Metadata.Unmarshal(meta) == Some(expiresAt)
    ensures var t := Acted(s, p, Send);
            && Reachable(t) && |t.log| == |s.log| + 1 && s.log <= t.log
            && t.log[|s.log|]
               == Served(s.procs[p].key, body, meta, found.src, Metadata.MaxAge(expiresAt, s.now), s.now)
  {
    Extend(s, Act(p, Send));
  }

  /** A hit can advertise a life that ends after its entry's. */
  lemma MaxAgeCanOvershoot()
    ensures exists s, j: nat ::
              && Reachable(s) && j < |s.log| && s.log[j].Served? && s.log[j].src < |s.log|
              && s.log[s.log[j].src].Stored?
              && s.log[s.log[j].src].expiry.Some? && s.log[j].at < s.log[s.log[j].src].expiry.value
              && s.log[j].at + 1000 * s.log[j].maxAge > s.log[s.log[j].src].expiry.value
  {
    StartIsReachable();
    var body: Bytes, ttl := [7], 1;
    var s5, j := OvershootingRun(body, ttl);
    assert s5.log[j].at + 1000 * s5.log[j].maxAge > s5.log[s5.log[j].src].expiry.value;
  }

  /** An entry with a second to live, written at instant 0, and a request that finds it 999 ms later. */
  lemma ReaderOfLateEntry(body: Bytes, ttl: int) returns (s: State)
    requires ttl == 1 && |body| == 1
    ensures Reachable(s) && s.waitEta == 0 && s.now == 999 && 1 in s.procs
    ensures s.procs[1] == Proc("k", 1, 1, 999, SendTtl(999, Hit(Found(Codec.Encode(body, Meta(ttl)), 1))))
    ensures |s.log| == 2 && s.log[1].Stored? && s.log[1].expiry == Some(1000)
  {
    StartIsReachable();
    SavingIsReachable(Init(0, 0), 0, "k", ttl, body, false);
    var s1 := Saving(Init(0, 0), 0, "k", ttl, body, false);
    Extend(s1, Tick(999));
    var s2 := Apply(s1, Tick(999));
    ReadingIsReachable(s2, 1, "k");
    s := Reading(s2, 1, "k");
  }

  /** The reader makes its copy and is about to send it. */
  lemma ReaderIsServing(s: State, found: Found) returns (t: State)
    requires Reachable(s) && s.waitEta == 0 && 1 in s.procs
    requires s.procs[1] == Proc("k", 1, 1, 999, SendTtl(999, Hit(found)))
    ensures Reachable(t) && t.now == s.now && 1 in t.procs && t.procs[1].pc == Serve(found) && s.log <= t.log
  {
    CopyingIsReachable(s, 1);
    t := Copying(s, 1);
  }

  lemma OvershootingRun(body: Bytes, ttl: int) returns (s: State, j: nat)
    requires ttl == 1 && |body| == 1
    ensures Reachable(s) && j < |s.log| && s.log[j].Served? && s.log[j].at == 999 && s.log[j].maxAge == 1
    ensures s.log[j].src == 1 < |s.log| && s.log[1].Stored? && s.log[1].expiry == Some(1000)
  {
    var found := Found(Codec.Encode(body, Meta(ttl)), 1);
    var reader := ReaderOfLateEntry(body, ttl);
    var serving := ReaderIsServing(reader, found);
    LateEntryDecodes(body, ttl);
    s := ServedLater(serving, 1, found, body, Meta(ttl));
    j := |serving.log|;
    assert s.log[1] == reader.log[1];
  }

  /** A request that found an entry expiring in second 1 sends it 999 ms into the clock's time. */
  lemma ServedLater(s: State, p: nat, found: Found, body: Bytes, meta: Bytes) returns (t: State)
    requires Reachable(s) && s.now == 999 && p in s.procs && s.procs[p].pc == Serve(found)
    requires Codec.Holdable(found.data) && Codec.Decode(found.data) == Codec.Decoded(body, meta)
    requires Metadata.Unmarshal(meta) == Some(1)
    ensures Reachable(t) && |t.log| == |s.log| + 1 && s.log <= t.log
    ensures t.log[|s.log|] == Served(s.procs[p].key, body, meta, found.src, 1, 999)
  {
    t := Acted(s, p, Send);
    SendServes(s, p, found, body, meta, 1);
  }
}
