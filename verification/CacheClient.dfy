/**
 * The code of one request, in the order of the source: the getter with its pipeline and
 * polling loop (src/cache_service.go:210-344), RedisCacheClient.Set (397-449) and the
 * query handler (src/fiber_graphql_handler.go:44-109).  Between any two atomic steps the
 * other requests run arbitrary steps of the protocol, so whatever these methods do is a
 * run of the transition system, and they terminate against every such environment.
 */
module CacheClient {
  import opened Common
  import opened CacheProtocol
  import opened CacheInvariant
  import opened CacheTheorems
  import opened CacheSteps
  import opened CacheWorlds
  import Codec
  import Metadata

  /** What the client gets: a body, or the error of the upstream call. */
  datatype Reply = Body(body: Bytes) | UpstreamError

  /** What holds of the request and the world from one point of the code to a later one. */
  predicate Continues(s: State, t: State, p: nat) {
    && p in s.procs && p in t.procs && t.procs[p] == s.procs[p].(pc := t.procs[p].pc)
    && t.waitEta == s.waitEta && s.log <= t.log && s.now <= t.now
  }

  /** The log shows an acquisition of the key's lock from position `n` on. */
  predicate LockedSince(n: nat, log: seq<Event>, key: string) {
    exists i :: n <= i < |log| && log[i].Locked? && log[i].key == key
  }

  /** processProxyResponse saves the response, and Set accepts the TTL. */
  predicate Savable(pr: Proc, status: int) {
    status == 200 && pr.cacheKey > 0 && (pr.ttl == -1 || pr.ttl > 0)
  }

  /** No command fails. */
  ghost predicate Calm(env: Env) {
    forall i :: !env.fails(i)
  }

  /** The entry is the encoding of this body, with some metadata. */
  ghost predicate Carries(data: Bytes, body: Bytes) {
    exists meta :: data == Codec.Encode(body, meta)
  }

  /**
   * Event `n` is the upstream's response to the request.  It is stored only if it can be, and
   * then by a later event; and if nothing fails it is stored whenever it can be.
   */
  ghost predicate AnswerHandled(
    log: seq<Event>, from: nat, n: nat, pr: Proc, status: int, body: Bytes, types: Bytes, failed: bool, stored: bool,
    calm: bool)
  {
    && from <= n < |log| && log[n].Responded?
    && log[n] == Responded(pr.key, pr.cacheKey, status, body,
                           Metadata.Marshal(Metadata.ExpiresAt(log[n].at, pr.ttl), types), failed, pr.ttl, log[n].at)
    && (stored ==> Savable(pr, status) && exists i: nat :: StoredFromResponse(log, pr.key, body, log[n].meta, n, i))
    && (calm && Savable(pr, status) && Codec.Holdable(Codec.Encode(body, log[n].meta)) ==> stored)
  }

  /**
   * Where a poll before the ETA leads: it gives up, goes on to the TTL with what Redis holds,
   * or sleeps five milliseconds.
   */
  function PollLeads(s: State, p: nat, fails: bool): Pc
    requires p in s.procs && s.procs[p].pc.Wait?
  {
    var w := s.procs[p].pc.w;
    if fails then Upstream
    else if InRedis(s, s.procs[p].key) then PollTtl(w, Held(s, s.procs[p].key))
    else Sleep(w.(polls := w.polls + 1), s.now + 5)
  }

  /** What a request is about to serve decodes. */
  lemma FoundDecodes(s: State, p: nat)
    requires Reachable(s) && p in s.procs && s.procs[p].pc.Serve?
    ensures Codec.Holdable(s.procs[p].pc.found.data) && Codec.Decode(s.procs[p].pc.found.data).Decoded?
    ensures Metadata.Unmarshal(Codec.Decode(s.procs[p].pc.found.data).meta).Some?
  {
    ReachableInv(s);
    var i := s.procs[p].pc.found.src;
    StoredProvenance(s, i);
    var r := s.log[i].respSrc;
    Codec.EncodeDecodes(s.log[r].body, s.log[r].meta);
  }

  /** What a request is about to save is the status 200 response it read. */
  lemma SavedIsResponse(s: State, p: nat)
    requires Reachable(s) && p in s.procs && s.procs[p].pc.Save?
    ensures var pc, r := s.procs[p].pc, s.procs[p].pc.respSrc;
            && r < |s.log| && s.log[r].Responded? && s.log[r].key == s.procs[p].key && s.log[r].status == 200
            && s.log[r].body == pc.body && s.log[r].meta == pc.meta
  {
    ReachableInv(s);
  }

  class World {
    var s: State

    constructor (s: State)
      ensures this.s == s
    {
      this.s := s;
    }

    /** One atomic action of the request, and all it does to the world. */
    method Exactly(p: nat, a: Action)
      requires Reachable(s) && p in s.procs
      modifies this
      ensures Reachable(s) && Continues(old(s), s, p)
      ensures s == Acted(old(s), p, a)
    {
      ReachableStep(s, Act(p, a));
      s := Acted(s, p, a);
    }

    /** One atomic action of the request, when only its next program point matters. */
    method Do(p: nat, a: Action)
      requires Reachable(s) && p in s.procs && Fits(s.procs[p].pc, a)
      modifies this
      ensures Reachable(s) && Continues(old(s), s, p)
      ensures Follows(old(s).procs[p].pc, a, s.procs[p].pc)
    {
      ActionsFollow(s, p, a);
      Exactly(p, a);
    }

    /** The others run until the request's next action; `gap` counts the gaps. */
    method Yield(p: nat, env: Env, gap: nat) returns (next: nat)
      requires Reachable(s) && p in s.procs && ValidEnv(p, env)
      modifies this
      ensures Reachable(s) && Continues(old(s), s, p)
      ensures s.procs[p] == old(s).procs[p] && old(s).now < s.now
      ensures next == gap + 1 && s == Others(old(s), p, env, gap)
    {
      OthersRun(s, p, env.others(gap));
      s := Run(s, env.others(gap));
      next := gap + 1;
    }

    /** One atomic action, then the others. */
    method Advance(p: nat, a: Action, env: Env, gap: nat) returns (next: nat)
      requires Reachable(s) && p in s.procs && Fits(s.procs[p].pc, a) && ValidEnv(p, env)
      modifies this
      ensures Reachable(s) && Continues(old(s), s, p) && old(s).now < s.now
      ensures Follows(old(s).procs[p].pc, a, s.procs[p].pc)
      ensures next == gap + 1 && s == After(old(s), p, a, env, gap)
    {
      ActionsFollow(s, p, a);
      Exactly(p, a);
      next := Yield(p, env, gap);
    }

    /**
     * Lines 238-253: GET, TTL and SETNX, each a command of its own.  GET's reply is what Redis
     * holds when GET runs; nothing that happens afterwards changes it.
     */
    method Pipeline(p: nat, env: Env) returns (next: nat)
      requires Reachable(s) && p in s.procs && s.procs[p].pc.Lookup? && ValidEnv(p, env)
      modifies this
      ensures Reachable(s) && Continues(old(s), s, p) && next == 4
      ensures s.procs[p].pc.Decide? && s.procs[p].pc.built == old(s).now
      ensures var v := AtGet(old(s), p, env);
              s.procs[p].pc.reply
              == if env.fails(1) then Failed
                 else if InRedis(v, s.procs[p].key) then Hit(Held(v, s.procs[p].key))
                 else Nil
      ensures !env.fails(1) ==>
                var x := AtSetNx(old(s), p, env);
                && (s.procs[p].pc.acquired <==> s.waitEta > 0 && !env.fails(3) && !LockHeld(x, s.procs[p].key))
                && s == After(x, p, SetNx(env.fails(3)), env, 3)
      ensures s.procs[p].pc.acquired ==> LockedSince(|old(s).log|, s.log, s.procs[p].key)
    {
      next := StartPipeline(p, env);
      next := TryLock(p, env, next);
    }

    /** The pipeline is built, and its GET and TTL run. */
    method StartPipeline(p: nat, env: Env) returns (next: nat)
      requires Reachable(s) && p in s.procs && s.procs[p].pc.Lookup? && ValidEnv(p, env)
      modifies this
      ensures Reachable(s) && Continues(old(s), s, p) && next == 3
      ensures s.procs[p].pc.SendSetNx? && s.procs[p].pc.built == old(s).now
      ensures var v := AtGet(old(s), p, env);
              s.procs[p].pc.reply
              == if env.fails(1) then Failed
                 else if InRedis(v, s.procs[p].key) then Hit(Held(v, s.procs[p].key))
                 else Nil
      ensures !env.fails(1) ==> s == AtSetNx(old(s), p, env)
    {
      next := Open(p, env);
      next := GetThenTtl(p, env, next);
    }

    method Open(p: nat, env: Env) returns (next: nat)
      requires Reachable(s) && p in s.procs && s.procs[p].pc.Lookup? && ValidEnv(p, env)
      modifies this
      ensures Reachable(s) && Continues(old(s), s, p) && next == 1
      ensures s.procs[p].pc == SendGet(old(s).now) && s == AtGet(old(s), p, env)
    {
      Exactly(p, LookupMiss);
      next := Yield(p, env, 0);
    }

    /** Lines 238-239: TTL answers later than GET and does not change its reply. */
    method GetThenTtl(p: nat, env: Env, gap: nat) returns (next: nat)
      requires Reachable(s) && p in s.procs && s.procs[p].pc.SendGet? && ValidEnv(p, env)
      modifies this
      ensures Reachable(s) && Continues(old(s), s, p) && next == gap + 2
      ensures s.procs[p].pc.SendSetNx? && s.procs[p].pc.built == old(s).procs[p].pc.built
      ensures s.procs[p].pc.reply
              == if env.fails(gap) then Failed
                 else if InRedis(old(s), s.procs[p].key) then Hit(Held(old(s), s.procs[p].key))
                 else Nil
      ensures s == After(After(old(s), p, Get(env.fails(gap)), env, gap), p, Ttl(env.fails(gap + 1)), env, gap + 1)
    {
      Exactly(p, Get(env.fails(gap)));
      next := Yield(p, env, gap);
      next := Advance(p, Ttl(env.fails(next)), env, next);
    }

    /**
     * Line 244: SETNX acquires the lock when nobody holds it; then its value is the instant
     * the pipeline was built plus the wait, and it lives for the wait from now on.
     */
    method TryLock(p: nat, env: Env, gap: nat) returns (next: nat)
      requires Reachable(s) && p in s.procs && s.procs[p].pc.SendSetNx? && ValidEnv(p, env)
      modifies this
      ensures Reachable(s) && Continues(old(s), s, p) && next == gap + 1
      ensures s.procs[p].pc.Decide? && s.procs[p].pc.reply == old(s).procs[p].pc.reply
      ensures s.procs[p].pc.built == old(s).procs[p].pc.built
      ensures s.procs[p].pc.acquired <==> old(s).waitEta > 0 && !env.fails(gap) && !LockHeld(old(s), s.procs[p].key)
      ensures s.procs[p].pc.acquired ==> LockedSince(|old(s).log|, s.log, s.procs[p].key)
      ensures s == After(old(s), p, SetNx(env.fails(gap)), env, gap)
      ensures var lock := Lock(old(s).procs[p].pc.built + s.waitEta, old(s).now + s.waitEta);
              Then(old(s), p, SetNx(env.fails(gap))).locks
              == if s.procs[p].pc.acquired then old(s).locks[s.procs[p].key := lock] else old(s).locks
    {
      Exactly(p, SetNx(env.fails(gap)));
      assert s.procs[p].pc.acquired ==> s.log[|old(s).log|].Locked?;
      next := Yield(p, env, gap);
    }

    /** Line 294: sleeping until the wake-up instant. */
    method SleepAndWake(p: nat, env: Env, gap: nat) returns (next: nat)
      requires Reachable(s) && p in s.procs && s.procs[p].pc.Sleep? && ValidEnv(p, env)
      modifies this
      ensures Reachable(s) && Continues(old(s), s, p)
      ensures s.procs[p].pc == Wait(old(s).procs[p].pc.w)
      ensures (s, next) == Woken(old(s), p, env, gap, old(s).procs[p].pc.until)
    {
      next := gap;
      var until := s.procs[p].pc.until;
      while s.now < until
        invariant Reachable(s) && Continues(old(s), s, p) && s.procs[p] == old(s).procs[p]
        invariant Woken(s, p, env, next, until) == Woken(old(s), p, env, gap, until)
        decreases until - s.now
      {
        next := Yield(p, env, next);
      }
      Exactly(p, Wake);
    }

    /**
     * The body of the loop at line 282.  A failed poll gives up; a poll that finds nothing
     * sleeps five milliseconds; one that finds the key goes on to its TTL, and with the value
     * found if that tells the key's life.
     */
    method PollOnce(p: nat, env: Env, gap: nat) returns (next: nat, slept: bool)
      requires Reachable(s) && p in s.procs && s.procs[p].pc.Wait? && s.now < s.procs[p].pc.w.eta && ValidEnv(p, env)
      modifies this
      ensures Reachable(s) && Continues(old(s), s, p) && old(s).now < s.now
      ensures slept <==> !env.fails(gap) && !InRedis(old(s), s.procs[p].key)
      ensures !env.fails(gap) ==> (s, next) == PollDone(old(s), p, env, gap)
      ensures var w := old(s).procs[p].pc.w;
              if env.fails(gap) then s.procs[p].pc.Upstream?
              else if Finds(old(s), p, env, gap) then
                s.procs[p].pc.Fill? && s.procs[p].pc.found == Held(old(s), s.procs[p].key)
              else s.procs[p].pc == Wait(if slept then w.(polls := w.polls + 1) else w)
    {
      ghost var was := s;
      next := PollNow(p, env, gap);
      next, slept := UsePoll(p, env, next, was);
    }

    /** What follows the poll's GET. */
    method UsePoll(p: nat, env: Env, gap: nat, ghost was: State) returns (next: nat, slept: bool)
      requires Reachable(was) && p in was.procs && was.procs[p].pc.Wait? && ValidEnv(p, env)
      requires Reachable(s) && Continues(was, s, p) && gap > 0
      requires s.procs[p].pc == PollLeads(was, p, env.fails(gap - 1))
      requires !env.fails(gap - 1) ==> s == After(was, p, Poll(false), env, gap - 1)
      modifies this
      ensures Reachable(s) && Continues(old(s), s, p)
      ensures slept <==> !env.fails(gap - 1) && !InRedis(was, s.procs[p].key)
      ensures !env.fails(gap - 1) ==> (s, next) == PollDone(was, p, env, gap - 1)
      ensures var w := was.procs[p].pc.w;
              if env.fails(gap - 1) then s.procs[p].pc.Upstream?
              else if Finds(was, p, env, gap - 1) then
                s.procs[p].pc.Fill? && s.procs[p].pc.found == Held(was, s.procs[p].key)
              else s.procs[p].pc == Wait(if slept then w.(polls := w.polls + 1) else w)
    {
      next := gap;
      slept := s.procs[p].pc.Sleep?;
      if slept {
        next := SleepAndWake(p, env, gap);
      } else if s.procs[p].pc.PollTtl? {
        next := TtlNow(p, env, gap);
      }
    }

    /** Lines 284-291: the poll's GET. */
    method PollNow(p: nat, env: Env, gap: nat) returns (next: nat)
      requires Reachable(s) && p in s.procs && s.procs[p].pc.Wait? && s.now < s.procs[p].pc.w.eta && ValidEnv(p, env)
      modifies this
      ensures Reachable(s) && Continues(old(s), s, p) && old(s).now < s.now && next == gap + 1
      ensures s.procs[p].pc == PollLeads(old(s), p, env.fails(gap))
      ensures s == After(old(s), p, Poll(env.fails(gap)), env, gap)
    {
      Exactly(p, Poll(env.fails(gap)));
      next := Yield(p, env, gap);
    }

    /** Lines 286 and 305-318: the poll's TTL. */
    method TtlNow(p: nat, env: Env, gap: nat) returns (next: nat)
      requires Reachable(s) && p in s.procs && s.procs[p].pc.PollTtl? && ValidEnv(p, env)
      modifies this
      ensures Reachable(s) && Continues(old(s), s, p) && old(s).now < s.now && next == gap + 1
      ensures if TellsLife(old(s), s.procs[p].key, env.fails(gap))
              then s.procs[p].pc.Fill? && s.procs[p].pc.found == old(s).procs[p].pc.found
              else s.procs[p].pc == Wait(old(s).procs[p].pc.w)
      ensures s == After(old(s), p, GetPollTtl(env.fails(gap)), env, gap)
    {
      Exactly(p, GetPollTtl(env.fails(gap)));
      next := Yield(p, env, gap);
    }

    /**
     * Lines 275-325.  The loop ends against every environment, having slept at most
     * ceil(waitETA / 5) times; then it has the value it was bound to find, or goes to the
     * upstream because there was none.
     */
    method WaitLoop(p: nat, env: Env, gap: nat) returns (next: nat, sleeps: nat)
      requires Reachable(s) && p in s.procs && s.procs[p].pc.Wait? && s.procs[p].pc.w.polls == 0 && ValidEnv(p, env)
      modifies this
      ensures Reachable(s) && Continues(old(s), s, p)
      ensures match LoopFinds(old(s), p, env, gap, old(s).procs[p].pc.w.eta)
              case Some(found) => s.procs[p].pc.Fill? && s.procs[p].pc.found == found
              case None => s.procs[p].pc.Upstream?
      ensures sleeps <= (s.waitEta + 4) / 5
    {
      next, sleeps := gap, 0;
      ghost var eta := s.procs[p].pc.w.eta;
      ghost var finds := LoopFinds(s, p, env, gap, eta);
      while s.procs[p].pc.Wait? && s.now < s.procs[p].pc.w.eta
        invariant Reachable(s) && Continues(old(s), s, p)
        invariant s.procs[p].pc.Wait? || s.procs[p].pc.Fill? || s.procs[p].pc.Upstream?
        invariant s.procs[p].pc.Wait? ==> s.procs[p].pc.w.eta == eta && s.procs[p].pc.w.polls == sleeps
        invariant s.procs[p].pc.Wait? ==> finds == LoopFinds(s, p, env, next, eta)
        invariant s.procs[p].pc.Fill? ==> finds == Some(s.procs[p].pc.found)
        invariant s.procs[p].pc.Upstream? ==> finds == None
        invariant sleeps <= (s.waitEta + 4) / 5
        decreases eta - s.now
      {
        var slept;
        next, slept := PollOnce(p, env, next);
        if slept {
          sleeps := sleeps + 1;
          WaitingIsBounded(s, p);
        }
      }
      if s.procs[p].pc.Wait? {
        Exactly(p, Timeout);
      }
    }

    /** Lines 255-260 and 327-343: only a miss without the lock waits. */
    method TakeBranch(p: nat, env: Env, gap: nat) returns (next: nat)
      requires Reachable(s) && p in s.procs && s.procs[p].pc.Decide? && ValidEnv(p, env)
      modifies this
      ensures Reachable(s) && Continues(old(s), s, p) && next == gap + 1
      ensures FollowsReply(old(s).procs[p].pc, s.procs[p].pc)
      ensures s.procs[p].pc.ReadEta? <==> old(s).procs[p].pc.reply.Nil? && s.waitEta > 0 && !old(s).procs[p].pc.acquired
      ensures s.procs[p].pc.ReadEta? ==> s.procs[p].pc.built == old(s).procs[p].pc.built
      ensures s == After(old(s), p, Branch, env, gap)
    {
      Exactly(p, Branch);
      next := Yield(p, env, gap);
    }

    /** Lines 268-325: the ETA of the lock is read, or that of the pipeline taken, and waited for. */
    method AwaitWinner(p: nat, env: Env, gap: nat) returns (next: nat, sleeps: nat)
      requires Reachable(s) && p in s.procs && s.procs[p].pc.ReadEta? && ValidEnv(p, env)
      modifies this
      ensures Reachable(s) && Continues(old(s), s, p)
      ensures match WaitFinds(old(s), p, env, gap, old(s).procs[p].pc.built)
              case Some(found) => s.procs[p].pc.Fill? && s.procs[p].pc.found == found
              case None => s.procs[p].pc.Upstream?
      ensures sleeps <= (s.waitEta + 4) / 5
    {
      Exactly(p, GetEta(env.fails(gap)));
      next, sleeps := WaitLoop(p, env, gap + 1);
    }

    /** Lines 230-260 and 327-343: what the pipeline's replies lead to. */
    method ReadEntry(p: nat, env: Env) returns (next: nat)
      requires Reachable(s) && p in s.procs && s.procs[p].pc.Lookup? && ValidEnv(p, env)
      modifies this
      ensures Reachable(s) && Continues(old(s), s, p) && next == 5
      ensures var key := s.procs[p].key;
              var v, x := AtGet(old(s), p, env), AtSetNx(old(s), p, env);
              if env.fails(1) then s.procs[p].pc.Upstream?
              else if InRedis(v, key) then s.procs[p].pc.Fill? && s.procs[p].pc.found == Held(v, key)
              else if s.waitEta == 0 || (!env.fails(3) && !LockHeld(x, key)) then s.procs[p].pc.Upstream?
              else s.procs[p].pc == ReadEta(old(s).now) && s == AtReadEta(old(s), p, env)
    {
      next := Pipeline(p, env);
      next := TakeBranch(p, env, next);
    }

    /** Lines 230-343 up to dest.SetBytes: the value the getter is bound to find, or a miss. */
    method FindEntry(p: nat, env: Env) returns (gap: nat)
      requires Reachable(s) && p in s.procs && s.procs[p].pc.Lookup? && ValidEnv(p, env)
      modifies this
      ensures Reachable(s) && Continues(old(s), s, p)
      ensures match GetterFinds(old(s), p, env)
              case Some(found) => s.procs[p].pc.Fill? && s.procs[p].pc.found == found
              case None => s.procs[p].pc.Upstream?
    {
      gap := ReadEntry(p, env);
      if s.procs[p].pc.ReadEta? {
        var sleeps;
        gap, sleeps := AwaitWinner(p, env, gap);
      }
    }

    /**
     * The GetterFunc closure: it ends with the value it was bound to find, stored on the
     * owner's node, or with a miss because there was none.
     */
    method GetterFunc(p: nat, env: Env) returns (hit: bool, gap: nat)
      requires Reachable(s) && p in s.procs && s.procs[p].pc.Lookup? && ValidEnv(p, env)
      modifies this
      ensures Reachable(s) && Continues(old(s), s, p)
      ensures if hit then s.procs[p].pc.Serve? else s.procs[p].pc.Upstream?
      ensures GetterFinds(old(s), p, env) == if hit then Some(s.procs[p].pc.found) else None
      ensures hit ==>
          (env.node, s.procs[p].key) in s.local && s.local[(env.node, s.procs[p].key)].found == s.procs[p].pc.found
    {
      gap := FindEntry(p, env);
      hit := s.procs[p].pc.Fill?;
      if hit {
        SetBytesOnOwner(p, env);
      }
    }

    /** Lines 317 and 343: the value goes to the owner's groupcache and to the caller. */
    method SetBytesOnOwner(p: nat, env: Env)
      requires Reachable(s) && p in s.procs && s.procs[p].pc.Fill?
      modifies this
      ensures Reachable(s) && Continues(old(s), s, p)
      ensures s.procs[p].pc == Serve(old(s).procs[p].pc.found)
      ensures var at := (env.node, s.procs[p].key);
              at in s.local && s.local[at].found == s.procs[p].pc.found
              && s.local[at].expire == ExpireIn(s.now, old(s).procs[p].pc.ttl.seconds)
    {
      Exactly(p, SetBytes(env.node));
    }

    /**
     * RedisCacheClient.Set: an invalid TTL or a failed Redis write stores nothing anywhere;
     * otherwise Redis is written first, with the TTL as expiry, which gives world `at`, and
     * only then a groupcache, with the TTL counted from then.
     */
    method Set(p: nat, env: Env, gap: nat) returns (stored: bool, ghost at: State)
      requires Reachable(s) && p in s.procs && s.procs[p].pc.Save? && ValidEnv(p, env)
      modifies this
      ensures Reachable(s) && Continues(old(s), s, p) && s.procs[p].pc.Done?
      ensures stored <==> (old(s).procs[p].ttl == -1 || old(s).procs[p].ttl > 0) && !env.fails(gap)
      ensures !stored ==> s.redis == old(s).redis && s.local == old(s).local && s.log == old(s).log
      ensures stored ==>
                var pr, n := old(s).procs[p], |old(s).log|;
                var data, expiry := Codec.Encode(pr.pc.body, pr.pc.meta), ExpireIn(old(s).now, pr.ttl);
                && Continues(old(s), at, p) && Continues(at, s, p)
                && at.now == old(s).now && at.local == old(s).local
                && at.redis == old(s).redis[pr.key := Entry(data, expiry, n)]
                && at.log == old(s).log + [Stored(pr.key, data, pr.ttl, expiry, old(s).now, pr.pc.respSrc)]
      ensures stored && !env.fails(gap + 1) ==>
                var pr, at := old(s).procs[p], (env.node, old(s).procs[p].key);
                && at in s.local && s.local[at].found == Found(Codec.Encode(pr.pc.body, pr.pc.meta), |old(s).log|)
                && s.local[at].expire == ExpireIn(s.now, pr.ttl)
    {
      Exactly(p, SetRedis(env.fails(gap)));
      at := s;
      stored := s.procs[p].pc.SaveLocal?;
      if stored {
        PutInGroupcache(p, env, gap);
      }
    }

    /** Lines 423-447: the owner's groupcache gets the value, unless the call fails. */
    method PutInGroupcache(p: nat, env: Env, gap: nat)
      requires Reachable(s) && p in s.procs && s.procs[p].pc.SaveLocal? && ValidEnv(p, env)
      modifies this
      ensures Reachable(s) && Continues(old(s), s, p) && s.procs[p].pc.Done?
      ensures !env.fails(gap + 1) ==>
                var pr, at := old(s).procs[p], (env.node, old(s).procs[p].key);
                at in s.local && s.local[at].found == pr.pc.found && s.local[at].expire == ExpireIn(s.now, pr.ttl)
    {
      var next := Yield(p, env, gap);
      Exactly(p, SetGroupcache(env.node, env.fails(next)));
    }

    /**
     * RedisCacheClient.Get: the owner's groupcache if it holds a live copy, which touches
     * neither Redis nor a lock, and the getter otherwise.
     */
    method Lookup(p: nat, env: Env) returns (hit: bool, gap: nat)
      requires Reachable(s) && p in s.procs && s.procs[p].pc.Lookup? && ValidEnv(p, env)
      modifies this
      ensures Reachable(s) && Continues(old(s), s, p)
      ensures if hit then s.procs[p].pc.Serve? else s.procs[p].pc.Upstream?
      ensures LookupFinds(old(s), p, env) == if hit then Some(s.procs[p].pc.found) else None
      ensures HasLiveCopy(old(s), env.node, s.procs[p].key) ==> s.redis == old(s).redis && s.locks == old(s).locks
    {
      if HasLiveCopy(s, env.node, s.procs[p].key) {
        hit, gap := true, 0;
        Exactly(p, LookupHit(env.node));
      } else {
        hit, gap := GetterFunc(p, env);
      }
    }

    /** ReadResponseBodyAndSaveToCache: what is stored is the response that was read. */
    method SaveToCache(p: nat, env: Env, gap: nat) returns (stored: bool)
      requires Reachable(s) && p in s.procs && s.procs[p].pc.Save? && ValidEnv(p, env)
      modifies this
      ensures Reachable(s) && Continues(old(s), s, p) && s.procs[p].pc.Done?
      ensures stored <==> (old(s).procs[p].ttl == -1 || old(s).procs[p].ttl > 0) && !env.fails(gap)
      ensures stored ==> var pc := old(s).procs[p].pc;
                         exists i: nat :: StoredFromResponse(s.log, s.procs[p].key, pc.body, pc.meta, pc.respSrc, i)
    {
      SavedIsResponse(s, p);
      ghost var i, at := |s.log|, s;
      stored, at := Set(p, env, gap);
      if stored {
        assert at.log[i] == s.log[i];
        assert StoredFromResponse(s.log, s.procs[p].key, old(s).procs[p].pc.body, old(s).procs[p].pc.meta,
            old(s).procs[p].pc.respSrc, i);
      }
    }

    /**
     * The miss branch: the response object is read, whatever the call returned, and saved
     * exactly when it reads 200, the cache key is not zero, Set accepts the TTL and the
     * write succeeds (and the entry fits a slice).
     */
    method AskUpstream(p: nat, env: Env, gap: nat, status: int, body: Bytes, types: Bytes, failed: bool)
        returns (stored: bool)
      requires Reachable(s) && p in s.procs && s.procs[p].pc.Upstream? && ValidEnv(p, env)
      modifies this
      ensures Reachable(s) && Continues(old(s), s, p) && s.procs[p].pc.Done?
      ensures var pr, n := old(s).procs[p], |old(s).log|;
              n < |s.log| && s.log[n] == Responded(pr.key, pr.cacheKey, status, body, MetaNow(old(s), p, types),
                  failed, pr.ttl, old(s).now)
      ensures stored <==>
                && Savable(old(s).procs[p], status) && !env.fails(gap + 1)
                && Codec.Holdable(Codec.Encode(body, MetaNow(old(s), p, types)))
      ensures stored ==> exists i: nat ::
          StoredFromResponse(s.log, s.procs[p].key, body, MetaNow(old(s), p, types), |old(s).log|, i)
    {
      stored := false;
      Exactly(p, Answer(status, body, types, failed));
      if s.procs[p].pc.Save? {
        var next := Yield(p, env, gap);
        stored := SaveToCache(p, env, next);
      }
    }

    /**
     * The query handler for a cached query: look up, serve a hit, or ask the upstream and
     * save its answer.  It serves the body of exactly what the lookup is bound to find, which
     * is that of an earlier stored status 200 response: a live copy on the owner's node, else
     * the value that GET finds, else what the polling loop finds.  If there is nothing to
     * find, it answers the upstream's body or its error, and saves a body that reads 200
     * either way.
     */
    method HandleQuery(p: nat, env: Env, status: int, body: Bytes, types: Bytes, failed: bool)
      returns (answer: Reply, hit: bool, stored: bool)
      requires Reachable(s) && p in s.procs && s.procs[p].pc.Lookup? && ValidEnv(p, env)
      modifies this
      ensures Reachable(s) && Continues(old(s), s, p) && s.procs[p].pc.Done?
      ensures hit <==> LookupFinds(old(s), p, env).Some?
      ensures hit ==> !stored && answer.Body? && Carries(LookupFinds(old(s), p, env).value.data, answer.body)
      ensures HasLiveCopy(old(s), env.node, s.procs[p].key) ==>
                hit && Carries(old(s).local[(env.node, s.procs[p].key)].found.data, answer.body)
      ensures !HasLiveCopy(old(s), env.node, s.procs[p].key) && !env.fails(1)
              && InRedis(AtGet(old(s), p, env), s.procs[p].key) ==>
                hit && Carries(AtGet(old(s), p, env).redis[s.procs[p].key].data, answer.body)
      ensures hit ==> exists meta, r: nat, i: nat ::
                StoredFromResponse(s.log, s.procs[p].key, answer.body, meta, r, i)
      ensures !hit ==> answer == if failed then UpstreamError else Body(body)
      ensures !hit ==> exists n: nat ::
                AnswerHandled(s.log, |old(s).log|, n, old(s).procs[p], status, body, types, failed, stored, Calm(env))
    {
      answer, hit, stored := ServeOrForward(p, env, status, body, types, failed);
    }

    /** The two branches at line 58. */
    method ServeOrForward(p: nat, env: Env, status: int, body: Bytes, types: Bytes, failed: bool)
      returns (answer: Reply, hit: bool, stored: bool)
      requires Reachable(s) && p in s.procs && s.procs[p].pc.Lookup? && ValidEnv(p, env)
      modifies this
      ensures Reachable(s) && Continues(old(s), s, p) && s.procs[p].pc.Done?
      ensures hit <==> LookupFinds(old(s), p, env).Some?
      ensures hit ==> !stored && answer.Body? && Carries(LookupFinds(old(s), p, env).value.data, answer.body)
      ensures hit ==> exists meta, r: nat, i: nat ::
                StoredFromResponse(s.log, s.procs[p].key, answer.body, meta, r, i)
      ensures !hit ==> answer == if failed then UpstreamError else Body(body)
      ensures !hit ==> exists n: nat ::
                AnswerHandled(s.log, |old(s).log|, n, old(s).procs[p], status, body, types, failed, stored, Calm(env))
    {
      var gap;
      hit, gap := Lookup(p, env);
      gap := Yield(p, env, gap);
      if hit {
        stored := false;
        var cached, maxAge := SendCached(p);
        answer := Body(cached);
      } else {
        answer, stored := Forward(p, env, gap, status, body, types, failed, old(s));
      }
    }

    /** The upstream's answer, or its error, goes to the client; it is saved if it can be. */
    method Forward(p: nat, env: Env, gap: nat, status: int, body: Bytes, types: Bytes, failed: bool, ghost was: State)
        returns (answer: Reply, stored: bool)
      requires Reachable(s) && p in s.procs && s.procs[p].pc.Upstream? && ValidEnv(p, env)
      requires Continues(was, s, p)
      modifies this
      ensures Reachable(s) && Continues(old(s), s, p) && s.procs[p].pc.Done?
      ensures answer == if failed then UpstreamError else Body(body)
      ensures exists n: nat ::
                AnswerHandled(s.log, |was.log|, n, was.procs[p], status, body, types, failed, stored, Calm(env))
    {
      ghost var n := |s.log|;
      stored := AskUpstream(p, env, gap, status, body, types, failed);
      answer := if failed then UpstreamError else Body(body);
      assert AnswerHandled(s.log, |was.log|, n, was.procs[p], status, body, types, failed, stored, Calm(env));
    }

    /** SendCachedResponseBody, which on this path never takes an error return. */
    method SendCached(p: nat) returns (answer: Bytes, maxAge: int)
      requires Reachable(s) && p in s.procs && s.procs[p].pc.Serve?
      modifies this
      ensures Reachable(s) && Continues(old(s), s, p) && s.procs[p].pc.Done?
      ensures var found := old(s).procs[p].pc.found;
              exists meta :: found.data == Codec.Encode(answer, meta)
                             && s.log == old(s).log + [Served(s.procs[p].key, answer, meta, found.src, maxAge, s.now)]
      ensures exists meta, r: nat, i: nat :: StoredFromResponse(s.log, s.procs[p].key, answer, meta, r, i)
    {
      var data := s.procs[p].pc.found.data;
      FoundDecodes(s, p);
      Codec.DecodeInvertsEncode(data);
      var Decoded(body, meta) := Codec.Decode(data);
      answer := body;
      maxAge := Metadata.Unmarshal(meta).value - s.now / 1000;
      if maxAge < 0 {
        maxAge := 0;
      }
      ghost var n := |s.log|;
      Exactly(p, Send);
      assert s.log[n] == Served(s.procs[p].key, answer, meta, old(s).procs[p].pc.found.src, maxAge, s.now);
      HitsAreTransparent(s, n);
    }
  }
}
