/** What every run of the cache protocol guarantees, and the runs that mark the limits. */
module CacheTheorems {
  import opened Common
  import opened CacheProtocol
  import opened CacheInvariant
  import Codec
  import Metadata

  /** The states of all runs from an empty cache. */
  ghost predicate Reachable(s: State) {
    exists now, steps :: s == Run(Init(now, s.waitEta), steps)
  }

  lemma ReachableInv(s: State)
    requires Reachable(s)
    ensures Inv(s)
  {
    var now, steps :| s == Run(Init(now, s.waitEta), steps);
    RunKeeps(now, s.waitEta, steps);
  }

  // ----- transparency -----

  /** Event `i` stored this body under the key, and event `r` before it was a status 200 response with the body. */
  ghost predicate StoredFromResponse(log: seq<Event>, key: string, body: Bytes, meta: Bytes, r: nat, i: nat) {
    && r < i < |log|
    && log[i].Stored? && log[i].key == key && log[i].data == Codec.Encode(body, meta)
    && log[r].Responded? && log[r].key == key && log[r].status == 200 && log[r].body == body && log[r].meta == meta
  }

  lemma StoredProvenance(s: State, i: nat)
    requires Inv(s) && i < |s.log| && s.log[i].Stored?
    ensures var r := s.log[i].respSrc;
            && r < i && s.log[r].Responded?
            && StoredFromResponse(s.log, s.log[i].key, s.log[r].body, s.log[r].meta, r, i)
            && Codec.Holdable(s.log[i].data) && Metadata.Unmarshal(s.log[r].meta).Some?
  {
    var r := s.log[i].respSrc;
    assert EventOk(s.waitEta, s.log[..i], s.log[i]);
    assert s.log[..i][r] == s.log[r];
    assert EventOk(s.waitEta, s.log[..r], s.log[r]);
  }

  /**
   * In every interleaving, a body served from the cache is byte for byte the body of an
   * earlier status 200 response to a request with the same Redis key, stored in between.
   */
  lemma HitsAreTransparent(s: State, j: nat)
    requires Reachable(s) && j < |s.log| && s.log[j].Served?
    ensures exists r: nat, i: nat ::
        i < j && StoredFromResponse(s.log, s.log[j].key, s.log[j].body, s.log[j].meta, r, i)
  {
    ReachableInv(s);
    assert EventOk(s.waitEta, s.log[..j], s.log[j]);
    var i := s.log[j].src;
    assert s.log[..j][i] == s.log[i];
    StoredProvenance(s, i);
    assert s.log[..j][s.log[i].respSrc] == s.log[s.log[i].respSrc];
    assert StoredFromResponse(s.log, s.log[j].key, s.log[j].body, s.log[j].meta, s.log[i].respSrc, i);
  }

  /**
   * The max-age of a hit on an entry written at `written` for a response built at `built`:
   * 0 without expiry, otherwise at most the TTL.  If positive it ends within the entry's
   * life exactly when the hit falls no later in its second than the build did plus the time
   * the write took, and it never overruns by a whole second.  With an expiry it is the TTL
   * less the seconds gone by since the build, as long as that is not negative.
   */
  predicate MaxAgeOk(built: Time, written: Time, seconds: int, maxAge: int, now: Time) {
    && built <= written <= now && 0 <= maxAge
    && (if seconds == -1 then maxAge == 0 else maxAge <= seconds)
    && (seconds > 0 ==>
          && (now / 1000 - built / 1000 <= seconds ==> maxAge == seconds - (now / 1000 - built / 1000))
          && now + 1000 * maxAge > built + seconds * 1000 - 1000)
    && (maxAge > 0 ==>
          && now + 1000 * maxAge < written + seconds * 1000 + 1000
          && (now + 1000 * maxAge <= written + seconds * 1000 <==> now % 1000 <= built % 1000 + (written - built)))
  }

  /** The max-age sent with every hit of every run, against the life of the entry it serves. */
  lemma ServedMaxAge(s: State, j: nat)
    requires Reachable(s) && j < |s.log| && s.log[j].Served?
    ensures var h := s.log[j];
            && h.src < j && s.log[h.src].Stored? && s.log[h.src].key == h.key && s.log[h.src].respSrc < h.src
            && var e, r := s.log[h.src], s.log[s.log[h.src].respSrc];
               && e.expiry == (if e.seconds == -1 then None else Some(e.at + e.seconds * 1000))
               && r.Responded? && r.body == h.body && MaxAgeOk(r.at, e.at, e.seconds, h.maxAge, h.at)
  {
    ReachableInv(s);
    assert EventOk(s.waitEta, s.log[..j], s.log[j]);
    var i := s.log[j].src;
    assert s.log[..j][i] == s.log[i];
    var r := s.log[i].respSrc;
    assert s.log[..j][r] == s.log[r];
    assert EventOk(s.waitEta, s.log[..i], s.log[i]);
    assert s.log[..i][r] == s.log[r];
    assert EventOk(s.waitEta, s.log[..r], s.log[r]);
    Metadata.MaxAgeAgainstLife(s.log[r].at, s.log[i].at, s.log[i].seconds, s.log[j].at);
  }

  /** No hit ever takes the error returns or the slice panic of SendCachedResponseBody. */
  lemma HitsAlwaysDecode(s: State, j: nat)
    requires Reachable(s) && j < |s.log|
    ensures !s.log[j].ServeFailed?
  {
    ReachableInv(s);
    assert EventOk(s.waitEta, s.log[..j], s.log[j]);
  }

  /** The event that recorded a copy, and what the invariant says of it, read over the whole log. */
  lemma CopiedIsOk(s: State, j: nat)
    requires Inv(s) && j < |s.log| && s.log[j].Copied?
    ensures CopyOk(s.log, s.log[j])
    ensures s.log[j].found.src < j
    ensures s.log[j].ttl.seconds == -1 || s.log[j].ttl.seconds > 0 ==> s.log[j].ttl.src < j
  {
    var e := s.log[j];
    assert EventOk(s.waitEta, s.log[..j], e);
    assert s.log[..j][e.found.src] == s.log[e.found.src];
    assert e.ttl.src < j ==> s.log[..j][e.ttl.src] == s.log[e.ttl.src];
  }

  /** Every value in any groupcache was first written to Redis under the same key, before the copy was made. */
  lemma CopiesComeFromRedis(s: State, node: nat, key: string)
    requires Reachable(s) && (node, key) in s.local
    ensures var c := s.local[(node, key)];
            && c.event < |s.log| && s.log[c.event].Copied? && s.log[c.event].key == key
            && exists i: nat :: i < c.event && WasStored(s.log, key, Found(c.found.data, i))
  {
    ReachableInv(s);
    var c := s.local[(node, key)];
    CopiedIsOk(s, c.event);
    assert WasStored(s.log, key, Found(c.found.data, c.found.src));
  }

  /**
   * Every stored entry came from a status 200 response with a non-zero cache key, under a
   * TTL that Set accepts, and expires exactly that many seconds after the write.
   */
  lemma StoresAreAuthorised(s: State, i: nat)
    requires Reachable(s) && i < |s.log| && s.log[i].Stored?
    ensures var e := s.log[i];
            && (if e.seconds == -1 then e.expiry == None
                 else e.seconds > 0 && e.expiry == Some(e.at + e.seconds * 1000))
            && e.respSrc < i && s.log[e.respSrc].Responded?
            && s.log[e.respSrc].status == 200 && s.log[e.respSrc].cacheKey > 0
  {
    ReachableInv(s);
    assert EventOk(s.waitEta, s.log[..i], s.log[i]);
    assert s.log[..i][s.log[i].respSrc] == s.log[s.log[i].respSrc];
  }

  /** What Redis holds under a key is the last write of that key, with its expiry. */
  lemma RedisHoldsLastWrite(s: State, key: string)
    requires Reachable(s) && key in s.redis
    ensures var e := s.redis[key];
            && e.src < |s.log| && s.log[e.src].Stored? && s.log[e.src].key == key
            && s.log[e.src].data == e.data && s.log[e.src].expiry == e.expiry
            && forall i :: e.src < i < |s.log| && s.log[i].Stored? ==> s.log[i].key != key
  {
    ReachableInv(s);
  }

  // ----- the ETA lock -----

  /** Two acquisitions of one key's lock are at least waitETA apart, in log order. */
  lemma AcquisitionsAreApart(s: State, i: nat, j: nat)
    requires Reachable(s) && i < j < |s.log|
    requires s.log[i].Locked? && s.log[j].Locked? && s.log[i].key == s.log[j].key
    ensures s.log[i].at + s.waitEta <= s.log[j].at
  {
    ReachableInv(s);
    LocksApart(s.waitEta, s.log, i, j);
  }

  predicate IsAcquisition(e: Event, key: string, from: Time, to: Time) {
    e.Locked? && e.key == key && from <= e.at <= to
  }

  /** Acquisitions of a key's lock within a period; with `missesOnly`, those that came with a miss. */
  function Acquisitions(log: seq<Event>, key: string, from: Time, to: Time, missesOnly: bool): nat {
    if log == [] then 0
    else
      var e := log[|log| - 1];
      Acquisitions(log[..|log| - 1], key, from, to, missesOnly)
      + if IsAcquisition(e, key, from, to) && !(missesOnly && e.onHit) then 1 else 0
  }

  lemma LocksApart(waitEta: nat, log: seq<Event>, i: nat, j: nat)
    requires LogOk(waitEta, log) && i < j < |log| && log[i].Locked? && log[j].Locked? && log[i].key == log[j].key
    ensures log[i].at + waitEta <= log[j].at
  {
    assert EventOk(waitEta, log[..j], log[j]);
    assert log[..j][i] == log[i];
  }

  lemma OneMoreWait(from: Time, n: nat, w: nat, a: Time, b: Time)
    requires from + (n - 1) * w <= a && a + w <= b
    ensures from + n * w <= b
  {
    assert (n - 1) * w + w == n * w;
  }

  /** The n-th acquisition in a period comes no earlier than n - 1 waits into it. */
  lemma {:induction false} AcquisitionsSpread(waitEta: nat, log: seq<Event>, key: string, from: Time, to: Time)
      returns (last: int)
    requires LogOk(waitEta, log)
    ensures var n := Acquisitions(log, key, from, to, false);
            n > 0 ==>
              0 <= last < |log| && IsAcquisition(log[last], key, from, to)
                && from + (n - 1) * waitEta <= log[last].at
    ensures Acquisitions(log, key, from, to, true) <= Acquisitions(log, key, from, to, false)
  {
    last := -1;
    if log != [] {
      var m := |log| - 1;
      var rest, e := log[..m], log[m];
      LogOkPrefix(waitEta, log, m);
      last := AcquisitionsSpread(waitEta, rest, key, from, to);
      if IsAcquisition(e, key, from, to) {
        var n := Acquisitions(rest, key, from, to, false);
        if n > 0 {
          assert rest[last] == log[last];
          LocksApart(waitEta, log, last, m);
          OneMoreWait(from, n, waitEta, log[last].at, e.at);
        }
        last := m;
      }
    }
  }

  lemma LogOkPrefix(waitEta: nat, log: seq<Event>, m: nat)
    requires LogOk(waitEta, log) && m <= |log|
    ensures LogOk(waitEta, log[..m])
  {
    forall j | 0 <= j < m ensures EventOk(waitEta, log[..m][..j], log[..m][j]) {
      assert log[..m][..j] == log[..j];
    }
  }

  lemma TimesIsMonotone(a: int, b: int, w: nat)
    requires a <= b
    ensures a * w <= b * w
  {
  }

  lemma AtMost(n: nat, w: nat, from: Time, length: nat, last: Time)
    requires w > 0 && (n > 0 ==> from + (n - 1) * w <= last <= from + length)
    ensures n <= length / w + 1
  {
    var q := length / w;
    assert q >= 0;
    if n == 0 {
      return;
    }
    assert q * w + length % w == length;
    assert (q + 1) * w == q * w + w;
    if n - 1 > q {
      TimesIsMonotone(q + 1, n - 1, w);
    }
  }

  /**
   * Thundering herd: in any period of L milliseconds of any run, a key's lock is acquired at
   * most L / waitETA + 1 times, so at most that many requests miss with the lock acquired.
   */
  lemma HerdBound(s: State, key: string, from: Time, length: nat)
    requires Reachable(s) && s.waitEta > 0
    ensures Acquisitions(s.log, key, from, from + length, false) <= length / s.waitEta + 1
    ensures Acquisitions(s.log, key, from, from + length, true) <= length / s.waitEta + 1
  {
    ReachableInv(s);
    LogBound(s.waitEta, s.log, key, from, length);
  }

  lemma LogBound(waitEta: nat, log: seq<Event>, key: string, from: Time, length: nat)
    requires LogOk(waitEta, log) && waitEta > 0
    ensures Acquisitions(log, key, from, from + length, true) <= Acquisitions(log, key, from, from + length, false)
    ensures Acquisitions(log, key, from, from + length, false) <= length / waitEta + 1
  {
    var last := AcquisitionsSpread(waitEta, log, key, from, from + length);
    var n := Acquisitions(log, key, from, from + length, false);
    AtMost(n, waitEta, from, length, if n > 0 then log[last].at else from);
  }

  // ----- freshness -----

  /**
   * The copy's expiry is that of an earlier write to Redis under its key, moved by the time between
   * reading the TTL and reading the clock, and by at most half a second of TTL rounding.
   */
  ghost predicate FollowsAWrite(log: seq<Event>, c: nat, expire: Time) {
    && c < |log| && log[c].Copied? && log[c].began <= log[c].ttl.at <= log[c].at
    && exists i: nat, expiry :: i < c && FollowsWrite(log, log[c], expire, i, expiry)
  }

  predicate FollowsWrite(log: seq<Event>, e: Event, expire: Time, i: nat, expiry: Time)
    requires e.Copied?
  {
    && HadExpiry(log, e.key, i, Some(expiry)) && e.found.src <= i
    && expiry - 500 <= expire - (e.at - e.ttl.at) <= expiry + 500
  }

  /**
   * A groupcache copy with an expiry outlives a Redis write by at most the rounding plus
   * the duration of one call, however many refills and peer copies lie behind it.
   */
  lemma FiniteCopiesFollowRedis(s: State, node: nat, key: string)
    requires Reachable(s) && (node, key) in s.local && s.local[(node, key)].expire.Some?
    ensures var c := s.local[(node, key)];
            FollowsAWrite(s.log, c.event, c.expire.value) && s.log[c.event].key == key
  {
    ReachableInv(s);
    var c := s.local[(node, key)];
    CopiedIsOk(s, c.event);
    var e := s.log[c.event];
    assert FollowsWrite(s.log, e, c.expire.value, e.ttl.src, s.log[e.ttl.src].expiry.value);
  }

  /**
   * A request answered from a groupcache comes before its copy expires: for a copy with an
   * expiry, within the rounding and the duration of one call after a write's expiry.
   */
  lemma LocalHitsAreFresh(s: State, j: nat)
    requires Reachable(s) && j < |s.log| && s.log[j].LocalHit?
    ensures var h := s.log[j];
            && h.copy < j && s.log[h.copy].Copied? && s.log[h.copy].key == h.key
            && (s.log[h.copy].expire.Some? ==>
                  h.at < s.log[h.copy].expire.value && FollowsAWrite(s.log, h.copy, s.log[h.copy].expire.value))
  {
    ReachableInv(s);
    assert EventOk(s.waitEta, s.log[..j], s.log[j]);
    var c := s.log[j].copy;
    assert s.log[..j][c] == s.log[c];
    CopiedIsOk(s, c);
    var e := s.log[c];
    if e.expire.Some? {
      assert FollowsWrite(s.log, e, e.expire.value, e.ttl.src, s.log[e.ttl.src].expiry.value);
    }
  }

  /**
   * A copy without expiry was made by the wait loop or by Set only for a write without
   * expiry; a direct getter hit makes one for every reply that is not positive.
   */
  lemma ImmortalCopies(s: State, node: nat, key: string)
    requires Reachable(s) && (node, key) in s.local && s.local[(node, key)].expire.None?
    ensures var c := s.local[(node, key)];
            && c.event < |s.log| && s.log[c.event].Copied?
            && var e := s.log[c.event];
               && (e.path != Direct || e.ttl.seconds == -1 ==> HadExpiry(s.log, key, e.ttl.src, None))
               && (e.path == Direct ==> e.ttl.seconds <= 0)
  {
    ReachableInv(s);
    CopiedIsOk(s, s.local[(node, key)].event);
  }

  // ----- bounded waiting -----

  /** The configured wait after InitConfig (src/config.go:182-184). */
  function ClampWaitEta(configured: nat): (r: nat)
    ensures r <= configured && r <= 3000 && (r == configured || r == 3000)
  {
    if configured > 3000 then 3000 else configured
  }

  predicate IsWaiting(pc: Pc) {
    pc.Wait? || pc.Sleep? || pc.PollTtl?
  }

  /**
   * A waiter's ETA is at most waitETA after its wait began, and it has made at most
   * ceil(waitETA / 5) polls that found nothing.
   */
  lemma WaitingIsBounded(s: State, p: nat)
    requires Reachable(s) && p in s.procs && IsWaiting(s.procs[p].pc)
    ensures var w := s.procs[p].pc.w; w.eta <= w.since + s.waitEta && w.polls <= (s.waitEta + 4) / 5
  {
    ReachableInv(s);
  }

  /** The deadline the handler puts on a lookup (src/fiber_graphql_handler.go:54). */
  const LOOKUP_DEADLINE: nat := 3300

  /**
   * Whatever is configured, a request polls at most 600 times without finding anything, and
   * each of these polls falls before the lookup's deadline unless more than 300 ms passed
   * between the start of the lookup and the start of the wait.
   */
  lemma ConfiguredWaitingIsBounded(s: State, j: nat, configured: nat)
    requires s.waitEta == ClampWaitEta(configured)
    requires Reachable(s) && j < |s.log| && s.log[j].Polled?
    ensures var e := s.log[j];
            && e.count <= 600 && e.arrived <= e.since
            && (e.at < e.arrived + LOOKUP_DEADLINE || e.since > e.arrived + 300)
  {
    PollsAreBounded(s, j);
  }

  /** Every poll of every run starts before the ETA and within ceil(waitETA / 5) of its kind. */
  lemma PollsAreBounded(s: State, j: nat)
    requires Reachable(s) && j < |s.log| && s.log[j].Polled?
    ensures var e := s.log[j];
            e.at < e.eta <= e.since + s.waitEta && 0 < e.count <= (s.waitEta + 4) / 5 && e.arrived <= e.since
                && e.since + 5 * (e.count - 1) <= e.at
  {
    ReachableInv(s);
    assert EventOk(s.waitEta, s.log[..j], s.log[j]);
  }

  /** The step ends the wait of `p` with nothing: an abort, a poll that fails in time, or a passed ETA. */
  predicate EndsWait(s: State, p: nat, step: Step)
    requires p in s.procs && IsWaiting(s.procs[p].pc)
  {
    var pc := s.procs[p].pc;
    step.Act? && step.proc == p &&
      (|| step.action.Abort?
       || (pc.Wait? && s.now < pc.w.eta && step.action == Poll(true))
       || (pc.Wait? && s.now >= pc.w.eta && step.action.Timeout?))
  }

  /** No waiter goes to the upstream otherwise, whatever step is taken. */
  lemma WaitersGiveUpIff(s: State, p: nat, step: Step)
    requires p in s.procs && IsWaiting(s.procs[p].pc)
    ensures p in Apply(s, step).procs
    ensures Apply(s, step).procs[p].pc.Upstream? <==> EndsWait(s, p, step)
  {
    if step.Act? && step.proc == p {
      WaiterActs(s, p, step.action);
    }
  }

  lemma WaiterActs(s: State, p: nat, a: Action)
    requires p in s.procs && IsWaiting(s.procs[p].pc)
    ensures Acted(s, p, a).procs[p].pc.Upstream? <==> EndsWait(s, p, Act(p, a))
  {
  }

  // ----- which requests and which nodes -----

  lemma {:induction false} RunsHaveTtl(now: Time, waitEta: nat, steps: seq<Step>, p: nat)
    ensures var s := Run(Init(now, waitEta), steps); p in s.procs ==> s.procs[p].ttl != 0
  {
    if steps != [] {
      var m := |steps| - 1;
      RunsHaveTtl(now, waitEta, steps[..m], p);
      ProcessesAreArrivals(Run(Init(now, waitEta), steps[..m]), steps[m], p);
    }
  }

  /** A step adds a process only as the arrival of a request with a TTL, and none changes its TTL. */
  lemma ProcessesAreArrivals(s: State, step: Step, p: nat)
    ensures var t := Apply(s, step);
            p in t.procs ==>
              if p in s.procs then t.procs[p].ttl == s.procs[p].ttl
              else step.Arrive? && step.proc == p && t.procs[p].ttl == step.ttl != 0
  {
  }

  /** Only requests that ask for caching are ever in the cache's hands. */
  lemma RequestsHaveTtl(s: State, p: nat)
    requires Reachable(s) && p in s.procs
    ensures s.procs[p].ttl != 0
  {
    var now, steps :| s == Run(Init(now, s.waitEta), steps);
    RunsHaveTtl(now, s.waitEta, steps, p);
  }

  /** A copy that a node passes on is served by the other node as it was by the first, and as long. */
  lemma PeersServeCopies(s: State, p: nat, source: nat, target: nat)
    requires p in s.procs && s.procs[p].pc.Lookup? && (source, s.procs[p].key) in s.local
    requires var copy := s.local[(source, s.procs[p].key)]; Alive(copy.expire, s.now)
    ensures var t := Apply(s, PeerCopy(source, target, s.procs[p].key));
            Acted(t, p, LookupHit(target)).procs[p].pc == Serve(s.local[(source, s.procs[p].key)].found)
    ensures var t := Apply(s, PeerCopy(source, target, s.procs[p].key));
            forall ms :: Acted(Apply(t, Tick(ms)), p, LookupHit(target)).procs[p].pc
                         == Acted(Apply(t, Tick(ms)), p, LookupHit(source)).procs[p].pc
  {
  }
}
