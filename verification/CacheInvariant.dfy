/**
 * The inductive invariant of the cache protocol.  `EventOk` says what every recorded
 * event guarantees in terms of the events before it; the rest says what shared state
 * and processes must satisfy for the next event to guarantee it too.
 */
module CacheInvariant {
  import opened Common
  import opened CacheProtocol
  import Codec
  import Metadata

  /** The data was written to Redis under this key by the event at `found.src`. */
  predicate WasStored(log: seq<Event>, key: string, found: Found) {
    found.src < |log| && log[found.src].Stored? && log[found.src].key == key && log[found.src].data == found.data
  }

  /** Some write under this key, at position `src`, had this expiry. */
  predicate HadExpiry(log: seq<Event>, key: string, src: nat, expiry: Option<Time>) {
    src < |log| && log[src].Stored? && log[src].key == key && log[src].expiry == expiry
  }

  /**
   * What a TTL reply says about the write it was read from: -1 means no expiry, and a
   * positive reply is within half a second of what was left.
   */
  predicate TtlOk(log: seq<Event>, key: string, ttl: TtlReply) {
    && (ttl.seconds == -1 ==> HadExpiry(log, key, ttl.src, None))
    && (ttl.seconds > 0 ==>
          && ttl.src < |log| && log[ttl.src].Stored? && log[ttl.src].key == key && log[ttl.src].expiry.Some?
          && -500 <= ttl.at + ttl.seconds * 1000 - log[ttl.src].expiry.value <= 500)
  }

  /** The reply tells the life of a write no older than the one the data came from. */
  predicate NotOlder(found: Found, ttl: TtlReply) {
    ttl.seconds == -1 || ttl.seconds > 0 ==> found.src <= ttl.src
  }

  predicate CopyOk(log: seq<Event>, e: Event)
    requires e.Copied?
  {
    && WasStored(log, e.key, e.found)
    && TtlOk(log, e.key, e.ttl) && NotOlder(e.found, e.ttl)
    && e.began <= e.ttl.at <= e.at
    && e.expire == ExpireIn(e.at, e.ttl.seconds)
    && (e.path != Direct ==> e.ttl.seconds == -1 || e.ttl.seconds > 0)
  }

  /** At most one poll every five milliseconds between the start of the wait and the ETA. */
  predicate WaitOk(waitEta: nat, w: WaitState) {
    w.eta <= w.since + waitEta && (w.polls > 0 ==> w.since + 5 * (w.polls - 1) < w.eta)
  }

  predicate EventOk(waitEta: nat, before: seq<Event>, e: Event) {
    match e
    case Stored(key, data, seconds, expiry, at, respSrc) =>
      && (seconds == -1 || seconds > 0) && expiry == ExpireIn(at, seconds)
      && respSrc < |before| && before[respSrc].Responded? && before[respSrc].key == key
      && before[respSrc].status == 200 && before[respSrc].cacheKey > 0
      && before[respSrc].seconds == seconds && before[respSrc].at <= at
      && data == Codec.Encode(before[respSrc].body, before[respSrc].meta) && Codec.Holdable(data)
    case Locked(key, at, _) =>
      forall i :: 0 <= i < |before| && before[i].Locked? && before[i].key == key ==> before[i].at + waitEta <= at
    case Polled(_, _, at, eta, since, arrived, count) =>
      at < eta && count > 0 && WaitOk(waitEta, WaitState(eta, since, count))
          && since + 5 * (count - 1) <= at && arrived <= since
    case Copied(_, _, _, _, _, _, _, _) => CopyOk(before, e)
    case Served(key, body, meta, src, maxAge, at) =>
      && src < |before| && before[src].Stored? && before[src].key == key
      && before[src].data == Codec.Encode(body, meta)
      && before[src].respSrc < src && before[before[src].respSrc].Responded?
      && before[before[src].respSrc].body == body && before[before[src].respSrc].meta == meta
      && before[src].at <= at && Metadata.Unmarshal(meta).Some?
      && maxAge == Metadata.MaxAge(Metadata.Unmarshal(meta).value, at)
    case LocalHit(key, copy, at) =>
      && copy < |before| && before[copy].Copied? && before[copy].key == key
      && Alive(before[copy].expire, at)
    case ServeFailed(_) => false
    case Responded(_, _, _, _, meta, _, seconds, at) =>
      Metadata.Unmarshal(meta) == Some(Metadata.ExpiresAt(at, seconds))
  }

  /** Nothing recorded is in the future. */
  ghost predicate PastOk(s: State) {
    forall i :: 0 <= i < |s.log| && (s.log[i].Stored? || s.log[i].Responded?) ==> s.log[i].at <= s.now
  }

  ghost predicate LogOk(waitEta: nat, log: seq<Event>) {
    forall j :: 0 <= j < |log| ==> EventOk(waitEta, log[..j], log[j])
  }

  /** Redis holds, for each key, the last value written under it. */
  ghost predicate RedisOk(s: State) {
    forall k :: k in s.redis ==>
      var e := s.redis[k];
      && WasStored(s.log, k, Found(e.data, e.src)) && s.log[e.src].expiry == e.expiry
      && forall i :: 0 <= i < |s.log| && s.log[i].Stored? && s.log[i].key == k ==> i <= e.src
  }

  /** The lock record of a key outlives every acquisition so far by the full wait. */
  ghost predicate LocksOk(s: State) {
    && (forall k :: k in s.locks ==> s.locks[k].eta <= s.locks[k].expiry <= s.now + s.waitEta)
    && (forall i :: 0 <= i < |s.log| && s.log[i].Locked? ==>
          s.log[i].key in s.locks && s.log[i].at + s.waitEta <= s.locks[s.log[i].key].expiry)
  }

  /** Every groupcache copy is one that was recorded. */
  ghost predicate LocalOk(s: State) {
    forall n, k :: (n, k) in s.local ==>
      var c := s.local[(n, k)];
      && c.event < |s.log| && s.log[c.event].Copied? && s.log[c.event].key == k
      && s.log[c.event].found == c.found && s.log[c.event].expire == c.expire
  }

  predicate ReplyOk(log: seq<Event>, key: string, reply: GetReply) {
    reply.Hit? ==> WasStored(log, key, reply.found)
  }

  predicate ReadOk(log: seq<Event>, key: string, built: Time, reply: GetReply, ttl: TtlReply, now: Time) {
    && ReplyOk(log, key, reply) && TtlOk(log, key, ttl)
    && (reply.Hit? ==> NotOlder(reply.found, ttl))
    && built <= ttl.at <= now
  }

  predicate PcOk(log: seq<Event>, now: Time, waitEta: nat, pr: Proc) {
    pr.arrived <= now && AtPoint(log, now, waitEta, pr)
  }

  predicate AtPoint(log: seq<Event>, now: Time, waitEta: nat, pr: Proc) {
    match pr.pc
    case SendGet(built) => built <= now
    case SendTtl(built, reply) => built <= now && ReplyOk(log, pr.key, reply)
    case SendSetNx(built, reply, ttl) => ReadOk(log, pr.key, built, reply, ttl, now)
    case Decide(built, reply, ttl, _) => ReadOk(log, pr.key, built, reply, ttl, now)
    case ReadEta(built) => built <= now
    case Wait(w) => WaitOk(waitEta, w) && pr.arrived <= w.since && w.since + 5 * w.polls <= now
    case PollTtl(w, found) => WaitOk(waitEta, w) && pr.arrived <= w.since && w.since + 5 * w.polls <= now
        && WasStored(log, pr.key, found)
    case Sleep(w, until) => WaitOk(waitEta, w) && pr.arrived <= w.since
        && w.since + 5 * w.polls <= until && w.since <= now
    case Fill(found, ttl, began, path) =>
      && WasStored(log, pr.key, found) && TtlOk(log, pr.key, ttl) && NotOlder(found, ttl) && began <= ttl.at <= now
      && (path != Direct ==> ttl.seconds == -1 || ttl.seconds > 0)
    case Serve(found) => WasStored(log, pr.key, found)
    case Save(body, meta, respSrc) =>
      && respSrc < |log| && log[respSrc].Responded? && log[respSrc].key == pr.key
      && log[respSrc].status == 200 && log[respSrc].cacheKey > 0 && log[respSrc].body == body
      && log[respSrc].meta == meta
      && log[respSrc].seconds == pr.ttl && log[respSrc].at <= now
      && Codec.Holdable(Codec.Encode(body, meta))
    case SaveLocal(found, setAt) =>
      && WasStored(log, pr.key, found) && setAt <= now && (pr.ttl == -1 || pr.ttl > 0)
      && log[found.src].expiry == ExpireIn(setAt, pr.ttl)
    case _ => true
  }

  ghost predicate ProcsOk(s: State) {
    forall p :: p in s.procs ==> PcOk(s.log, s.now, s.waitEta, s.procs[p])
  }

  ghost predicate Inv(s: State) {
    LogOk(s.waitEta, s.log) && PastOk(s) && RedisOk(s) && LocksOk(s) && LocalOk(s) && ProcsOk(s)
  }

  // ----- what a longer log and a later clock preserve -----

  lemma LogOkSnoc(waitEta: nat, log: seq<Event>, e: Event)
    requires LogOk(waitEta, log) && EventOk(waitEta, log, e)
    ensures LogOk(waitEta, log + [e])
  {
    var log' := log + [e];
    forall j | 0 <= j < |log'| ensures EventOk(waitEta, log'[..j], log'[j]) {
      if j < |log| {
        assert log'[..j] == log[..j];
      } else {
        assert log'[..j] == log;
      }
    }
  }

  lemma PcOkLater(log: seq<Event>, now: Time, waitEta: nat, pr: Proc, log': seq<Event>, now': Time)
    requires PcOk(log, now, waitEta, pr) && log <= log' && now <= now'
    ensures PcOk(log', now', waitEta, pr)
  {
  }

  /** One process moves to `pc`; the log may grow. */
  lemma ProcsOkStep(s: State, s': State, p: nat, pc: Pc)
    requires p in s.procs && ProcsOk(s)
    requires s'.procs == s.procs[p := s.procs[p].(pc := pc)]
    requires s.log <= s'.log && s.now == s'.now && s.waitEta == s'.waitEta
    requires PcOk(s'.log, s'.now, s'.waitEta, s.procs[p].(pc := pc))
    ensures ProcsOk(s')
  {
    forall q | q in s'.procs ensures PcOk(s'.log, s'.now, s'.waitEta, s'.procs[q]) {
      if q != p {
        PcOkLater(s.log, s.now, s.waitEta, s.procs[q], s'.log, s'.now);
      }
    }
  }

  /** A step that only moves a process keeps the invariant if the new point is justified. */
  lemma MoveKeeps(s: State, p: nat, pc: Pc)
    requires Inv(s) && p in s.procs && PcOk(s.log, s.now, s.waitEta, s.procs[p].(pc := pc))
    ensures Inv(Goto(s, p, pc))
  {
    ProcsOkStep(s, Goto(s, p, pc), p, pc);
  }

  /** A log entry that is no write and no acquisition leaves the invariants of shared state alone. */
  lemma NoteKeeps(s: State, s': State, p: nat, pc: Pc, e: Event)
    requires Inv(s) && p in s.procs && !e.Stored? && !e.Locked?
    requires EventOk(s.waitEta, s.log, e) && (e.Responded? ==> e.at <= s.now)
    requires s' == Goto(s, p, pc).(log := s.log + [e])
    requires PcOk(s'.log, s.now, s.waitEta, s.procs[p].(pc := pc))
    ensures Inv(s')
  {
    RecordKeeps(s, s', p, pc, e);
    LongerLogKeepsRedis(s, s', e);
    LongerLogKeepsLocks(s, s', e);
    LongerLogKeepsLocal(s, s', e);
  }

  /** A process moves and one event is recorded. */
  lemma RecordKeeps(s: State, s': State, p: nat, pc: Pc, e: Event)
    requires LogOk(s.waitEta, s.log) && PastOk(s) && ProcsOk(s) && p in s.procs
    requires e.Stored? || e.Responded? ==> e.at <= s.now
    requires EventOk(s.waitEta, s.log, e) && PcOk(s.log + [e], s.now, s.waitEta, s.procs[p].(pc := pc))
    requires s'.procs == s.procs[p := s.procs[p].(pc := pc)] && s'.now == s.now && s'.waitEta == s.waitEta
    requires s'.log == s.log + [e]
    ensures LogOk(s'.waitEta, s'.log) && PastOk(s') && ProcsOk(s')
  {
    LogOkSnoc(s.waitEta, s.log, e);
    ProcsOkStep(s, s', p, pc);
  }

  lemma LongerLogKeepsRedis(s: State, s': State, e: Event)
    requires RedisOk(s) && !e.Stored? && s'.redis == s.redis && s'.log == s.log + [e]
    ensures RedisOk(s')
  {
  }

  lemma LongerLogKeepsLocks(s: State, s': State, e: Event)
    requires LocksOk(s) && !e.Locked? && s'.locks == s.locks && s'.log == s.log + [e]
    requires s'.now == s.now && s'.waitEta == s.waitEta
    ensures LocksOk(s')
  {
  }

  lemma LongerLogKeepsLocal(s: State, s': State, e: Event)
    requires LocalOk(s) && s'.local == s.local && s'.log == s.log + [e]
    ensures LocalOk(s')
  {
  }

  lemma TtlCommandOk(s: State, key: string, err: bool)
    requires RedisOk(s)
    ensures TtlOk(s.log, key, TtlCommand(s, key, err))
    ensures forall f :: WasStored(s.log, key, f) ==> NotOlder(f, TtlCommand(s, key, err))
  {
    if InRedis(s, key) && s.redis[key].expiry.Some? {
      var left := s.redis[key].expiry.value - s.now;
      assert -500 <= (left + 500) / 1000 * 1000 - left <= 500;
    }
  }

  // ----- the steps -----

  /** A new acquisition is far enough from every earlier one of its key, and is covered by the new lock. */
  lemma AcquireKeepsLocks(s: State, s': State, key: string, eta: Time, onHit: bool)
    requires LocksOk(s) && !LockHeld(s, key) && eta <= s.now + s.waitEta
    requires s'.locks == s.locks[key := Lock(eta, s.now + s.waitEta)] && s'.now == s.now && s'.waitEta == s.waitEta
    requires s'.log == s.log + [Locked(key, s.now, onHit)]
    ensures LocksOk(s') && EventOk(s.waitEta, s.log, Locked(key, s.now, onHit))
  {
  }

  lemma SetNxKeeps(s: State, p: nat, err: bool)
    requires Inv(s) && p in s.procs && s.procs[p].pc.SendSetNx?
    ensures Inv(SetNxCommand(s, p, s.procs[p].pc.built, s.procs[p].pc.reply, s.procs[p].pc.ttl, err))
  {
    var pr := s.procs[p];
    var SendSetNx(built, reply, ttl) := pr.pc;
    if s.waitEta == 0 || err || LockHeld(s, pr.key) {
      MoveKeeps(s, p, Decide(built, reply, ttl, false));
    } else {
      var s' := SetNxCommand(s, p, s.procs[p].pc.built, s.procs[p].pc.reply, s.procs[p].pc.ttl, err);
      AcquireKeeps(s, s', p, Decide(built, reply, ttl, true), Lock(built + s.waitEta, s.now + s.waitEta), reply.Hit?);
    }
  }

  lemma AcquireKeeps(s: State, s': State, p: nat, pc: Pc, lock: Lock, onHit: bool)
    requires Inv(s) && p in s.procs && !LockHeld(s, s.procs[p].key)
    requires lock.eta <= lock.expiry == s.now + s.waitEta
    requires PcOk(s.log, s.now, s.waitEta, s.procs[p].(pc := pc))
    requires s' == Goto(s, p, pc).(
      locks := s.locks[s.procs[p].key := lock], log := s.log + [Locked(s.procs[p].key, s.now, onHit)])
    ensures Inv(s')
  {
    var e := Locked(s.procs[p].key, s.now, onHit);
    PcOkLater(s.log, s.now, s.waitEta, s.procs[p].(pc := pc), s'.log, s.now);
    AcquireKeepsLocks(s, s', s.procs[p].key, lock.eta, onHit);
    RecordKeeps(s, s', p, pc, e);
    LongerLogKeepsRedis(s, s', e);
    LongerLogKeepsLocal(s, s', e);
  }

  lemma BranchKeeps(s: State, p: nat)
    requires Inv(s) && p in s.procs && s.procs[p].pc.Decide?
    ensures Inv(BranchOnReply(s, p, s.procs[p].pc))
  {
    var Decide(built, reply, ttl, acquired) := s.procs[p].pc;
    match reply
    case Hit(found) => MoveKeeps(s, p, Fill(found, ttl, built, Direct));
    case Failed => MoveKeeps(s, p, Upstream);
    case Nil => MoveKeeps(s, p, if s.waitEta > 0 && !acquired then ReadEta(built) else Upstream);
  }

  lemma PollKeeps(s: State, p: nat, err: bool)
    requires Inv(s) && p in s.procs && s.procs[p].pc.Wait?
    ensures Inv(PollCommand(s, p, s.procs[p].pc.w, err))
  {
    var pr := s.procs[p];
    var w := pr.pc.w;
    if s.now < w.eta {
      if err {
        MoveKeeps(s, p, Upstream);
      } else if InRedis(s, pr.key) {
        MoveKeeps(s, p, PollTtl(w, GetCommand(s, pr.key).found));
      } else {
        var w' := w.(polls := w.polls + 1);
        NoteKeeps(s, PollCommand(s, p, s.procs[p].pc.w, err), p, Sleep(w', s.now + 5),
            Polled(p, pr.key, s.now, w.eta, w.since, pr.arrived, w'.polls));
      }
    }
  }

  lemma PollTtlKeeps(s: State, p: nat, err: bool)
    requires Inv(s) && p in s.procs && s.procs[p].pc.PollTtl?
    ensures Inv(PollTtlCommand(s, p, s.procs[p].pc.w, s.procs[p].pc.found, err))
  {
    TtlCommandOk(s, s.procs[p].key, err);
    var PollTtl(w, found) := s.procs[p].pc;
    var ttl := TtlCommand(s, s.procs[p].key, err);
    if ttl.seconds == -1 || ttl.seconds > 0 {
      MoveKeeps(s, p, Fill(found, ttl, w.since, Waited));
    } else {
      MoveKeeps(s, p, Wait(w));
    }
  }

  /** Storing a copy whose provenance is known. */
  lemma PutCopyKeeps(s: State, p: nat, pc: Pc, node: nat, e: Event)
    requires Inv(s) && p in s.procs && e.Copied? && e.proc == p && e.key == s.procs[p].key
        && e.at == s.now && CopyOk(s.log, e)
    requires PcOk(s.log, s.now, s.waitEta, s.procs[p].(pc := pc))
    ensures Inv(PutCopy(Goto(s, p, pc), p, node, e.key, e.found, e.expire, e.ttl, e.began, e.path))
  {
    var s' := PutCopy(Goto(s, p, pc), p, node, e.key, e.found, e.expire, e.ttl, e.began, e.path);
    assert s'.log == s.log + [e];
    PcOkLater(s.log, s.now, s.waitEta, s.procs[p].(pc := pc), s'.log, s.now);
    RecordKeeps(s, s', p, pc, e);
    LongerLogKeepsRedis(s, s', e);
    LongerLogKeepsLocks(s, s', e);
    NewCopyKeepsLocal(s, s', node, e.key, Copy(e.found, e.expire, |s.log|), e);
  }

  lemma NewCopyKeepsLocal(s: State, s': State, node: nat, key: string, c: Copy, e: Event)
    requires LocalOk(s) && s'.local == s.local[(node, key) := c] && s'.log == s.log + [e]
    requires e.Copied? && e.key == key && c == Copy(e.found, e.expire, |s.log|)
    ensures LocalOk(s')
  {
  }

  lemma SetBytesKeeps(s: State, p: nat, node: nat)
    requires Inv(s) && p in s.procs && s.procs[p].pc.Fill?
    ensures Inv(FillCommand(s, p, s.procs[p].pc.found, s.procs[p].pc.ttl, s.procs[p].pc.began,
        s.procs[p].pc.path, node))
  {
    var pr := s.procs[p];
    var Fill(found, ttl, began, path) := pr.pc;
    PutCopyKeeps(s, p, Serve(found), node,
        Copied(p, pr.key, found, ExpireIn(s.now, ttl.seconds), ttl, began, s.now, path));
  }

  lemma SendKeeps(s: State, p: nat)
    requires Inv(s) && p in s.procs && s.procs[p].pc.Serve?
    ensures Inv(ServeData(s, p, s.procs[p].pc.found))
  {
    var pr := s.procs[p];
    var found := pr.pc.found;
    var stored := s.log[found.src];
    assert EventOk(s.waitEta, s.log[..found.src], stored);
    var resp := s.log[stored.respSrc];
    assert s.log[..found.src][stored.respSrc] == resp;
    assert EventOk(s.waitEta, s.log[..stored.respSrc], resp);
    Codec.EncodeDecodes(resp.body, resp.meta);
    var maxAge := Metadata.MaxAge(Metadata.ExpiresAt(resp.at, resp.seconds), s.now);
    NoteKeeps(s, ServeData(s, p, s.procs[p].pc.found), p, Done,
        Served(pr.key, resp.body, resp.meta, found.src, maxAge, s.now));
  }

  lemma AnswerKeeps(s: State, p: nat, status: int, body: Bytes, types: Bytes, failed: bool)
    requires Inv(s) && p in s.procs && s.procs[p].pc.Upstream?
    ensures Inv(Respond(s, p, status, body, types, failed))
  {
    var pr := s.procs[p];
    var s' := Respond(s, p, status, body, types, failed);
    Metadata.UnmarshalReadsExpiry(Metadata.ExpiresAt(s.now, pr.ttl), types);
    var e := Responded(pr.key, pr.cacheKey, status, body, MetaNow(s, p, types), failed, pr.ttl, s.now);
    NoteKeeps(s, s', p, s'.procs[p].pc, e);
  }

  /** Redis keeps the last write of every key. */
  lemma WriteKeepsRedis(s: State, s': State, key: string, data: Bytes, ttl: int, expiry: Option<Time>, respSrc: nat)
    requires RedisOk(s)
    requires s'.redis == s.redis[key := Entry(data, expiry, |s.log|)]
    requires s'.log == s.log + [Stored(key, data, ttl, expiry, s.now, respSrc)]
    ensures RedisOk(s')
  {
  }

  lemma SetRedisKeeps(s: State, p: nat, err: bool)
    requires Inv(s) && p in s.procs && s.procs[p].pc.Save?
    ensures Inv(SetRedisCommand(s, p, s.procs[p].pc.body, s.procs[p].pc.meta, s.procs[p].pc.respSrc, err))
  {
    var pr := s.procs[p];
    var Save(body, meta, respSrc) := pr.pc;
    if (pr.ttl == -1 || pr.ttl > 0) && !err {
      WriteKeeps(s, SetRedisCommand(s, p, s.procs[p].pc.body, s.procs[p].pc.meta, s.procs[p].pc.respSrc, err), p,
          body, meta, respSrc);
    } else {
      MoveKeeps(s, p, Done);
    }
  }

  lemma WriteKeeps(s: State, s': State, p: nat, body: Bytes, meta: Bytes, respSrc: nat)
    requires Inv(s) && p in s.procs && s.procs[p].pc == Save(body, meta, respSrc)
    requires s.procs[p].ttl == -1 || s.procs[p].ttl > 0
    requires s' == SetRedisCommand(s, p, body, meta, respSrc, false)
    ensures Inv(s')
  {
    var pr := s.procs[p];
    var data := Codec.Encode(body, meta);
    var e := Stored(pr.key, data, pr.ttl, ExpireIn(s.now, pr.ttl), s.now, respSrc);
    WriteKeepsRedis(s, s', pr.key, data, pr.ttl, ExpireIn(s.now, pr.ttl), respSrc);
    RecordKeeps(s, s', p, SaveLocal(Found(data, |s.log|), s.now), e);
    LongerLogKeepsLocks(s, s', e);
    LongerLogKeepsLocal(s, s', e);
  }

  lemma SetGroupcacheKeeps(s: State, p: nat, node: nat, err: bool)
    requires Inv(s) && p in s.procs && s.procs[p].pc.SaveLocal?
    ensures Inv(SetGroupcacheCommand(s, p, s.procs[p].pc.found, s.procs[p].pc.setAt, node, err))
  {
    var pr := s.procs[p];
    var SaveLocal(found, setAt) := pr.pc;
    if err {
      MoveKeeps(s, p, Done);
    } else {
      var ttl := TtlReply(pr.ttl, setAt, found.src);
      PutCopyKeeps(s, p, Done, node, Copied(p, pr.key, found, ExpireIn(s.now, pr.ttl), ttl, setAt, s.now, AfterSet));
    }
  }

  lemma LookupKeeps(s: State, p: nat, node: nat)
    requires Inv(s) && p in s.procs
    ensures Inv(LookupCommand(s, p, node))
  {
    var key := s.procs[p].key;
    if (node, key) in s.local && Alive(s.local[(node, key)].expire, s.now) {
      var c := s.local[(node, key)];
      assert EventOk(s.waitEta, s.log[..c.event], s.log[c.event]);
      assert s.log[..c.event][c.found.src] == s.log[c.found.src];
      NoteKeeps(s, LookupCommand(s, p, node), p, Serve(c.found), LocalHit(key, c.event, s.now));
    }
  }

  lemma ShareKeeps(s: State, p: nat, other: nat)
    requires Inv(s) && p in s.procs
    ensures Inv(ShareCommand(s, p, other))
  {
    if other in s.procs && s.procs[other].key == s.procs[p].key && s.procs[other].pc.Serve? {
      MoveKeeps(s, p, s.procs[other].pc);
    }
  }

  lemma GetKeeps(s: State, p: nat, err: bool)
    requires Inv(s) && p in s.procs && s.procs[p].pc.SendGet?
    ensures Inv(Acted(s, p, Get(err)))
  {
    MoveKeeps(s, p, SendTtl(s.procs[p].pc.built, if err then Failed else GetCommand(s, s.procs[p].key)));
  }

  lemma TtlKeeps(s: State, p: nat, err: bool)
    requires Inv(s) && p in s.procs && s.procs[p].pc.SendTtl?
    ensures Inv(Acted(s, p, Ttl(err)))
  {
    TtlCommandOk(s, s.procs[p].key, err);
    var SendTtl(built, reply) := s.procs[p].pc;
    MoveKeeps(s, p, SendSetNx(built, reply, TtlCommand(s, s.procs[p].key, err)));
  }

  lemma EtaIsNear(s: State, p: nat, w: WaitState)
    requires p in s.procs && s.procs[p].arrived <= w.since == s.now && w.polls == 0
    requires w.eta <= s.now + s.waitEta
    ensures PcOk(s.log, s.now, s.waitEta, s.procs[p].(pc := Wait(w)))
  {
  }

  lemma GetEtaKeeps(s: State, p: nat, err: bool)
    requires Inv(s) && p in s.procs && s.procs[p].pc.ReadEta?
    ensures Inv(EtaCommand(s, p, s.procs[p].pc.built, err))
  {
    var key := s.procs[p].key;
    var eta := if LockHeld(s, key) && !err then s.locks[key].eta else s.procs[p].pc.built + s.waitEta;
    var w := WaitState(eta, s.now, 0);
    assert EtaCommand(s, p, s.procs[p].pc.built, err) == Goto(s, p, Wait(w));
    EtaIsNear(s, p, w);
    MoveKeeps(s, p, Wait(w));
  }

  lemma WakeKeeps(s: State, p: nat)
    requires Inv(s) && p in s.procs && s.procs[p].pc.Sleep?
    ensures Inv(Acted(s, p, Wake))
  {
    if s.now >= s.procs[p].pc.until {
      MoveKeeps(s, p, Wait(s.procs[p].pc.w));
    }
  }

  lemma AbandonKeeps(s: State, p: nat, a: Action)
    requires Inv(s) && p in s.procs && (a.Abort? || a.Timeout?)
    ensures Inv(Acted(s, p, a))
  {
    MoveKeeps(s, p, Upstream);
  }

  lemma ActedKeeps(s: State, p: nat, a: Action)
    requires Inv(s) && p in s.procs
    ensures Inv(Acted(s, p, a))
  {
    if Fits(s.procs[p].pc, a) {
      EnabledKeeps(s, p, a);
    }
  }

  lemma EnabledKeeps(s: State, p: nat, a: Action)
    requires Inv(s) && p in s.procs && Fits(s.procs[p].pc, a)
    ensures Inv(Acted(s, p, a))
  {
    match a
    case LookupHit(node) => LookupKeeps(s, p, node);
    case LookupShared(other) => ShareKeeps(s, p, other);
    case LookupMiss => MoveKeeps(s, p, SendGet(s.now));
    case Get(err) => GetKeeps(s, p, err);
    case Ttl(err) => TtlKeeps(s, p, err);
    case SetNx(err) => SetNxKeeps(s, p, err);
    case Branch => BranchKeeps(s, p);
    case GetEta(err) => GetEtaKeeps(s, p, err);
    case Poll(err) => PollKeeps(s, p, err);
    case GetPollTtl(err) => PollTtlKeeps(s, p, err);
    case Timeout => AbandonKeeps(s, p, a);
    case Wake => WakeKeeps(s, p);
    case SetBytes(node) => SetBytesKeeps(s, p, node);
    case Abort => AbandonKeeps(s, p, a);
    case Send => SendKeeps(s, p);
    case Answer(status, body, types, failed) => AnswerKeeps(s, p, status, body, types, failed);
    case SetRedis(err) => SetRedisKeeps(s, p, err);
    case SetGroupcache(node, err) => SetGroupcacheKeeps(s, p, node, err);
  }

  lemma TickKeeps(s: State, ms: nat)
    requires Inv(s)
    ensures Inv(Apply(s, Tick(ms)))
  {
    var s' := Apply(s, Tick(ms));
    forall q | q in s'.procs ensures PcOk(s'.log, s'.now, s'.waitEta, s'.procs[q]) {
      PcOkLater(s.log, s.now, s.waitEta, s.procs[q], s'.log, s'.now);
    }
  }

  lemma ArriveKeeps(s: State, p: nat, key: string, cacheKey: uint64, ttl: int)
    requires Inv(s)
    ensures Inv(Apply(s, Arrive(p, key, cacheKey, ttl)))
  {
  }

  lemma PeerCopyKeeps(s: State, source: nat, target: nat, key: string)
    requires Inv(s)
    ensures Inv(Apply(s, PeerCopy(source, target, key)))
  {
  }

  lemma EvictKeeps(s: State, node: nat, key: string)
    requires Inv(s)
    ensures Inv(Apply(s, Evict(node, key)))
  {
  }

  lemma DropKeeps(s: State, key: string)
    requires Inv(s)
    ensures Inv(Apply(s, DropEntry(key)))
  {
  }

  /** Every step keeps the invariant. */
  lemma StepKeeps(s: State, step: Step)
    requires Inv(s)
    ensures Inv(Apply(s, step))
  {
    match step
    case Tick(ms) => TickKeeps(s, ms);
    case Arrive(p, key, cacheKey, ttl) => ArriveKeeps(s, p, key, cacheKey, ttl);
    case Act(p, a) => if p in s.procs { ActedKeeps(s, p, a); }
    case PeerCopy(source, target, key) => PeerCopyKeeps(s, source, target, key);
    case Evict(node, key) => EvictKeeps(s, node, key);
    case DropEntry(key) => DropKeeps(s, key);
  }

  /** Every run from an empty cache keeps the invariant. */
  lemma {:induction false} RunKeeps(now: Time, waitEta: nat, steps: seq<Step>)
    ensures Inv(Run(Init(now, waitEta), steps))
  {
    if steps != [] {
      RunKeeps(now, waitEta, steps[..|steps| - 1]);
      StepKeeps(Run(Init(now, waitEta), steps[..|steps| - 1]), steps[|steps| - 1]);
    }
  }
}
