/**
 * The two-tier query cache as a transition system (src/cache_service.go:209-449,
 * src/fiber_graphql_handler.go:42-110, src/main.go:88-97).
 *
 * Any number of requests on any number of nodes share one Redis and one clock.  A
 * request is a process with a program counter; each Redis command, each groupcache
 * access and each clock read is one atomic step, so the three commands of the lookup
 * pipeline interleave with those of other requests.  A step that is not enabled
 * leaves the state as it is, so every sequence of steps is a run.
 *
 * `log` records what happened, in order.  Positions in the log (the fields `src`,
 * `event` and `respSrc`) are history only: no guard reads them.
 */
module CacheProtocol {
  import opened Common
  import Codec
  import Metadata

  type Bytes = seq<byte>

  /** Instants and durations, in milliseconds. */
  type Time = int

  datatype Entry = Entry(data: Bytes, expiry: Option<Time>, src: nat)

  /** The ETA lock: its value and the instant Redis drops it. */
  datatype Lock = Lock(eta: Time, expiry: Time)

  /** A value together with the position of the Stored event that wrote it. */
  datatype Found = Found(data: Bytes, src: nat)

  /** A groupcache copy; `event` is the position of its Copied event. */
  datatype Copy = Copy(found: Found, expire: Option<Time>, event: nat)

  datatype GetReply = Hit(found: Found) | Nil | Failed

  /** A TTL reply in seconds (or -1, -2, or 0 on failure), when it was read, and from which write. */
  datatype TtlReply = TtlReply(seconds: int, at: Time, src: nat)

  /** How a groupcache copy came about: a getter hit, the wait loop, or RedisCacheClient.Set. */
  datatype Path = Direct | Waited | AfterSet

  datatype Event =
    | Responded(key: string, cacheKey: uint64, status: int, body: Bytes, meta: Bytes, failed: bool,
        seconds: int, at: Time)
    | Stored(key: string, data: Bytes, seconds: int, expiry: Option<Time>, at: Time, respSrc: nat)
    | Locked(key: string, at: Time, onHit: bool)
    | Polled(proc: nat, key: string, at: Time, eta: Time, since: Time, arrived: Time, count: nat)
    | Copied(proc: nat, key: string, found: Found, expire: Option<Time>, ttl: TtlReply, began: Time,
        at: Time, path: Path)
    | LocalHit(key: string, copy: nat, at: Time)
    | Served(key: string, body: Bytes, meta: Bytes, src: nat, maxAge: int, at: Time)
    | ServeFailed(key: string)

  /** The loop variables of the wait: the ETA, when the wait began, and the polls that found nothing. */
  datatype WaitState = WaitState(eta: Time, since: Time, polls: nat)

  datatype Pc =
    | Lookup
    | SendGet(built: Time)
    | SendTtl(built: Time, reply: GetReply)
    | SendSetNx(built: Time, reply: GetReply, ttl: TtlReply)
    | Decide(built: Time, reply: GetReply, ttl: TtlReply, acquired: bool)
    | ReadEta(built: Time)
    | Wait(w: WaitState)
    | PollTtl(w: WaitState, found: Found)
    | Sleep(w: WaitState, until: Time)
    | Fill(found: Found, ttl: TtlReply, began: Time, path: Path)
    | Serve(found: Found)
    | Upstream
    | Save(body: Bytes, meta: Bytes, respSrc: nat)
    | SaveLocal(found: Found, setAt: Time)
    | Done

  /** A request: its Redis key, its cache key, its TTL and the instant its lookup began. */
  datatype Proc = Proc(key: string, cacheKey: uint64, ttl: int, arrived: Time, pc: Pc)

  datatype State = State(
    now: Time,
    waitEta: nat,
    redis: map<string, Entry>,
    locks: map<string, Lock>,
    local: map<(nat, string), Copy>,
    procs: map<nat, Proc>,
    log: seq<Event>)

  /** What a process does next; the choices an action carries are made by its environment. */
  datatype Action =
    | LookupHit(node: nat)
    | LookupShared(other: nat)
    | LookupMiss
    | Get(err: bool)
    | Ttl(err: bool)
    | SetNx(err: bool)
    | Branch
    | GetEta(err: bool)
    | Poll(err: bool)
    | GetPollTtl(err: bool)
    | Timeout
    | Wake
    | SetBytes(node: nat)
    | Abort
    | Send
    | Answer(status: int, body: Bytes, types: Bytes, failed: bool)
    | SetRedis(err: bool)
    | SetGroupcache(node: nat, err: bool)

  datatype Step =
    | Tick(ms: nat)
    | Arrive(proc: nat, key: string, cacheKey: uint64, ttl: int)
    | Act(proc: nat, action: Action)
    | PeerCopy(source: nat, target: nat, key: string)
    | Evict(node: nat, key: string)
    | DropEntry(key: string)

  // ----- shared state -----

  predicate Alive(expiry: Option<Time>, now: Time) {
    expiry.None? || now < expiry.value
  }

  predicate InRedis(s: State, key: string) {
    key in s.redis && Alive(s.redis[key].expiry, s.now)
  }

  function GetCommand(s: State, key: string): GetReply {
    if InRedis(s, key) then Hit(Found(s.redis[key].data, s.redis[key].src)) else Nil
  }

  /** Redis answers TTL in seconds, rounded to the nearest; a failed command reads as 0. */
  function TtlCommand(s: State, key: string, err: bool): TtlReply {
    if err then TtlReply(0, s.now, 0)
    else if !InRedis(s, key) then TtlReply(-2, s.now, 0)
    else
      var e := s.redis[key];
      TtlReply(if e.expiry.None? then -1 else (e.expiry.value - s.now + 500) / 1000, s.now, e.src)
  }

  predicate LockHeld(s: State, key: string) {
    key in s.locks && s.now < s.locks[key].expiry
  }

  /** A step of process `p`: nothing of any process changes but its counter, and the log only grows. */
  predicate Moves(s: State, t: State, p: nat) {
    && p in s.procs && p in t.procs && t.procs == s.procs[p := s.procs[p].(pc := t.procs[p].pc)]
    && t.waitEta == s.waitEta && t.now == s.now && s.log <= t.log
  }

  function Goto(s: State, p: nat, pc: Pc): (t: State)
    requires p in s.procs
    ensures Moves(s, t, p)
  {
    s.(procs := s.procs[p := s.procs[p].(pc := pc)])
  }

  /** The instant `seconds` from now, or no expiry. */
  function ExpireIn(now: Time, seconds: int): Option<Time> {
    if seconds > 0 then Some(now + seconds * 1000) else None
  }

  // ----- the getter, lines 210-344 -----

  function SetNxCommand(s: State, p: nat, built: Time, reply: GetReply, ttl: TtlReply, err: bool): (t: State)
    requires p in s.procs
    ensures Moves(s, t, p)
  {
    var key := s.procs[p].key;
    if s.waitEta == 0 || err || LockHeld(s, key) then Goto(s, p, Decide(built, reply, ttl, false))
    else
      Goto(s, p, Decide(built, reply, ttl, true)).(
        locks := s.locks[key := Lock(built + s.waitEta, s.now + s.waitEta)],
        log := s.log + [Locked(key, s.now, reply.Hit?)])
  }

  function BranchOnReply(s: State, p: nat, pc: Pc): (t: State)
    requires p in s.procs && pc.Decide?
    ensures Moves(s, t, p)
  {
    match pc.reply
    case Hit(found) => Goto(s, p, Fill(found, pc.ttl, pc.built, Direct))
    case Failed => Goto(s, p, Upstream)
    case Nil => Goto(s, p, if s.waitEta > 0 && !pc.acquired then ReadEta(pc.built) else Upstream)
  }

  function PollCommand(s: State, p: nat, w: WaitState, err: bool): (t: State)
    requires p in s.procs
    ensures Moves(s, t, p)
  {
    var key := s.procs[p].key;
    if s.now >= w.eta then s
    else if err then Goto(s, p, Upstream)
    else match GetCommand(s, key)
      case Hit(found) => Goto(s, p, PollTtl(w, found))
      case _ =>
        Goto(s, p, Sleep(w.(polls := w.polls + 1), s.now + 5)).(
          log := s.log + [Polled(p, key, s.now, w.eta, w.since, s.procs[p].arrived, w.polls + 1)])
  }

  function PollTtlCommand(s: State, p: nat, w: WaitState, found: Found, err: bool): (t: State)
    requires p in s.procs
    ensures Moves(s, t, p)
  {
    var ttl := TtlCommand(s, s.procs[p].key, err);
    if ttl.seconds == -1 || ttl.seconds > 0 then Goto(s, p, Fill(found, ttl, w.since, Waited))
    else Goto(s, p, Wait(w))
  }

  /** Process `p` stores a copy in a node's groupcache; this is recorded. */
  function PutCopy(s: State, p: nat, node: nat, key: string, found: Found, expire: Option<Time>, ttl: TtlReply,
      began: Time, path: Path): State {
    s.(local := s.local[(node, key) := Copy(found, expire, |s.log|)],
       log := s.log + [Copied(p, key, found, expire, ttl, began, s.now, path)])
  }

  /** dest.SetBytes: the value goes to a node's groupcache and to the caller. */
  function FillCommand(s: State, p: nat, found: Found, ttl: TtlReply, began: Time, path: Path, node: nat): (t: State)
    requires p in s.procs
    ensures Moves(s, t, p)
  {
    PutCopy(Goto(s, p, Serve(found)), p, node, s.procs[p].key, found, ExpireIn(s.now, ttl.seconds), ttl, began, path)
  }

  // ----- the handler -----

  function ServeData(s: State, p: nat, found: Found): (t: State)
    requires p in s.procs
    ensures Moves(s, t, p)
  {
    var key := s.procs[p].key;
    var outcome :=
      if !Codec.Holdable(found.data) then ServeFailed(key)
      else match Codec.Decode(found.data)
        case Decoded(body, meta) =>
          (match Metadata.Unmarshal(meta)
           case Some(expiresAt) => Served(key, body, meta, found.src, Metadata.MaxAge(expiresAt, s.now), s.now)
           case None => ServeFailed(key))
        case _ => ServeFailed(key);
    Goto(s, p, Done).(log := s.log + [outcome])
  }

  /** The metadata of an entry built now; `types` holds the content type and encoding. */
  function MetaNow(s: State, p: nat, types: Bytes): Bytes
    requires p in s.procs
  {
    Metadata.Marshal(Metadata.ExpiresAt(s.now, s.procs[p].ttl), types)
  }

  /** An answer that the handler goes on to save; one that no slice can hold is not. */
  predicate Saves(pr: Proc, status: int, body: Bytes, meta: Bytes) {
    pr.ttl != 0 && pr.cacheKey > 0 && status == 200 && Codec.Holdable(Codec.Encode(body, meta))
  }

  /** The response object as processProxyResponse reads it; `failed` says the upstream call returned an error. */
  function Respond(s: State, p: nat, status: int, body: Bytes, types: Bytes, failed: bool): (t: State)
    requires p in s.procs
    ensures Moves(s, t, p)
  {
    var pr := s.procs[p];
    var meta := MetaNow(s, p, types);
    Goto(s, p, if Saves(pr, status, body, meta) then Save(body, meta, |s.log|) else Done).(
      log := s.log + [Responded(pr.key, pr.cacheKey, status, body, meta, failed, pr.ttl, s.now)])
  }

  /** RedisCacheClient.Set up to the Redis write. */
  function SetRedisCommand(s: State, p: nat, body: Bytes, meta: Bytes, respSrc: nat, err: bool): (t: State)
    requires p in s.procs
    ensures Moves(s, t, p)
  {
    var pr := s.procs[p];
    if !(pr.ttl == -1 || pr.ttl > 0) || err then Goto(s, p, Done)
    else
      var data := Codec.Encode(body, meta);
      var expiry := ExpireIn(s.now, pr.ttl);
      Goto(s, p, SaveLocal(Found(data, |s.log|), s.now)).(
        redis := s.redis[pr.key := Entry(data, expiry, |s.log|)],
        log := s.log + [Stored(pr.key, data, pr.ttl, expiry, s.now, respSrc)])
  }

  function SetGroupcacheCommand(s: State, p: nat, found: Found, setAt: Time, node: nat, err: bool): (t: State)
    requires p in s.procs
    ensures Moves(s, t, p)
  {
    var pr := s.procs[p];
    if err then Goto(s, p, Done)
    else PutCopy(Goto(s, p, Done), p, node, pr.key, found, ExpireIn(s.now, pr.ttl),
        TtlReply(pr.ttl, setAt, found.src), setAt, AfterSet)
  }

  /** The points from which a failed lookup falls through to the upstream engine. */
  predicate InLookup(pc: Pc) {
    match pc
    case Lookup | SendGet(_) | SendTtl(_, _) | SendSetNx(_, _, _) | Decide(_, _, _, _) => true
    case ReadEta(_) | Wait(_) | PollTtl(_, _) | Sleep(_, _) | Fill(_, _, _, _) => true
    case _ => false
  }

  /** The action belongs to the program counter. */
  predicate Fits(pc: Pc, a: Action) {
    match a
    case LookupHit(_) => pc.Lookup?
    case LookupShared(_) => pc.Lookup?
    case LookupMiss => pc.Lookup?
    case Get(_) => pc.SendGet?
    case Ttl(_) => pc.SendTtl?
    case SetNx(_) => pc.SendSetNx?
    case Branch => pc.Decide?
    case GetEta(_) => pc.ReadEta?
    case Poll(_) => pc.Wait?
    case Timeout => pc.Wait?
    case GetPollTtl(_) => pc.PollTtl?
    case Wake => pc.Sleep?
    case SetBytes(_) => pc.Fill?
    case Abort => InLookup(pc)
    case Send => pc.Serve?
    case Answer(_, _, _, _) => pc.Upstream?
    case SetRedis(_) => pc.Save?
    case SetGroupcache(_, _) => pc.SaveLocal?
  }

  /** Shared flight: groupcache hands one getter's result to every request waiting for the key. */
  function ShareCommand(s: State, p: nat, other: nat): (t: State)
    requires p in s.procs
    ensures Moves(s, t, p)
  {
    if other in s.procs && s.procs[other].key == s.procs[p].key && s.procs[other].pc.Serve?
    then Goto(s, p, s.procs[other].pc) else s
  }

  function LookupCommand(s: State, p: nat, node: nat): (t: State)
    requires p in s.procs
    ensures Moves(s, t, p)
  {
    var at := (node, s.procs[p].key);
    if at in s.local && Alive(s.local[at].expire, s.now)
    then Goto(s, p, Serve(s.local[at].found)).(log := s.log + [LocalHit(s.procs[p].key, s.local[at].event, s.now)])
    else s
  }

  function EtaCommand(s: State, p: nat, built: Time, err: bool): (t: State)
    requires p in s.procs
    ensures Moves(s, t, p)
  {
    var key := s.procs[p].key;
    Goto(s, p, Wait(WaitState(if LockHeld(s, key) && !err then s.locks[key].eta else built + s.waitEta, s.now, 0)))
  }

  /** What the branch on GET's reply leads to. */
  predicate FollowsReply(pc: Pc, next: Pc)
    requires pc.Decide?
  {
    match pc.reply
    case Hit(found) => next.Fill? && next.found == found && next.ttl == pc.ttl && next.path == Direct
    case Nil => next.Upstream? || (next.ReadEta? && !pc.acquired)
    case Failed => next.Upstream?
  }

  /** The edges of the control flow: where an action may leave the process. */
  predicate Follows(pc: Pc, a: Action, next: Pc) {
    match a
    case LookupHit(_) => next == pc || next.Serve?
    case LookupShared(_) => next == pc || next.Serve?
    case LookupMiss => next.SendGet?
    case Get(_) => next.SendTtl?
    case Ttl(_) => pc.SendTtl? && next.SendSetNx? && next.reply == pc.reply
    case SetNx(_) => pc.SendSetNx? && next.Decide? && next.reply == pc.reply && next.ttl == pc.ttl
    case Branch => pc.Decide? && FollowsReply(pc, next)
    case GetEta(_) => next.Wait? && next.w.polls == 0
    case Poll(_) =>
      || next == pc || next.Upstream?
      || (pc.Wait? && ((next.PollTtl? && next.w == pc.w) || (next.Sleep? && next.w == pc.w.(polls := pc.w.polls + 1))))
    case Timeout => next == pc || next.Upstream?
    case GetPollTtl(_) => (next.Fill? && next.path == Waited) || (pc.PollTtl? && next == Wait(pc.w))
    case Wake => next == pc || (pc.Sleep? && next == Wait(pc.w))
    case SetBytes(_) => pc.Fill? && next == Serve(pc.found)
    case Abort => next.Upstream?
    case Send => next.Done?
    case Answer(_, _, _, _) => next.Save? || next.Done?
    case SetRedis(_) => next.SaveLocal? || next.Done?
    case SetGroupcache(_, _) => next.Done?
  }

  function Enabled(s: State, p: nat, a: Action): (t: State)
    requires p in s.procs && Fits(s.procs[p].pc, a)
    ensures Moves(s, t, p)
  {
    var pr := s.procs[p];
    match a
    case LookupHit(node) => LookupCommand(s, p, node)
    case LookupShared(other) => ShareCommand(s, p, other)
    case LookupMiss => Goto(s, p, SendGet(s.now))
    case Get(err) => Goto(s, p, SendTtl(pr.pc.built, if err then Failed else GetCommand(s, pr.key)))
    case Ttl(err) => Goto(s, p, SendSetNx(pr.pc.built, pr.pc.reply, TtlCommand(s, pr.key, err)))
    case SetNx(err) => SetNxCommand(s, p, pr.pc.built, pr.pc.reply, pr.pc.ttl, err)
    case Branch => BranchOnReply(s, p, pr.pc)
    case GetEta(err) => EtaCommand(s, p, pr.pc.built, err)
    case Poll(err) => PollCommand(s, p, pr.pc.w, err)
    case Timeout => if s.now >= pr.pc.w.eta then Goto(s, p, Upstream) else s
    case GetPollTtl(err) => PollTtlCommand(s, p, pr.pc.w, pr.pc.found, err)
    case Wake => if s.now >= pr.pc.until then Goto(s, p, Wait(pr.pc.w)) else s
    case SetBytes(node) => FillCommand(s, p, pr.pc.found, pr.pc.ttl, pr.pc.began, pr.pc.path, node)
    case Abort => Goto(s, p, Upstream)
    case Send => ServeData(s, p, pr.pc.found)
    case Answer(status, body, types, failed) => Respond(s, p, status, body, types, failed)
    case SetRedis(err) => SetRedisCommand(s, p, pr.pc.body, pr.pc.meta, pr.pc.respSrc, err)
    case SetGroupcache(node, err) => SetGroupcacheCommand(s, p, pr.pc.found, pr.pc.setAt, node, err)
  }

  function Acted(s: State, p: nat, a: Action): (t: State)
    requires p in s.procs
    ensures Moves(s, t, p)
  {
    if Fits(s.procs[p].pc, a) then Enabled(s, p, a) else s
  }

  function Apply(s: State, step: Step): State {
    match step
    case Tick(ms) => s.(now := s.now + ms)
    case Arrive(p, key, cacheKey, ttl) =>
      if p in s.procs || ttl == 0 then s else s.(procs := s.procs[p := Proc(key, cacheKey, ttl, s.now, Lookup)])
    case Act(p, a) => if p in s.procs then Acted(s, p, a) else s
    case PeerCopy(source, target, key) =>
      if (source, key) in s.local then s.(local := s.local[(target, key) := s.local[(source, key)]]) else s
    case Evict(node, key) => s.(local := s.local - {(node, key)})
    case DropEntry(key) => s.(redis := s.redis - {key})
  }

  function Init(now: Time, waitEta: nat): State {
    State(now, waitEta, map[], map[], map[], map[], [])
  }

  /** The state after a run. */
  function Run(s: State, steps: seq<Step>): State {
    if steps == [] then s else Apply(Run(s, steps[..|steps| - 1]), steps[|steps| - 1])
  }
}
