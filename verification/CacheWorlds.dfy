/**
 * What a request is bound to find, told from the worlds it passes through.  A world is a
 * state of the protocol; the environment fixes what the others do in each gap between two
 * steps of the request, so each world follows from the first.  What is found in a world is
 * read off its Redis and groupcache maps.
 */
module CacheWorlds {
  import opened Common
  import opened CacheProtocol
  import opened CacheTheorems
  import opened CacheSteps

  /** The milliseconds that pass during some steps. */
  function Elapsed(steps: seq<Step>): nat {
    if steps == [] then 0
    else Elapsed(steps[..|steps| - 1]) + if steps[|steps| - 1].Tick? then steps[|steps| - 1].ms else 0
  }

  /** Steps of the environment of process `p`. */
  predicate ByOthers(p: nat, steps: seq<Step>) {
    forall i :: 0 <= i < |steps| ==> !(steps[i].Act? && steps[i].proc == p)
  }

  /**
   * Everything a request does not control: what others do in the i-th gap between its
   * steps, which commands fail, and which node owns the key.
   */
  datatype Env = Env(others: nat -> seq<Step>, fails: nat -> bool, node: nat)

  /** Every gap takes at least a millisecond and moves only the others. */
  ghost predicate ValidEnv(p: nat, env: Env) {
    forall i :: ByOthers(p, env.others(i)) && Elapsed(env.others(i)) > 0
  }

  lemma {:induction false} OthersRun(s: State, p: nat, steps: seq<Step>)
    requires Reachable(s) && p in s.procs && ByOthers(p, steps)
    ensures var t := Run(s, steps);
            && Reachable(t) && p in t.procs && t.procs[p] == s.procs[p] && t.waitEta == s.waitEta && s.log <= t.log
            && t.now == s.now + Elapsed(steps)
  {
    if steps != [] {
      var m := |steps| - 1;
      OthersRun(s, p, steps[..m]);
      OthersStep(Run(s, steps[..m]), p, steps[m]);
      ReachableStep(Run(s, steps[..m]), steps[m]);
    }
  }

  /** A node's groupcache can answer for the key. */
  predicate HasLiveCopy(s: State, node: nat, key: string) {
    (node, key) in s.local && Alive(s.local[(node, key)].expire, s.now)
  }

  /** The world in which the request takes its next step, if the others run now. */
  ghost function Others(s: State, p: nat, env: Env, gap: nat): (t: State)
    requires Reachable(s) && p in s.procs && ValidEnv(p, env)
    ensures Reachable(t) && p in t.procs && t.procs[p] == s.procs[p] && t.now > s.now && t.waitEta == s.waitEta
  {
    OthersRun(s, p, env.others(gap));
    Run(s, env.others(gap))
  }

  /** The world after an action of the request. */
  ghost function Then(s: State, p: nat, a: Action): (t: State)
    requires Reachable(s) && p in s.procs
    ensures Reachable(t) && p in t.procs && t.procs[p].key == s.procs[p].key && t.now == s.now
    ensures t == Acted(s, p, a) && t.waitEta == s.waitEta
  {
    ReachableStep(s, Act(p, a));
    Acted(s, p, a)
  }

  /** The world in which the request takes the step after an action. */
  ghost function After(s: State, p: nat, a: Action, env: Env, gap: nat): (t: State)
    requires Reachable(s) && p in s.procs && ValidEnv(p, env)
    ensures Reachable(t) && p in t.procs && t.procs[p].key == s.procs[p].key && t.now > s.now && t.waitEta == s.waitEta
  {
    Others(Then(s, p, a), p, env, gap)
  }

  /** The world in which a sleep until `until` is over, and the gap that comes next. */
  ghost function Woken(s: State, p: nat, env: Env, gap: nat, until: Time): (r: (State, nat))
    requires Reachable(s) && p in s.procs && ValidEnv(p, env)
    ensures Reachable(r.0) && p in r.0.procs && r.0.procs[p].key == s.procs[p].key && r.0.now >= s.now
    ensures r.0.waitEta == s.waitEta
    decreases until - s.now
  {
    if s.now >= until then (Then(s, p, Wake), gap) else Woken(Others(s, p, env, gap), p, env, gap + 1, until)
  }

  /** What Redis holds under the key, with the write it comes from. */
  function Held(u: State, key: string): Found
    requires InRedis(u, key)
  {
    Found(u.redis[key].data, u.redis[key].src)
  }

  /** A TTL command in this world succeeds and answers -1 or a positive number of seconds. */
  predicate TellsLife(u: State, key: string, fails: bool) {
    !fails && InRedis(u, key) && (u.redis[key].expiry.None? || u.redis[key].expiry.value - u.now >= 500)
  }

  /** The world after a poll that does not fail: after its TTL if it finds the key, else after the sleep. */
  ghost function PollDone(s: State, p: nat, env: Env, gap: nat): (r: (State, nat))
    requires Reachable(s) && p in s.procs && ValidEnv(p, env)
    ensures Reachable(r.0) && p in r.0.procs && r.0.procs[p].key == s.procs[p].key && r.0.now > s.now
    ensures r.0.waitEta == s.waitEta
  {
    var t := After(s, p, Poll(false), env, gap);
    if InRedis(s, s.procs[p].key) then (After(t, p, GetPollTtl(env.fails(gap + 1)), env, gap + 1), gap + 2)
    else Woken(t, p, env, gap + 1, s.now + 5)
  }

  /** A poll finds the key in Redis, and the TTL that follows it tells the key's life. */
  ghost predicate Finds(s: State, p: nat, env: Env, gap: nat)
    requires Reachable(s) && p in s.procs && ValidEnv(p, env)
  {
    InRedis(s, s.procs[p].key) && TellsLife(After(s, p, Poll(false), env, gap), s.procs[p].key, env.fails(gap + 1))
  }

  /** What the polling loop finds: the value of the first poll before the ETA that finds one. */
  ghost function LoopFinds(s: State, p: nat, env: Env, gap: nat, eta: Time): Option<Found>
    requires Reachable(s) && p in s.procs && ValidEnv(p, env)
    decreases eta - s.now
  {
    if s.now >= eta || env.fails(gap) then None
    else if Finds(s, p, env, gap) then Some(Held(s, s.procs[p].key))
    else
      var (u, next) := PollDone(s, p, env, gap);
      LoopFinds(u, p, env, next, eta)
  }

  /**
   * What a wait finds whose pipeline was built at `built`: it ends with the lock's ETA, or, if
   * that cannot be read, with its own.
   */
  ghost function WaitFinds(y: State, p: nat, env: Env, gap: nat, built: Time): Option<Found>
    requires Reachable(y) && p in y.procs && ValidEnv(p, env)
  {
    var key := y.procs[p].key;
    var eta := if LockHeld(y, key) && !env.fails(gap) then y.locks[key].eta else built + y.waitEta;
    LoopFinds(Then(y, p, GetEta(env.fails(gap))), p, env, gap + 1, eta)
  }

  /** The world in which GET runs. */
  ghost function AtGet(s: State, p: nat, env: Env): (v: State)
    requires Reachable(s) && p in s.procs && ValidEnv(p, env)
    ensures Reachable(v) && p in v.procs && v.procs[p].key == s.procs[p].key && v.waitEta == s.waitEta
  {
    After(s, p, LookupMiss, env, 0)
  }

  /** The world in which SETNX runs, GET having succeeded. */
  ghost function AtSetNx(s: State, p: nat, env: Env): (x: State)
    requires Reachable(s) && p in s.procs && ValidEnv(p, env)
    ensures Reachable(x) && p in x.procs && x.procs[p].key == s.procs[p].key && x.waitEta == s.waitEta
  {
    After(After(AtGet(s, p, env), p, Get(false), env, 1), p, Ttl(env.fails(2)), env, 2)
  }

  /** The world in which the ETA is read. */
  ghost function AtReadEta(s: State, p: nat, env: Env): (y: State)
    requires Reachable(s) && p in s.procs && ValidEnv(p, env)
    ensures Reachable(y) && p in y.procs && y.procs[p].key == s.procs[p].key && y.waitEta == s.waitEta
  {
    After(After(AtSetNx(s, p, env), p, SetNx(env.fails(3)), env, 3), p, Branch, env, 4)
  }

  /**
   * What the getter finds: the value of its GET; or, if GET found nothing and another request
   * holds the lock, what the polling loop finds before that lock's ETA.
   */
  ghost function GetterFinds(s: State, p: nat, env: Env): Option<Found>
    requires Reachable(s) && p in s.procs && ValidEnv(p, env)
  {
    var key := s.procs[p].key;
    var v, x, y := AtGet(s, p, env), AtSetNx(s, p, env), AtReadEta(s, p, env);
    if env.fails(1) then None
    else if InRedis(v, key) then Some(Held(v, key))
    else if s.waitEta == 0 || (!env.fails(3) && !LockHeld(x, key)) then None
    else WaitFinds(y, p, env, 5, s.now)
  }

  /** What a lookup finds: a live copy on the owner's node, or what the getter finds. */
  ghost function LookupFinds(s: State, p: nat, env: Env): Option<Found>
    requires Reachable(s) && p in s.procs && ValidEnv(p, env)
  {
    var key := s.procs[p].key;
    if HasLiveCopy(s, env.node, key) then Some(s.local[(env.node, key)].found) else GetterFinds(s, p, env)
  }
}
