/**
 * Peer discovery (src/cache_service.go:118-185, 438-444, 451-457): every node adds its URL
 * to a Redis set once a second and gives what it reads back to its groupcache pool.
 */
module Membership {

  type Url = string

  function Elements(s: seq<Url>): set<Url> {
    set x | x in s
  }

  /** A reply of SMEMBERS: the members in some order. */
  predicate Enumerates(reply: seq<Url>, members: set<Url>) {
    Elements(reply) == members && |reply| == |members|
  }

  /**
   * A node's pool and the list the loop compares with.  The rest is history: whether a
   * removal hit one of its ticks, and whether its startup read failed with no list taken since.
   */
  datatype View = View(pool: seq<Url>, tracked: seq<Url>, disturbed: bool, unread: bool)

  /**
   * Between its startup SADD and SMEMBERS a node has no pool yet; between the two commands
   * of a tick, `removed` says whether its URL was taken out of the set meanwhile (history).
   */
  datatype Node =
    | Starting(seeds: seq<Url>)
    | Idle(view: View)
    | Ticking(view: View, removed: bool)

  datatype State = State(members: set<Url>, nodes: map<Url, Node>)

  datatype Step =
    | StartAdd(url: Url, seeds: seq<Url>, err: bool)
    | StartRead(url: Url, reply: seq<Url>, err: bool)
    | TickAdd(url: Url)
    | TickRead(url: Url, reply: seq<Url>, err: bool)
    | Remove(url: Url)
    | Stop(url: Url)

  /** Lines 132-145: a failed read leaves the configured list in the pool and nothing tracked. */
  function Started(url: Url, seeds: seq<Url>, reply: seq<Url>, err: bool): View {
    if err then View(seeds, [], false, true)
    else
      var list := if url in reply then reply else reply + [url];
      View(list, list, false, false)
  }

  /** Lines 161-182: the pool is set only when the list differs from the tracked one. */
  function Ticked(view: View, reply: seq<Url>, err: bool): View {
    if err || reply == view.tracked then view else view.(pool := reply, tracked := reply, unread := false)
  }

  /**
   * A step that is not enabled changes nothing.  The error of the startup SADD is ignored; a
   * tick whose SADD fails ends there, which is no step at all.
   */
  function Apply(s: State, step: Step): State {
    match step
    case StartAdd(url, seeds, err) =>
      if url in s.nodes || seeds == [] || seeds[0] != url then s
      else State(if err then s.members else s.members + Elements(seeds), s.nodes[url := Starting(seeds)])
    case StartRead(url, reply, err) =>
      if url !in s.nodes || !s.nodes[url].Starting? || !(err || Enumerates(reply, s.members)) then s
      else s.(nodes := s.nodes[url := Idle(Started(url, s.nodes[url].seeds, reply, err))])
    case TickAdd(url) =>
      if url !in s.nodes || !s.nodes[url].Idle? then s
      else State(s.members + {url}, s.nodes[url := Ticking(s.nodes[url].view, false)])
    case TickRead(url, reply, err) =>
      if !Reads(s, step) then s
      else
        var Ticking(view, removed) := s.nodes[url];
        s.(nodes := s.nodes[url := Idle(Ticked(view, reply, err).(disturbed := view.disturbed || (removed && !err)))])
    case Remove(url) =>
      State(s.members - {url},
            if url in s.nodes && s.nodes[url].Ticking? then s.nodes[url := s.nodes[url].(removed := true)] else s.nodes)
    case Stop(url) => s.(nodes := s.nodes - {url})
  }

  /** The SMEMBERS of a tick can run. */
  predicate Reads(s: State, step: Step) {
    step.TickRead? && step.url in s.nodes && s.nodes[step.url].Ticking?
        && (step.err || Enumerates(step.reply, s.members))
  }

  function Run(s: State, steps: seq<Step>): State {
    if steps == [] then s else Apply(Run(s, steps[..|steps| - 1]), steps[|steps| - 1])
  }

  function Init(): State {
    State({}, map[])
  }

  // ----- the discovery loop of one node -----

  class Discovery {
    const url: Url
    var pool: seq<Url>
    var currentGroupcacheNodeUrls: seq<Url>

    /** Startup after the SADD, with the reply of SMEMBERS. */
    constructor (url: Url, seeds: seq<Url>, reply: seq<Url>, err: bool)
      ensures this.url == url
      ensures var v := Started(url, seeds, reply, err); pool == v.pool && currentGroupcacheNodeUrls == v.tracked
      ensures !err ==> url in pool
    {
      this.url := url;
      if err {
        pool := seeds;
        currentGroupcacheNodeUrls := [];
      } else {
        var groupcacheNodeUrls := reply;
        if url !in groupcacheNodeUrls {
          groupcacheNodeUrls := groupcacheNodeUrls + [url];
        }
        pool := groupcacheNodeUrls;
        currentGroupcacheNodeUrls := groupcacheNodeUrls;
      }
    }

    /** One round of the loop after its two commands. */
    method Tick(reply: seq<Url>, err: bool)
      modifies this
      ensures forall d, u :: var v := Ticked(View(old(pool), old(currentGroupcacheNodeUrls), d, u), reply, err);
                             pool == v.pool && currentGroupcacheNodeUrls == v.tracked
    {
      if err {
        return;
      }
      if currentGroupcacheNodeUrls != reply {
        pool := reply;
        currentGroupcacheNodeUrls := reply;
      }
    }
  }

  // ----- what every run keeps -----

  /** The tracked list is the pool's, or empty after a failed startup read, when the pool is the configured list. */
  predicate ViewOk(url: Url, view: View) {
    && (if view.unread then view.tracked == [] && url in view.pool else view.tracked == view.pool)
    && (!view.disturbed ==> url in view.pool)
  }

  predicate NodeOk(s: State, url: Url) {
    url in s.nodes ==>
      match s.nodes[url]
      case Starting(seeds) => url in seeds
      case Idle(view) => ViewOk(url, view)
      case Ticking(view, removed) => ViewOk(url, view) && (!removed ==> url in s.members)
  }

  ghost predicate Inv(s: State) {
    forall url :: NodeOk(s, url)
  }

  lemma StepKeeps(s: State, step: Step)
    requires Inv(s)
    ensures Inv(Apply(s, step))
  {
    var t := Apply(s, step);
    forall url ensures NodeOk(t, url) {
      assert NodeOk(s, url);
      if step.TickRead? && step.url == url && Reads(s, step) && !step.err {
        assert url in s.members ==> url in Elements(step.reply);
      }
    }
  }

  lemma {:induction false} RunKeeps(s: State, steps: seq<Step>)
    requires Inv(s)
    ensures Inv(Run(s, steps))
  {
    if steps != [] {
      RunKeeps(s, steps[..|steps| - 1]);
      StepKeeps(Run(s, steps[..|steps| - 1]), steps[|steps| - 1]);
    }
  }

  predicate HasPool(node: Node) {
    node.Idle? || node.Ticking?
  }

  /**
   * In every run: a node none of whose ticks was hit by a removal of its URL has itself in
   * its pool, and the tracked list is the one in the pool exactly unless the startup read
   * failed and no list was taken since.
   */
  lemma UndisturbedPoolHasSelf(steps: seq<Step>, url: Url)
    requires var s := Run(Init(), steps); url in s.nodes && HasPool(s.nodes[url])
    ensures var v := Run(Init(), steps).nodes[url].view;
            (!v.disturbed ==> url in v.pool) && (v.tracked == v.pool <==> !v.unread)
                && (v.unread ==> v.tracked == [] && url in v.pool)
  {
    RunKeeps(Init(), steps);
    assert NodeOk(Run(Init(), steps), url);
  }

  /** A start puts what Redis held and the node itself into the pool, or, if the read failed, the configured list. */
  lemma StartInstallsMembers(s: State, url: Url, reply: seq<Url>, err: bool)
    requires url in s.nodes && s.nodes[url].Starting? && (err || Enumerates(reply, s.members))
    ensures var t := Apply(s, StartRead(url, reply, err));
            && t.nodes[url].Idle?
            && (if err then t.nodes[url].view.pool == s.nodes[url].seeds
                else Elements(t.nodes[url].view.pool) == s.members + {url})
            && (!err ==> t.nodes[url].view.tracked == t.nodes[url].view.pool)
  {
    if !err {
      var pool := Apply(s, StartRead(url, reply, err)).nodes[url].view.pool;
      forall x ensures x in pool <==> x in s.members || x == url {
        assert x in reply <==> x in Elements(reply);
      }
    }
  }

  /** After one undisturbed tick the pool is exactly what Redis held, itself included, whatever happened before. */
  lemma TickInstallsMembers(s: State, url: Url, reply: seq<Url>)
    requires Inv(s) && Reads(s, TickRead(url, reply, false)) && s.nodes[url].removed == false
    ensures var t := Apply(s, TickRead(url, reply, false));
            t.nodes[url].Idle? && t.nodes[url].view.pool == reply && url in reply
  {
    assert NodeOk(s, url);
    assert url in Elements(reply);
  }

  /** A removal between the two commands of a tick can leave a node out of its own pool. */
  lemma RemovalCanEvictSelf()
    ensures exists steps, url ::
              var s := Run(Init(), steps); url in s.nodes && s.nodes[url].Idle? && url !in s.nodes[url].view.pool
  {
    var s1 := Apply(Init(), StartAdd("a", ["a"], false));
    var s2 := Apply(s1, StartRead("a", [], true));
    var s3 := Apply(s2, TickAdd("a"));
    var s4 := Apply(s3, Remove("a"));
    var s5 := Apply(s4, StartAdd("b", ["b"], false));
    var s6 := Apply(s5, TickRead("a", ["b"], false));
    assert Elements(["b"]) == {"b"} == s5.members;
    RunOf([StartAdd("a", ["a"], false), StartRead("a", [], true), TickAdd("a"), Remove("a"),
        StartAdd("b", ["b"], false), TickRead("a", ["b"], false)],
          [Init(), s1, s2, s3, s4, s5, s6]);
    assert s6.nodes["a"].view.pool == ["b"];
    assert Run(Init(), [StartAdd("a", ["a"], false), StartRead("a", [], true), TickAdd("a"), Remove("a"),
        StartAdd("b", ["b"], false), TickRead("a", ["b"], false)]) == s6;
  }

  /** A tick of a closing node after its SREM leaves the URL of a dead node in Redis. */
  lemma ClosedNodeCanStay()
    ensures exists before, url ::
              var closing := [Remove(url)] + [TickAdd(url)] + [Stop(url)];
              && url in Run(Init(), before).nodes
              && url !in Run(Init(), before + closing).nodes && url in Run(Init(), before + closing).members
  {
    var before := [StartAdd("a", ["a"], false), StartRead("a", [], true)];
    var closing := [Remove("a")] + [TickAdd("a")] + [Stop("a")];
    var s1 := Apply(Init(), StartAdd("a", ["a"], false));
    var s2 := Apply(s1, StartRead("a", [], true));
    var s3 := Apply(s2, Remove("a"));
    var s4 := Apply(s3, TickAdd("a"));
    var s5 := Apply(s4, Stop("a"));
    RunOf(before, [Init(), s1, s2]);
    RunOf(before + closing, [Init(), s1, s2, s3, s4, s5]);
    assert Run(Init(), before) == s2 && Run(Init(), before + closing) == s5;
  }

  /** A run spelled out state by state. */
  lemma {:induction false} RunOf(steps: seq<Step>, states: seq<State>)
    requires |states| == |steps| + 1
    requires forall i :: 0 <= i < |steps| ==> states[i + 1] == Apply(states[i], steps[i])
    ensures Run(states[0], steps) == states[|steps|]
  {
    if steps != [] {
      RunOf(steps[..|steps| - 1], states[..|steps|]);
    }
  }

  // ----- who is in the set -----

  /** The step adds the URL to the set: a tick of its node, or the start of one that lists it. */
  predicate Adds(s: State, step: Step, url: Url) {
    match step
    case TickAdd(u) => u == url && url in s.nodes && s.nodes[url].Idle?
    case StartAdd(u, seeds, err) => !err && u !in s.nodes && seeds != [] && seeds[0] == u && url in seeds
    case _ => false
  }

  /** Step `i` of the run adds the URL. */
  predicate AddsUrlAt(s: State, steps: seq<Step>, i: nat, url: Url)
    requires i < |steps|
  {
    Adds(Run(s, steps[..i]), steps[i], url)
  }

  predicate NotRemovedFrom(steps: seq<Step>, i: nat, url: Url) {
    forall k :: i <= k < |steps| ==> steps[k] != Remove(url)
  }

  /** The URL was in the set at the start and is not removed, or it is added after its last removal. */
  ghost predicate AddedLast(s: State, steps: seq<Step>, url: Url) {
    || (url in s.members && NotRemovedFrom(steps, 0, url))
    || exists i :: 0 <= i < |steps| && AddsUrlAt(s, steps, i, url) && NotRemovedFrom(steps, i + 1, url)
  }

  lemma StepMembersIff(s: State, step: Step, url: Url)
    ensures url in Apply(s, step).members <==> (url in s.members && step != Remove(url)) || Adds(s, step, url)
  {
  }

  /** One step more: added by it, or added last before and not removed by it. */
  lemma AddedLastSnoc(s: State, steps: seq<Step>, url: Url)
    requires steps != []
    ensures var m := |steps| - 1;
            AddedLast(s, steps, url) <==>
            (AddedLast(s, steps[..m], url) && steps[m] != Remove(url)) || Adds(Run(s, steps[..m]), steps[m], url)
  {
    var m := |steps| - 1;
    var rest := steps[..m];
    forall i | 0 <= i < m ensures AddsUrlAt(s, rest, i, url) == AddsUrlAt(s, steps, i, url) {
      assert rest[..i] == steps[..i];
    }
    assert AddsUrlAt(s, steps, m, url) == Adds(Run(s, rest), steps[m], url);
    assert NotRemovedFrom(steps, m + 1, url);
    forall i | 0 <= i <= m ensures NotRemovedFrom(steps, i, url) <==>
        NotRemovedFrom(rest, i, url) && steps[m] != Remove(url) {
      assert forall k :: i <= k < m ==> rest[k] == steps[k];
    }
  }

  /**
   * In every run, a URL is in the set exactly if its last addition, by its node's own tick
   * or by a node that starts with it in its list, follows its last removal.  Whether its
   * node is alive does not matter.
   */
  lemma {:induction false} MembersIff(s: State, steps: seq<Step>, url: Url)
    ensures url in Run(s, steps).members <==> AddedLast(s, steps, url)
  {
    if steps != [] {
      var m := |steps| - 1;
      MembersIff(s, steps[..m], url);
      StepMembersIff(Run(s, steps[..m]), steps[m], url);
      AddedLastSnoc(s, steps, url);
    }
  }

  /**
   * After the SREM of a closing node, and if no node starts with its URL and no one removes
   * it again, the URL is in the set exactly if the node still ticked; stopping does not undo that.
   */
  lemma ClosingNodeStaysIff(before: seq<Step>, closing: seq<Step>, url: Url)
    requires NotRemovedFrom(closing, 0, url)
    requires forall i :: 0 <= i < |closing| && closing[i].StartAdd? ==> url !in closing[i].seeds
    ensures var s := Apply(Run(Init(), before), Remove(url));
            url in Run(s, closing).members <==>
            exists i :: 0 <= i < |closing| && closing[i] == TickAdd(url) && AddsUrlAt(s, closing, i, url)
  {
    var s := Apply(Run(Init(), before), Remove(url));
    MembersIff(s, closing, url);
    forall i | 0 <= i < |closing| && AddsUrlAt(s, closing, i, url)
        ensures closing[i] == TickAdd(url) && NotRemovedFrom(closing, i + 1, url) {
    }
  }

  // ----- when a node is in its own pool -----

  /**
   * After a successful read a node's pool has the node exactly if the set had it, or the pool still is
   * the configured list.
   */
  lemma TickPoolHasSelfIff(s: State, url: Url, reply: seq<Url>)
    requires Inv(s) && Reads(s, TickRead(url, reply, false))
    ensures var view := s.nodes[url].view;
            url in Apply(s, TickRead(url, reply, false)).nodes[url].view.pool <==>
            url in s.members || (s.members == {} && view.unread)
  {
    assert NodeOk(s, url);
    assert url in s.members <==> url in Elements(reply);
    assert s.members == {} <==> reply == [] by {
      if reply != [] {
        assert reply[0] in Elements(reply);
      }
    }
  }

  lemma PoolStays(s: State, step: Step, url: Url)
    requires url in s.nodes && HasPool(s.nodes[url]) && step != Stop(url)
    requires !(Reads(s, step) && step.url == url && !step.err)
    ensures var t := Apply(s, step);
        url in t.nodes && HasPool(t.nodes[url]) && t.nodes[url].view.pool == s.nodes[url].view.pool
  {
  }

  lemma {:induction false} PoolIsKept(s: State, steps: seq<Step>, url: Url)
    requires url in s.nodes && HasPool(s.nodes[url])
    requires forall i :: 0 <= i < |steps| ==> steps[i] != Stop(url) && !ReadsAt(s, steps, i, url)
    ensures var t := Run(s, steps);
        url in t.nodes && HasPool(t.nodes[url]) && t.nodes[url].view.pool == s.nodes[url].view.pool
  {
    if steps != [] {
      var m := |steps| - 1;
      forall i | 0 <= i < m ensures !ReadsAt(s, steps[..m], i, url) {
        assert steps[..m][..i] == steps[..i];
        assert !ReadsAt(s, steps, i, url);
      }
      PoolIsKept(s, steps[..m], url);
      assert !ReadsAt(s, steps, m, url);
      PoolStays(Run(s, steps[..m]), steps[m], url);
    }
  }

  /**
   * In every run, from a node's last successful read on, its pool has the node exactly if
   * the set had it at that read; except that a node whose startup read failed keeps its
   * configured list while it reads an empty set.
   */
  lemma OwnPoolIff(before: seq<Step>, reply: seq<Url>, after: seq<Step>, url: Url)
    requires Reads(Run(Init(), before), TickRead(url, reply, false))
    requires var r := Apply(Run(Init(), before), TickRead(url, reply, false));
             forall i :: 0 <= i < |after| ==> after[i] != Stop(url) && !ReadsAt(r, after, i, url)
    ensures var s := Run(Init(), before);
            var t := Run(Apply(s, TickRead(url, reply, false)), after);
            && url in t.nodes && HasPool(t.nodes[url])
            && (url in t.nodes[url].view.pool <==> url in s.members || (s.members == {} && s.nodes[url].view.unread))
  {
    RunKeeps(Init(), before);
    TickPoolHasSelfIff(Run(Init(), before), url, reply);
    PoolIsKept(Apply(Run(Init(), before), TickRead(url, reply, false)), after, url);
  }

  // ----- convergence -----

  /** Nodes tick and stop; none starts, and no URL is removed. */
  predicate QuietStep(step: Step) {
    step.TickAdd? || step.TickRead? || step.Stop?
  }

  predicate Quiet(steps: seq<Step>) {
    forall i :: 0 <= i < |steps| ==> QuietStep(steps[i])
  }

  ghost predicate AllUp(s: State) {
    forall url :: url in s.nodes ==> HasPool(s.nodes[url])
  }

  /** In quiet times the set only gains URLs of live nodes. */
  lemma {:induction false} QuietRun(s: State, steps: seq<Step>)
    requires Inv(s) && AllUp(s) && Quiet(steps)
    ensures var t := Run(s, steps);
            Inv(t) && AllUp(t) && t.nodes.Keys <= s.nodes.Keys && s.members <= t.members <= s.members + s.nodes.Keys
    ensures (forall i :: 0 <= i < |steps| ==> !steps[i].Stop?) ==> Run(s, steps).nodes.Keys == s.nodes.Keys
  {
    if steps != [] {
      QuietRun(s, steps[..|steps| - 1]);
      StepKeeps(Run(s, steps[..|steps| - 1]), steps[|steps| - 1]);
    }
  }

  /** The node's own SADD ran at some point of the steps. */
  ghost predicate Added(s: State, steps: seq<Step>, url: Url) {
    exists i :: 0 <= i < |steps| && steps[i] == TickAdd(url) && AddsAt(s, steps, i, url)
  }

  predicate AddsAt(s: State, steps: seq<Step>, i: nat, url: Url)
    requires i <= |steps|
  {
    var t := Run(s, steps[..i]);
    url in t.nodes && t.nodes[url].Idle?
  }

  /** A successful SMEMBERS of the node ran at some point of the steps. */
  ghost predicate ReadBack(s: State, steps: seq<Step>, url: Url) {
    exists i :: 0 <= i < |steps| && ReadsAt(s, steps, i, url)
  }

  predicate ReadsAt(s: State, steps: seq<Step>, i: nat, url: Url)
    requires i < |steps|
  {
    Reads(Run(s, steps[..i]), steps[i]) && steps[i].url == url && !steps[i].err
  }

  lemma {:induction false} AddedIsMember(s: State, steps: seq<Step>, url: Url)
    requires Inv(s) && AllUp(s) && Quiet(steps) && Added(s, steps, url)
    ensures url in Run(s, steps).members
  {
    var m := |steps| - 1;
    var rest := steps[..m];
    QuietRun(s, rest);
    var i :| 0 <= i < |steps| && steps[i] == TickAdd(url) && AddsAt(s, steps, i, url);
    if i < m {
      assert rest[..i] == steps[..i];
      assert AddsAt(s, rest, i, url);
      AddedIsMember(s, rest, url);
    }
  }

  /** A read-back before the last step is one of the run without that step. */
  lemma ReadBackAt(s: State, steps: seq<Step>, i: nat, url: Url)
    requires i < |steps| && ReadsAt(s, steps, i, url)
    ensures i < |steps| - 1 ==> ReadBack(s, steps[..|steps| - 1], url)
  {
    if i < |steps| - 1 {
      ReadsAtPrefix(s, steps, i, url);
    }
  }

  lemma ReadsAtPrefix(s: State, steps: seq<Step>, i: nat, url: Url)
    requires i < |steps| - 1
    ensures ReadsAt(s, steps[..|steps| - 1], i, url) == ReadsAt(s, steps, i, url)
  {
    assert steps[..|steps| - 1][..i] == steps[..i];
  }

  /** With the membership settled, a node that read it back keeps exactly that in its pool. */
  lemma {:induction false} ReadBackIsKept(s: State, steps: seq<Step>, url: Url)
    requires Inv(s) && AllUp(s) && Quiet(steps) && s.nodes.Keys <= s.members && ReadBack(s, steps, url)
    requires url in Run(s, steps).nodes
    ensures var t := Run(s, steps);
            HasPool(t.nodes[url]) && Elements(t.nodes[url].view.pool) == s.members
  {
    var i :| 0 <= i < |steps| && ReadsAt(s, steps, i, url);
    ReadBackAt(s, steps, i, url);
    var m := |steps| - 1;
    var rest := steps[..m];
    QuietRun(s, rest);
    NodesOnlyLeave(Run(s, rest), steps[m]);
    if i < m {
      ReadBackIsKept(s, rest, url);
    }
    QuietPools(Run(s, rest), steps[m], url);
  }

  lemma NodesOnlyLeave(s: State, step: Step)
    requires QuietStep(step)
    ensures Apply(s, step).nodes.Keys <= s.nodes.Keys
  {
  }

  /** One quiet step on a settled membership: a node's pool stays the membership, or becomes it by a read. */
  lemma QuietPools(t: State, step: Step, url: Url)
    requires Inv(t) && AllUp(t) && QuietStep(step) && t.nodes.Keys <= t.members && url in t.nodes
    requires Elements(t.nodes[url].view.pool) == t.members || (Reads(t, step) && step.url == url && !step.err)
    ensures var u := Apply(t, step);
            url in u.nodes ==> HasPool(u.nodes[url]) && Elements(u.nodes[url].view.pool) == t.members
  {
    assert NodeOk(t, url);
    if Reads(t, step) && step.url == url && !step.err {
      assert url in Elements(step.reply);
      assert step.reply != [];
    }
  }

  /** Once every node still alive has run its SADD, the set is what it was and they, and perhaps nodes that stopped. */
  lemma AddsSettle(s: State, adds: seq<Step>)
    requires Inv(s) && AllUp(s) && Quiet(adds) && forall url :: url in Run(s, adds).nodes ==> Added(s, adds, url)
    ensures var t := Run(s, adds);
            && Inv(t) && AllUp(t) && t.nodes.Keys <= s.nodes.Keys
            && s.members + t.nodes.Keys <= t.members <= s.members + s.nodes.Keys
  {
    QuietRun(s, adds);
    forall url | url in Run(s, adds).nodes ensures url in Run(s, adds).members {
      AddedIsMember(s, adds, url);
    }
  }

  /** Once every node still alive has then read back, the pools hold that set. */
  lemma ReadBacksSettle(s: State, readBacks: seq<Step>)
    requires Inv(s) && AllUp(s) && Quiet(readBacks) && s.nodes.Keys <= s.members
    requires forall url :: url in Run(s, readBacks).nodes ==> ReadBack(s, readBacks, url)
    ensures var t := Run(s, readBacks);
            && t.nodes.Keys <= s.nodes.Keys && AllUp(t) && t.members == s.members
            && forall url :: url in t.nodes ==> Elements(t.nodes[url].view.pool) == s.members
  {
    QuietRun(s, readBacks);
    forall url | url in Run(s, readBacks).nodes ensures Elements(Run(s, readBacks).nodes[url].view.pool) == s.members {
      ReadBackIsKept(s, readBacks, url);
    }
  }

  /**
   * Once removals and starts have ended, and while nodes may still stop: let every node that
   * is alive after one stretch have run its SADD in it, and every node that is alive after a
   * second stretch a whole SMEMBERS in that.  All pools then hold the same set, which is what
   * was left and all nodes alive, and at most also nodes that stopped in the first stretch.
   */
  lemma Convergence(start: seq<Step>, adds: seq<Step>, readBacks: seq<Step>)
    requires var s := Run(Init(), start);
             var mid := Run(s, adds);
             && AllUp(s) && Quiet(adds) && Quiet(readBacks)
             && (forall url :: url in mid.nodes ==> Added(s, adds, url))
             && (forall url :: url in Run(mid, readBacks).nodes ==> ReadBack(mid, readBacks, url))
    ensures var s := Run(Init(), start);
            var mid := Run(s, adds);
            var t := Run(mid, readBacks);
            && t.nodes.Keys <= mid.nodes.Keys <= s.nodes.Keys && AllUp(t)
            && s.members + mid.nodes.Keys <= t.members <= s.members + s.nodes.Keys
            && forall url :: url in t.nodes ==> Elements(t.nodes[url].view.pool) == t.members
  {
    RunKeeps(Init(), start);
    AddsSettle(Run(Init(), start), adds);
    ReadBacksSettle(Run(Run(Init(), start), adds), readBacks);
  }

  /** Every live node is in the set, and every pool holds it. */
  ghost predicate Converged(s: State) {
    && AllUp(s) && s.nodes.Keys <= s.members
    && forall url :: url in s.nodes ==> Elements(s.nodes[url].view.pool) == s.members
  }

  lemma ConvergedStep(s: State, step: Step)
    requires Inv(s) && Converged(s) && QuietStep(step)
    ensures Converged(Apply(s, step)) && Apply(s, step).members == s.members
  {
    NodesOnlyLeave(s, step);
    forall url | url in Apply(s, step).nodes
      ensures HasPool(Apply(s, step).nodes[url]) && Elements(Apply(s, step).nodes[url].view.pool) == s.members
    {
      QuietPools(s, step, url);
    }
  }

  /** Converged pools stay converged for as long as nothing is removed or started. */
  lemma {:induction false} ConvergenceIsStable(s: State, steps: seq<Step>)
    requires Inv(s) && Converged(s) && Quiet(steps)
    ensures var t := Run(s, steps); Inv(t) && Converged(t) && t.members == s.members
  {
    if steps != [] {
      var m := |steps| - 1;
      ConvergenceIsStable(s, steps[..m]);
      StepKeeps(Run(s, steps[..m]), steps[m]);
      ConvergedStep(Run(s, steps[..m]), steps[m]);
    }
  }
}
