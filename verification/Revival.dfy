/**
 * Why the loop-freedom theorem needs its hypothesis on retracted routes: consider_route
 * installs a retracted route when nothing is installed, and update_route then accepts an
 * unfeasible update into it.
 */
module Revival {
  import opened Basics
  import opened SeqNo
  import opened Selection
  import opened Network
  import opened LoopFreedom
  import opened Scenario

  ghost predicate HasLoop(net: Net) {
    exists id, p :: ForwardingLoop(net, id, p)
  }

  /**
   * A router whose feasibility distance is (fs, fm) is about to hear (s, r) on a route it
   * installed while it was retracted.
   */
  ghost predicate RevivalPending(w: World, e: Event, fs: int, fm: nat, s: int, r: nat) {
    && AllValid(w.net) && Inv(w.net, w.taint) && Enabled(w.net, e) && e.Deliver? && InstallsBetter(w.net, e)
    && e.msg.id != e.n && e.addMetric < INFINITY && e.msg.seqno == s && e.msg.metric == r
    && var slot := w.net.nodes[e.n].slot;
       var found := FindRoute(slot, slot.order, Neighbour(e.msg.from, e.ifp), e.nexthop);
       && found.Some? && (e.n, found.value) in w.taint && slot.tab[found.value].src == e.msg.id
       && slot.srcs[e.msg.id].seqno == fs && slot.srcs[e.msg.id].metric == fm
  }

  /** (s, r) is strictly better than (fs, fm). */
  predicate Feasible(fs: int, fm: nat, s: int, r: nat) {
    s > fs || (s == fs && r < fm)
  }

  function Dead(): Route {
    Route(2, INFINITY, INFINITY, 0, 0, Neighbour(1, 0), HOP, 0, 15, true)
  }

  /** Router 0 holds a dead route to router 1, which forwards to router 0; router 2 is the source. */
  function Witness(fs: int, fm: nat, s: int, r: nat): World {
    var back := if fm < INFINITY then Distance(fs, fm) else Distance(fs - 1, 0);
    var live := Route(2, back.metric, 1, 0, back.seqno, Neighbour(0, 0), HOP, 0, 15, true);
    var cfg := Config(-1, false, 0, 256);
    World(Net(Exact,
              map[0 := Node(Slot([0], map[0 := Dead()], map[2 := Source(fs, fm, 0)]), 0, None, cfg),
                  1 := Node(Slot([0], map[0 := live], map[2 := Source(s, r, 0)]), 0, None, cfg)],
              {Msg(1, 2, s, r)}),
          {(0, 0)})
  }

  function WitnessEvent(s: int, r: nat): Event {
    Deliver(0, 0, Msg(1, 2, s, r), 0, HOP, 1, 0, 0, 1)
  }

  lemma WitnessInv(fs: int, fm: nat, s: int, r: nat)
    requires !Feasible(fs, fm, s, r) && r < INFINITY
    ensures RevivalPending(Witness(fs, fm, s, r), WitnessEvent(s, r), fs, fm, s, r)
  {
    WitnessHolds(fs, fm, s, r);
    WitnessFinds(fs, fm, s, r);
  }

  lemma WitnessHolds(fs: int, fm: nat, s: int, r: nat)
    requires !Feasible(fs, fm, s, r) && r < INFINITY
    ensures var w := Witness(fs, fm, s, r); AllValid(w.net) && Inv(w.net, w.taint)
  {
    WitnessAcyclic(fs, fm, s, r);
    WitnessTables(fs, fm, s, r);
    var w := Witness(fs, fm, s, r);
    assert w.net.nodes[0].slot.order == [0];
  }

  lemma WitnessFinds(fs: int, fm: nat, s: int, r: nat)
    ensures var slot := Witness(fs, fm, s, r).net.nodes[0].slot;
            Valid(slot) && FindRoute(slot, slot.order, Neighbour(1, 0), HOP) == Some(0)
  {
  }

  lemma WitnessTables(fs: int, fm: nat, s: int, r: nat)
    requires !Feasible(fs, fm, s, r) && r < INFINITY
    ensures var w := Witness(fs, fm, s, r); NoLiesInTables(w.net) && AllDescend(w.net, w.taint)
  {
    var w := Witness(fs, fm, s, r);
    assert NoLiesInTables(w.net);
    assert AllDescend(w.net, w.taint);
  }

  lemma WitnessAcyclic(fs: int, fm: nat, s: int, r: nat)
    ensures Acyclic(Witness(fs, fm, s, r).net, Witness(fs, fm, s, r).taint)
  {
    var w := Witness(fs, fm, s, r);
    forall id, p ensures !IsCycle(w.net, w.taint, id, p) {
      if |p| >= 2 {
        assert (0, 0) in w.taint;
        assert forall b :: !Edge(w.net, w.taint, id, 0, b);
        assert forall b :: Edge(w.net, w.taint, id, 1, b) ==> b == 0;
        assert Edge(w.net, w.taint, id, p[0], p[0 + 1]) ==> p[0] == 1 && p[1] == 0;
        if |p| >= 3 {
          assert Edge(w.net, w.taint, id, p[1], p[1 + 1]) ==> p[1] == 1;
        }
      }
    }
  }

  /** The update is written into the dead route, which stays installed. */
  lemma WitnessAccepts(fs: int, fm: nat, s: int, r: nat)
    requires !Feasible(fs, fm, s, r) && r < INFINITY
    ensures AllValid(Witness(fs, fm, s, r).net)
    ensures 0 in Local(Witness(fs, fm, s, r).net, WitnessEvent(s, r)).slot.tab
    ensures var x := Local(Witness(fs, fm, s, r).net, WitnessEvent(s, r)).slot.tab[0];
            IsEdge(x, 2, 1) && x.refmetric < INFINITY
  {
    WitnessInv(fs, fm, s, r);
    var w, e := Witness(fs, fm, s, r), WitnessEvent(s, r);
    var slot, env := w.net.nodes[0].slot, EnvOf(w.net, 0, 0);
    assert FindRoute(slot, slot.order, Neighbour(1, 0), HOP) == Some(0);
    assert Accept(env, slot, UpdateOf(e), 1) == Written(env, slot, UpdateOf(e), 0);
  }

  lemma WitnessLoops(fs: int, fm: nat, s: int, r: nat)
    requires !Feasible(fs, fm, s, r) && r < INFINITY
    ensures AllValid(Witness(fs, fm, s, r).net)
    ensures HasLoop(Next(Witness(fs, fm, s, r), WitnessEvent(s, r)).net)
  {
    WitnessAccepts(fs, fm, s, r);
    var net := Next(Witness(fs, fm, s, r), WitnessEvent(s, r)).net;
    assert Forwards(net, 2, 0, 1);
    assert IsEdge(net.nodes[1].slot.tab[0], 2, 0) && Forwards(net, 2, 1, 0);
    assert ForwardingLoop(net, 2, [0, 1, 0]);
  }

  /**
   * The condition is exact: hearing (s, r) on such a route is safe in every network that
   * satisfies the invariant if and only if (s, r) is retracted or feasible.
   */
  lemma RevivalSafeExactly(fs: int, fm: nat, s: int, r: nat)
    ensures (forall w, e :: RevivalPending(w, e, fs, fm, s, r) ==> !HasLoop(Next(w, e).net))
            <==> (r >= INFINITY || Feasible(fs, fm, s, r))
  {
    if r >= INFINITY || Feasible(fs, fm, s, r) {
      forall w, e | RevivalPending(w, e, fs, fm, s, r) ensures !HasLoop(Next(w, e).net) {
        NextInv(w, e);
        forall id, p ensures !ForwardingLoop(Next(w, e).net, id, p) {
          InvLoopFree(Next(w, e).net, Next(w, e).taint, id, p);
        }
      }
    } else {
      WitnessInv(fs, fm, s, r);
      WitnessLoops(fs, fm, s, r);
    }
  }

  // ----- a run of the program that loops

  const N5: Slot<Key> := Slot([1], map[1 := Via(3, INFINITY, 10, true)], Src(10))
  const N6: Slot<Key> := Slot([1], map[1 := Via(3, 20, 10, true)], Src(10))

  lemma NTakesRetraction(env: Env, u: Update)
    requires env == Own(2, 0) && u == Said(B_RETRACTS, 10)
    ensures Valid(N4) && Accept(env, N4, u, 0) == N5
  {
    assert FindRoute(N4, N4.order, Neighbour(3, 0), HOP) == Some(1);
    var r := Via(3, INFINITY, 10, false);
    SameSlot(Written(env, N4, u, 1), Slot([1], map[1 := r], Src(10)));
    OnlyRouteTaken(env, 1, Src(10), r);
  }

  lemma NInstallsRetracted()
    ensures Takes(State(N4, B5, M5), Hear(2, B_RETRACTS, 10, 0), State(N5, B5, M5))
  {
    NTakesRetraction(Own(2, 0), Said(B_RETRACTS, 10));
    NTakes(N4, N5, B5, M5, Hear(2, B_RETRACTS, 10, 0));
  }

  lemma NTakesOffer(env: Env, u: Update)
    requires env == Own(2, 0) && u == Said(B_VIA_N, 10)
    ensures Valid(N5) && Accept(env, N5, u, 0) == N6
  {
    assert FindRoute(N5, N5.order, Neighbour(3, 0), HOP) == Some(1);
    SameSlot(Written(env, N5, u, 1), N6);
  }

  lemma NRevives()
    ensures Takes(State(N5, B5, M5), Hear(2, B_VIA_N, 10, 0), State(N6, B5, M5))
  {
    NTakesOffer(Own(2, 0), Said(B_VIA_N, 10));
    NTakes(N5, N6, B5, M5, Hear(2, B_VIA_N, 10, 0));
  }

  lemma N5Taints()
    ensures NextTaint(State(N4, B5, M5), State(N5, B5, M5), 2, {}) == {(2, 1)}
  {
    assert TaintedAt(2, N4, N5, {}) == {(2, 1)};
  }

  /** The retracted route is installed without breaking any hypothesis. */
  lemma RetractedInstalled()
    ensures Reaches(START, World(State(N5, B5, M5), {(2, 1)}))
  {
    Bereft();
    NInstallsRetracted();
    N5Taints();
    Tainting(State(N4, B5, M5), Hear(2, B_RETRACTS, 10, 0), State(N5, B5, M5), {(2, 1)});
  }

  lemma RevivesN5()
    ensures var net, e := State(N5, B5, M5), Hear(2, B_VIA_N, 10, 0);
            Enabled(net, e) && Valid(net.nodes[2].slot) && Revives(net, {(2, 1)}, e)
  {
    assert FindRoute(N5, N5.order, Neighbour(3, 0), HOP) == Some(1);
  }

  lemma RevivalLoops()
    ensures var net, e := State(N5, B5, M5), Hear(2, B_VIA_N, 10, 0);
            Enabled(net, e) && Valid(net.nodes[2].slot) && SourcesFresh(net, e) && HasLoop(Step(net, e))
  {
    NRevives();
    Loops(N6, M5);
  }

  /**
   * Without the hypothesis the program can loop: all sources are fresh, and reviving the
   * route makes routers 2 and 3 forward to each other.
   */
  lemma RevivalCanLoop() returns (w: World, e: Event)
    ensures Initial(START) && Reaches(START, w)
    ensures Enabled(w.net, e) && SourcesFresh(w.net, e) && Revives(w.net, w.taint, e)
    ensures HasLoop(Next(w, e).net)
  {
    w, e := World(State(N5, B5, M5), {(2, 1)}), Hear(2, B_VIA_N, 10, 0);
    StartInitial();
    RetractedInstalled();
    RevivesN5();
    RevivalLoops();
  }
}
