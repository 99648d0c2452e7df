/**
 * Why the loop-freedom theorem needs its hypothesis on aged sources: a source that was not
 * advertised for SOURCE_GC_TIME seconds makes every update feasible, and lets the next
 * advertisement overwrite it with something worse.
 */
module Ageing {
  import opened Basics
  import opened SeqNo
  import opened Selection
  import opened Network
  import opened LoopFreedom
  import opened Scenario
  import opened Revival

  // ----- hearing an update for an aged source

  /** The route carries what the event delivers. */
  predicate IsHeard(e: Event, r: Route)
    requires e.Deliver?
  {
    r.src == e.msg.id && r.seqno == e.msg.seqno && r.refmetric == e.msg.metric
  }

  /** Of the routes the step newly installs, all but the one it heard beat their sources. */
  predicate OthersBetter(net: Net, e: Event)
    requires Enabled(net, e) && e.Deliver? && Valid(net.nodes[e.n].slot)
  {
    forall k :: k in Local(net, e).slot.tab ==>
      InstalledBetter(net.arith, net.nodes[e.n].slot, Local(net, e).slot, k) || IsHeard(e, Local(net, e).slot.tab[k])
  }

  /** A router whose aged record of a source is (fs, fm) is about to hear (s, r) for that source. */
  ghost predicate AgeingPending(w: World, e: Event, fs: int, fm: nat, s: int, r: nat) {
    && AllValid(w.net) && Inv(w.net, w.taint) && Enabled(w.net, e) && !Revives(w.net, w.taint, e)
    && e.Deliver? && e.msg.id != e.n && e.addMetric < INFINITY && e.msg.seqno == s && e.msg.metric == r
    && OthersBetter(w.net, e)
    && Records(w.net.nodes[e.n].slot, e.msg.id, fs, fm)
    && Stale(w.net.nodes[e.n].slot.srcs[e.msg.id], e.now)
  }

  predicate Records(slot: Slot<Key>, id: RouterId, fs: int, fm: nat) {
    id in slot.srcs && slot.srcs[id].seqno == fs && slot.srcs[id].metric == fm
  }

  lemma PendingGuarded(w: World, e: Event, fs: int, fm: nat, s: int, r: nat)
    requires AgeingPending(w, e, fs, fm, s, r) && (r >= INFINITY || Feasible(fs, fm, s, r))
    ensures Guarded(w.net, e)
  {
    LocalEvolves(w.net, e);
    var slot, slot' := w.net.nodes[e.n].slot, Local(w.net, e).slot;
    forall k | k in slot'.tab ensures InstalledBetter(w.net.arith, slot, slot', k) {
      assert InstalledBetter(w.net.arith, slot, slot', k) || IsHeard(e, slot'.tab[k]);
    }
  }

  /** Router 0 has lost its route to source 2; router 1, which forwards to it, still offers (s, r). */
  function Aged(fs: int, fm: nat, s: int, r: nat): World {
    var w := Witness(fs, fm, s, r);
    w.(net := w.net.(nodes := w.net.nodes[0 := At(Forgot(fs, fm), None)]), taint := {})
  }

  function Forgot(fs: int, fm: nat): Slot<Key> {
    Slot([], map[], map[2 := Source(fs, fm, 0)])
  }

  function Late(s: int, r: nat): Event {
    Deliver(0, SOURCE_GC_TIME + 1, Msg(1, 2, s, r), 0, HOP, 1, 0, 0, 0)
  }

  /** The late update is taken for feasible and installed. */
  lemma LateAccepted(env: Env, fs: int, fm: nat, s: int, r: nat)
    requires env == Env(Exact, 0, None, -1, false, SOURCE_GC_TIME + 1) && r < INFINITY
    ensures Valid(Forgot(fs, fm))
    ensures var u := Update(2, s, r, 1, 0, Neighbour(1, 0), HOP, 0);
            Accept(env, Forgot(fs, fm), u, 0) ==
            Appended(env, Forgot(fs, fm), u, 0).(tab := map[0 := NewRoute(env, u).(installed := true)])
  {
    var u := Update(2, s, r, 1, 0, Neighbour(1, 0), HOP, 0);
    AppendedValid(env, Forgot(fs, fm), u, 0);
    var v := Appended(env, Forgot(fs, fm), u, 0);
    assert v.order == [0];
    assert Remove(v.order, 0) == [];
    assert Consider(env, v, 0) == Switch(v, None, 0);
  }

  lemma AgedHolds(fs: int, fm: nat, s: int, r: nat)
    requires !Feasible(fs, fm, s, r) && r < INFINITY
    ensures AllValid(Aged(fs, fm, s, r).net) && Inv(Aged(fs, fm, s, r).net, {})
  {
    var w := Aged(fs, fm, s, r);
    AgedTables(fs, fm, s, r);
    AgedAcyclic(fs, fm, s, r);
    assert w.net.nodes[1].slot.order == [0];
  }

  lemma AgedTables(fs: int, fm: nat, s: int, r: nat)
    requires !Feasible(fs, fm, s, r) && r < INFINITY
    ensures NoLiesInTables(Aged(fs, fm, s, r).net) && AllDescend(Aged(fs, fm, s, r).net, {})
  {
    var w := Aged(fs, fm, s, r);
    assert NoLiesInTables(w.net);
    assert AllDescend(w.net, {});
  }

  lemma AgedAcyclic(fs: int, fm: nat, s: int, r: nat)
    ensures Acyclic(Aged(fs, fm, s, r).net, {})
  {
    var net := Aged(fs, fm, s, r).net;
    forall id, p ensures !IsCycle(net, {}, id, p) {
      if |p| >= 2 {
        assert forall b :: !Edge(net, {}, id, 0, b);
        assert forall b :: Edge(net, {}, id, 1, b) ==> b == 0;
        assert Edge(net, {}, id, p[0], p[0 + 1]) ==> p[0] == 1 && p[1] == 0;
        if |p| >= 3 {
          assert !Edge(net, {}, id, p[1], p[1 + 1]) || p[1] == 1;
        }
      }
    }
  }

  lemma AgedPending(fs: int, fm: nat, s: int, r: nat)
    requires !Feasible(fs, fm, s, r) && r < INFINITY
    ensures AgeingPending(Aged(fs, fm, s, r), Late(s, r), fs, fm, s, r)
  {
    AgedHolds(fs, fm, s, r);
    var w, e := Aged(fs, fm, s, r), Late(s, r);
    LateAccepted(EnvOf(w.net, 0, e.now), fs, fm, s, r);
    assert Local(w.net, e).slot.tab.Keys == {0};
  }

  lemma AgedLoops(fs: int, fm: nat, s: int, r: nat)
    requires !Feasible(fs, fm, s, r) && r < INFINITY
    ensures AllValid(Aged(fs, fm, s, r).net)
    ensures HasLoop(Next(Aged(fs, fm, s, r), Late(s, r)).net)
  {
    AgedHolds(fs, fm, s, r);
    var w, e := Aged(fs, fm, s, r), Late(s, r);
    LateAccepted(EnvOf(w.net, 0, e.now), fs, fm, s, r);
    var net := Next(w, e).net;
    assert IsEdge(net.nodes[0].slot.tab[0], 2, 1) && Forwards(net, 2, 0, 1);
    assert IsEdge(net.nodes[1].slot.tab[0], 2, 0) && Forwards(net, 2, 1, 0);
    assert ForwardingLoop(net, 2, [0, 1, 0]);
  }

  /**
   * The condition is exact: hearing (s, r) for an aged source is safe in every network that
   * satisfies the invariant if and only if (s, r) is retracted or beats the aged record.
   */
  lemma AgeingSafeExactly(fs: int, fm: nat, s: int, r: nat)
    ensures (forall w, e :: AgeingPending(w, e, fs, fm, s, r) ==> !HasLoop(Next(w, e).net))
            <==> (r >= INFINITY || Feasible(fs, fm, s, r))
  {
    if r >= INFINITY || Feasible(fs, fm, s, r) {
      forall w, e | AgeingPending(w, e, fs, fm, s, r) ensures !HasLoop(Next(w, e).net) {
        PendingGuarded(w, e, fs, fm, s, r);
        NextInv(w, e);
        forall id, p ensures !ForwardingLoop(Next(w, e).net, id, p) {
          InvLoopFree(Next(w, e).net, Next(w, e).taint, id, p);
        }
      }
    } else {
      AgedPending(fs, fm, s, r);
      AgedLoops(fs, fm, s, r);
    }
  }

  // ----- a run that loops by hearing a late update

  const LATE := SOURCE_GC_TIME + 1

  function HearLate(m: Msg): Event {
    Deliver(2, LATE, m, 0, HOP, 10, 0, 0, 2)
  }

  /** Router 2 takes router 3's offer, which is worse than what it once advertised itself. */
  const N7: Slot<Key> := Slot([1], map[1 := Via(3, 20, 10, true).(time := LATE)], Src(10))

  lemma NAccepts(env: Env, u: Update)
    requires env == Env(Exact, 2, None, -1, false, LATE)
    requires u == Update(1, 0, 20, 10, 0, Neighbour(3, 0), HOP, 0)
    ensures Valid(N4) && Accept(env, N4, u, 2) == N7
  {
    assert FindRoute(N4, N4.order, Neighbour(3, 0), HOP) == Some(1);
    var s := Slot([1], map[1 := Via(3, 20, 10, false).(time := LATE)], Src(10));
    SameSlot(Written(env, N4, u, 1), s);
    assert Remove([1], 1) == [];
    SameSlot(Consider(env, s, 1), N7);
  }

  lemma LateLoops()
    ensures var net, e := State(N4, B5, M5), HearLate(B_VIA_N);
            Enabled(net, e) && Valid(net.nodes[2].slot) && HasLoop(Step(net, e))
  {
    var net, e := State(N4, B5, M5), HearLate(B_VIA_N);
    NAccepts(EnvOf(net, 2, LATE), UpdateOf(e));
    NReplaced(N4, N7, B5, M5);
    Loops(N7, M5);
  }

  /**
   * Without the hypothesis on installations the program can loop although it never installs a
   * retracted route: routers 2 and 3 end up forwarding to each other.
   */
  lemma LateUpdateCanLoop() returns (w: World, e: Event)
    ensures Initial(START) && Reaches(START, w)
    ensures w.taint == {} && Enabled(w.net, e) && !Revives(w.net, {}, e) && HasLoop(Next(w, e).net)
  {
    w, e := World(State(N4, B5, M5), {}), HearLate(B_VIA_N);
    StartInitial();
    Bereft();
    LateLoops();
  }

  // ----- a run that loops by advertising late

  /** Router 2's own link to the source got worse; its record did not. */
  const N8: Slot<Key> := N3.(tab := map[0 := Via(1, 0, 100, true), 1 := Via(3, 50, 10, false)])

  /** The late advertisement replaces the record by a worse one. */
  const N9: Slot<Key> := N8.(srcs := map[1 := Source(0, 100, LATE)])

  const TOLD_LATE: Msg := Msg(2, 1, 0, 100)

  /** What router 3 offers now looks feasible, and better. */
  const N10: Slot<Key> :=
    Slot([1, 0], map[0 := Via(1, 0, 100, false), 1 := Via(3, 20, 10, true).(time := LATE)], N9.srcs)

  lemma NWorsens()
    ensures Reached(State(N3, B5, M5)) ==> Reached(State(N8, B5, M5))
  {
    NKeepsRoute(Own(2, 0));
    NCosts(N3, N8, B5, M5, 0, 100);
  }

  lemma NKeepsRoute(env: Env)
    requires env == Own(2, 0)
    ensures Valid(N3) && UpdateRouteMetric(env, N3, 0, 100, 0) == N8
  {
    N2Valid();
    N8Valid();
    N3Costs();
    NStays(env);
  }

  lemma N3Costs()
    ensures WithMetric(N3, 0, 0, 100, 0, 0) == N8 && Metric(N3.tab[0]) == 10 && Metric(N8.tab[0]) == 100
  {
    SameSlot(WithMetric(N3, 0, 0, 100, 0, 0), N8);
  }

  lemma NStays(env: Env)
    requires env == Own(2, 0) && Valid(N8)
    ensures RouteChanged(env, N8, 0, 10) == N8
  {
    assert N8.order[1..] == [1];
    assert BestOf(env, N8, 0, [1]) == 0;
  }

  function TellLate(): Event {
    Send(2, LATE, true, false, true, 0)
  }

  lemma N8Valid()
    ensures Valid(N8) && Installed(N8) == Some(0) && Valid(N9) && Installed(N9) == Some(0)
  {
  }

  lemma NTellsLate()
    ensures var net := State(N8, B5, M5);
            Enabled(net, TellLate()) && Valid(N8) && Step(net, TellLate()) == State(N9, B5, M5 + {TOLD_LATE})
  {
    N8Valid();
    var net := State(N8, B5, M5);
    SameSlot(Flushed(net, TellLate()).0.slot, N9);
    NReplaced(N8, N9, B5, M5);
  }

  lemma NTellsWorse()
    ensures var net := State(N8, B5, M5);
            Enabled(net, TellLate()) && Valid(N8) && !AdvertisesBetter(net, TellLate())
  {
    N8Valid();
  }

  lemma NSwitches(env: Env, u: Update)
    requires env == Env(Exact, 2, None, -1, false, LATE)
    requires u == Update(1, 0, 20, 10, 0, Neighbour(3, 0), HOP, 0)
    ensures Valid(N9) && Accept(env, N9, u, 2) == N10
  {
    N8Valid();
    NWrites(env, u);
    NConsiders(env);
  }

  const N9B: Slot<Key> :=
    N9.(tab := map[0 := Via(1, 0, 100, true), 1 := Via(3, 20, 10, false).(time := LATE)])

  lemma NWrites(env: Env, u: Update)
    requires env == Env(Exact, 2, None, -1, false, LATE) && Valid(N9)
    requires u == Update(1, 0, 20, 10, 0, Neighbour(3, 0), HOP, 0)
    ensures Valid(N9B) && Accept(env, N9, u, 2) == Consider(env, N9B, 1)
  {
    assert N9.order[1..] == [1];
    assert FindRoute(N9, N9.order, Neighbour(3, 0), HOP) == FindRoute(N9, [1], Neighbour(3, 0), HOP) == Some(1);
    SameSlot(Written(env, N9, u, 1), N9B);
  }

  lemma NConsiders(env: Env)
    requires env == Env(Exact, 2, None, -1, false, LATE) && Valid(N9B)
    ensures Consider(env, N9B, 1) == N10
  {
    assert N9B.order[1..] == [1] && Remove(N9B.order, 1) == [0];
    assert Consider(env, N9B, 1) == Switch(N9B, Some(0), 1);
    SameSlot(Switch(N9B, Some(0), 1), N10);
  }

  lemma NHearsLate()
    ensures var net, e := State(N9, B5, M5 + {TOLD_LATE}), HearLate(B_VIA_N);
            Enabled(net, e) && Valid(N9) && Local(net, e) == At(N10, None) && Step(net, e) == State(N10, B5, net.sent)
  {
    var net, e := State(N9, B5, M5 + {TOLD_LATE}), HearLate(B_VIA_N);
    NSwitches(EnvOf(net, 2, LATE), UpdateOf(e));
    NReplaced(N9, N10, B5, net.sent);
  }

  /** One step to a loop that installs only what beats its source and revives nothing. */
  ghost predicate LoopsFairly(net: Net, f: Event) {
    && AllValid(net) && Enabled(net, f) && !f.Send? && InstallsBetter(net, f) && !Revives(net, {}, f)
    && HasLoop(Step(net, f))
  }

  lemma N10Better()
    ensures AllInstalledBetter(Exact, N9, N10)
  {
    assert InstalledBetter(Exact, N9, N10, 1);
  }

  lemma N9Loops()
    requires AllValid(State(N9, B5, M5 + {TOLD_LATE}))
    ensures LoopsFairly(State(N9, B5, M5 + {TOLD_LATE}), HearLate(B_VIA_N))
  {
    NHearsLate();
    N10Better();
    Loops(N10, M5 + {TOLD_LATE});
  }

  /**
   * Without the hypothesis on advertisements the program can loop although every route it
   * installs beats its source: the late advertisement had made the source's record worse.
   */
  lemma LateAdvertisementCanLoop() returns (w: World, e: Event, f: Event)
    ensures Initial(START) && Reaches(START, w) && w.taint == {}
    ensures Enabled(w.net, e) && e.Send? && !AdvertisesBetter(w.net, e)
    ensures LoopsFairly(Step(w.net, e), f)
  {
    w, e, f := World(State(N8, B5, M5), {}), TellLate(), HearLate(B_VIA_N);
    StartInitial();
    Depending();
    NWorsens();
    NTellsLate();
    NTellsWorse();
    NextValid(w, e);
    N9Loops();
  }
}
