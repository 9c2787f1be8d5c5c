/**
 When the caps are safe in a state, against every run from it: a pod that is not covered, or not backed,
 leaves room for a run that fills its node first and brings the pod back afterwards.
 */
module Filling {
  import opened Types
  import opened Transitions
  import opened Cluster
  import opened Runs
  import opened Tracking
  import opened Occupancy
  import opened Counts

  /** Placements, events taken up in order, and releases of pods whose history is handled. */
  ghost predicate Calm(s: Sys, step: Step, cap: nat) {
    Enabled(s, step) &&
    match step
    case Place(u, ref, domain, policy, now) => policy.maxPodsPerNode <= cap
    case Handle(u, at) => true
    case Release(u) =>
      && Handled(s, u) == |Hist(s, u)|
      && u in s.view.pods && u in s.view.resv && SameSeat(s.view.pods[u], s.view.resv[u].ref)
    case _ => false
  }

  /** Calm steps break no rule. */
  lemma CalmIsHarmless(s: Sys, step: Step, cap: nat)
    requires Calm(s, step, cap)
    ensures Safe(s, step) && KeepsBacking(s, step) && NamesOccupants(s, step) && AsksAtMost(step, cap)
  {
  }

  ghost predicate CalmRun(states: seq<Sys>, steps: seq<Step>, s: Sys, t: Sys, cap: nat) {
    && IsRun(states, steps) && states[0] == s && states[|steps|] == t
    && forall i | 0 <= i < |steps| :: Calm(states[i], steps[i], cap)
  }

  /** There is a calm run from s to t. */
  ghost predicate Leads(s: Sys, t: Sys, cap: nat) {
    exists states, steps :: CalmRun(states, steps, s, t, cap)
  }

  lemma LeadsNowhere(s: Sys, cap: nat)
    ensures Leads(s, s, cap)
  {
    assert CalmRun([s], [], s, s, cap);
  }

  lemma LeadsOn(s: Sys, t: Sys, step: Step, cap: nat)
    requires Leads(s, t, cap) && Calm(t, step, cap)
    ensures Leads(s, Next(t, step), cap)
  {
    assert CalmRun([t, Next(t, step)], [step], t, Next(t, step), cap);
    LeadsFurther(s, t, Next(t, step), cap);
  }

  lemma LeadsFurther(s: Sys, t: Sys, r: Sys, cap: nat)
    requires Leads(s, t, cap) && Leads(t, r, cap)
    ensures Leads(s, r, cap)
  {
    var states, steps :| CalmRun(states, steps, s, t, cap);
    var states', steps' :| CalmRun(states', steps', t, r, cap);
    var (all, moves) := (states + states'[1..], steps + steps');
    forall i | 0 <= i < |moves|
      ensures Enabled(all[i], moves[i]) && all[i + 1] == Next(all[i], moves[i]) && Calm(all[i], moves[i], cap)
    {
      if i < |steps| {
        assert all[i] == states[i] && moves[i] == steps[i] && all[i + 1] == states[i + 1];
      } else {
        var k := i - |steps|;
        assert all[i] == states'[k] && moves[i] == steps'[k] && all[i + 1] == states'[k + 1];
      }
    }
    assert CalmRun(all, moves, s, r, cap);
  }

  /** What the runs below leave alone: histories, and the pod u, which stays off the node. */
  ghost predicate Leaves(s: Sys, t: Sys, u: UID, q: string, n: string, cap: nat) {
    && Leads(s, t, cap) && HistoriesOk(t) && t.hist == s.hist && Handled(t, u) == Handled(s, u)
    && u !in Occupants(t.view, Quota, n, q)
    && (Tracks(s) ==> Tracks(t))
  }

  lemma LeavesOn(s: Sys, t: Sys, step: Step, u: UID, q: string, n: string, cap: nat)
    requires Leaves(s, t, u, q, n, cap) && Calm(t, step, cap)
    requires step.Handle? ==> step.u != u
    requires u !in Occupants(Next(t, step).view, Quota, n, q)
    ensures Leaves(s, Next(t, step), u, q, n, cap)
  {
    LeadsOn(s, t, step, cap);
    HistoryKept(t, step);
    if Tracks(s) {
      TracksStep(t, step);
    }
  }

  /** Pods counted on the node whose history is not handled to its end. */
  function Unsettled(s: Sys, q: string, n: string): set<UID> {
    set x | x in CountedOn(s.view.pods, Quota, n, q) && Handled(s, x) != |Hist(s, x)|
  }

  lemma HandleLast(s: Sys, x: UID, q: string, n: string) returns (step: Step)
    requires HistoriesOk(s) && x in Unsettled(s, q, n)
    ensures step.Handle? && step.u == x && Enabled(s, step)
    ensures Unsettled(Next(s, step), q, n) < Unsettled(s, q, n)
    ensures Occupants(Next(s, step).view, Quota, n, q) <= Occupants(s.view, Quota, n, q)
  {
    assert HistoryOk(s, x);
    step := Handle(x, |Hist(s, x)| - 1);
    var s' := Next(s, step);
    forall y | y in Unsettled(s', q, n)
      ensures y in Unsettled(s, q, n) && y != x
    {
    }
  }

  /** First the handler catches up with every pod counted on the node. */
  lemma {:induction false} Settle(s: Sys, t: Sys, u: UID, q: string, n: string, cap: nat) returns (t': Sys)
    requires Leaves(s, t, u, q, n, cap)
    ensures Leaves(s, t', u, q, n, cap) && Unsettled(t', q, n) == {} && t'.view.resv == t.view.resv
    ensures Occupants(t'.view, Quota, n, q) <= Occupants(t.view, Quota, n, q)
    decreases Unsettled(t, q, n)
  {
    if Unsettled(t, q, n) == {} {
      t' := t;
    } else {
      var x :| x in Unsettled(t, q, n);
      var step := HandleLast(t, x, q, n);
      LeavesOn(s, t, step, u, q, n, cap);
      t' := Settle(s, Next(t, step), u, q, n, cap);
    }
  }

  lemma {:induction false} FreshUid(s: set<UID>) returns (x: UID)
    ensures forall y | y in s :: |y| < |x|
    decreases s
  {
    if s == {} {
      x := "";
    } else {
      var y :| y in s;
      x := FreshUid(s - {y});
      if |x| <= |y| {
        x := y + "x";
      }
    }
  }

  /** A placement of an unknown pod that the cap alone decides. */
  function PlaceAlone(x: UID, q: string, n: string, cap: nat): Step {
    Place(x, PodRef(q, "", n), {n}, Policy(1, cap), 0)
  }

  lemma PlacedAlone(s: Sys, x: UID, q: string, n: string, cap: nat)
    requires Eff(s.view, Quota, n, q) < cap && x !in s.view.resv
    ensures Next(s, PlaceAlone(x, q, n, cap)) ==
            s.(view := s.view.(resv := s.view.resv[x := Reservation(PodRef(q, "", n), Reserved, 0)]))
  {
  }

  /** Below the cap another pod may be placed. */
  lemma FillOne(s: Sys, u: UID, q: string, n: string, cap: nat) returns (step: Step)
    requires Eff(s.view, Quota, n, q) < cap && Unsettled(s, q, n) == {} && u !in Occupants(s.view, Quota, n, q)
    ensures Calm(s, step, cap) && !step.Handle? && Unsettled(Next(s, step), q, n) == {}
    ensures u !in Occupants(Next(s, step).view, Quota, n, q)
    ensures |Occupants(Next(s, step).view, Quota, n, q)| == |Occupants(s.view, Quota, n, q)| + 1
  {
    var x := FreshUid(s.view.pods.Keys + s.view.resv.Keys + {u});
    step := PlaceAlone(x, q, n, cap);
    PlacedAlone(s, x, q, n, cap);
    ReservedInsert(s.view.resv, x, Reservation(PodRef(q, "", n), Reserved, 0), Quota, n, q);
    var all := Occupants(s.view, Quota, n, q);
    assert x !in all && x != u;
    assert Occupants(Next(s, step).view, Quota, n, q) == all + {x};
    assert Unsettled(Next(s, step), q, n) == Unsettled(s, q, n);
  }

  /** A double counted pod is observed: its reservation goes, the occupants stay. */
  lemma ReleaseOne(s: Sys, q: string, n: string, cap: nat) returns (step: Step)
    requires Overlap(s.view, Quota, n, q) != {} && Unsettled(s, q, n) == {}
    ensures Calm(s, step, cap) && !step.Handle? && Unsettled(Next(s, step), q, n) == {}
    ensures Occupants(Next(s, step).view, Quota, n, q) == Occupants(s.view, Quota, n, q)
    ensures Overlap(Next(s, step).view, Quota, n, q) < Overlap(s.view, Quota, n, q)
  {
    var x :| x in Overlap(s.view, Quota, n, q);
    assert x !in Unsettled(s, q, n);
    step := Release(x);
    assert ReservedOn(s.view.resv - {x}, Quota, n, q) == ReservedOn(s.view.resv, Quota, n, q) - {x};
    assert Unsettled(Next(s, step), q, n) == Unsettled(s, q, n);
  }

  /** Then new pods are placed, and double counted ones released, until the node is full. */
  lemma {:induction false} Fill(s: Sys, t: Sys, u: UID, q: string, n: string, cap: nat) returns (t': Sys)
    requires Leaves(s, t, u, q, n, cap) && Unsettled(t, q, n) == {} && |Occupants(t.view, Quota, n, q)| <= cap
    ensures Leaves(s, t', u, q, n, cap) && Unsettled(t', q, n) == {} && |Occupants(t'.view, Quota, n, q)| == cap
    decreases cap - |Occupants(t.view, Quota, n, q)|, Overlap(t.view, Quota, n, q)
  {
    UnionSize(CountedOn(t.view.pods, Quota, n, q), ReservedOn(t.view.resv, Quota, n, q));
    if |Occupants(t.view, Quota, n, q)| == cap {
      t' := t;
    } else if Eff(t.view, Quota, n, q) < cap {
      var step := FillOne(t, u, q, n, cap);
      LeavesOn(s, t, step, u, q, n, cap);
      t' := Fill(s, Next(t, step), u, q, n, cap);
    } else {
      var step := ReleaseOne(t, q, n, cap);
      LeavesOn(s, t, step, u, q, n, cap);
      t' := Fill(s, Next(t, step), u, q, n, cap);
    }
  }

  // ---- occupants ----

  /** An unbacked pod can be off the node when its awaited version comes up. */
  lemma Unbacked(s: Sys, u: UID, j: nat, cap: nat) returns (t: Sys)
    requires HistoriesOk(s) && Awaited(s, u, j) && !BackedAt(s, s.view.pods, u, j)
    ensures var ref := Hist(s, u)[j].obj.ref;
            && Leads(s, t, cap) && HistoriesOk(t) && t.hist == s.hist && Awaited(t, u, j) && !Occupies(t.view, u, ref)
            && Occupants(t.view, Quota, ref.nodeName, ref.quotaKey) <= Occupants(s.view, Quota, ref.nodeName, ref.quotaKey)
  {
    var ref := Hist(s, u)[j].obj.ref;
    LeadsNowhere(s, cap);
    if CountedAt(s.view.pods, u, ref) {
      var i :| Handled(s, u) <= i < j && i < |Hist(s, u)| && !Seats(Hist(s, u)[i]);
      LeadsOn(s, s, Handle(u, i), cap);
      HistoryKept(s, Handle(u, i));
      t := Next(s, Handle(u, i));
    } else {
      t := s;
    }
  }

  lemma HandledUnbacked(s: Sys, u: UID, j: nat)
    requires Awaited(s, u, j) && !Occupies(s.view, u, Hist(s, u)[j].obj.ref)
    ensures Enabled(s, Handle(u, j))
    ensures var ref := Hist(s, u)[j].obj.ref;
            Occupants(Next(s, Handle(u, j)).view, Quota, ref.nodeName, ref.quotaKey) ==
            Occupants(s.view, Quota, ref.nodeName, ref.quotaKey) + {u}
  {
  }

  /** A node filled to the cap while u stays off it. */
  lemma FillAround(s: Sys, u: UID, q: string, n: string, cap: nat) returns (t: Sys)
    requires HistoriesOk(s) && u !in Occupants(s.view, Quota, n, q) && |Occupants(s.view, Quota, n, q)| <= cap
    ensures Leaves(s, t, u, q, n, cap) && Unsettled(t, q, n) == {} && |Occupants(t.view, Quota, n, q)| == cap
  {
    LeadsNowhere(s, cap);
    t := Settle(s, s, u, q, n, cap);
    SubsetSize(Occupants(t.view, Quota, n, q), Occupants(s.view, Quota, n, q));
    t := Fill(s, t, u, q, n, cap);
  }

  lemma HandledOverfull(s: Sys, u: UID, j: nat, cap: nat) returns (t: Sys)
    requires Awaited(s, u, j) && !Occupies(s.view, u, Hist(s, u)[j].obj.ref)
    requires var ref := Hist(s, u)[j].obj.ref; |Occupants(s.view, Quota, ref.nodeName, ref.quotaKey)| == cap
    ensures Calm(s, Handle(u, j), cap) && t == Next(s, Handle(u, j)) && !Roomy(t, cap)
  {
    HandledUnbacked(s, u, j);
    t := Next(s, Handle(u, j));
    var ref := Hist(s, u)[j].obj.ref;
    assert |Occupants(t.view, Quota, ref.nodeName, ref.quotaKey)| == cap + 1;
  }

  lemma Overfills(s: Sys, u: UID, j: nat, cap: nat) returns (t: Sys)
    requires HistoriesOk(s) && Roomy(s, cap) && Awaited(s, u, j) && !BackedAt(s, s.view.pods, u, j)
    ensures Leads(s, t, cap) && !Roomy(t, cap)
  {
    var ref := Hist(s, u)[j].obj.ref;
    var (q, n) := (ref.quotaKey, ref.nodeName);
    var off := Unbacked(s, u, j, cap);
    SubsetSize(Occupants(off.view, Quota, n, q), Occupants(s.view, Quota, n, q));
    var full := FillAround(off, u, q, n, cap);
    t := HandledOverfull(full, u, j, cap);
    LeadsOn(off, full, Handle(u, j), cap);
    LeadsFurther(s, off, t, cap);
  }

  /**
   The cap on occupants is safe in a state, against every run of steps that keep everything backed, if and
   only if the handler will count every pod only where it is already counted or reserved.
   */
  lemma OccupancyExact(s: Sys, cap: nat)
    requires HistoriesOk(s) && Roomy(s, cap)
    ensures (forall states, steps | BackingRun(states, steps, s, cap) :: Roomy(states[|steps|], cap)) <==> Backed(s)
  {
    if Backed(s) {
      forall states, steps | BackingRun(states, steps, s, cap)
        ensures Roomy(states[|steps|], cap)
      {
        OccupancyWithinCap(states, steps, s, cap);
      }
    } else {
      var u :| !BackedPod(s, s.view.pods, u);
      var j: nat :| Awaited(s, u, j) && !BackedAt(s, s.view.pods, u, j);
      var t := Overfills(s, u, j, cap);
      var states, steps :| CalmRun(states, steps, s, t, cap);
      forall i | 0 <= i < |steps|
        ensures KeepsBacking(states[i], steps[i]) && NamesOccupants(states[i], steps[i]) && AsksAtMost(steps[i], cap)
      {
        CalmIsHarmless(states[i], steps[i], cap);
      }
      assert BackingRun(states, steps, s, cap);
    }
  }

  // ---- bound pods ----

  /** Runs of safe steps in which no placement asks for more than cap pods. */
  ghost predicate SafeRun(states: seq<Sys>, steps: seq<Step>, s: Sys, cap: nat) {
    && IsRun(states, steps) && states[0] == s
    && forall i | 0 <= i < |steps| :: Safe(states[i], steps[i]) && AsksAtMost(steps[i], cap)
  }

  /** No node seats more than cap pods of one service, bound or reserved. */
  ghost predicate Seated(s: Sys, cap: nat) {
    forall q, n :: |SeatsOn(s, q, n)| <= cap
  }

  /** In a tracking state an uncovered pod is off the node it is bound to. */
  lemma UncoveredIsOff(s: Sys, u: UID)
    requires HistoriesOk(s) && Tracks(s) && !CoveredPod(s, u)
    ensures BoundRef(s, u).nodeName != "" && u in BoundOn(s, BoundRef(s, u).quotaKey, BoundRef(s, u).nodeName)
    ensures !Occupies(s.view, u, BoundRef(s, u))
  {
    assert HistoryOk(s, u) && TrackedPod(s, u);
    if CountedAt(s.view.pods, u, BoundRef(s, u)) {
      SeenMeansSettled(s, u);
    }
  }

  /** Once the handler has caught up, all occupants have seats. */
  lemma SettledOccupantsHaveSeats(s: Sys, q: string, n: string)
    requires HistoriesOk(s) && Tracks(s) && Unsettled(s, q, n) == {} && n != ""
    ensures Occupants(s.view, Quota, n, q) <= SeatsOn(s, q, n)
  {
    forall x | x in CountedOn(s.view.pods, Quota, n, q)
      ensures x in BoundOn(s, q, n)
    {
      assert TrackedPod(s, x) && x !in Unsettled(s, q, n);
    }
  }

  /** Histories and reservations decide the seats. */
  lemma SameSeats(s: Sys, t: Sys, q: string, n: string)
    requires t.hist == s.hist
    ensures BoundOn(t, q, n) == BoundOn(s, q, n)
    ensures t.view.resv == s.view.resv ==> SeatsOn(t, q, n) == SeatsOn(s, q, n)
  {
  }

  /** A bound pod off a node has its seat besides the occupants that have seats. */
  lemma SeatBesides(s: Sys, u: UID, q: string, n: string)
    requires Occupants(s.view, Quota, n, q) <= SeatsOn(s, q, n)
    requires u in BoundOn(s, q, n) && u !in Occupants(s.view, Quota, n, q)
    ensures |SeatsOn(s, q, n)| > |Occupants(s.view, Quota, n, q)|
  {
    SubsetSize(Occupants(s.view, Quota, n, q) + {u}, SeatsOn(s, q, n));
  }

  lemma UncoveredOverfills(s: Sys, u: UID, q: string, n: string, cap: nat) returns (t: Sys)
    requires HistoriesOk(s) && Tracks(s) && |SeatsOn(s, q, n)| <= cap && n != ""
    requires u in BoundOn(s, q, n) && u !in Occupants(s.view, Quota, n, q)
    ensures Leads(s, t, cap) && |SeatsOn(t, q, n)| > cap
  {
    LeadsNowhere(s, cap);
    var ready := Settle(s, s, u, q, n, cap);
    SameSeats(s, ready, q, n);
    SettledOccupantsHaveSeats(ready, q, n);
    SeatBesides(ready, u, q, n);
    t := Fill(s, ready, u, q, n, cap);
    SameSeats(s, t, q, n);
    SettledOccupantsHaveSeats(t, q, n);
    SeatBesides(t, u, q, n);
  }

  /**
   The cap on bound and reserved pods is safe in a tracking state, against every run of safe steps, if and
   only if every bound pod is covered.
   */
  lemma CapExact(s: Sys, cap: nat)
    requires HistoriesOk(s) && Tracks(s) && Seated(s, cap)
    ensures (forall states, steps | SafeRun(states, steps, s, cap) :: Seated(states[|steps|], cap)) <==> Covered(s)
  {
    if Covered(s) {
      forall states, steps, q, n | SafeRun(states, steps, s, cap)
        ensures |SeatsOn(states[|steps|], q, n)| <= cap
      {
        CapNeverExceeded(states, steps, q, n, cap);
      }
    } else {
      var u :| !CoveredPod(s, u);
      UncoveredIsOff(s, u);
      var t := UncoveredOverfills(s, u, BoundRef(s, u).quotaKey, BoundRef(s, u).nodeName, cap);
      var states, steps :| CalmRun(states, steps, s, t, cap);
      forall i | 0 <= i < |steps|
        ensures Safe(states[i], steps[i]) && AsksAtMost(steps[i], cap)
      {
        CalmIsHarmless(states[i], steps[i], cap);
      }
      assert SafeRun(states, steps, s, cap);
    }
  }
}
