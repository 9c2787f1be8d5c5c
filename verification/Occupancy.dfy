/**
 Distinct pods counted or reserved on a node. A handler that lags behind may count a pod that is gone
 by then, so the cap on occupants needs more than the cap on bound pods.
 */
module Occupancy {
  import opened Types
  import opened Transitions
  import opened Cluster
  import opened Runs
  import opened Tracking
  import opened Counts

  /** A version that the handler has still to take up and that will count the pod. */
  predicate Awaited(s: Sys, u: UID, j: nat) {
    Handled(s, u) <= j < |Hist(s, u)| && Seats(Hist(s, u)[j])
  }

  predicate CountedAt(pods: map<UID, PodRef>, u: UID, ref: PodRef) {
    u in CountedOn(pods, Quota, ref.nodeName, ref.quotaKey)
  }

  predicate ReservedAt(s: Sys, u: UID, ref: PodRef) {
    u in ReservedOn(s.view.resv, Quota, ref.nodeName, ref.quotaKey)
  }

  predicate Occupies(v: View, u: UID, ref: PodRef) {
    u in Occupants(v, Quota, ref.nodeName, ref.quotaKey)
  }

  /** No version the handler takes up before j uncounts the pod. */
  ghost predicate SeatedUntil(s: Sys, u: UID, j: nat) {
    forall i | Handled(s, u) <= i < j && i < |Hist(s, u)| :: Seats(Hist(s, u)[i])
  }

  /** A snapshot with these pods backs what the handler will count at version j. */
  ghost predicate BackedBy(s: Sys, pods: map<UID, PodRef>, u: UID, j: nat)
    requires Awaited(s, u, j)
  {
    CountedAt(pods, u, Hist(s, u)[j].obj.ref) && SeatedUntil(s, u, j)
  }

  /** The pod will be counted at version j only where it is reserved, or counted until then. */
  ghost predicate BackedAt(s: Sys, pods: map<UID, PodRef>, u: UID, j: nat)
    requires Awaited(s, u, j)
  {
    ReservedAt(s, u, Hist(s, u)[j].obj.ref) || BackedBy(s, pods, u, j)
  }

  ghost predicate BackedPod(s: Sys, pods: map<UID, PodRef>, u: UID) {
    forall j: nat | Awaited(s, u, j) :: BackedAt(s, pods, u, j)
  }

  /** The handler will count every pod only where it is already counted or reserved. */
  ghost predicate Backed(s: Sys) {
    forall u :: BackedPod(s, s.view.pods, u)
  }

  /** The snapshot alone backs what the handler will count of the pod. */
  ghost predicate Dispensable(s: Sys, u: UID) {
    forall j: nat | Awaited(s, u, j) :: BackedBy(s, s.view.pods, u, j)
  }

  /** A new version of the pod seats it only where it is reserved, or counted until then. */
  ghost predicate NewVersionBacked(s: Sys, u: UID, e: Event) {
    Seats(e) ==>
      ReservedAt(s, u, e.obj.ref) ||
      (CountedAt(s.view.pods, u, e.obj.ref) && SeatedUntil(s, u, |Hist(s, u)|))
  }

  /**
   What a step must respect: a new seating version is backed, a list keeps what the handler has still to
   count backed, and a reservation is only taken where the snapshot alone backs it.
   */
  ghost predicate KeepsBacking(s: Sys, step: Step) {
    match step
    case Api(u, e) => NewVersionBacked(s, u, e)
    case Relist(list) => forall u :: BackedPod(s, list, u)
    case _ => forall u | Drops(s, step, u) :: Dispensable(s, u)
  }

  lemma SameAwaited(s: Sys, s': Sys, u: UID)
    requires Hist(s', u) == Hist(s, u) && Handled(s', u) == Handled(s, u)
    ensures forall j: nat :: Awaited(s', u, j) <==> Awaited(s, u, j)
    ensures forall j: nat :: SeatedUntil(s', u, j) <==> SeatedUntil(s, u, j)
  {
  }

  /** Taking up a version keeps the pod backed: it counts the pod, or the reservation backs the rest. */
  lemma HandledStaysBacked(s: Sys, u: UID, at: nat)
    requires HistoryOk(s, u) && BackedPod(s, s.view.pods, u) && Enabled(s, Handle(u, at))
    ensures BackedPod(Next(s, Handle(u, at)), Next(s, Handle(u, at)).view.pods, u)
  {
    var s' := Next(s, Handle(u, at));
    forall j: nat | Awaited(s', u, j)
      ensures BackedAt(s', s'.view.pods, u, j)
    {
      assert Awaited(s, u, j) && Follows(Hist(s, u)[at], Hist(s, u)[j]);
      if BackedBy(s, s.view.pods, u, j) {
        assert Seats(Hist(s, u)[at]);
        assert SeatedUntil(s', u, j);
      }
    }
  }

  /** A new version changes nothing for the older ones. */
  lemma NewVersionExact(s: Sys, u: UID, e: Event)
    requires HistoryOk(s, u) && BackedPod(s, s.view.pods, u) && Enabled(s, Api(u, e))
    ensures BackedPod(Next(s, Api(u, e)), s.view.pods, u) <==> NewVersionBacked(s, u, e)
  {
    var s' := Next(s, Api(u, e));
    var last := |Hist(s, u)|;
    assert Hist(s', u) == Hist(s, u) + [e];
    forall j: nat | j <= last
      ensures SeatedUntil(s', u, j) <==> SeatedUntil(s, u, j)
    {
      assert forall i | Handled(s, u) <= i < j :: Hist(s', u)[i] == Hist(s, u)[i];
    }
    assert forall j: nat | j < last :: Awaited(s', u, j) <==> Awaited(s, u, j);
    assert Awaited(s', u, last) <==> Seats(e);
    if NewVersionBacked(s, u, e) {
      forall j: nat | Awaited(s', u, j)
        ensures BackedAt(s', s.view.pods, u, j)
      {
        assert j < last ==> BackedAt(s, s.view.pods, u, j);
      }
    }
  }

  lemma BackedPodStep(s: Sys, step: Step, u: UID)
    requires HistoriesOk(s) && Backed(s) && Enabled(s, step) && !step.Relist?
    ensures BackedPod(Next(s, step), Next(s, step).view.pods, u) <==>
            (step.Api? && step.u == u ==> NewVersionBacked(s, u, step.event)) &&
            (Drops(s, step, u) ==> Dispensable(s, u))
  {
    var s' := Next(s, step);
    assert HistoryOk(s, u) && BackedPod(s, s.view.pods, u);
    match step
    case Handle(x, at) => if x == u { HandledStaysBacked(s, u, at); } else { SameAwaited(s, s', u); }
    case Api(x, e) => if x == u { NewVersionExact(s, u, e); } else { SameAwaited(s, s', u); }
    case _ =>
      SameAwaited(s, s', u);
  }

  /** A step keeps everything backed if and only if it respects this. */
  lemma BackingExact(s: Sys, step: Step)
    requires HistoriesOk(s) && Backed(s) && Enabled(s, step)
    ensures Backed(Next(s, step)) <==> KeepsBacking(s, step)
  {
    var s' := Next(s, step);
    forall u
      ensures step.Relist? ==> (BackedPod(s', s'.view.pods, u) <==> BackedPod(s, step.list, u))
      ensures !step.Relist? ==>
                (BackedPod(s', s'.view.pods, u) <==>
                 (step.Api? && step.u == u ==> NewVersionBacked(s, u, step.event)) &&
                 (Drops(s, step, u) ==> Dispensable(s, u)))
    {
      if step.Relist? {
        SameAwaited(s, s', u);
      } else {
        BackedPodStep(s, step, u);
      }
    }
  }

  // ---- runs ----

  /** A list shows pods on real nodes only where they are counted or reserved. */
  ghost predicate NamesOccupants(s: Sys, step: Step) {
    step.Relist? ==> forall u | u in step.list && step.list[u].nodeName != "" :: Occupies(s.view, u, step.list[u])
  }

  /** In a backed state only an admitted placement adds an occupant to a real node. */
  lemma NewOccupant(s: Sys, step: Step, q: string, n: string)
    requires Backed(s) && Enabled(s, step) && NamesOccupants(s, step) && n != ""
    ensures Occupants(Next(s, step).view, Quota, n, q) <= Occupants(s.view, Quota, n, q) ||
            (step.Place? && step.ref.quotaKey == q && step.ref.nodeName == n &&
             Admits(s.view, step.ref, step.domain, step.policy) &&
             Occupants(Next(s, step).view, Quota, n, q) <= Occupants(s.view, Quota, n, q) + {step.u})
  {
    if step.Handle? {
      assert BackedPod(s, s.view.pods, step.u);
      assert Seats(Hist(s, step.u)[step.at]) ==> Awaited(s, step.u, step.at);
    }
  }

  lemma OccupancyStep(s: Sys, step: Step, q: string, n: string, cap: nat)
    requires Backed(s) && Enabled(s, step) && NamesOccupants(s, step) && WithinCap(step, q, cap) && n != ""
    requires |Occupants(s.view, Quota, n, q)| <= cap
    ensures |Occupants(Next(s, step).view, Quota, n, q)| <= cap
  {
    NewOccupant(s, step, q, n);
    var (a, b) := (Occupants(s.view, Quota, n, q), Occupants(Next(s, step).view, Quota, n, q));
    if b <= a {
      SubsetSize(b, a);
    } else {
      SubsetSize(b, a + {step.u});
      UnionSize(CountedOn(s.view.pods, Quota, n, q), ReservedOn(s.view.resv, Quota, n, q));
    }
  }

  predicate AsksAtMost(step: Step, cap: nat) {
    step.Place? ==> step.policy.maxPodsPerNode <= cap
  }

  /** Runs whose steps keep everything backed and in which no placement asks for more than cap pods. */
  ghost predicate BackingRun(states: seq<Sys>, steps: seq<Step>, s: Sys, cap: nat) {
    && IsRun(states, steps) && states[0] == s
    && forall i | 0 <= i < |steps| ::
         KeepsBacking(states[i], steps[i]) && NamesOccupants(states[i], steps[i]) && AsksAtMost(steps[i], cap)
  }

  /** No real node has more than cap distinct pods of one service counted or reserved. */
  ghost predicate Roomy(s: Sys, cap: nat) {
    forall q, n | n != "" :: |Occupants(s.view, Quota, n, q)| <= cap
  }

  lemma RoomyStep(s: Sys, step: Step, cap: nat)
    requires Backed(s) && Roomy(s, cap) && Enabled(s, step) && NamesOccupants(s, step) && AsksAtMost(step, cap)
    ensures Roomy(Next(s, step), cap)
  {
    var s' := Next(s, step);
    forall q, n | n != ""
      ensures |Occupants(s'.view, Quota, n, q)| <= cap
    {
      OccupancyStep(s, step, q, n, cap);
    }
  }

  /**
   The number of distinct pods counted or reserved on a node stays within the cap in every run whose steps
   keep everything backed.
   */
  lemma OccupancyWithinCap(states: seq<Sys>, steps: seq<Step>, s: Sys, cap: nat)
    requires HistoriesOk(s) && Backed(s) && Roomy(s, cap) && BackingRun(states, steps, s, cap)
    ensures forall i | 0 <= i < |states| :: Roomy(states[i], cap)
  {
    for k := 0 to |steps|
      invariant HistoriesOk(states[k]) && Backed(states[k])
      invariant forall i | 0 <= i <= k :: Roomy(states[i], cap)
    {
      HistoryKept(states[k], steps[k]);
      BackingExact(states[k], steps[k]);
      RoomyStep(states[k], steps[k], cap);
    }
  }

  // ---- covered states: any list of bound pods ----

  /** A new version of a covered pod is always backed. */
  lemma CoveredBacksVersions(s: Sys, u: UID, e: Event)
    requires Covered(s) && Enabled(s, Api(u, e))
    ensures NewVersionBacked(s, u, e)
  {
    assert CoveredPod(s, u);
    if Seats(e) && Bound(s, u) {
      assert Follows(Hist(s, u)[|Hist(s, u)| - 1], e);
    }
  }

  /** The list shows bound pods only, each in its seat. */
  ghost predicate ListsBound(s: Sys, list: map<UID, PodRef>) {
    forall u | u in list :: Bound(s, u) && SameSeat(list[u], BoundRef(s, u))
  }

  lemma BoundListNamesOccupants(s: Sys, list: map<UID, PodRef>)
    requires Covered(s) && ListsBound(s, list)
    ensures NamesOccupants(s, Relist(list))
  {
    forall u | u in list
      ensures Occupies(s.view, u, list[u])
    {
      assert CoveredPod(s, u);
    }
  }

  /** Lists show bound pods and leave what is awaited backed; so does every reservation that is taken. */
  ghost predicate Careful(s: Sys, step: Step) {
    && (step.Relist? ==> ListsBound(s, step.list))
    && (!step.Api? ==> KeepsBacking(s, step))
  }

  /**
   Together with safety this is all the environment must respect: bound pods stay covered, and pods counted
   or reserved stay within the cap, under any interleaving, lists ahead of the handler included.
   */
  lemma CarefulRunsKeepOccupancy(states: seq<Sys>, steps: seq<Step>, cap: nat)
    requires IsRun(states, steps) && Covered(states[0]) && Backed(states[0]) && Roomy(states[0], cap)
    requires forall i | 0 <= i < |steps| ::
               Safe(states[i], steps[i]) && Careful(states[i], steps[i]) && AsksAtMost(steps[i], cap)
    ensures forall i | 0 <= i < |states| :: Covered(states[i]) && Roomy(states[i], cap)
  {
    for k := 0 to |steps|
      invariant Backed(states[k])
      invariant forall i | 0 <= i <= k :: Covered(states[i]) && Roomy(states[i], cap)
    {
      var (s, step) := (states[k], steps[k]);
      if step.Api? {
        CoveredBacksVersions(s, step.u, step.event);
      } else if step.Relist? {
        BoundListNamesOccupants(s, step.list);
      }
      StepExact(s, step);
      BackingExact(s, step);
      RoomyStep(s, step, cap);
    }
  }

  // ---- tracking states: lists of what the handler has seen ----

  /**
   An unconfirmed janitor release or a failed bind waits for the handler: it takes a reservation only
   when no version still to be handled depends on it.
   */
  ghost predicate Patient(s: Sys, step: Step) {
    match step
    case Evict(u) => Dispensable(s, u)
    case BindFailed(u) => Drops(s, step, u) ==> Dispensable(s, u)
    case _ => true
  }

  /** Once a seating version is handled, the snapshot backs all seating versions still to come. */
  lemma SeenBacks(s: Sys, u: UID, j: nat)
    requires HistoryOk(s, u) && TrackedPod(s, u) && Awaited(s, u, j)
    requires u in s.view.pods && s.view.pods[u].nodeName != ""
    ensures BackedBy(s, s.view.pods, u, j)
  {
    assert Follows(LastSeen(s, u), Hist(s, u)[j]);
    forall i | Handled(s, u) <= i < j
      ensures Seats(Hist(s, u)[i])
    {
      assert Follows(LastSeen(s, u), Hist(s, u)[i]) && Follows(Hist(s, u)[i], Hist(s, u)[j]);
    }
  }

  lemma ObservedIsDispensable(s: Sys, u: UID)
    requires HistoryOk(s, u) && TrackedPod(s, u) && BackedPod(s, s.view.pods, u) && Observed(s.view, u)
    ensures Dispensable(s, u)
  {
    forall j: nat | Awaited(s, u, j)
      ensures BackedBy(s, s.view.pods, u, j)
    {
      if s.view.pods[u].nodeName != "" {
        SeenBacks(s, u, j);
      }
    }
  }

  lemma FreshListIsCareful(s: Sys, list: map<UID, PodRef>)
    requires HistoriesOk(s) && Tracks(s) && Backed(s) && list == Listed(Cache(s))
    ensures KeepsBacking(s, Relist(list)) && NamesOccupants(s, Relist(list))
  {
    forall u
      ensures BackedPod(s, list, u)
      ensures u in list ==> Occupies(s.view, u, list[u])
    {
      assert HistoryOk(s, u) && TrackedPod(s, u) && BackedPod(s, s.view.pods, u);
      ListedCache(s, u);
    }
  }

  lemma TrackedBacksVersions(s: Sys, u: UID, e: Event)
    requires HistoriesOk(s) && Tracks(s) && Backed(s) && Enabled(s, Api(u, e))
    ensures NewVersionBacked(s, u, e)
  {
    var last := |Hist(s, u)| - 1;
    assert HistoryOk(s, u) && TrackedPod(s, u) && BackedPod(s, s.view.pods, u);
    if Seats(e) && Bound(s, u) {
      assert Follows(Hist(s, u)[last], e);
      if Handled(s, u) <= last {
        assert Awaited(s, u, last) && BackedAt(s, s.view.pods, u, last);
      }
    }
  }

  /** With lists of what the handler has seen, a step keeps everything backed if and only if it is patient. */
  lemma PatienceExact(s: Sys, step: Step)
    requires HistoriesOk(s) && Tracks(s) && Backed(s) && Enabled(s, step) && FreshList(s, step)
    ensures NamesOccupants(s, step)
    ensures Backed(Next(s, step)) <==> Patient(s, step)
  {
    BackingExact(s, step);
    match step
    case Relist(list) => FreshListIsCareful(s, list);
    case Api(u, e) => TrackedBacksVersions(s, u, e);
    case Release(u) =>
      if Observed(s.view, u) {
        assert HistoryOk(s, u) && TrackedPod(s, u) && BackedPod(s, s.view.pods, u);
        ObservedIsDispensable(s, u);
      }
    case _ =>
  }

  /** So the cap on occupants holds in every run with such lists and patient releases. */
  lemma PatientRunsKeepOccupancy(states: seq<Sys>, steps: seq<Step>, cap: nat)
    requires IsRun(states, steps) && HistoriesOk(states[0]) && Tracks(states[0])
    requires Backed(states[0]) && Roomy(states[0], cap)
    requires forall i | 0 <= i < |steps| ::
               FreshList(states[i], steps[i]) && Patient(states[i], steps[i]) && AsksAtMost(steps[i], cap)
    ensures forall i | 0 <= i < |states| :: Roomy(states[i], cap)
  {
    for k := 0 to |steps|
      invariant HistoriesOk(states[k]) && Tracks(states[k]) && Backed(states[k])
      invariant forall i | 0 <= i <= k :: Roomy(states[i], cap)
    {
      HistoryKept(states[k], steps[k]);
      TracksStep(states[k], steps[k]);
      PatienceExact(states[k], steps[k]);
      RoomyStep(states[k], steps[k], cap);
    }
  }

  /** Runs may start from a restart, the empty state being one. */
  lemma RestartIsBacked(s: Sys)
    requires HistoriesOk(s)
    ensures HistoriesOk(Restarted(s)) && Tracks(Restarted(s)) && Covered(Restarted(s)) && Backed(Restarted(s))
  {
    RestartIsGood(s, "", "", |BoundOn(s, "", "")|);
  }
}
