/** Whole runs: every bound pod stays covered and the cap holds under races. */
module Runs {
  import opened Types
  import opened Transitions
  import opened Cluster
  import opened Counts

  ghost predicate IsRun(states: seq<Sys>, steps: seq<Step>) {
    && |states| == |steps| + 1
    && forall i | 0 <= i < |steps| :: Enabled(states[i], steps[i]) && states[i + 1] == Next(states[i], steps[i])
  }

  /** Pods of a service really bound to a node. */
  function BoundOn(s: Sys, quotaKey: string, node: string): set<UID> {
    set u | u in s.hist && Bound(s, u) && BoundRef(s, u).quotaKey == quotaKey && BoundRef(s, u).nodeName == node
  }

  /** These are the pods whose newest version is managed, active and carries the node and the service. */
  lemma BoundOnMeans(s: Sys, u: UID, q: string, n: string)
    requires n != "" && Hist(s, u) != []
    ensures var e := Hist(s, u)[|Hist(s, u)| - 1];
            u in BoundOn(s, q, n) <==>
            e.Version? && e.obj.managed && e.obj.active && e.obj.ref.nodeName == n && e.obj.ref.quotaKey == q
  {
  }

  /** Seats taken: pods of a service bound to a node or reserved on it. */
  function SeatsOn(s: Sys, quotaKey: string, node: string): set<UID> {
    BoundOn(s, quotaKey, node) + ReservedOn(s.view.resv, Quota, node, quotaKey)
  }

  /** Placements of the service ask for at most cap pods per node. */
  predicate WithinCap(step: Step, quotaKey: string, cap: nat) {
    step.Place? && step.ref.quotaKey == quotaKey ==> step.policy.maxPodsPerNode <= cap
  }

  /** In a covered state the effective count never reads below the seats taken. */
  lemma EffCoversSeats(s: Sys, q: string, n: string)
    requires Covered(s)
    ensures |SeatsOn(s, q, n)| <= |Occupants(s.view, Quota, n, q)| <= Eff(s.view, Quota, n, q)
  {
    forall u | u in BoundOn(s, q, n)
      ensures u in Occupants(s.view, Quota, n, q)
    {
      assert CoveredPod(s, u);
    }
    SubsetSize(SeatsOn(s, q, n), Occupants(s.view, Quota, n, q));
    UnionSize(CountedOn(s.view.pods, Quota, n, q), ReservedOn(s.view.resv, Quota, n, q));
  }

  /** A binding takes no new seat: the reservation that backs it already has it. */
  lemma BindTakesReservedSeat(s: Sys, u: UID, e: Event, q: string, n: string)
    requires Enabled(s, Api(u, e))
    ensures SeatsOn(Next(s, Api(u, e)), q, n) <= SeatsOn(s, q, n)
  {
  }

  /** Only an admitted placement on the node can take a new seat there. */
  lemma NewSeat(s: Sys, step: Step, q: string, n: string)
    requires Enabled(s, step)
    ensures SeatsOn(Next(s, step), q, n) <= SeatsOn(s, q, n) ||
            (step.Place? && step.ref.quotaKey == q && step.ref.nodeName == n &&
             Admits(s.view, step.ref, step.domain, step.policy) &&
             SeatsOn(Next(s, step), q, n) <= SeatsOn(s, q, n) + {step.u})
  {
    if step.Api? {
      BindTakesReservedSeat(s, step.u, step.event, q, n);
    } else {
      assert BoundOn(Next(s, step), q, n) == BoundOn(s, q, n);
    }
  }

  /** What holds at every state of a safe run. */
  ghost predicate Good(s: Sys, q: string, n: string, cap: nat) {
    Covered(s) && |SeatsOn(s, q, n)| <= cap
  }

  lemma GoodStep(s: Sys, step: Step, q: string, n: string, cap: nat)
    requires Good(s, q, n, cap) && Enabled(s, step) && Safe(s, step) && WithinCap(step, q, cap)
    ensures Good(Next(s, step), q, n, cap)
  {
    StepExact(s, step);
    NewSeat(s, step, q, n);
    EffCoversSeats(s, q, n);
    var (a, b) := (SeatsOn(s, q, n), SeatsOn(Next(s, step), q, n));
    if b <= a {
      SubsetSize(b, a);
    } else {
      SubsetSize(b, a + {step.u});
    }
  }

  /**
   Safety of every run: from any state where every bound pod is covered and the cap holds, under any
   interleaving of safe steps with placements attempted anywhere, each bound pod stays covered and no node
   ever seats more than cap pods of the service.
   */
  lemma CapNeverExceeded(states: seq<Sys>, steps: seq<Step>, q: string, n: string, cap: nat)
    requires IsRun(states, steps) && Good(states[0], q, n, cap)
    requires forall i | 0 <= i < |steps| :: Safe(states[i], steps[i]) && WithinCap(steps[i], q, cap)
    ensures forall i | 0 <= i < |states| ::
              Covered(states[i]) && |BoundOn(states[i], q, n)| <= |SeatsOn(states[i], q, n)| <= cap
  {
    for k := 0 to |steps|
      invariant forall i | 0 <= i <= k :: Good(states[i], q, n, cap)
    {
      GoodStep(states[k], steps[k], q, n, cap);
    }
    forall i | 0 <= i < |states|
      ensures |BoundOn(states[i], q, n)| <= |SeatsOn(states[i], q, n)|
    {
      SubsetSize(BoundOn(states[i], q, n), SeatsOn(states[i], q, n));
    }
  }
}
