/** The life of a reservation over whole runs. */
module Lifecycle {
  import opened Types
  import opened Transitions
  import opened Cluster
  import opened Runs
  import opened State

  /** Same seat and age, and the phase has not gone back. */
  predicate Matured(a: Reservation, b: Reservation) {
    b == a || (a.phase == Reserved && b == a.(phase := BoundObs))
  }

  /**
   One step keeps an entry as it is, or moves it to BoundObs if it is its PostBind, or removes it; and it is
   removed exactly by a deletion, an eviction, a failed bind before PostBind, or an observation on its node.
   */
  lemma EntryStep(s: Sys, step: Step, u: UID)
    requires Enabled(s, step) && u in s.view.resv
    ensures var (r, resv') := (s.view.resv[u], Next(s, step).view.resv);
            && (u in resv' ==> resv'[u] == if step == PostBind(u) then Reservation(r.ref, BoundObs, r.since) else r)
            && (u !in resv' <==>
                  step == Drop(u) || step == Evict(u) || (step == BindFailed(u) && r.phase == Reserved) ||
                  (step == Release(u) && u in s.view.pods && s.view.pods[u].nodeName == r.ref.nodeName))
  {
  }

  /** A new entry is what an admitted placement of that pod wrote, its age counted from that moment. */
  lemma NewEntry(s: Sys, step: Step, u: UID)
    requires Enabled(s, step) && u !in s.view.resv
    ensures u in Next(s, step).view.resv <==>
            step.Place? && step.u == u && Admits(s.view, step.ref, step.domain, step.policy)
    ensures u in Next(s, step).view.resv ==>
              Next(s, step).view.resv[u] == Reservation(step.ref, Reserved, step.now)
  {
  }

  /** The entry of u at state j was written by the placement at step i and has lived since. */
  ghost predicate PlacedBy(states: seq<Sys>, steps: seq<Step>, u: UID, i: nat, j: nat)
    requires IsRun(states, steps) && j < |states|
  {
    && i < j && steps[i].Place? && steps[i].u == u && u !in states[i].view.resv
    && forall k | i < k <= j :: u in states[k].view.resv
  }

  /**
   Where a reservation comes from: over every run it carries the ref of the placement that took it, its age
   counts from the time of that placement, and it is in phase BoundObs exactly if a PostBind came since.
   */
  lemma {:induction false} EntryHistory(states: seq<Sys>, steps: seq<Step>, u: UID, j: nat) returns (i: nat)
    requires IsRun(states, steps) && j < |states|
    requires u !in states[0].view.resv && u in states[j].view.resv
    ensures PlacedBy(states, steps, u, i, j)
    ensures var r := states[j].view.resv[u];
            && r.ref == steps[i].ref && r.since == steps[i].now
            && (r.phase == BoundObs <==> exists k :: i < k < j && steps[k] == PostBind(u))
    decreases j
  {
    var (s, step) := (states[j - 1], steps[j - 1]);
    if u in s.view.resv {
      i := EntryHistory(states, steps, u, j - 1);
      EntryStep(s, step, u);
    } else {
      i := j - 1;
      NewEntry(s, step, u);
    }
  }

  /** A janitor pass releases a reservation from ttl after its placement on, and never before. */
  lemma ReservationAge(states: seq<Sys>, steps: seq<Step>, u: UID, j: nat, time: int, ttl: int, list: map<UID, PodRef>)
    returns (i: nat)
    requires IsRun(states, steps) && j < |states|
    requires u !in states[0].view.resv && u in states[j].view.resv
    ensures PlacedBy(states, steps, u, i, j)
    ensures u in JanitorPass(states[j].view, time, ttl, list).resv <==> time < steps[i].now + ttl
  {
    i := EntryHistory(states, steps, u, j);
    JanitorPassEffect(states[j].view, time, ttl, list, u);
  }

  /** As long as an entry lives it stays on its node with its keys, and BoundObs is final. */
  lemma EntryLife(states: seq<Sys>, steps: seq<Step>, u: UID, i: nat, j: nat)
    requires IsRun(states, steps) && i <= j < |states|
    requires forall k | i <= k <= j :: u in states[k].view.resv
    ensures Matured(states[i].view.resv[u], states[j].view.resv[u])
  {
    for k := i to j
      invariant Matured(states[i].view.resv[u], states[k].view.resv[u])
    {
      EntryStep(states[k], steps[k], u);
    }
  }

  /**
   From a PostBind of a live reservation on, it is BoundObs, a failed bind leaves it, and it ends only by an
   observation on its node, a deletion or an eviction.
   */
  lemma AfterPostBind(states: seq<Sys>, steps: seq<Step>, u: UID, i: nat, j: nat)
    requires IsRun(states, steps) && i < j < |steps| && steps[i] == PostBind(u)
    requires forall k | i <= k <= j :: u in states[k].view.resv
    ensures states[j].view.resv[u] == Reservation(states[i].view.resv[u].ref, BoundObs, states[i].view.resv[u].since)
    ensures u in Next(states[j], BindFailed(u)).view.resv
    ensures u !in states[j + 1].view.resv ==>
              steps[j] == Drop(u) || steps[j] == Evict(u) ||
              (steps[j] == Release(u) && u in states[j].view.pods &&
               states[j].view.pods[u].nodeName == states[i].view.resv[u].ref.nodeName)
  {
    EntryStep(states[i], steps[i], u);
    EntryLife(states, steps, u, i + 1, j);
    EntryStep(states[j], steps[j], u);
    EntryStep(states[j], BindFailed(u), u);
  }

  /** Both halves of a pod event. */
  function PodEvent(v: View, u: UID, e: Event): View {
    if e.Version? then ReleaseIfObserved(HandleEvent(v, u, e), u) else Forget(HandleEvent(v, u, e), u)
  }

  /**
   What a pod event leaves: on a real node the pod is counted exactly if its object is managed, active and
   bound there; its reservation goes exactly if it is then counted on the reserved node; other pods are untouched.
   */
  lemma PodEventCounts(v: View, u: UID, o: PodObj, n: string)
    requires n != ""
    ensures var v' := PodEvent(v, u, Version(o));
            && (u in v'.pods && v'.pods[u].nodeName == n <==> o.managed && o.active && o.ref.nodeName == n)
            && (u in v'.pods && v'.pods[u].nodeName == n ==> v'.pods[u] == o.ref)
            && (u in v'.resv <==> u in v.resv && !(u in v'.pods && v'.pods[u].nodeName == v.resv[u].ref.nodeName))
            && v'.pods - {u} == v.pods - {u} && v'.resv - {u} == v.resv - {u}
  {
  }

  /** A deletion leaves neither count nor reservation of the pod, and other pods untouched. */
  lemma DeletionClears(v: View, u: UID)
    ensures var v' := PodEvent(v, u, Deleted);
            u !in v'.pods && u !in v'.resv && v'.pods - {u} == v.pods - {u} && v'.resv - {u} == v.resv - {u}
  {
  }

  /** A pod event is the handler's two steps without anything in between. */
  lemma PodEventIsTwoSteps(s: Sys, u: UID, at: nat)
    requires HistoryOk(s, u) && Enabled(s, Handle(u, at))
    requires Hist(s, u)[at].Deleted? ==> at + 1 == |Hist(s, u)|
    ensures var (s', e) := (Next(s, Handle(u, at)), Hist(s, u)[at]);
            var half := if e.Version? then Release(u) else Drop(u);
            Enabled(s', half) && Next(s', half).view == PodEvent(s.view, u, e)
  {
  }

  /** Routing of one informer object: managed labelled pods under their ref, all others under the empty one. */
  method OnPodEvent(st: SpreadState, u: UID, o: PodObj)
    requires st.Valid()
    modifies st
    ensures st.Valid() && st.V() == PodEvent(old(st.V()), u, Version(o))
    ensures u in st.snap.pods && st.snap.pods[u].nodeName != "" <==> o.managed && o.active && o.ref.nodeName != ""
    ensures o.managed && o.active && o.ref.nodeName != "" ==> u in st.snap.pods && st.snap.pods[u] == o.ref
  {
    if o.managed {
      st.OnPodAddOrUpdate(u, Countable(o), o.ref);
      return;
    }
    st.OnPodAddOrUpdate(u, Countable(o), EMPTY_REF);
  }

  /** PostBind and the bind event of the same pod may come in either order, in every state. */
  lemma PostBindCommutes(v: View, u: UID, e: Event)
    ensures PodEvent(MarkBound(v, u), u, e) == MarkBound(PodEvent(v, u, e), u)
  {
    var w := HandleEvent(v, u, e);
    assert HandleEvent(MarkBound(v, u), u, e) == MarkBound(w, u);
    if e.Deleted? || Observed(w, u) {
      assert MarkBound(w, u).resv - {u} == w.resv - {u};
    }
  }
}
