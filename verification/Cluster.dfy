/**
 The state machine inside a cluster. The API server keeps, for every pod, the history of its object
 versions; the informer handler works through each history in order, at its own pace; scheduler
 callbacks, janitor and reconciler interleave with it. One step is one lock-held section.
 */
module Cluster {
  import opened Types
  import opened Transitions

  /** A pod version: its refs carry the node it is bound to, "" while unbound. */
  datatype PodObj = PodObj(ref: PodRef, active: bool, managed: bool)

  datatype Event = Version(obj: PodObj) | Deleted

  /** The counting standard: bound, and Pending or Running. */
  predicate Countable(o: PodObj) {
    o.ref.nodeName != "" && o.active
  }

  /** Managed pods with the service label count under their keys, all others under the empty ref. */
  function EventRef(o: PodObj): PodRef {
    if o.managed then o.ref else EMPTY_REF
  }

  /** A version that makes a managed pod occupy a seat. */
  predicate Seats(e: Event) {
    e.Version? && e.obj.managed && Countable(e.obj)
  }

  /** One seat: the same node under the same quota key. The scheduling key may differ. */
  predicate SameSeat(a: PodRef, b: PodRef) {
    a.nodeName == b.nodeName && a.quotaKey == b.quotaKey
  }

  /**
   What API server rules allow to come after e in the history of one pod. The scheduling key may change:
   tolerations can be added to a running pod.
   */
  predicate Follows(e: Event, f: Event) {
    e.Version? &&
    (f.Version? ==>
       && e.obj.managed == f.obj.managed
       && e.obj.ref.quotaKey == f.obj.ref.quotaKey
       && (e.obj.ref.nodeName != "" ==> f.obj.ref.nodeName == e.obj.ref.nodeName)
       && (f.obj.active ==> e.obj.active))
  }

  /**
   The whole system: the plugin's view, every pod's history so far, and how many events of each
   history the handler has taken up.
   */
  datatype Sys = Sys(view: View, hist: map<UID, seq<Event>>, handled: map<UID, nat>)

  function Hist(s: Sys, u: UID): seq<Event> {
    if u in s.hist then s.hist[u] else []
  }

  function Handled(s: Sys, u: UID): nat {
    if u in s.handled then s.handled[u] else 0
  }

  ghost predicate HistoryOk(s: Sys, u: UID) {
    && Handled(s, u) <= |Hist(s, u)|
    && forall i, j | 0 <= i < j < |Hist(s, u)| :: Follows(Hist(s, u)[i], Hist(s, u)[j])
  }

  ghost predicate HistoriesOk(s: Sys) {
    forall u :: HistoryOk(s, u)
  }

  /** The pod really consumes a seat now: its newest version is bound and live. */
  predicate Bound(s: Sys, u: UID) {
    Hist(s, u) != [] && Seats(Hist(s, u)[|Hist(s, u)| - 1])
  }

  function BoundRef(s: Sys, u: UID): PodRef
    requires Bound(s, u)
  {
    Hist(s, u)[|Hist(s, u)| - 1].obj.ref
  }

  const INIT := Sys(View(map[], map[]), map[], map[])

  datatype Step =
    | Api(u: UID, event: Event)                 // the API server accepts a new version or a deletion
    | Handle(u: UID, at: nat)                   // first half of a pod event: count or uncount
    | Release(u: UID)                           // second half of an event, or of a janitor verification
    | Drop(u: UID)                              // second half of a delete event
    | Place(u: UID, ref: PodRef, domain: set<string>, policy: Policy, now: int)
    | PostBind(u: UID)
    | BindFailed(u: UID)
    | Evict(u: UID)                             // janitor: the source does not confirm the pod
    | Relist(list: map<UID, PodRef>)            // reconciler or janitor rebuild

  /** A version that binds a pod needs a live reservation for its seat. */
  predicate BindBacked(s: Sys, u: UID, e: Event) {
    Seats(e) && !Bound(s, u) ==> u in s.view.resv && SameSeat(s.view.resv[u].ref, e.obj.ref)
  }

  /** When a step can happen at all. Placements, releases and relists can always be attempted. */
  ghost predicate Enabled(s: Sys, step: Step) {
    match step
    case Api(u, e) =>
      BindBacked(s, u, e) && forall i | 0 <= i < |Hist(s, u)| :: Follows(Hist(s, u)[i], e)
    case Handle(u, at) => Handled(s, u) <= at < |Hist(s, u)|
    case Drop(u) =>
      Handled(s, u) == |Hist(s, u)| > 0 && Hist(s, u)[|Hist(s, u)| - 1].Deleted?
    case _ => true
  }

  function HandleEvent(v: View, u: UID, e: Event): View {
    if e.Version? && Countable(e.obj) then Upsert(v, u, EventRef(e.obj)) else Remove(v, u)
  }

  ghost function Next(s: Sys, step: Step): Sys
    requires Enabled(s, step)
  {
    match step
    case Api(u, e) => s.(hist := s.hist[u := Hist(s, u) + [e]])
    case Handle(u, at) =>
      s.(view := HandleEvent(s.view, u, Hist(s, u)[at]), handled := s.handled[u := at + 1])
    case Release(u) => s.(view := ReleaseIfObserved(s.view, u))
    case Drop(u) => s.(view := Forget(s.view, u))
    case Place(u, ref, domain, policy, now) => s.(view := Reserve(s.view, u, ref, domain, policy, now))
    case PostBind(u) => s.(view := MarkBound(s.view, u))
    case BindFailed(u) => s.(view := Unreserve(s.view, u))
    case Evict(u) => s.(view := Forget(s.view, u))
    case Relist(list) => s.(view := Rebuild(s.view, list))
  }

  /** The reservation carries the seat. */
  predicate Held(s: Sys, u: UID)
    requires Bound(s, u)
  {
    u in s.view.resv && SameSeat(s.view.resv[u].ref, BoundRef(s, u))
  }

  /** The snapshot carries the seat, and no event the handler still has to take up would drop it. */
  ghost predicate Settled(s: Sys, u: UID)
    requires Bound(s, u)
  {
    && u in s.view.pods && SameSeat(s.view.pods[u], BoundRef(s, u))
    && forall j | Handled(s, u) <= j < |Hist(s, u)| :: Seats(Hist(s, u)[j])
  }

  ghost predicate CoveredPod(s: Sys, u: UID) {
    Bound(s, u) ==> Held(s, u) || Settled(s, u)
  }

  /** Every pod really bound is held by a reservation or settled in the snapshot. */
  ghost predicate Covered(s: Sys) {
    HistoriesOk(s) && forall u :: CoveredPod(s, u)
  }

  /** The reservation a step takes away, if it takes one away. */
  predicate Drops(s: Sys, step: Step, u: UID) {
    match step
    case Release(x) => x == u && Observed(s.view, u)
    case Drop(x) => x == u
    case BindFailed(x) => x == u && u in s.view.resv && s.view.resv[u].phase == Reserved
    case Evict(x) => x == u
    case _ => false
  }

  /**
   The exact environment condition: a reservation is only taken from a bound pod the snapshot has
   settled, and a relist names every bound pod that no reservation holds.
   */
  ghost predicate Safe(s: Sys, step: Step) {
    if step.Relist? then
      forall u | Bound(s, u) && !Held(s, u) :: u in step.list && SameSeat(step.list[u], BoundRef(s, u))
    else
      forall u | Drops(s, step, u) && Bound(s, u) && Held(s, u) :: Settled(s, u)
  }

  lemma HistoryKept(s: Sys, step: Step)
    requires HistoriesOk(s) && Enabled(s, step)
    ensures HistoriesOk(Next(s, step))
  {
    var s' := Next(s, step);
    forall u
      ensures HistoryOk(s', u)
    {
      assert HistoryOk(s, u);
      if step.Api? && step.u == u {
        assert Hist(s', u) == Hist(s, u) + [step.event];
      }
    }
  }

  /** All later versions of a seated pod keep its seat, as long as it is still bound. */
  lemma SeatFixed(s: Sys, u: UID, j: nat)
    requires HistoryOk(s, u) && Bound(s, u) && j < |Hist(s, u)| && Seats(Hist(s, u)[j])
    ensures SameSeat(Hist(s, u)[j].obj.ref, BoundRef(s, u))
  {
  }

  /** Steps other than a relist: the pod stays covered exactly if no drop takes an unsettled seat. */
  lemma PodStep(s: Sys, step: Step, u: UID)
    requires Covered(s) && Enabled(s, step) && !step.Relist?
    ensures CoveredPod(Next(s, step), u) <==>
            (Drops(s, step, u) && Bound(s, u) && Held(s, u) ==> Settled(s, u))
  {
    var s' := Next(s, step);
    assert CoveredPod(s, u) && HistoryOk(s, u);
    if step.Api? && step.u == u {
      assert Hist(s', u) == Hist(s, u) + [step.event];
      if Bound(s, u) && Bound(s', u) {
        assert Follows(Hist(s, u)[|Hist(s, u)| - 1], step.event);
      }
    } else if step.Handle? && step.u == u && Bound(s, u) && Settled(s, u) {
      SeatFixed(s, u, step.at);
    }
  }

  /** The condition is exact: a step from a covered state keeps it covered if and only if it is safe. */
  lemma StepExact(s: Sys, step: Step)
    requires Covered(s) && Enabled(s, step)
    ensures Covered(Next(s, step)) <==> Safe(s, step)
  {
    HistoryKept(s, step);
    var s' := Next(s, step);
    forall u
      ensures step.Relist? ==>
                (CoveredPod(s', u) <==>
                 (Bound(s, u) && !Held(s, u) ==> u in step.list && SameSeat(step.list[u], BoundRef(s, u))))
      ensures !step.Relist? ==>
                (CoveredPod(s', u) <==> (Drops(s, step, u) && Bound(s, u) && Held(s, u) ==> Settled(s, u)))
    {
      assert CoveredPod(s, u);
      if !step.Relist? {
        PodStep(s, step, u);
      }
    }
  }
}
