/** The incremental snapshot against the lister and the cluster, and the plain rules that make every step safe. */
module Tracking {
  import opened Types
  import opened Transitions
  import opened Cluster
  import opened Runs
  import opened Keys
  import opened Counts

  /** The production pod source: managed, labelled, countable pods under their refs. */
  function Listed(objs: map<UID, PodObj>): map<UID, PodRef> {
    map u | u in objs && objs[u].managed && Countable(objs[u]) :: objs[u].ref
  }

  method ListCountable(objs: map<UID, PodObj>) returns (out: map<UID, PodRef>)
    ensures out == Listed(objs)
    ensures forall u :: u in out <==> u in objs && objs[u].managed && objs[u].active && objs[u].ref.nodeName != ""
    ensures forall u | u in out :: out[u] == objs[u].ref
  {
    out := map[];
    var todo := objs.Keys;
    while todo != {}
      invariant todo <= objs.Keys
      invariant out == Listed(objs) - todo
      decreases todo
    {
      var u :| u in todo;
      if objs[u].managed && Countable(objs[u]) {
        out := out[u := objs[u].ref];
      }
      todo := todo - {u};
    }
    assert Listed(objs) - todo == Listed(objs);
  }

  /** The event the handler last took up for a pod. */
  predicate HasSeen(s: Sys, u: UID) {
    0 < Handled(s, u) <= |Hist(s, u)|
  }

  function LastSeen(s: Sys, u: UID): Event
    requires HasSeen(s, u)
  {
    Hist(s, u)[Handled(s, u) - 1]
  }

  /** The lister's objects at the handler's position. */
  function Cache(s: Sys): map<UID, PodObj> {
    map u | u in s.hist && HasSeen(s, u) && LastSeen(s, u).Version? :: LastSeen(s, u).obj
  }

  /** The lister's objects when it is as new as the API server. */
  function Newest(s: Sys): map<UID, PodObj> {
    map u | u in s.hist && s.hist[u] != [] && s.hist[u][|s.hist[u]| - 1].Version? ::
      s.hist[u][|s.hist[u]| - 1].obj
  }

  /**
   Away from the empty node name, the snapshot counts a pod exactly as its last seen version says; at the
   empty one it holds the empty ref.
   */
  ghost predicate TrackedPod(s: Sys, u: UID) {
    && (HasSeen(s, u) && Seats(LastSeen(s, u)) ==>
          u in s.view.pods && s.view.pods[u] == LastSeen(s, u).obj.ref)
    && (u in s.view.pods && s.view.pods[u].nodeName != "" ==> HasSeen(s, u) && Seats(LastSeen(s, u)))
    && (u in s.view.pods && s.view.pods[u].nodeName == "" ==> s.view.pods[u] == EMPTY_REF)
  }

  ghost predicate Tracks(s: Sys) {
    forall u :: TrackedPod(s, u)
  }

  lemma ListedCache(s: Sys, u: UID)
    ensures u in Listed(Cache(s)) <==> HasSeen(s, u) && Seats(LastSeen(s, u))
    ensures u in Listed(Cache(s)) ==> Listed(Cache(s))[u] == LastSeen(s, u).obj.ref
  {
  }

  /**
   The incrementally maintained snapshot and one rebuilt from the lister agree on every count at
   every real node.
   */
  lemma IncrementalEqualsRelist(s: Sys, dim: Dim, n: string, k: string)
    requires Tracks(s) && n != ""
    ensures CountedOn(s.view.pods, dim, n, k) == CountedOn(Rebuild(s.view, Listed(Cache(s))).pods, dim, n, k)
  {
    forall u
      ensures u in CountedOn(s.view.pods, dim, n, k) <==> u in CountedOn(Listed(Cache(s)), dim, n, k)
    {
      assert TrackedPod(s, u);
      ListedCache(s, u);
    }
  }

  /** A list shows what the handler has seen when it is applied. */
  ghost predicate FreshList(s: Sys, step: Step) {
    step.Relist? ==> step.list == Listed(Cache(s))
  }

  /**
   The plain environment rules: lists are fresh, and neither a failed bind nor an unconfirmed janitor
   release hits a pod that is bound.
   */
  ghost predicate Benign(s: Sys, step: Step) {
    && FreshList(s, step)
    && match step
       case BindFailed(u) => Bound(s, u) && u in s.view.resv ==> s.view.resv[u].phase == BoundObs
       case Evict(u) => !Bound(s, u)
       case _ => true
  }

  lemma TracksStep(s: Sys, step: Step)
    requires HistoriesOk(s) && Tracks(s) && Enabled(s, step) && FreshList(s, step)
    ensures Tracks(Next(s, step))
  {
    var s' := Next(s, step);
    forall u
      ensures TrackedPod(s', u)
    {
      assert TrackedPod(s, u) && HistoryOk(s, u);
      if step.Relist? {
        ListedCache(s, u);
      } else if step.Api? && step.u == u {
        assert Hist(s', u) == Hist(s, u) + [step.event];
      }
    }
  }

  /** Once the handler has seen the binding, nothing it has still to see unseats a bound pod. */
  lemma SeenMeansSettled(s: Sys, u: UID)
    requires HistoryOk(s, u) && TrackedPod(s, u) && Bound(s, u)
    requires u in s.view.pods && s.view.pods[u].nodeName != ""
    ensures Settled(s, u)
  {
  }

  lemma BenignIsSafe(s: Sys, step: Step)
    requires Covered(s) && Tracks(s) && Enabled(s, step) && Benign(s, step)
    ensures Safe(s, step)
  {
    if step.Relist? {
      forall u | Bound(s, u) && !Held(s, u)
        ensures u in step.list && SameSeat(step.list[u], BoundRef(s, u))
      {
        assert CoveredPod(s, u) && TrackedPod(s, u);
        ListedCache(s, u);
      }
    } else {
      forall u | Drops(s, step, u) && Bound(s, u) && Held(s, u)
        ensures Settled(s, u)
      {
        assert HistoryOk(s, u) && TrackedPod(s, u);
        SeenMeansSettled(s, u);
      }
    }
  }

  /** In every run under the plain rules the snapshot tracks the informer and the cap holds. */
  lemma BenignRunsKeepTheCap(states: seq<Sys>, steps: seq<Step>, q: string, n: string, cap: nat)
    requires IsRun(states, steps) && Tracks(states[0]) && Good(states[0], q, n, cap)
    requires forall i | 0 <= i < |steps| :: Benign(states[i], steps[i]) && WithinCap(steps[i], q, cap)
    ensures forall i | 0 <= i < |states| ::
              Tracks(states[i]) && Covered(states[i]) && |SeatsOn(states[i], q, n)| <= cap
  {
    for k := 0 to |steps|
      invariant forall i | 0 <= i <= k :: Tracks(states[i]) && Good(states[i], q, n, cap)
    {
      BenignIsSafe(states[k], steps[k]);
      TracksStep(states[k], steps[k]);
      GoodStep(states[k], steps[k], q, n, cap);
    }
  }

  /** A new process over a running cluster, its first list handled: nothing reserved, all newest versions seen. */
  function Restarted(s: Sys): Sys {
    Sys(View(Listed(Newest(s)), map[]), s.hist, map u | u in s.hist :: |s.hist[u]|)
  }

  /** Runs may start over from a restart, whatever the old process remembered; the empty state is one. */
  lemma RestartIsGood(s: Sys, q: string, n: string, cap: nat)
    requires HistoriesOk(s) && |BoundOn(s, q, n)| <= cap
    ensures Tracks(Restarted(s)) && Good(Restarted(s), q, n, cap)
    ensures Restarted(INIT) == INIT
  {
    var r := Restarted(s);
    forall u
      ensures HistoryOk(r, u) && CoveredPod(r, u) && TrackedPod(r, u)
    {
      RestartedPod(s, u);
    }
    SameBound(s, r, q, n);
  }

  /** Being bound is a matter of histories alone. */
  lemma SameBound(s: Sys, r: Sys, q: string, n: string)
    requires r.hist == s.hist && r.view.resv == map[]
    ensures SeatsOn(r, q, n) == BoundOn(s, q, n)
  {
  }

  lemma RestartedPod(s: Sys, u: UID)
    requires HistoriesOk(s)
    ensures HistoryOk(Restarted(s), u) && CoveredPod(Restarted(s), u) && TrackedPod(Restarted(s), u)
  {
    assert HistoryOk(s, u) && Hist(Restarted(s), u) == Hist(s, u);
    assert Handled(Restarted(s), u) == |Hist(s, u)|;
    assert u in Listed(Newest(s)) <==> Bound(s, u);
  }

  /**
   In a tracking state a pod is counted on a real node exactly if its last handled version is managed, active
   and bound there.
   */
  lemma CountedMeansActive(s: Sys, u: UID, n: string)
    requires Tracks(s) && n != "" && 0 < Handled(s, u) <= |Hist(s, u)|
    ensures var e := Hist(s, u)[Handled(s, u) - 1];
            u in s.view.pods && s.view.pods[u].nodeName == n <==>
            e.Version? && e.obj.managed && e.obj.active && e.obj.ref.nodeName == n
  {
    assert TrackedPod(s, u);
  }

  /** Once every history is handled, each real node counts exactly the pods bound to it. */
  lemma CaughtUpCountsAreExact(s: Sys, q: string, n: string)
    requires HistoriesOk(s) && Tracks(s) && n != "" && forall u :: Handled(s, u) == |Hist(s, u)|
    ensures CountedOn(s.view.pods, Quota, n, q) == BoundOn(s, q, n)
    ensures s.view.resv == map[] ==> Eff(s.view, Quota, n, q) == |BoundOn(s, q, n)|
  {
    forall u
      ensures u in CountedOn(s.view.pods, Quota, n, q) <==> u in BoundOn(s, q, n)
    {
      assert TrackedPod(s, u) && HistoryOk(s, u);
    }
    assert s.view.resv == map[] ==> ReservedOn(s.view.resv, Quota, n, q) == {};
  }

  /** The refs of managed pods are built from their service label and a hash of full length. */
  ghost predicate BuiltFromLabels(o: PodObj, scheduler: string, labelKey: string) {
    exists ns, labels, hash | |hash| == HASH_CHARS ::
      PodRefFor(ns, scheduler, labelKey, labels, hash, o.ref.nodeName) == Some(o.ref)
  }

  /**
   Conservation along runs: in every tracking state the quota count of a service on a real node is the sum of
   its counts over all its scheduling keys.
   */
  lemma TrackedConservation(s: Sys, scheduler: string, labelKey: string, q: string, n: string)
    requires HistoriesOk(s) && Tracks(s) && n != "" && q != ""
    requires forall u, i | 0 <= i < |Hist(s, u)| && Seats(Hist(s, u)[i]) ::
               BuiltFromLabels(Hist(s, u)[i].obj, scheduler, labelKey)
    ensures Sum(DomainCounts(s.view.pods, q, n)) == |CountedOn(s.view.pods, Quota, n, q)|
  {
    forall u | u in s.view.pods && (s.view.pods[u].nodeName == n || s.view.pods[u].quotaKey == q)
      ensures WellKeyed(s.view.pods[u])
    {
      assert TrackedPod(s, u);
      var o := LastSeen(s, u).obj;
      assert BuiltFromLabels(o, scheduler, labelKey);
      var ns, labels, hash :| |hash| == HASH_CHARS &&
        PodRefFor(ns, scheduler, labelKey, labels, hash, o.ref.nodeName) == Some(o.ref);
      PodRefsAreWellKeyed(ns, scheduler, labelKey, labels, hash, o.ref.nodeName);
    }
    QuotaIsSumOfDomains(s.view.pods, q, n);
  }
}
