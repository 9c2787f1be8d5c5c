/** A janitor pass as a run of lock-held sections. */
module Janitor {
  import opened Types
  import opened Transitions
  import opened Cluster
  import opened Runs
  import opened Tracking
  import opened State

  /** The list shows the pod on the node of its reservation. */
  predicate ConfirmedBy(v: View, u: UID, list: map<UID, PodRef>) {
    u in v.resv && u in list && list[u].nodeName == v.resv[u].ref.nodeName
  }

  /** One reservation after the other: a confirmed pod is counted and then released, another one evicted. */
  function PassSteps(v: View, expired: seq<UID>, list: map<UID, PodRef>): seq<Step> {
    if expired == [] then []
    else
      var (before, u) := (PassSteps(v, expired[..|expired| - 1], list), expired[|expired| - 1]);
      before + (if ConfirmedBy(v, u, list) then [Relist(list), Release(u)] else [Evict(u)])
  }

  predicate NoRepeats(s: seq<UID>) {
    forall i, j | 0 <= i < j < |s| :: s[i] != s[j]
  }

  lemma ConfirmedSteps(s: Sys, u: UID, list: map<UID, PodRef>)
    requires u in s.view.resv && u in list && list[u].nodeName == s.view.resv[u].ref.nodeName
    ensures Next(Next(s, Relist(list)), Release(u)) == s.(view := VerifyOne(s.view, u, list))
  {
    assert u in Confirmed(s.view.resv, list);
  }

  lemma ExtendRun(states: seq<Sys>, steps: seq<Step>, step: Step) returns (states': seq<Sys>)
    requires IsRun(states, steps) && Enabled(states[|steps|], step)
    ensures states' == states + [Next(states[|steps|], step)] && IsRun(states', steps + [step])
  {
    states' := states + [Next(states[|steps|], step)];
    forall i | 0 <= i < |steps + [step]|
      ensures Enabled(states'[i], (steps + [step])[i]) && states'[i + 1] == Next(states'[i], (steps + [step])[i])
    {
      assert i < |steps| ==> states'[i] == states[i] && states'[i + 1] == states[i + 1];
    }
  }

  /** The steps run from any state, and what they leave is what the verification of all of them leaves. */
  lemma {:induction false} PassIsRun(s: Sys, expired: seq<UID>, list: map<UID, PodRef>) returns (states: seq<Sys>)
    requires NoRepeats(expired) && forall u | u in expired :: u in s.view.resv
    ensures IsRun(states, PassSteps(s.view, expired, list)) && states[0] == s
    ensures states[|states| - 1] == s.(view := Verified(s.view, Elems(expired), list))
    decreases |expired|
  {
    if expired == [] {
      states := [s];
      assert Elems(expired) == {} && s.view.resv - {} == s.view.resv;
    } else {
      var (rest, u) := (expired[..|expired| - 1], expired[|expired| - 1]);
      states := PassIsRun(s, rest, list);
      var (steps, t) := (PassSteps(s.view, rest, list), s.(view := Verified(s.view, Elems(rest), list)));
      assert expired == rest + [u] && u !in rest;
      ElemsSnoc(rest, u);
      VerifiedStep(s.view, Elems(rest), list, u);
      assert t.view.resv[u] == s.view.resv[u];
      if ConfirmedBy(s.view, u, list) {
        ConfirmedSteps(t, u, list);
        states := ExtendRun(states, steps, Relist(list));
        states := ExtendRun(states, steps + [Relist(list)], Release(u));
        assert steps + [Relist(list)] + [Release(u)] == steps + [Relist(list), Release(u)];
      } else {
        states := ExtendRun(states, steps, Evict(u));
      }
    }
  }

  /** An uninterrupted pass is such a run over the reservations of age at least ttl, in any order. */
  lemma JanitorPassIsRun(s: Sys, now: int, ttl: int, list: map<UID, PodRef>, expired: seq<UID>)
    returns (states: seq<Sys>)
    requires NoRepeats(expired)
    requires forall u :: u in expired <==> u in s.view.resv && now - s.view.resv[u].since >= ttl
    ensures IsRun(states, PassSteps(s.view, expired, list)) && states[0] == s
    ensures states[|states| - 1] == s.(view := JanitorPass(s.view, now, ttl, list))
  {
    states := PassIsRun(s, expired, list);
    assert Elems(expired) == Expired(s.view.resv, now, ttl);
  }

  /** Every step of a pass relists, releases, or evicts an unconfirmed pod. */
  lemma {:induction false} PassStepKinds(v: View, expired: seq<UID>, list: map<UID, PodRef>)
    ensures forall step | step in PassSteps(v, expired, list) ::
              step == Relist(list) || step.Release? ||
              (step.Evict? && step.u in expired && !ConfirmedBy(v, step.u, list))
    decreases |expired|
  {
    if expired != [] {
      PassStepKinds(v, expired[..|expired| - 1], list);
    }
  }

  /** Passes do not touch histories or the handler's position. */
  lemma PassKeepsHistories(states: seq<Sys>, steps: seq<Step>, k: nat)
    requires IsRun(states, steps) && k <= |steps|
    requires forall step | step in steps :: step.Relist? || step.Release? || step.Evict?
    ensures states[k].hist == states[0].hist && states[k].handled == states[0].handled
  {
    for i := 0 to k
      invariant states[i].hist == states[0].hist && states[i].handled == states[0].handled
    {
      assert steps[i] in steps;
    }
  }

  lemma SameHistoryBenign(s: Sys, t: Sys, step: Step, list: map<UID, PodRef>)
    requires t.hist == s.hist && t.handled == s.handled && list == Listed(Cache(s))
    requires step == Relist(list) || step.Release? || (step.Evict? && !Bound(s, step.u))
    ensures Benign(t, step)
  {
    assert Cache(t) == Cache(s);
  }

  /**
   So the run theorems speak of it: with a list at the handler's position, and no bound pod among the
   unconfirmed ones, a pass keeps tracking, coverage and the cap.
   */
  lemma JanitorPassKeepsTheCap(s: Sys, now: int, ttl: int, list: map<UID, PodRef>, expired: seq<UID>,
                               q: string, n: string, cap: nat)
    requires NoRepeats(expired)
    requires forall u :: u in expired <==> u in s.view.resv && now - s.view.resv[u].since >= ttl
    requires Tracks(s) && Good(s, q, n, cap) && list == Listed(Cache(s))
    requires forall u | u in expired && !ConfirmedBy(s.view, u, list) :: !Bound(s, u)
    ensures var s' := s.(view := JanitorPass(s.view, now, ttl, list)); Tracks(s') && Good(s', q, n, cap)
  {
    var states := JanitorPassIsRun(s, now, ttl, list, expired);
    var steps := PassSteps(s.view, expired, list);
    PassStepKinds(s.view, expired, list);
    forall i | 0 <= i < |steps|
      ensures Benign(states[i], steps[i]) && WithinCap(steps[i], q, cap)
    {
      assert steps[i] in steps;
      PassKeepsHistories(states, steps, i);
      SameHistoryBenign(s, states[i], steps[i], list);
    }
    BenignRunsKeepTheCap(states, steps, q, n, cap);
  }
}
