/**
 Concrete runs at cap one: two that bind two pods to a node and one that counts two pods there, each with
 a list that breaks one rule, and one that breaks no rule and still counts two pods.
 */
module Races {
  import opened Types
  import Counts
  import opened Transitions
  import opened Cluster
  import opened Runs
  import opened Tracking

  const UNBOUND := Version(PodObj(PodRef("q", "s", ""), true, true))
  const REF := PodRef("q", "s", "n")
  const BINDING := Version(PodObj(REF, true, true))

  function PlaceOn(u: UID): Step {
    Place(u, REF, {"n"}, Policy(1, 1), 0)
  }

  /** A run at cap one that breaks at most one environment rule, at step odd. */
  ghost predicate RaceRun(states: seq<Sys>, steps: seq<Step>, odd: nat) {
    && IsRun(states, steps) && states[0] == INIT
    && (forall i | 0 <= i < |steps| :: WithinCap(steps[i], "q", 1))
    && forall i | 0 <= i < |steps| && i != odd :: Benign(states[i], steps[i])
  }

  lemma Extend(states: seq<Sys>, steps: seq<Step>, odd: nat, step: Step)
    returns (states': seq<Sys>, steps': seq<Step>)
    requires RaceRun(states, steps, odd)
    requires Enabled(states[|steps|], step) && WithinCap(step, "q", 1)
    requires |steps| == odd || Benign(states[|steps|], step)
    ensures states' == states + [Next(states[|steps|], step)] && steps' == steps + [step]
    ensures RaceRun(states', steps', odd)
  {
    states', steps' := states + [Next(states[|steps|], step)], steps + [step];
    forall i | 0 <= i < |steps'|
      ensures Enabled(states'[i], steps'[i]) && states'[i + 1] == Next(states'[i], steps'[i])
      ensures WithinCap(steps'[i], "q", 1) && (i == odd || Benign(states'[i], steps'[i]))
    {
      if i < |steps| {
        assert states'[i] == states[i] && steps'[i] == steps[i] && states'[i + 1] == states[i + 1];
      }
    }
  }

  /** Placing a pod known to be unbound, on a node that looks empty to the plugin. */
  lemma PlaceAndBind(s: Sys, u: UID)
    requires s.view == View(map[], map[]) && u in s.hist && s.hist[u] in [[UNBOUND], [UNBOUND, UNBOUND]]
    ensures Next(s, PlaceOn(u)) == s.(view := View(map[], map[u := Reservation(REF, Reserved, 0)]))
    ensures Enabled(Next(s, PlaceOn(u)), Api(u, BINDING))
  {
  }

  /** The run goes on with such a placement and its binding. */
  lemma ExtendBound(states: seq<Sys>, steps: seq<Step>, odd: nat, u: UID)
    returns (states': seq<Sys>, steps': seq<Step>)
    requires RaceRun(states, steps, odd) && |steps| != odd && |steps| + 1 != odd
    requires var s := states[|steps|];
             s.view == View(map[], map[]) && u in s.hist && s.hist[u] in [[UNBOUND], [UNBOUND, UNBOUND]]
    ensures RaceRun(states', steps', odd) && states <= states' && steps <= steps' && |steps'| == |steps| + 2
    ensures states'[|steps'|] ==
            Sys(View(map[], map[u := Reservation(REF, Reserved, 0)]),
                states[|steps|].hist[u := states[|steps|].hist[u] + [BINDING]], states[|steps|].handled)
  {
    PlaceAndBind(states[|steps|], u);
    states', steps' := Extend(states, steps, odd, PlaceOn(u));
    states', steps' := Extend(states', steps', odd, Api(u, BINDING));
  }

  /** From any state where the plugin remembers nothing, a second pod is created, placed and bound. */
  lemma SecondPod(states: seq<Sys>, steps: seq<Step>, odd: nat)
    returns (states': seq<Sys>, steps': seq<Step>)
    requires RaceRun(states, steps, odd) && odd < |steps|
    requires states[|steps|].view == View(map[], map[])
    requires "b" !in states[|steps|].hist && Bound(states[|steps|], "a")
    requires BoundRef(states[|steps|], "a") == REF
    ensures RaceRun(states', steps', odd)
    ensures states <= states' && steps <= steps' && |BoundOn(states'[|steps'|], "q", "n")| >= 2
  {
    var s := states[|steps|];
    var s1 := s.(hist := s.hist["b" := [UNBOUND]]);
    assert Hist(s, "b") + [UNBOUND] == [UNBOUND];
    assert Next(s, Api("b", UNBOUND)) == s1;
    states', steps' := Extend(states, steps, odd, Api("b", UNBOUND));
    states', steps' := ExtendBound(states', steps', odd, "b");
    assert s1.hist["b" := [UNBOUND] + [BINDING]] == s.hist["b" := [UNBOUND] + [BINDING]];
    BothBound(s, states'[|steps'|]);
  }

  lemma BothBound(s: Sys, s3: Sys)
    requires "b" !in s.hist && Bound(s, "a") && BoundRef(s, "a") == REF
    requires s3.hist == s.hist["b" := [UNBOUND] + [BINDING]]
    ensures |BoundOn(s3, "q", "n")| >= 2
  {
    assert Hist(s3, "a") == Hist(s, "a") && Hist(s3, "b") == [UNBOUND, BINDING];
    assert {"a", "b"} <= BoundOn(s3, "q", "n");
    Counts.SubsetSize({"a", "b"}, BoundOn(s3, "q", "n"));
  }

  /** The first pod is created, possibly touched once while unbound. */
  lemma FirstVersions(touched: bool, odd: nat) returns (states: seq<Sys>, steps: seq<Step>)
    requires odd > 1
    ensures RaceRun(states, steps, odd) && |steps| == if touched then 2 else 1
    ensures states[|steps|] ==
            Sys(View(map[], map[]), map["a" := if touched then [UNBOUND, UNBOUND] else [UNBOUND]], map[])
  {
    states, steps := [INIT], [];
    var s := INIT.(hist := map["a" := [UNBOUND]]);
    assert Hist(INIT, "a") + [UNBOUND] == [UNBOUND];
    assert map[]["a" := [UNBOUND]] == map["a" := [UNBOUND]];
    assert Next(INIT, Api("a", UNBOUND)) == s;
    states, steps := Extend(states, steps, odd, Api("a", UNBOUND));
    if touched {
      assert Hist(s, "a") + [UNBOUND] == [UNBOUND, UNBOUND];
      assert s.hist["a" := [UNBOUND, UNBOUND]] == map["a" := [UNBOUND, UNBOUND]];
      states, steps := Extend(states, steps, odd, Api("a", UNBOUND));
    }
  }

  /** Then it is placed and bound. */
  lemma FirstPod(touched: bool, odd: nat) returns (states: seq<Sys>, steps: seq<Step>)
    requires odd > 4
    ensures RaceRun(states, steps, odd) && |steps| == if touched then 4 else 3
    ensures states[|steps|] ==
            Sys(View(map[], map["a" := Reservation(REF, Reserved, 0)]),
                map["a" := if touched then [UNBOUND, UNBOUND, BINDING] else [UNBOUND, BINDING]], map[])
  {
    states, steps := FirstVersions(touched, odd);
    var s := states[|steps|];
    states, steps := ExtendBound(states, steps, odd, "a");
    assert [UNBOUND, UNBOUND] + [BINDING] == [UNBOUND, UNBOUND, BINDING] && [UNBOUND] + [BINDING] == [UNBOUND, BINDING];
    assert s.hist["a" := s.hist["a"] + [BINDING]] == map["a" := s.hist["a"] + [BINDING]];
  }

  /**
   A list that was exact when it was taken, applied after its pod was bound, observed and released:
   the reconciler forgets the pod and the next placement overfills the node.
   */
  lemma StaleListOverfills() returns (states: seq<Sys>, steps: seq<Step>)
    ensures RaceRun(states, steps, 5)
    ensures |steps| > 5 && steps[5] == Relist(Listed(Cache(states[0])))
    ensures |BoundOn(states[|steps|], "q", "n")| >= 2
  {
    states, steps := FirstPod(false, 5);
    states, steps := Extend(states, steps, 5, Handle("a", 1));
    states, steps := Extend(states, steps, 5, Release("a"));
    assert Listed(Cache(states[0])) == map[];
    states, steps := Extend(states, steps, 5, Relist(map[]));
    assert states[6].view.resv == map[];
    states, steps := SecondPod(states, steps, 5);
  }

  /** A list newer than the handler lets the second half of an old event release the reservation. */
  lemma OldEventReleases() returns (states: seq<Sys>, steps: seq<Step>)
    ensures RaceRun(states, steps, 5)
    ensures |steps| == 7 && steps[5] == Relist(Listed(Newest(states[5])))
    ensures states[7] == Sys(View(map["a" := REF], map[]), map["a" := [UNBOUND, UNBOUND, BINDING]], map["a" := 1])
  {
    states, steps := FirstPod(true, 5);
    states, steps := Extend(states, steps, 5, Handle("a", 0));
    assert Listed(Newest(states[5])) == map["a" := REF];
    states, steps := Extend(states, steps, 5, Relist(map["a" := REF]));
    states, steps := Extend(states, steps, 5, Release("a"));
    assert states[7].view.resv == map[];
  }

  /**
   A list that is exact at the very moment it is applied, but newer than the handler: after the old
   event has released the reservation, the next old event uncounts the pod.
   */
  lemma LateHandlerOverfills() returns (states: seq<Sys>, steps: seq<Step>)
    ensures RaceRun(states, steps, 5)
    ensures |steps| > 5 && steps[5] == Relist(Listed(Newest(states[5])))
    ensures |BoundOn(states[|steps|], "q", "n")| >= 2
  {
    states, steps := OldEventReleases();
    states, steps := Extend(states, steps, 5, Handle("a", 1));
    assert states[8].view == View(map[], map[]);
    states, steps := SecondPod(states, steps, 5);
  }

  /** The pod is deleted and its reservation evicted before the handler has seen its binding. */
  lemma EvictedUnseen() returns (states: seq<Sys>, steps: seq<Step>)
    ensures RaceRun(states, steps, 8) && |steps| == 5
    ensures states[5] == Sys(View(map[], map[]), map["a" := [UNBOUND, BINDING, Deleted]], map[])
  {
    states, steps := FirstPod(false, 8);
    var s := states[3];
    assert Hist(s, "a") + [Deleted] == [UNBOUND, BINDING, Deleted];
    assert s.hist["a" := [UNBOUND, BINDING, Deleted]] == map["a" := [UNBOUND, BINDING, Deleted]];
    states, steps := Extend(states, steps, 8, Api("a", Deleted));
    states, steps := Extend(states, steps, 8, Evict("a"));
    assert states[5].view.resv == map[];
  }

  /** Every step keeps the plain rules, yet the late handler counts a pod whose seat has been given away. */
  lemma HastyEvictionOvercounts() returns (states: seq<Sys>, steps: seq<Step>)
    ensures RaceRun(states, steps, 8) && |steps| == 8
    ensures forall i | 0 <= i < |steps| :: Benign(states[i], steps[i])
    ensures Occupants(states[8].view, Quota, "n", "q") == {"a", "b"}
  {
    states, steps := EvictedUnseen();
    var s := states[5];
    var s1 := s.(hist := s.hist["b" := [UNBOUND]]);
    assert Hist(s, "b") + [UNBOUND] == [UNBOUND];
    assert Next(s, Api("b", UNBOUND)) == s1;
    PlaceAndBind(s1, "b");
    states, steps := Extend(states, steps, 8, Api("b", UNBOUND));
    states, steps := Extend(states, steps, 8, PlaceOn("b"));
    states, steps := Extend(states, steps, 8, Handle("a", 1));
    assert states[8].view == View(map["a" := REF], map["b" := Reservation(REF, Reserved, 0)]);
  }

  /** The first pod is observed at its first binding version and released; a second version and its deletion wait. */
  lemma SeenOnce() returns (states: seq<Sys>, steps: seq<Step>)
    ensures RaceRun(states, steps, 8) && |steps| == 7
    ensures states[7] ==
            Sys(View(map["a" := REF], map[]), map["a" := [UNBOUND, BINDING, BINDING, Deleted]], map["a" := 2])
  {
    states, steps := FirstPod(false, 8);
    var s := states[3];
    assert Hist(s, "a") + [BINDING] == [UNBOUND, BINDING, BINDING];
    assert s.hist["a" := [UNBOUND, BINDING, BINDING]] == map["a" := [UNBOUND, BINDING, BINDING]];
    states, steps := Extend(states, steps, 8, Api("a", BINDING));
    states, steps := Extend(states, steps, 8, Handle("a", 1));
    states, steps := Extend(states, steps, 8, Release("a"));
    assert states[6] == Sys(View(map["a" := REF], map[]), map["a" := [UNBOUND, BINDING, BINDING]], map["a" := 2]);
    states, steps := DeletedNext(states, steps);
  }

  lemma DeletedNext(states: seq<Sys>, steps: seq<Step>) returns (states': seq<Sys>, steps': seq<Step>)
    requires RaceRun(states, steps, 8) && |steps| == 6
    requires states[6] == Sys(View(map["a" := REF], map[]), map["a" := [UNBOUND, BINDING, BINDING]], map["a" := 2])
    ensures RaceRun(states', steps', 8) && |steps'| == 7
    ensures states'[7] ==
            Sys(View(map["a" := REF], map[]), map["a" := [UNBOUND, BINDING, BINDING, Deleted]], map["a" := 2])
  {
    var s := states[6];
    assert Hist(s, "a") + [Deleted] == [UNBOUND, BINDING, BINDING, Deleted];
    assert s.hist["a" := [UNBOUND, BINDING, BINDING, Deleted]] == map["a" := [UNBOUND, BINDING, BINDING, Deleted]];
    states', steps' := Extend(states, steps, 8, Api("a", Deleted));
  }

  const TWO_HISTORIES := map["a" := [UNBOUND, BINDING, BINDING, Deleted], "b" := [UNBOUND]]

  lemma SecondCreated() returns (states: seq<Sys>, steps: seq<Step>)
    ensures RaceRun(states, steps, 8) && |steps| == 8
    ensures states[8] == Sys(View(map["a" := REF], map[]), TWO_HISTORIES, map["a" := 2])
  {
    states, steps := SeenOnce();
    var s := states[7];
    assert Hist(s, "b") + [UNBOUND] == [UNBOUND] && s.hist["b" := [UNBOUND]] == TWO_HISTORIES;
    states, steps := Extend(states, steps, 8, Api("b", UNBOUND));
  }

  /** No pod is bound: the newest list is empty and safe. */
  lemma NothingBound(s: Sys)
    requires s.hist == TWO_HISTORIES
    ensures Listed(Newest(s)) == map[] && Safe(s, Relist(map[]))
  {
  }

  /**
   A list of exactly the bound pods, newer than the handler, that takes no reservation and loses no bound
   pod: it uncounts a deleted pod, its seat is given away, and the late handler counts it again.
   */
  lemma NewerListOvercounts() returns (states: seq<Sys>, steps: seq<Step>)
    ensures RaceRun(states, steps, 8) && |steps| == 11
    ensures steps[8] == Relist(Listed(Newest(states[8]))) && Safe(states[8], steps[8])
    ensures Occupants(states[11].view, Quota, "n", "q") == {"a", "b"}
  {
    states, steps := SecondCreated();
    NothingBound(states[8]);
    states, steps := Extend(states, steps, 8, Relist(map[]));
    states, steps := OvercountAfter(states, steps);
  }

  lemma OvercountAfter(states: seq<Sys>, steps: seq<Step>) returns (states': seq<Sys>, steps': seq<Step>)
    requires RaceRun(states, steps, 8) && |steps| == 9
    requires states[9] == Sys(View(map[], map[]), TWO_HISTORIES, map["a" := 2])
    ensures RaceRun(states', steps', 8) && |steps'| == 11 && states <= states' && steps <= steps'
    ensures Occupants(states'[11].view, Quota, "n", "q") == {"a", "b"}
  {
    PlaceAndBind(states[9], "b");
    states', steps' := Extend(states, steps, 8, PlaceOn("b"));
    states', steps' := Extend(states', steps', 8, Handle("a", 2));
    assert states'[11].view == View(map["a" := REF], map["b" := Reservation(REF, Reserved, 0)]);
  }
}
