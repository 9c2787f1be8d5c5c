/** The mutable state machine: a swapped snapshot and the reservations, each method one locked section. */
module State {
  import opened Types
  import opened Transitions
  import opened Snapshots

  function Elems(s: seq<UID>): set<UID> {
    set u | u in s
  }

  lemma ElemsSnoc(s: seq<UID>, x: UID)
    ensures Elems(s + [x]) == Elems(s) + {x}
  {
  }

  lemma VisitOne(s: set<UID>, todo: set<UID>, u: UID)
    requires u in todo
    ensures |s - (todo - {u})| == |s - todo| + (if u in s then 1 else 0)
  {
    assert s - (todo - {u}) == (s - todo) + (if u in s then {u} else {});
  }

  /** How many reservations sit on a node under each of the two keys, visited in any order. */
  method Overlay(resv: map<UID, Reservation>, node: string, schedKey: string, quotaKey: string)
    returns (quotaN: int, domainN: int)
    ensures quotaN == |ReservedOn(resv, Quota, node, quotaKey)|
    ensures domainN == |ReservedOn(resv, Sched, node, schedKey)|
  {
    ghost var q, d := ReservedOn(resv, Quota, node, quotaKey), ReservedOn(resv, Sched, node, schedKey);
    quotaN, domainN := 0, 0;
    var todo := resv.Keys;
    assert q - todo == {} && d - todo == {};
    while todo != {}
      invariant todo <= resv.Keys
      invariant quotaN == |q - todo| && domainN == |d - todo|
      decreases todo
    {
      var u :| u in todo;
      VisitOne(q, todo, u);
      VisitOne(d, todo, u);
      todo := todo - {u};
      if resv[u].ref.nodeName != node {
        continue;
      }
      if resv[u].ref.quotaKey == quotaKey {
        quotaN := quotaN + 1;
      }
      if resv[u].ref.schedKey == schedKey {
        domainN := domainN + 1;
      }
    }
    assert q - todo == q && d - todo == d;
  }

  /** The UIDs of the expired reservations, each once, in any order. */
  method CollectExpired(resv: map<UID, Reservation>, now: int, ttl: int) returns (expired: seq<UID>)
    ensures Elems(expired) == Expired(resv, now, ttl)
    ensures |expired| == |Expired(resv, now, ttl)|
  {
    expired := [];
    ghost var all := Expired(resv, now, ttl);
    var todo := resv.Keys;
    assert all - todo == {};
    while todo != {}
      invariant todo <= resv.Keys
      invariant Elems(expired) == all - todo
      invariant |expired| == |all - todo|
      decreases todo
    {
      var u :| u in todo;
      VisitOne(all, todo, u);
      if now - resv[u].since >= ttl {
        ElemsSnoc(expired, u);
        expired := expired + [u];
      }
      todo := todo - {u};
    }
    assert all - todo == all;
  }

  class SpreadState {
    var snap: Snapshot
    var resv: map<UID, Reservation>

    ghost predicate Valid()
      reads this, snap, snap.Rows()
    {
      snap.Valid()
    }

    ghost function V(): View
      reads this, snap
    {
      View(snap.pods, resv)
    }

    constructor ()
      ensures Valid() && V() == View(map[], map[])
    {
      snap := new Snapshot();
      resv := map[];
    }

    /** Snapshot counts plus the reservation overlay, summed in any iteration order, under the lock. */
    method EffCount(node: string, schedKey: string, quotaKey: string) returns (domainN: int, quotaN: int)
      requires Valid()
      ensures domainN == Eff(V(), Sched, node, schedKey)
      ensures quotaN == Eff(V(), Quota, node, quotaKey)
    {
      domainN, quotaN := EffCountFrom(snap, node, schedKey, quotaKey);
    }

    /**
     The same for a snapshot loaded before the lock was taken, possibly an older one: what Filter's side reads
     mixes its counts with the reservations of now.
     */
    method EffCountFrom(loaded: Snapshot, node: string, schedKey: string, quotaKey: string)
      returns (domainN: int, quotaN: int)
      requires loaded.Valid()
      ensures domainN == Eff(View(loaded.pods, resv), Sched, node, schedKey)
      ensures quotaN == Eff(View(loaded.pods, resv), Quota, node, quotaKey)
    {
      quotaN, domainN := loaded.Count(node, quotaKey, schedKey);
      var q, d := Overlay(resv, node, schedKey, quotaKey);
      quotaN, domainN := quotaN + q, domainN + d;
    }

    /** The admission callback of Reserve: cap check, then the domain minimum in any iteration order. */
    method Admit(ref: PodRef, domain: set<string>, policy: Policy) returns (ok: bool)
      requires Valid() && ref.nodeName in domain
      ensures ok <==> Admits(V(), ref, domain, policy)
    {
      var domainN, quotaN := EffCount(ref.nodeName, ref.schedKey, ref.quotaKey);
      if quotaN + 1 > policy.maxPodsPerNode {
        return false;
      }
      var min := -1;
      var todo := domain;
      while todo != {}
        invariant todo <= domain
        invariant min < 0 <==> todo == domain
        invariant forall m | m in domain - todo :: min <= Eff(V(), Sched, m, ref.schedKey)
        invariant min >= 0 ==> exists m :: m in domain && min == Eff(V(), Sched, m, ref.schedKey)
        decreases todo
      {
        var n :| n in todo;
        var d, _ := EffCount(n, ref.schedKey, ref.quotaKey);
        if n == ref.nodeName {
          d := domainN;
        }
        if min < 0 || d < min {
          min := d;
        }
        todo := todo - {n};
      }
      ok := domainN + 1 - min <= policy.maxSkew;
    }

    method TryReserveChecked(u: UID, ref: PodRef, domain: set<string>, policy: Policy, now: int)
      returns (ok: bool)
      requires Valid() && ref.nodeName in domain
      modifies this`resv
      ensures Valid()
      ensures V() == Reserve(old(V()), u, ref, domain, policy, now)
      ensures ok <==> u !in old(resv) && Admits(old(V()), ref, domain, policy)
      ensures resv == if ok then old(resv)[u := Reservation(ref, Reserved, now)] else old(resv)
    {
      if u in resv {
        return false;
      }
      ok := Admit(ref, domain, policy);
      if ok {
        resv := resv[u := Reservation(ref, Reserved, now)];
      }
    }

    method Unreserve(u: UID)
      requires Valid()
      modifies this`resv
      ensures Valid() && V() == Transitions.Unreserve(old(V()), u)
      ensures resv == if u in old(resv) && old(resv)[u].phase == Reserved then old(resv) - {u} else old(resv)
    {
      if u in resv && resv[u].phase == Reserved {
        resv := resv - {u};
      }
    }

    method MarkBound(u: UID)
      requires Valid()
      modifies this`resv
      ensures Valid() && V() == Transitions.MarkBound(old(V()), u)
      ensures u in old(resv) ==>
                resv == old(resv)[u := Reservation(old(resv)[u].ref, BoundObs, old(resv)[u].since)]
      ensures u !in old(resv) ==> resv == old(resv)
    {
      if u in resv && resv[u].phase == Reserved {
        resv := resv[u := resv[u].(phase := BoundObs)];
      }
    }

    method ReleaseIfObserved(u: UID)
      requires Valid()
      modifies this`resv
      ensures Valid() && V() == Transitions.ReleaseIfObserved(old(V()), u)
      ensures u in old(resv) && u in snap.pods && snap.pods[u].nodeName == old(resv)[u].ref.nodeName ==>
                resv == old(resv) - {u}
      ensures !(u in old(resv) && u in snap.pods && snap.pods[u].nodeName == old(resv)[u].ref.nodeName) ==>
                resv == old(resv)
    {
      if u !in resv {
        return;
      }
      if u in snap.pods && snap.pods[u].nodeName == resv[u].ref.nodeName {
        resv := resv - {u};
      }
    }

    method ReleaseUnverified(u: UID)
      requires Valid()
      modifies this`resv
      ensures Valid() && V() == Forget(old(V()), u)
      ensures resv == old(resv) - {u}
    {
      resv := resv - {u};
    }

    /** The frame is the snapshot pointer alone: a snapshot handed out earlier is never written. */
    method UpsertCount(u: UID, ref: PodRef)
      requires Valid()
      modifies this`snap
      ensures Valid() && V() == Upsert(old(V()), u, ref)
      ensures snap.pods == old(snap.pods)[u := ref]
      ensures fresh(snap) && fresh(snap.Rows()) && unchanged(old(snap), old(snap.Rows()))
    {
      var next := snap.Clone();
      next.ApplyCount(u, ref);
      snap := next;
    }

    method RemoveCount(u: UID)
      requires Valid()
      modifies this`snap
      ensures Valid() && V() == Remove(old(V()), u)
      ensures snap.pods == old(snap.pods) - {u}
      ensures fresh(snap) && fresh(snap.Rows()) && unchanged(old(snap), old(snap.Rows()))
    {
      var next := snap.Clone();
      next.UnapplyCount(u);
      snap := next;
    }

    /** Replaces the snapshot by a recount of the list; reservations are not touched. */
    method Rebuild(list: map<UID, PodRef>)
      requires Valid()
      modifies this`snap
      ensures Valid() && V() == Transitions.Rebuild(old(V()), list)
      ensures snap.pods == list
      ensures fresh(snap) && fresh(snap.Rows()) && unchanged(old(snap), old(snap.Rows()))
    {
      snap := Recount(list);
    }

    /** Add or update event of a pod whose object is countable or not. */
    method OnPodAddOrUpdate(u: UID, countable: bool, ref: PodRef)
      requires Valid()
      modifies this
      ensures Valid()
      ensures V() == Transitions.ReleaseIfObserved(
                       if countable then Upsert(old(V()), u, ref) else Remove(old(V()), u), u)
    {
      if countable {
        UpsertCount(u, ref);
      } else {
        RemoveCount(u);
      }
      ReleaseIfObserved(u);
    }

    method OnPodDelete(u: UID)
      requires Valid()
      modifies this
      ensures Valid() && V() == Forget(Remove(old(V()), u), u)
      ensures snap.pods == old(snap.pods) - {u} && resv == old(resv) - {u}
    {
      RemoveCount(u);
      resv := resv - {u};
    }

    /** Verifies one expired reservation against the list and releases it. */
    method VerifyExpired(u: UID, list: map<UID, PodRef>) returns (alerts: seq<UID>)
      requires Valid()
      modifies this
      ensures Valid() && alerts == []
      ensures V() == VerifyOne(old(V()), u, list)
      ensures resv == old(resv) - {u}
      ensures u in old(resv) && u in list && list[u].nodeName == old(resv)[u].ref.nodeName ==> snap.pods == list
      ensures !(u in old(resv) && u in list && list[u].nodeName == old(resv)[u].ref.nodeName) ==>
                snap.pods == old(snap.pods)
    {
      alerts := [];
      if u in resv {
        var expectedNode := resv[u].ref.nodeName;
        if u !in list || list[u].nodeName != expectedNode {
          ReleaseUnverified(u);
        } else {
          Rebuild(list);
          ReleaseIfObserved(u);
          if u in resv {
            alerts := [u];
          }
        }
      } else {
        assert resv - {u} == resv;
      }
    }

    /**
     One uninterrupted pass. A readable source releases exactly the expired reservations, never
     alerts, and leaves every confirmed pod counted; an unreadable one changes nothing and alerts
     exactly the expired reservations.
     */
    method JanitorOnce(now: int, ttl: int, src: Option<map<UID, PodRef>>) returns (alerts: seq<UID>)
      requires Valid()
      modifies this
      ensures Valid()
      ensures src.Some? ==> alerts == [] && V() == JanitorPass(old(V()), now, ttl, src.value)
      ensures src.None? ==> V() == old(V()) && |alerts| == |Expired(resv, now, ttl)|
      ensures src.None? ==> Elems(alerts) == Expired(resv, now, ttl)
      ensures src.Some? &&
              (forall u | u in old(resv) && now - old(resv)[u].since >= ttl ::
                 u !in src.value || src.value[u].nodeName != old(resv)[u].ref.nodeName) ==>
                snap.pods == old(snap.pods)
    {
      var expired := CollectExpired(resv, now, ttl);
      alerts := [];
      ghost var v := V();
      if |expired| == 0 {
        assert Expired(resv, now, ttl) == {} && resv - {} == resv;
        return;
      }
      if src.None? {
        alerts := expired;
        return;
      }
      var list := src.value;
      assert v == Verified(v, {}, list);
      for i := 0 to |expired|
        invariant Valid() && alerts == []
        invariant V() == Verified(v, Elems(expired[..i]), list)
      {
        assert expired[..i + 1] == expired[..i] + [expired[i]];
        ElemsSnoc(expired[..i], expired[i]);
        VerifiedStep(v, Elems(expired[..i]), list, expired[i]);
        var kept := VerifyExpired(expired[i], list);
        alerts := alerts + kept;
      }
      assert expired[..|expired|] == expired;
    }
  }
}
