/** What each lock-held section of the state machine does to its abstract value. */
module Transitions {
  import opened Types

  datatype Policy = Policy(maxSkew: int, maxPodsPerNode: int)

  function Upsert(v: View, u: UID, ref: PodRef): View {
    v.(pods := v.pods[u := ref])
  }

  function Remove(v: View, u: UID): View {
    v.(pods := v.pods - {u})
  }

  function Rebuild(v: View, list: map<UID, PodRef>): View {
    v.(pods := list)
  }

  function Unreserve(v: View, u: UID): View {
    if u in v.resv && v.resv[u].phase == Reserved then Forget(v, u) else v
  }

  function MarkBound(v: View, u: UID): View {
    if u in v.resv && v.resv[u].phase == Reserved then
      v.(resv := v.resv[u := v.resv[u].(phase := BoundObs)])
    else v
  }

  /** The snapshot counts the pod on the node of its reservation. */
  predicate Observed(v: View, u: UID) {
    u in v.resv && u in v.pods && v.pods[u].nodeName == v.resv[u].ref.nodeName
  }

  function ReleaseIfObserved(v: View, u: UID): View {
    if Observed(v, u) then Forget(v, u) else v
  }

  /** Drops a reservation in any phase: the janitor's release and the deletion of the pod. */
  function Forget(v: View, u: UID): View {
    v.(resv := v.resv - {u})
  }

  /**
   The admission rule, stated over every node of the domain instead of over its minimum: the cap
   leaves a seat, and no node of the domain is more than maxSkew behind after the placement.
   */
  ghost predicate Admits(v: View, ref: PodRef, domain: set<string>, policy: Policy) {
    && ref.nodeName in domain
    && Eff(v, Quota, ref.nodeName, ref.quotaKey) + 1 <= policy.maxPodsPerNode
    && forall m | m in domain ::
         Eff(v, Sched, ref.nodeName, ref.schedKey) + 1 - Eff(v, Sched, m, ref.schedKey) <= policy.maxSkew
  }

  /** Reserve: refused for a UID already reserved or not admitted, otherwise a fresh Reserved entry. */
  ghost function Reserve(v: View, u: UID, ref: PodRef, domain: set<string>, policy: Policy, now: int): View {
    if u !in v.resv && Admits(v, ref, domain, policy) then
      v.(resv := v.resv[u := Reservation(ref, Reserved, now)])
    else v
  }

  /** A new reservation shows on its own node under its own keys. */
  lemma ReservedInsert(resv: map<UID, Reservation>, u: UID, r: Reservation, dim: Dim, n: string, k: string)
    requires u !in resv
    ensures ReservedOn(resv[u := r], dim, n, k) ==
            ReservedOn(resv, dim, n, k) + (if n == r.ref.nodeName && KeyOf(r.ref, dim) == k then {u} else {})
  {
  }

  /** Reservations at least ttl old. */
  function Expired(resv: map<UID, Reservation>, now: int, ttl: int): set<UID> {
    set u | u in resv && now - resv[u].since >= ttl
  }

  /** Reservations whose pod the list shows on the reserved node. */
  function Confirmed(resv: map<UID, Reservation>, list: map<UID, PodRef>): set<UID> {
    set u | u in resv && u in list && list[u].nodeName == resv[u].ref.nodeName
  }

  /** The janitor has verified a set of reservations against the list. */
  function Verified(v: View, done: set<UID>, list: map<UID, PodRef>): View {
    View(if done * Confirmed(v.resv, list) == {} then v.pods else list, v.resv - done)
  }

  /** One verification: rebuild only for a confirmed pod, release in either case. */
  function VerifyOne(v: View, u: UID, list: map<UID, PodRef>): View {
    Forget(if u in Confirmed(v.resv, list) then Rebuild(v, list) else v, u)
  }

  lemma VerifiedStep(v: View, done: set<UID>, list: map<UID, PodRef>, u: UID)
    ensures VerifyOne(Verified(v, done, list), u, list) == Verified(v, done + {u}, list)
  {
    var sure := Confirmed(v.resv, list);
    assert (done + {u}) * sure == done * sure + (if u in sure then {u} else {});
    assert v.resv - done - {u} == v.resv - (done + {u});
    assert u in Confirmed(v.resv - done, list) <==> u in sure && u !in done;
  }

  /** One uninterrupted janitor pass over a readable source. */
  function JanitorPass(v: View, now: int, ttl: int, list: map<UID, PodRef>): View {
    Verified(v, Expired(v.resv, now, ttl), list)
  }

  /**
   The pass leaves the snapshot alone unless some reservation of age at least ttl has its pod listed on its
   reserved node; then the snapshot becomes the list.
   */
  lemma JanitorPassPods(v: View, now: int, ttl: int, list: map<UID, PodRef>)
    ensures JanitorPass(v, now, ttl, list).pods ==
            if exists u :: u in v.resv && now - v.resv[u].since >= ttl &&
                           u in list && list[u].nodeName == v.resv[u].ref.nodeName
            then list else v.pods
  {
    if u :| u in v.resv && now - v.resv[u].since >= ttl && u in list && list[u].nodeName == v.resv[u].ref.nodeName {
      assert u in Expired(v.resv, now, ttl) * Confirmed(v.resv, list);
    }
  }

  /**
   The pass removes exactly the reservations of age at least ttl, leaves the others as they are, and
   leaves every removed pod that the list confirmed counted on its reserved node.
   */
  lemma JanitorPassEffect(v: View, now: int, ttl: int, list: map<UID, PodRef>, u: UID)
    requires u in v.resv
    ensures u in JanitorPass(v, now, ttl, list).resv <==> now - v.resv[u].since < ttl
    ensures u in JanitorPass(v, now, ttl, list).resv ==> JanitorPass(v, now, ttl, list).resv[u] == v.resv[u]
    ensures now - v.resv[u].since >= ttl && u in Confirmed(v.resv, list) ==>
              u in JanitorPass(v, now, ttl, list).pods &&
              JanitorPass(v, now, ttl, list).pods[u].nodeName == v.resv[u].ref.nodeName
  {
    if u in Expired(v.resv, now, ttl) && u in Confirmed(v.resv, list) {
      assert u in Expired(v.resv, now, ttl) * Confirmed(v.resv, list);
    }
  }
}
