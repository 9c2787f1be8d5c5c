/** The values the scheduler plugin keeps about pods: their count footprint and their reservations. */
module Types {

  type UID = string

  /** The per-pod footprint inside a snapshot. */
  datatype PodRef = PodRef(quotaKey: string, schedKey: string, nodeName: string)

  /** The ref of a pod that is unmanaged or carries no service label. */
  const EMPTY_REF := PodRef("", "", "")

  datatype Phase = Reserved | BoundObs

  datatype Reservation = Reservation(ref: PodRef, phase: Phase, since: int)

  /** The two counting dimensions: the hard cap counts by quota key, skew by scheduling key. */
  datatype Dim = Quota | Sched

  function KeyOf(ref: PodRef, dim: Dim): string {
    match dim
    case Quota => ref.quotaKey
    case Sched => ref.schedKey
  }

  /** The abstract value of the state machine: the pods counted and the reservations held. */
  datatype View = View(pods: map<UID, PodRef>, resv: map<UID, Reservation>)

  datatype Option<T> = None | Some(value: T)

  /** Pods counted on a node under a key. */
  function CountedOn(pods: map<UID, PodRef>, dim: Dim, node: string, key: string): set<UID> {
    set u | u in pods && pods[u].nodeName == node && KeyOf(pods[u], dim) == key
  }

  /** Pods holding a reservation on a node under a key. */
  function ReservedOn(resv: map<UID, Reservation>, dim: Dim, node: string, key: string): set<UID> {
    set u | u in resv && resv[u].ref.nodeName == node && KeyOf(resv[u].ref, dim) == key
  }

  /** The effective count: what is counted plus what is reserved, a pod in both counted twice. */
  function Eff(v: View, dim: Dim, node: string, key: string): nat {
    |CountedOn(v.pods, dim, node, key)| + |ReservedOn(v.resv, dim, node, key)|
  }

  /** Distinct pods counted or reserved on a node under a key. */
  function Occupants(v: View, dim: Dim, node: string, key: string): set<UID> {
    CountedOn(v.pods, dim, node, key) + ReservedOn(v.resv, dim, node, key)
  }

  /** Pods both counted and reserved on a node under a key: the double counted ones. */
  function Overlap(v: View, dim: Dim, node: string, key: string): set<UID> {
    CountedOn(v.pods, dim, node, key) * ReservedOn(v.resv, dim, node, key)
  }
}
