# Verified model of the service spread scheduler

The service spread scheduler places the pods of a service so that no node holds more than
`maxPodsPerNode` of them and nodes do not drift apart by more than `maxSkew`. This project models
its counting and reservation engine, the placement decisions built on it, the domain key, and
policy admission, and proves what they guarantee.

| file | models |
|---|---|
| `Types`, `Transitions` | refs, reservations, effective counts; what each lock-held section does to the abstract state |
| `Tables`, `Snapshots`, `State` | the nested count indexes with heap-allocated inner maps, copy-on-write snapshots, the mutex-guarded state machine, the janitor pass |
| `Cluster`, `Runs`, `Tracking`, `Occupancy`, `Filling`, `Lifecycle`, `Janitor`, `Races` | whole runs: API server histories, an informer handler that lags behind, scheduler callbacks, janitor and reconciler, all interleaved |
| `Placement`, `Scoring`, `Balance` | PreFilter, Filter, Reserve, scores; growing runs of a service and the capacity deficit |
| `Keys`, `Ordering`, `TermSort`, `BlockMerge`, `TermOrder`, `Domain`, `DomainLaws`, `Canonical`, `CanonicalOrder`, `PodOrder` | keys, sorting, the stable domain, the canonical domain spec and its meaning |
| `Admission`, `Protocol` | policy validation, overlap check, policy resolution, runs of check and commit |
| `Enqueue` | the queueing hint for pod events |
| `Counts` | sums over maps and cardinalities |

How the pieces fit: the class `State.SpreadState` changes snapshots and reservations in place, and
every method states its new abstract value through a function of `Transitions`. `Cluster.Next` runs
the same functions as atomic steps, so what is proved of runs is about what the methods do. A pod's
API history is a sequence of versions; the handler takes them up in order, may skip, and is two
steps per event. `OnPodAddOrUpdate` and `OnPodDelete` of the class are those two steps without
interruption. A janitor pass is a run of such steps (`Janitor`). Filter answers play no role in runs:
placements may be attempted anywhere, and only the locked recheck of Reserve stands between them and the cap.

Assumptions of runs, all visible in `Cluster.Enabled` and `Cluster.Follows`: a pod's quota key and its
being managed never change, while its scheduling key may; a bound pod stays on its node and a finished
pod stays finished; a pod is bound only while a reservation for its seat is live. Everything else the
environment must respect is the condition `Cluster.Safe` of each step, and `StepExact` shows that this
condition is necessary as well as sufficient for keeping every bound pod covered; `Filling.CapExact` shows
that being covered is what keeps the cap safe. `Tracking.Benign` is its everyday form. Runs start from any
state these conditions have kept, among them the empty state and a restart over a running cluster with no
bind in flight (`Tracking.RestartIsGood`).

What the model shows false of the code or of its comments, and exactly when it holds where that can be said:

- A reconciler list that is exact but newer than the informer handler can lose a bound pod, and
  then a node is overfilled (`LateHandlerOverfills`); so can a list applied too late
  (`StaleListOverfills`).
- Distinct pods counted or reserved on a node can exceed the cap although bound pods do not, when the
  handler has still to take up a version that counts a pod whose seat has been given away: because its
  reservation is evicted or its bind fails (`HastyEvictionOvercounts`), or because a list newer than the
  handler uncounts it, be it exactly the bound pods of that moment (`NewerListOvercounts`). A step keeps
  every such version backed if and only if it takes no reservation and applies no list that would unback
  one (`BackingExact`), and the cap on occupants is safe from a state if and only if all are backed
  (`OccupancyExact`).
- A pod counted and reserved at once raises the domain minimum, so double counting, safe for the
  cap, is not safe for skew (`OverlapBreaksSkew`). `SkewAfterReserve` bounds the excess, and `SkewExact`
  says when there is none.
- `DomainHash` is documented as independent of list order. Affinity terms and tolerations are
  sorted with keys that stay behind when entries move: on lists of at most one block, 20 entries, that
  sort reverses descending runs (`ReversesDescents`), and at any length order independence holds for at
  most two entries or all equal ones (`OrderIndependenceExact`, for whole pods `PodOrderExact`).
- Joining values with NUL can make two requirements tie, and then a term has more than one canonical
  form (`OneFormExact`, `NulValuesTie`).
- Expressions and fields share one list in the canonical form, which keeps their meaning if and only if
  fields are on metadata.name and expressions are not (`FieldRuleExact`, `MergingLosesKind`).
- A comment in `keys.go` says an empty affinity term matches no node; the matcher lets it match
  every node (`EmptyTermMatchesAll`), and the model follows the matcher.
- An empty service value escapes the naming rule, so two policies can select it (`SafeValuesExact`).
- An event wakes every pod that waits for what it frees if and only if the pod keeps its service label:
  a pod relabelled away frees a seat and the hint skips (`WakeUpsExact`, `RelabelIsLost`).
- Gt and Lt are right against every limit of 64 bits if and only if the label value fits too; 2^63
  compares below zero (`GtLtCompareNumbers`, `BigNumbersWrap`).
- The capacity deficit is computed in 32 bits and can wrap (`DeficitExact`): 65536 nodes of 65536
  seats are reported as no capacity at all (`DeficitWraps`).

## Model

| member | source | states |
|---|---|---|
| Snapshots.IncMap | internal/spread/state.go:309-314 | adds one at one node and key, creates the inner map if missing, leaves all other inner maps unshared and untouched |
| Snapshots.DecMap | internal/spread/state.go:316-328 | takes one away, drops entries that reach zero and inner maps that become empty |
| Snapshots.CloneIndex | internal/spread/state.go:35-48 | the copy has the same contents and no inner map in common with the original, in any iteration order |
| Snapshots.Snapshot.Clone | internal/spread/state.go:26-50 | deep copy: fresh object, fresh inner maps, same pod map, valid indexes |
| Snapshots.Snapshot.Count | internal/spread/state.go:52-60 | the two index lookups equal the number of pods with that node and key in the pod map |
| Snapshots.Snapshot.ApplyCount | internal/spread/state.go:290-297 | replaces or adds one pod; both indexes again recount the pod map exactly, without zero or empty entries |
| Snapshots.Snapshot.UnapplyCount | internal/spread/state.go:299-307 | removes one pod if present; both indexes again recount the pod map |
| Snapshots.Recount | internal/spread/state.go:276-288 | a snapshot built from a list in any order has the list as pod map and recounts it |
| Tables.IncRecounts | internal/spread/state.go:290-314 | an increment turns a recount of a pod map into a recount of the map with one pod more |
| Tables.DecRecounts | internal/spread/state.go:299-328 | a decrement turns a recount into a recount of the map with one pod less |
| Tables.RecountIsUnique | internal/spread/state.go:258-328 | a pod map has one zero-free recount, so incremental, rebuilt and differently ordered indexes coincide |
| State.Overlay | internal/spread/state.go:112-122 | visiting reservations in any order counts those on the node under each key |
| State.SpreadState.EffCount | internal/spread/state.go:149-163 | counts of the snapshot plus counts of the reservations, for both keys |
| State.SpreadState.Admit | internal/spread/plugin.go:349-366 | the min loop with its cap check decides the admission rule stated over all nodes of the domain |
| State.SpreadState.TryReserveChecked | internal/spread/state.go:169-184 | succeeds exactly for an unreserved UID that the rule admits, then writes one Reserved entry with the ref and the time of now, else changes nothing |
| State.SpreadState.Unreserve | internal/spread/state.go:189-195 | removes a Reserved entry, leaves BoundObs entries |
| State.SpreadState.MarkBound | internal/spread/state.go:200-206 | a reservation of the pod is BoundObs afterwards, its ref and time kept, and nothing else changes |
| State.SpreadState.ReleaseIfObserved | internal/spread/state.go:211-221 | removes the reservation exactly when the snapshot counts the pod on its node |
| State.SpreadState.UpsertCount | internal/spread/state.go:258-264 | new snapshot with the pod; the old snapshot and its inner maps are unchanged |
| State.SpreadState.RemoveCount | internal/spread/state.go:266-272 | new snapshot without the pod; the old one is unchanged |
| State.SpreadState.Rebuild | internal/spread/state.go:276-288 | new snapshot that is a recount of the list; reservations and the old snapshot are unchanged |
| State.SpreadState.OnPodAddOrUpdate | internal/spread/lifecycle.go:47-54 | counts or uncounts the pod, then releases its reservation if observed |
| State.SpreadState.OnPodDelete | internal/spread/lifecycle.go:58-64 | removes count and reservation in any phase |
| State.CollectExpired | internal/spread/lifecycle.go:103-110 | lists every reservation of age at least ttl once and no other |
| State.SpreadState.VerifyExpired | internal/spread/lifecycle.go:125-151 | the reservation goes; the snapshot becomes the list exactly if the list shows the pod on the reserved node, otherwise it is kept; no alert |
| State.SpreadState.JanitorOnce | internal/spread/lifecycle.go:100-152 | readable source: releases exactly the expired ones, no alert; unreadable: changes nothing, alerts exactly the expired ones once each |
| Transitions.JanitorPassEffect | internal/spread/lifecycle.go:100-162 | per reservation: gone if and only if at least ttl old, unchanged otherwise, and a confirmed one is left counted on its node |
| Transitions.JanitorPassPods | internal/spread/lifecycle.go:125-151 | the pass leaves the snapshot alone unless a reservation of age at least ttl has its pod listed on its node; then the snapshot is the list |
| Transitions.VerifiedStep | internal/spread/lifecycle.go:125-151 | verifying one more reservation extends the set already verified, whatever the order |
| Janitor.JanitorPassIsRun | internal/spread/lifecycle.go:100-162 | an uninterrupted pass, in any order of the expired ones, is a run of relists with releases for confirmed pods and evictions for the others |
| Janitor.JanitorPassKeepsTheCap | internal/spread/lifecycle.go:116-162 | with a list at the handler's position and no bound pod unconfirmed, a pass keeps tracking, coverage and the cap |
| Cluster.StepExact | internal/spread/lifecycle.go:47-64 | a step from a state where every bound pod is held or settled keeps it so if and only if it is safe |
| Cluster.PodStep | internal/spread/state.go:189-221 | the same for one pod and every step other than a relist |
| Runs.EffCoversSeats | internal/spread/state.go:149-163 | in a covered state the effective count is at least the number of pods bound or reserved on the node |
| Runs.BoundOnMeans | internal/spread/lifecycle.go:20-23 | the pods bound to a node under a service are those whose newest version is managed, active and carries both |
| Runs.CapNeverExceeded | internal/spread/state.go:169-221 | in every safe run from a state where it holds, each bound pod is covered and pods bound or reserved on a node never exceed the cap, at every moment |
| Filling.CapExact | internal/spread/state.go:169-221 | from a tracking state no safe run can pass the cap on bound or reserved pods if and only if every bound pod is covered |
| Occupancy.OccupancyWithinCap | internal/spread/state.go:258-288 | from a backed state, in every run whose steps keep everything backed and whose lists name occupants, distinct pods counted or reserved on a real node stay within the cap |
| Occupancy.BackingExact | internal/spread/lifecycle.go:47-64 | a step keeps every version still to be handled backed if and only if a new version is backed, a list keeps what is awaited backed, and a reservation is only taken where the snapshot alone backs it |
| Occupancy.CarefulRunsKeepOccupancy | internal/spread/lifecycle.go:116-144 | safe runs whose lists show bound pods only, ahead of the handler or not, and whose lists and releases keep what is awaited backed, keep every bound pod covered and occupants within the cap |
| Occupancy.BoundListNamesOccupants | internal/spread/lifecycle.go:168-181 | in a covered state a list of bound pods names only pods counted or reserved in their seats |
| Filling.OccupancyExact | internal/spread/lifecycle.go:47-64 | no run of steps that keep everything backed can pass the cap on occupants from a state if and only if the handler will count every pod only where it is already counted or reserved |
| Occupancy.PatienceExact | internal/spread/lifecycle.go:130-162 | with lists of exactly what the handler has seen, in a tracking state, a step keeps everything backed if and only if an unconfirmed release or a failed bind takes no reservation an awaited version depends on |
| Occupancy.PatientRunsKeepOccupancy | internal/spread/lifecycle.go:100-162 | so occupants stay within the cap in every run with such lists and releases |
| Occupancy.RestartIsBacked | internal/spread/lifecycle.go:202-220 | a restart whose first list is handled leaves nothing to back, so such runs may start there |
| Tracking.ListCountable | internal/spread/lifecycle.go:202-220 | the loop lists exactly managed, labelled, active and bound pods with their refs |
| Tracking.IncrementalEqualsRelist | internal/spread/lifecycle.go:202-220 | a snapshot that tracks the handler and one rebuilt from the lister agree on every key at every non-empty node name |
| Tracking.TracksStep | internal/spread/plugins_api.go:172-182 | every benign step keeps the snapshot tracking what the handler has seen |
| Tracking.BenignIsSafe | internal/spread/lifecycle.go:125-162 | lists at the handler's position, and no unreserve or eviction of bound pods, make every step safe |
| Tracking.BenignRunsKeepTheCap | internal/spread/state.go:169-288 | in every run under these rules, from any state where they hold, tracking, coverage and the cap on bound or reserved pods hold throughout |
| Tracking.RestartIsGood | internal/spread/lifecycle.go:202-220 | a new process whose first list is handled covers and tracks every bound pod within the cap, whatever the old one knew, no bind being in flight |
| Tracking.TrackedConservation | internal/spread/keys.go:144-155 | in every tracking state the quota count of a service on a real node is the sum of its counts over all its scheduling keys, refs being built from labels |
| Tracking.CaughtUpCountsAreExact | internal/spread/lifecycle.go:47-64 | once every history is handled, each real node counts exactly the pods bound to it, and without reservations that is the effective count |
| Tracking.CountedMeansActive | internal/spread/lifecycle.go:20-23 | in a tracking state a pod is counted on a real node exactly if its last handled version is managed, active and bound there |
| Races.StaleListOverfills | internal/spread/lifecycle.go:168-181 | a run with one list applied late, all else benign, that binds two pods under cap one |
| Races.LateHandlerOverfills | internal/spread/lifecycle.go:47-54 | the same with a list exact when applied but newer than the handler |
| Races.HastyEvictionOvercounts | internal/spread/lifecycle.go:130-136 | a run of eight steps within the plain rules that ends with two distinct pods on a node under cap one |
| Races.NewerListOvercounts | internal/spread/lifecycle.go:168-181 | the same by one list of exactly the bound pods, safe but newer than the handler |
| Lifecycle.EntryStep | internal/spread/state.go:189-221 | a step keeps a reservation as it is, moves it to BoundObs if it is its PostBind, or removes it, exactly by deletion, eviction, a failed bind before PostBind, or observation on its node |
| Lifecycle.NewEntry | internal/spread/state.go:169-184 | a reservation appears exactly by an admitted placement of its pod, with that ref and the time of that moment |
| Lifecycle.EntryHistory | internal/spread/state.go:169-206 | over every run a live reservation carries ref and time of the placement that took it, and is in phase BoundObs exactly if a PostBind came since |
| Lifecycle.ReservationAge | internal/spread/lifecycle.go:100-110 | a janitor pass releases a reservation exactly from ttl after its placement on |
| Lifecycle.AfterPostBind | internal/spread/state.go:189-221 | from a PostBind on no failed bind removes the reservation; it ends only by observation on its node, deletion or eviction |
| Lifecycle.EntryLife | internal/spread/state.go:197-206 | over any run a living reservation keeps node, keys and age, and its phase never goes back |
| Lifecycle.OnPodEvent | internal/spread/plugins_api.go:172-182 | after the event the pod is counted on a real node exactly if its object is managed, labelled, active and bound, and then under its own ref |
| Lifecycle.PodEventCounts | internal/spread/lifecycle.go:20-54 | per node: counted there exactly if managed, active and bound there; the reservation goes exactly if its node then counts the pod; other pods are untouched |
| Lifecycle.DeletionClears | internal/spread/lifecycle.go:58-64 | a deletion leaves neither count nor reservation, and other pods untouched |
| Lifecycle.PodEventIsTwoSteps | internal/spread/lifecycle.go:47-64 | a whole pod event is the two steps of the run model one after the other |
| Lifecycle.PostBindCommutes | internal/spread/state.go:197-221 | PostBind and the whole event of the same pod commute in every state |
| State.SpreadState.EffCountFrom | internal/spread/state.go:106-124 | the unlocked read adds the reservations of now to the counts of a snapshot loaded before |
| Placement.PreFilter | internal/spread/plugin.go:159-191 | an empty domain ends the cycle; otherwise the cached maps are the effective counts of the domain, each node from the snapshot and the reservations read for it, and minCount is their minimum |
| Placement.FilterIsAdmission | internal/spread/plugin.go:248-282 | Filter accepts exactly when the admission rule holds over the whole domain, and each rejection names its cause |
| Placement.ReserveAgreesWithFilter | internal/spread/plugin.go:334-372 | if nothing changed since the first read of PreFilter, for an unreserved pod, Reserve succeeds exactly where Filter accepts |
| Placement.ReservePod | internal/spread/plugin.go:334-372 | fails outside the latest domain, otherwise the locked recheck decides |
| Placement.SkewAfterReserve | internal/spread/plugin.go:347-366 | distinct pods on the chosen node exceed any domain node's by at most maxSkew plus that node's double counted pods |
| Placement.SkewExact | internal/spread/plugin.go:347-366 | every admitting policy keeps the distinct pods within its maxSkew if and only if no other node's distinct pods lie further below the least effective count than the chosen node is double counted |
| Placement.OverlapBreaksSkew | internal/spread/state.go:101-105 | a state where an admitted placement leaves three pods against one with maxSkew 1 |
| Placement.CountsFitInt32 | internal/spread/state.go:149-163 | below 2^31 - 1 pods and reservations no effective count plus one overflows 32 bits |
| Scoring.PreScore | internal/spread/plugin.go:286-307 | no feasible node ends the cycle; otherwise finds the extrema of the feasible counts, missing ones being zero, skip exactly when they coincide |
| Scoring.ScoreIsRoundedShare | internal/spread/plugin.go:325-327 | the score is the distance to the fullest count over the range plus one, in hundredths, rounded down |
| Scoring.ScoreRange | internal/spread/plugin.go:309-328 | scores lie in 0..99, never rise with the count, and the fullest node scores 0 |
| Scoring.EmptiestScoresHalf | internal/spread/plugin.go:325-327 | when counts differ the emptiest node scores at least 50 |
| Scoring.StrictUpTo99 | internal/spread/plugin.go:325-327 | lower counts always score strictly higher if and only if the range is at most 99 |
| Balance.PlaceCounts | internal/spread/state.go:179-182 | a successful placement raises the count of its node by one and no other count of the domain |
| Balance.QuietMove | internal/spread/lifecycle.go:47-54 | binding a pod and observing the binding leave every effective count as it is |
| Balance.SpreadOverRuns | internal/spread/plugin.go:349-366 | over any run of placements, bindings and their observations max minus min stays within the larger of its start and maxSkew |
| Balance.PlacedSum | internal/spread/plugin.go:347-366 | after t placements from empty the counts add up to t |
| Balance.PerfectBalance | internal/spread/plugin.go:273-281 | with maxSkew 1, after t placements on n nodes, t mod n nodes hold floor(t/n)+1 pods and the others floor(t/n) |
| Balance.StuckMeansFull | internal/spread/plugin.go:260-281 | with one domain and maxSkew at least 1 no node admits a pod exactly when every node is at the cap |
| Balance.MaximalRunsFillTheDomain | internal/spread/plugin.go:260-281 | every run from empty places at most nodes times cap pods and is stuck exactly when it has placed that many |
| Balance.DeficitExact | internal/spread/replicatarget.go:194-200 | the 32-bit deficit is the uncovered demand if and only if the product fits, or its lower 32 bits lie between the demand and 2^31 above it |
| Balance.DeficitIsWhatRunsLeave | internal/spread/replicatarget.go:336-352 | for one deployment whose product fits, the deficit over its node union is what a run of at most hpaMax pods over its stable domain leaves unplaced when it stops |
| Keys.QuotaKeyInjective | internal/spread/keys.go:27-29 | for one scheduler and label key equal quota keys mean equal namespace and value, namespaces having no slash |
| Keys.KeyLayout | internal/spread/keys.go:22-36 | the layout of both keys on a labelled pod |
| Keys.SlashedNamespacesCollide | internal/spread/keys.go:27-29 | with a slash in a namespace two services share a key |
| Keys.SchedKeyInjective | internal/spread/keys.go:34-36 | with hashes of one length a scheduling key determines quota key and hash |
| Keys.QuotaIsSumOfDomains | internal/spread/state.go:290-297 | on every node the quota count of a service is the sum of its counts over all its scheduling keys |
| Ordering.SortForgetsOrder | internal/spread/keys.go:157-165 | sorting strings gives one result for all orders of the same strings |
| Ordering.StrLeqMeans | internal/spread/keys.go:157-178 | one string is at most another if it is a prefix or smaller where they first differ |
| TermSort.InsertionSort | internal/spread/keys.go:184-193 | the in-place sort of one block with keys looked up by position inserts each entry at the start of its key run |
| BlockMerge.MergeIdle | internal/spread/keys.go:184-204 | the merge of two parts in key order moves nothing, even if the first entry of the list is out of order |
| BlockMerge.LastEntryFindsItsPlace | internal/spread/keys.go:184-204 | a single entry after a part goes right before the first entry of the part that it comes before |
| BlockMerge.FirstEntryFindsItsPlace | internal/spread/keys.go:184-204 | a single entry before a part goes right before the first entry of the part that does not come before it |
| BlockMerge.PartsChangePlaces | internal/spread/keys.go:184-204 | parts of one size change places if all of the second comes before all of the first |
| BlockMerge.LongerFirstStopsInTheMiddle | internal/spread/keys.go:184-204 | if the first part is longer and all of it belongs behind the second, only its end behind the middle changes places with the second part |
| BlockMerge.LongerSecondStopsInTheMiddle | internal/spread/keys.go:184-204 | if the second part is longer, only as much of it as reaches the middle changes places with the first part |
| TermOrder.ReversesDescents | internal/spread/keys.go:184-204 | the result for at most 20 entries in closed form: every maximal strictly descending run of keys is reversed, nothing else moves |
| TermOrder.SortTermsPermutes | internal/spread/keys.go:184-204 | the sorted list is a permutation of the list, blocks and merges included |
| TermOrder.BlocksSortAlone | internal/spread/keys.go:184-204 | a list whose blocks of 20 follow each other in key order is sorted block by block, each as if it were alone |
| TermOrder.LateEntryFindsItsPlace | internal/spread/keys.go:184-204 | ordered full blocks and one late entry behind them: the entry is moved to the place its key gives it |
| TermOrder.TwoBlocksChangePlaces | internal/spread/keys.go:184-204 | two ordered full blocks in the wrong order change places |
| TermOrder.OrderIndependenceExact | internal/spread/keys.go:184-204 | all orders of a list of any length come out the same if and only if it has at most two entries or all entries are equal |
| CanonicalOrder.CanonicalTermForgetsOrder | internal/spread/keys.go:157-178 | canonical terms do not depend on the order of values or requirements, joined values telling requirements apart |
| CanonicalOrder.JoinInjective | internal/spread/keys.go:180-182 | joining with NUL is injective on non-empty lists of NUL-free values |
| CanonicalOrder.NulFreeTellsApart | internal/spread/keys.go:174-182 | NUL-free values, with each operator always or never carrying values, tell requirements apart |
| CanonicalOrder.OneFormExact | internal/spread/keys.go:167-182 | a term has one canonical form, however ties are broken, if and only if joined values tell its requirements apart |
| CanonicalOrder.NulValuesTie | internal/spread/keys.go:180-182 | a term with one value holding a NUL and the two values around it has more than one canonical form |
| Canonical.CanonicalTermOf | internal/spread/keys.go:101-115 | the loops give the merged requirements, values sorted, in requirement order |
| CanonicalOrder.CanonicalTermIsOrdered | internal/spread/keys.go:167-178 | a canonical term is ordered by key, then operator, then joined values |
| Canonical.SortByJson | internal/spread/keys.go:184-204 | key table then in-place sort yield the modelled order of terms or tolerations |
| Canonical.DomainSpecOf | internal/spread/keys.go:88-129 | the built spec is a canonical spec of the pod, its terms and tolerations in the order the position-keyed sort leaves |
| Canonical.CanonicalTermMeaning | internal/spread/domain.go:80-99 | the requirements of a canonical term hold on a node exactly when the term matches it |
| Canonical.CanonicalMeaning | internal/spread/domain.go:31-76 | the canonical spec alone selects exactly the nodes of the pod's stable domain |
| Canonical.SameSpecSameDomain | internal/spread/domain.go:173-185 | pods with one canonical spec have the same stable domain over every node list |
| PodOrder.PodOrderExact | internal/spread/keys.go:85-129 | all orders of affinity terms and tolerations give one spec if and only if joined values tell each term's requirements apart, there are at most two terms or all say the same, and at most two tolerations or all are equal |
| CanonicalOrder.FieldRuleExact | internal/spread/keys.go:102-107 | for each key, merging keeps the meaning of expressions if and only if the key is not metadata.name, and of fields if and only if it is |
| CanonicalOrder.MergingLosesKind | internal/spread/keys.go:102-107 | for every key, an expression and a field with one requirement have one canonical spec, and only the one that follows the rule selects the probe node |
| Domain.Atoi64 | internal/spread/domain.go:143-167 | accepts exactly optional minus and digits, and returns the number reduced to 64 bits |
| Domain.NotNumbers | internal/spread/domain.go:143-167 | no sign alone, plus, blank or other character passes for a number |
| Domain.GtLtCompareNumbers | internal/spread/domain.go:114-128 | Gt and Lt compare the denoted numbers against every 64-bit limit if and only if the label value fits 64 bits |
| Domain.BigNumbersWrap | internal/spread/domain.go:143-167 | the label value 9223372036854775808 is not above zero but below it |
| Domain.EmptyTermMatchesAll | internal/spread/domain.go:55-99 | an empty term matches every node and lifts the affinity of its list; an empty list matches none |
| Domain.ComputeStableDomain | internal/spread/domain.go:173-185 | the scan collects exactly the names of nodes in the stable domain, nothing if listing fails |
| DomainLaws.SetOperators | internal/spread/domain.go:103-109 | In selects nodes whose label is present and listed, NotIn those whose label, "" if absent, is not listed |
| DomainLaws.PresenceOperators | internal/spread/domain.go:110-113 | Exists and DoesNotExist split the nodes by presence of the label |
| DomainLaws.ComparisonOperators | internal/spread/domain.go:114-128 | Gt and Lt need one limit, a present label and numbers, and then compare them |
| DomainLaws.UnknownOperators | internal/spread/domain.go:129-131 | any other operator selects no node |
| DomainLaws.AbsentLabels | internal/spread/domain.go:103-132 | an absent label satisfies DoesNotExist, NotIn unless "" is listed, and nothing else |
| DomainLaws.FieldRequirements | internal/spread/domain.go:88-97 | metadata.name reads the node's name, any other field nothing |
| DomainLaws.TermsAreAlternatives | internal/spread/domain.go:60-74 | terms are alternatives |
| DomainLaws.RequirementsHoldTogether | internal/spread/domain.go:80-99 | the requirements of a term must hold together |
| DomainLaws.SelectorIsRequirement | internal/spread/domain.go:54-59 | a selector entry means In its value, or absence for the empty value |
| DomainLaws.SelectorsHoldTogether | internal/spread/domain.go:54-59 | selector entries must hold together and with the rest |
| DomainLaws.GatedNodes | internal/spread/domain.go:31-37 | a node that is not ready or is unschedulable is in no domain |
| DomainLaws.UnconstrainedPods | internal/spread/domain.go:31-51 | a ready, schedulable, untainted node is in the domain of a pod without constraints |
| DomainLaws.TaintsAddUp | internal/spread/domain.go:41-50 | each NoSchedule or NoExecute taint must be tolerated by some toleration, other taints do not count |
| Domain.CollectUnion | internal/spread/replicatarget.go:343-351 | the nested loops collect the union of the templates' stable domains |
| Admission.ServiceSelectorValue | internal/webhook/validation.go:19-50 | no error exactly for a single service label and no expressions, each other shape under its own error; the value is that label's |
| Admission.ValidatePolicy | internal/webhook/validation.go:66-106 | no error exactly for policies with the managed scheduler, a single key, limits of at least one, and the bound name unless the value is empty; each violated rule, those of the selector included, is reported under its own error |
| Admission.CheckOverlap | internal/webhook/policy_webhook.go:78-99 | passes exactly without a reader or when no listed policy selects the same service, an own stored version never doing so; a failing list and an overlap reject with their own errors |
| Admission.OverlapIsDoubleSelection | internal/webhook/validation.go:115-132 | an existing policy overlaps with a well-formed one exactly if it is another object that the plugin takes for the same service |
| Admission.SelectsMeans | internal/spread/plugin.go:203-245 | the plugin takes exactly policies of the managed scheduler whose selector is this one label |
| Admission.Validate | internal/webhook/policy_webhook.go:51-71 | accepts exactly with a usable configuration, a well-formed policy and no overlap; never on a failing list or beside another policy the plugin takes for the service |
| Admission.ResolvePolicy | internal/spread/plugin.go:198-232 | ambiguous exactly when two listed policies select the service, otherwise the one that does, else not found or none by requirePolicy |
| Protocol.NameDeterminesService | internal/webhook/validation.go:93-103 | two well-formed policies of a namespace with one non-empty value are the same object |
| Protocol.OnePolicyPerNamedService | internal/webhook/policy_webhook.go:51-99 | under any interleaving of checks on any lists, commits and deletes, at most one stored policy selects a non-empty value, for every naming |
| Protocol.OnePolicyWhenAtomic | internal/webhook/policy_webhook.go:78-99 | with check and commit in one step on the live list this holds for every value |
| Protocol.EmptyValueRace | internal/webhook/validation.go:93-103 | two checks before either commit leave two policies for the empty value |
| Protocol.SafeValuesExact | internal/webhook/validation.go:93-103 | every interleaving is unambiguous for a value if and only if the value is not empty |
| Protocol.ListingNeverAmbiguous | internal/spread/plugin.go:198-232 | so no listing of the namespace makes resolution ambiguous |
| Enqueue.NoLostWakeUp | internal/spread/enqueue.go:61-86 | an event that keeps the service label and changes any Filter answer for a pending pod, either way, is never skipped |
| Enqueue.WakeUpsExact | internal/spread/enqueue.go:61-86 | over all pending pods, cycles and nodes no rejected node that would now be accepted is skipped if and only if what the event takes away is under no quota key or under the event's own; the same for any changed answer |
| Enqueue.HintCases | internal/spread/enqueue.go:61-86 | an event wakes exactly without objects, or if its pod and the pending one are labelled, its pod is managed, and they share a service or a domain |
| Enqueue.EventEffectIsPodEvent | internal/spread/plugins_api.go:172-182 | the event whose hint is judged is the pod event of the handler |
| Enqueue.ForeignEventKeepsCounts | internal/spread/state.go:290-307 | an event of another service changes no effective count under the pending pod's keys |
| Enqueue.SkipsExactlyOtherServices | internal/spread/enqueue.go:58-60 | for managed labelled pods the hint skips exactly events of another namespace or service value |
| Enqueue.RelabelIsLost | internal/spread/enqueue.go:61-86 | a pod relabelled from one service to another frees a seat and the hint skips the pod that waits for it |

## Left out

- Informers, listers, dynamic clients, leader loops, tickers and metrics: only the atomic steps they trigger are modelled; clocks are integers passed in.
- The early exits of PreFilter before counting (cache sync, scheduler name, label, owner chain): branching without state.
- A missing policy under `requirePolicy=false`: resolution returns none, and the placement model requires a policy.
- Reservation objects are values in a map, not shared pointers: they never leave the lock in the source.
- The outer level of a count index is a field reassigned by the methods; the inner maps are heap objects, so aliasing between snapshots is captured at that level only.
- Counts are unbounded integers, with `CountsFitInt32` giving the bound under which the 32-bit ones agree; the capacity deficit is modelled with wrap-around.
- The SHA-256 digest and JSON text (section 6.2 of FIPS 180-4, section 7 of RFC 8259): properties are stated on the canonical spec, serialisation is any function, injective where it matters; digest collisions are not modelled.
- BlockMerge.MergeIdle: the library's merge of blocks is modelled as the sequence of rotations it performs, not as writes to the slice.
- Canonical.CanonicalMeaning: needs the rule on field keys for every requirement; the rule is exact over all operators and values, but a single requirement outside it may happen to mean the same.
- Balance.PerfectBalance: pod events between placements are completed ones; within the two halves of an event a pod is double counted, which `SkewExact` covers.
- Tracking.RestartIsGood: a bind the old process still had in flight is outside the run model, which needs a live reservation for every binding.
- Node readiness is a flag and the toleration of one taint by one toleration is any predicate, both being library code.
- Runs.CapNeverExceeded: pods whose service label changes while they are reserved or bound are outside the run model; added tolerations, which change the scheduling key, are inside.
- The naming function of policies is any deterministic function; resource versions and concurrent writes of one object are the API server's business.
- The zero results of the capacity deficit for a missing bound, policy or listing, and for an ambiguous policy: early returns around the arithmetic that is modelled.
- Owner chains, policy and owner hints, the replica target observer apart from the capacity deficit, certificates, configuration loading and deployment files.
