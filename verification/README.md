# Verification of the enndata extender-scheduler

This project models the scheduling decisions of the extender-scheduler and proves properties of them.
`dafny verify dfyconfig.toml` checks everything.

**Hostpath disks.** A node declares disks with an allocable size. Directories with a quota are charged to
them: recorded ones to the first disk whose path is a prefix of theirs, and directories owed to pods but
not recorded yet to every disk. `HostPathPV.dfy` builds that list, `DiskPressure.dfy` holds the predicate
with its in-place loops, `Packing.dfy` the theory of its greedy packing and `BinPacking.dfy` exactly when
that is as good as any. `PressureProperties.dfy`, `DiskOrder.dfy` and `Accounting.dfy` state what charging
and accounting mean and exactly when they depend on the order of disks and volumes. `Binding.dfy` compares
what admission charges with what accounting grows by. `Overcommit.dfy`, `OvercommitRecords.dfy` and
`OvercommitRuns.dfy` prove that accepted binds never overcommit a node over whole runs, and
`OvercommitLimits.dfy` shows where that stops. `Affinity.dfy` holds the affinity predicate and its
agreement with disk pressure, `Answers.dfy` what both answer by fields, `AffinityRuns.dfy` the run
theorems of one kept volume, and `Recording.dfy` the storage plugin's writes.

**Namespace node selector.** `ValueText.dfy` splits and joins value texts, `NsSelector.dfy` reads the
stored configuration and compiles it to label requirements, `NsMeaning.dfy` says what it means by labels,
`NsEdit.dfy` edits it, `NsRuns.dfy` follows runs of edits, `NsCache.dfy` puts the two caches with their
shared objects and clock in front, `NsServer.dfy` follows runs of the server and joins them with the runs
of edits, and `NsFallback.dfy` states what an edit from an empty base loses.

**Scoring.** `Scoring.dfy` has the fork-join of per-node tasks and both rescalings.

`Sequences.dfy` holds sums, multisets, filters and sorting, `Division.dfy` truncated division, and
`AnyWorld.dfy` a cluster with given requests and given charged directories.

## Assumptions

- The storage plugin is the environment. In the no-overcommit runs it may record a new directory for any
  volume. For an owed one it chooses a disk where some placement of all owed directories has one of that
  size, and on a feasible node there always is such a disk (`OvercommitRecords.OwedHasDisk`). For one that
  nothing is reserved for, the disk must have room for it beside what is owed then. This is the weakest
  assumption that works (`OvercommitRecords.RecordFeasibleIff`), and `Binding.ChargedIsReservedIff` is the
  exact condition for an admitted directory to be reserved. Two families are not: volumes without an entry
  on the node and volumes of the policy "none" with directories left over. `OvercommitLimits` has a node
  for each on which two pods are accepted and no room is left for the second. The plugin removes only
  records whose path is recorded nowhere else and which no pod needs.
- A bind in those runs is not that of the first pod of a shared volume whose entry on the node is empty:
  such a pod is admitted without a charge (`Binding.SharedOwesIff`).
- In the affinity runs the plugin records only where a pod lacks a directory (for a shared volume, where
  there is a pod).
- Runs assume that at any time pod names are distinct per namespace, volume names are distinct, bound
  claims and volumes name each other, annotations are readable, capacities and quotas are not negative, and
  no disk path but the last is empty. A deleted pod's name may come back.
- Integers are unbounded; a pod's node name is current.

## Model

| member | source | states |
|---|---|---|
| `Packing.GreedyExact` | pkg/algorithm/predicate/hostpathpv_disk_pressure.go:139-160 | With non-negative sizes the greedy accepts if and only if some non-decreasing assignment of requests to disks keeps every used disk within its size. |
| `Packing.ResidualIsHaveMinusLoad` | pkg/algorithm/predicate/hostpathpv_disk_pressure.go:139-160 | Accepting or not, each disk ends up lower by exactly the load placed on it. |
| `Packing.GreedyExactIff` | pkg/algorithm/predicate/hostpathpv_disk_pressure.go:139-160 | Without any assumption on signs: for sorted requests the greedy decides non-decreasing assignments on all sorted clamped disks if and only if the requests sum to nothing or less, or the negative ones are paid back exactly by the smallest that follow. |
| `Packing.NegativeRequestBreaksExactness` | pkg/algorithm/predicate/hostpathpv_disk_pressure.go:145-149 | A sorted list with a negative size outside that condition: a fitting assignment exists and the greedy refuses. |
| `Packing.MatchingAccepted` | pkg/algorithm/predicate/hostpathpv_disk_pressure.go:139-160 | On sorted lists the greedy accepts whenever requests can be matched one-to-one with large enough disks, by pigeonhole. |
| `Packing.EqualSizesDecided` | pkg/algorithm/predicate/hostpathpv_disk_pressure.go:139-160 | For requests of one size the greedy accepts if and only if any packing at all exists. |
| `BinPacking.BinPackingIff` | pkg/algorithm/predicate/hostpathpv_disk_pressure.go:139-160 | For sorted requests the greedy decides bin packing, on all sorted clamped disks, if and only if zeros and the largest request aside all have one size, and the largest is a multiple of it or at least all the others together. |
| `BinPacking.GreedyIsNotBinPacking` | pkg/algorithm/predicate/hostpathpv_disk_pressure.go:139-160 | A sorted list outside that condition that can be packed and is refused. |
| `Packing.AcceptedTotal` | pkg/algorithm/predicate/hostpathpv_disk_pressure.go:179-188 | Any accepted list asks in total for no more than the disks have in total. |
| `Packing.LargerDisksAccepted` | pkg/algorithm/predicate/hostpathpv_disk_pressure.go:139-160 | Pointwise larger disks never turn acceptance into refusal. |
| `Packing.SubRequestsAccepted` | pkg/algorithm/predicate/hostpathpv_disk_pressure.go:139-160 | Any sorted sub-collection of accepted sorted requests is accepted. |
| `DiskPressure.SortedSizes` | pkg/algorithm/predicate/hostpathpv_disk_pressure.go:29-37 | Whatever the sorting algorithm, disks sorted by size then path have the sorted sizes of the original. |
| `DiskPressure.InsertLast` | pkg/algorithm/predicate/hostpathpv_disk_pressure.go:30-37 | One insertion step on the array keeps the sorted prefix and the multiset of disks. |
| `DiskPressure.SortDisks` | pkg/algorithm/predicate/hostpathpv_disk_pressure.go:134-134 | The array ends sorted by the order of the list and a permutation of what it was. |
| `DiskPressure.ChargeMount` | pkg/algorithm/predicate/hostpathpv_disk_pressure.go:119-126 | One mount entry is taken from the first disk whose path is a prefix, or from every disk before that one when the entry has no path; all else is unchanged. |
| `DiskPressure.ChargeAll` | pkg/algorithm/predicate/hostpathpv_disk_pressure.go:118-127 | After all entries each disk holds its allocable size less the sum of its charges; path and flag are kept. |
| `DiskPressure.ClampAll` | pkg/algorithm/predicate/hostpathpv_disk_pressure.go:128-133 | Negative sizes become 0 and the sum of the clamped sizes is returned. |
| `DiskPressure.GetNodeDiskInfos` | pkg/algorithm/predicate/hostpathpv_disk_pressure.go:100-137 | The node's disks charged, clamped and sorted with their total; no disks give an empty list; unreadable data fails. |
| `DiskPressure.GetPodHostpathOfNodeDiskInfos` | pkg/algorithm/predicate/hostpathpv_disk_pressure.go:71-98 | The sorted sizes of the directories the pod needs anew, their total, and whether it has a hostpath volume; the first error fails. |
| `DiskPressure.CanRequestMatch` | pkg/algorithm/predicate/hostpathpv_disk_pressure.go:139-160 | The two-cursor loop ends, decides exactly what the greedy specification decides, and lowers each disk in place by the load placed on it. |
| `DiskPressure.PodMatchNode` | pkg/algorithm/predicate/hostpathpv_disk_pressure.go:162-190 | The predicate's answer in every case, with errors, silent refusals and direct acceptance kept apart. |
| `DiskPressure.EarlyTotalTestIsRedundant` | pkg/algorithm/predicate/hostpathpv_disk_pressure.go:171-188 | The early comparison of totals never changes whether a pod is accepted. |
| `Answers.ChargedSizes` | pkg/algorithm/hostpathpv.go:248-266 | Every directory a pod is charged has the size its volume declares: the annotated one whatever the storage size, else the storage size, else 0. |
| `Answers.OwedSizes` | pkg/algorithm/hostpathpv.go:206-214 | So has every directory owed on a node. |
| `Answers.RequestsConcat` | pkg/algorithm/predicate/hostpathpv_disk_pressure.go:71-98 | The charges of volumes taken together are those of the parts in order, and fail if and only if one part fails. |
| `Answers.RequestsOfOne` | pkg/algorithm/predicate/hostpathpv_disk_pressure.go:73-95 | One pod volume is charged once if and only if its volume is a hostpath volume with nothing to reuse, and fails if and only if it cannot be found or that question fails. |
| `Answers.ListFailsIff` | pkg/algorithm/hostpathpv.go:181-186 | The list of a node's directories fails if and only if a hostpath volume has an unreadable annotation. |
| `Answers.NotMatchIff` | pkg/algorithm/predicate/hostpathpv_disk_pressure.go:162-190 | A node is refused without an error if and only if all can be read, the pod needs room, and no disk has any left or there is none. |
| `Answers.AcceptedClaims` | pkg/algorithm/hostpathpv.go:140-156 | A pod accepted by either predicate has every mounted claim present, bound and naming a listed volume. |
| `PressureProperties.ChargingConservedIff` | pkg/algorithm/predicate/hostpathpv_disk_pressure.go:118-127 | Before clamping a disk has lost exactly the directories first-prefix-matched to it and every directory without a path, for all lists of directories, if and only if no empty path is listed before it. |
| `PressureProperties.MountOrderIrrelevant` | pkg/algorithm/predicate/hostpathpv_disk_pressure.go:118-127 | The order of mount entries changes no disk. |
| `DiskOrder.ChargedAloneIff` | pkg/algorithm/predicate/hostpathpv_disk_pressure.go:118-127 | Every disk can be charged without looking at the others, for all lists of directories, if and only if no disk path is a prefix of another. |
| `DiskOrder.DiskOrderIrrelevantIff` | pkg/algorithm/predicate/hostpathpv_disk_pressure.go:106-134 | The sorted charged sizes are the same for all directories and all orders of the disks if and only if any two disks have paths of which none is a prefix of the other, or the same path and room, or no room. |
| `DiskOrder.VerdictIgnoresDiskOrder` | pkg/algorithm/predicate/hostpathpv_disk_pressure.go:162-190 | Under that condition, or prefix-free paths alone whatever the quotas, the order of the disks changes no answer of the whole predicate. |
| `DiskOrder.VerdictOrderIff` | pkg/algorithm/predicate/hostpathpv_disk_pressure.go:162-190 | For all pods and all clusters without negative sizes the order of the disks changes no answer of the whole predicate if and only if that condition holds. |
| `PressureProperties.AdmissionMonotone` | pkg/algorithm/predicate/hostpathpv_disk_pressure.go:100-160 | Fewer requests, fewer mount entries and more allocable never turn admission into refusal, through charging, clamping, sorting and packing. |
| `PressureProperties.AcceptanceMonotone` | pkg/algorithm/predicate/hostpathpv_disk_pressure.go:162-190 | For the whole predicate: dropping a volume of the pod or raising allocable sizes keeps acceptance. |
| `PressureProperties.OneDiskEachIsEnough` | pkg/algorithm/predicate/hostpathpv_disk_pressure.go:162-190 | The whole predicate accepts a pod whenever each of its new directories can have a charged disk of its own, in whatever order both are listed. |
| `PressureProperties.PackingDecidedIff` | pkg/algorithm/predicate/hostpathpv_disk_pressure.go:162-190 | For a pod the whole predicate decides, on all disks a node may declare, whether its new directories need no room or can be packed in any way, if and only if their sorted sizes meet that condition. |
| `PressureProperties.PressureExact` | pkg/algorithm/predicate/hostpathpv_disk_pressure.go:162-190 | Acceptance by the predicate if and only if no room is needed or a non-decreasing assignment on the sorted charged disks exists. |
| `PressureProperties.DisabledIsIgnored` | pkg/algorithm/predicate/hostpathpv_disk_pressure.go:107-113 | The disabled flags of disks change no answer. |
| `HostPathPV.List` | pkg/algorithm/common.go:117-130 | Exactly the pods that pass the filter, in order; all of them without a filter. |
| `HostPathPV.FilterByNodeAndPVC` | pkg/algorithm/common.go:54-92 | The listed pods on the node, any node for the empty name, that are in the claim's namespace and mount it and, unless all are asked for, are pending, running or unknown and not being deleted; in order. |
| `HostPathPV.GetHostPathPVUsedPodMap` | pkg/algorithm/hostpathpv.go:89-102 | One key per ready pod of the volume's claim on the node; fails exactly for an unclaimed volume and is empty then. |
| `HostPathPV.KeysCountPods` | pkg/algorithm/hostpathpv.go:98-100 | With distinct pods the number of keys is the number of pods, so the map and the list count alike. |
| `HostPathPV.FirstEntryFound` | pkg/algorithm/hostpathpv.go:122-129 | Of several entries for a node the first one is used. |
| `Answers.VolumeBehind` | pkg/algorithm/hostpathpv.go:140-156 | The volume behind a pod volume is the first one listed under the name that its claim gives, which must exist, be bound and name one; a volume that is no claim has none. |
| `Answers.ReusableIff` | pkg/algorithm/hostpathpv.go:104-137 | A directory can be reused if and only if the first entry for the node belongs to a shared volume, or to a kept and claimed one that records more directories there than it has ready pods. |
| `Answers.ReuseFailsIff` | pkg/algorithm/hostpathpv.go:104-137 | That question fails if and only if the volume is no hostpath volume, or is kept and not shared with an unreadable annotation, or with entries and no claim. |
| `HostPathPV.AddRecorded` | pkg/algorithm/hostpathpv.go:190-196 | Records with a new cleaned path are appended, first occurrences only, and all their paths are remembered. |
| `HostPathPV.AddPending` | pkg/algorithm/hostpathpv.go:197-214 | Appends one capacity-sized entry without path per directory the volume still owes on the node. |
| `HostPathPV.AddVolume` | pkg/algorithm/hostpathpv.go:188-217 | Only the first entry for the node is charged; a volume without one adds nothing. |
| `HostPathPV.GetNodeHostPathPVMountInfo` | pkg/algorithm/hostpathpv.go:170-221 | The loops over volumes, entries and records compute the specified list, or fail on an unreadable annotation. |
| `Accounting.ListParts` | pkg/algorithm/hostpathpv.go:170-221 | The list fails exactly on an unreadable volume; else, as a multiset, it is the de-duplicated records plus the owed directories of all volumes. |
| `Accounting.FreshMeaning` | pkg/algorithm/hostpathpv.go:191-195 | De-duplication keeps exactly the first record of every cleaned path. |
| `Accounting.RecordedPart` | pkg/algorithm/hostpathpv.go:188-196 | One entry for every cleaned path in some volume's first entry for the node, none for other paths, none twice. |
| `Accounting.PendingPart` | pkg/algorithm/hostpathpv.go:197-214 | Per volume with an entry: pods beyond directories, at least 0; for a shared one, one exactly when it has pods and no directory; no entry, nothing. |
| `Accounting.VolumeOrderIrrelevantIff` | pkg/algorithm/hostpathpv.go:181-221 | All orders of the volumes give the same success and the same multiset of charges if and only if some volume is unreadable or any two volumes' own de-duplicated records agree on equal cleaned paths. |
| `Binding.ChargesOfVolume` | pkg/algorithm/predicate/hostpathpv_disk_pressure.go:73-95 | Admission charges a volume once per mount of its claim, or not at all when a directory is reusable. |
| `Binding.BindEffect` | pkg/algorithm/hostpathpv.go:197-214 | Binding adds at most one owed directory to a non-shared volume, exactly when pods are at least as many as directories, and none when one is reusable. |
| `Binding.ChargeMatchesAccounting` | pkg/algorithm/predicate/hostpathpv_disk_pressure.go:84-94 | The quota a non-shared volume with an entry owes grows on a bind by at most what admission charged for it, and by exactly that for a keep volume mounted once. |
| `Binding.ChargedIsReservedIff` | pkg/algorithm/hostpathpv.go:188-214 | A charged volume is reserved in the accounting if and only if it is not shared, has an entry on the node, and its ready pods there are at least as many as the recorded directories; a kept one always meets the last. |
| `Binding.SharedOwesIff` | pkg/algorithm/hostpathpv.go:198-203 | A bind makes a shared volume owe a directory if and only if its entry is empty and the pod is its first one there, and admission then charged nothing for it. |
| `Overcommit.AcceptanceLeavesRoom` | pkg/algorithm/predicate/hostpathpv_disk_pressure.go:118-160 | Acceptance gives a packing that, on every disk it really loads, leaves room for all owed directories of the node together. |
| `Overcommit.OnePackingForEveryPlacement` | pkg/algorithm/predicate/hostpathpv_disk_pressure.go:118-160 | That one packing goes with every placement of the owed directories. |
| `Overcommit.BindAddsCharges` | pkg/algorithm/hostpathpv.go:197-214 | Binding a pod adds to the node's list at most the directories admission charged for it, over all volumes together. |
| `Overcommit.AcceptedBindStaysFeasible` | pkg/algorithm/predicate/hostpathpv_disk_pressure.go:162-190 | A bind accepted by the predicate keeps the node feasible: all owed directories can still be placed within allocable. |
| `OvercommitRecords.RecordMoves` | pkg/algorithm/hostpathpv.go:188-214 | Recording a new directory for a volume that owes one turns one owed entry of the list into one recorded entry. |
| `OvercommitRecords.RecordFeasibleIff` | pkg/algorithm/hostpathpv.go:188-214 | A new directory of any volume, with or without an entry, reserved or not, keeps the node feasible if and only if a placement of the owed directories has it, or room for it and what is owed then, on its disk. |
| `OvercommitRecords.OwedHasDisk` | pkg/algorithm/hostpathpv.go:197-214 | On a feasible node every owed directory has a disk on which it may be recorded under any new path. |
| `OvercommitRecords.ForgetStaysFeasible` | pkg/algorithm/hostpathpv.go:188-214 | Removing a record that no pod needs keeps the node feasible. |
| `OvercommitRuns.StepStaysSound` | pkg/algorithm/predicate/hostpathpv_disk_pressure.go:162-190 | Every step, arrival, accepted bind, bind elsewhere, end, deletion of a pod, record, removed record, foreign annotation, new or removed volume, keeps the node well-formed and feasible. |
| `OvercommitRuns.NoOvercommit` | pkg/algorithm/predicate/hostpathpv_disk_pressure.go:162-190 | From a feasible node, every world of every run is feasible. |
| `OvercommitRuns.FeasibleMeans` | pkg/algorithm/predicate/hostpathpv_disk_pressure.go:118-133 | On a feasible node no disk holds recorded directories beyond its allocable size. |
| `OvercommitLimits.NothingIsReserved` | pkg/algorithm/hostpathpv.go:188-189 | While no volume has an entry on the node, binds change no answer of the predicate. |
| `OvercommitLimits.FirstRecordOvercommits` | pkg/algorithm/hostpathpv.go:188-189 | A concrete node where two pods are accepted for the room of one and the first recorded directory makes the node infeasible. |
| `OvercommitLimits.LeftoverOvercommits` | pkg/algorithm/hostpathpv.go:206-214 | A concrete node with a directory of a none-policy volume left over: two pods are accepted although one fits, because the first bind owes nothing. |
| `Affinity.UsedNodesCount` | pkg/algorithm/hostpathpv.go:66-87 | A node is in the used map exactly when it has a ready pod of the claim. |
| `Affinity.GetHostPathPVUsedNodeMap` | pkg/algorithm/hostpathpv.go:66-87 | The nodes of the claim's ready pods, unbound ones skipped; fails exactly for an unclaimed volume. |
| `Affinity.PodPVMatchNode` | pkg/algorithm/predicate/hostpathpv_affinity.go:54-133 | The four policy cases with their loops and early returns give the declarative answer. |
| `Affinity.PodMatchNode` | pkg/algorithm/predicate/hostpathpv_affinity.go:135-144 | Accepted if and only if every volume accepts; otherwise the first one that does not decides. |
| `Affinity.PredicatesAgreeIff` | pkg/algorithm/predicate/hostpathpv_affinity.go:66-124 | On a node affinity accepts, disk pressure charges a kept volume exactly when no listed node holds a reusable directory, if and only if the volume is shared or its annotation is readable. |
| `Affinity.AcceptedNodes` | pkg/algorithm/predicate/hostpathpv_affinity.go:98-124 | For a kept volume that is not shared: exactly the nodes with a reusable directory, or all nodes when there are none; an error exactly with entries and no claim. |
| `Affinity.AcceptedButFailingIff` | pkg/algorithm/predicate/hostpathpv_affinity.go:62-124 | For a kept volume affinity accepts where disk pressure fails if and only if the volume is not shared and its annotation is unreadable. |
| `Answers.NotKeptAccepted` | pkg/algorithm/predicate/hostpathpv_affinity.go:95-127 | A volume that is no claim, no hostpath volume, or of the policy none is accepted on every node without an error. |
| `Answers.AffinityFailsIff` | pkg/algorithm/predicate/hostpathpv_affinity.go:54-124 | Affinity fails for a pod volume if and only if its volume cannot be found, or is kept and unclaimed, and is shared without entries or not shared with entries. |
| `Answers.SharedAffinityIff` | pkg/algorithm/predicate/hostpathpv_affinity.go:66-94 | A shared kept volume is accepted on a node if and only if it has an entry there, or has no entries and has ready pods there or none anywhere; it fails if and only if it has neither entries nor a claim. |
| `AffinityRuns.BindKeepsHeld` | pkg/algorithm/predicate/hostpathpv_affinity.go:98-124 | An accepted bind either adds nothing to what the volume holds, or no node has a spare directory and it holds exactly one per pod. |
| `AffinityRuns.BoundPodsCount` | pkg/algorithm/common.go:54-58 | The sum over nodes counts each ready bound pod of the claim once. |
| `AffinityRuns.NoDirectoryLeak` | pkg/algorithm/predicate/hostpathpv_affinity.go:98-124 | Over every run the sum over nodes of max(recorded, ready pods) is at most its start value or the number of ready pods at some time so far. |
| `AffinityRuns.AcceptedAtHome` | pkg/algorithm/predicate/hostpathpv_affinity.go:66-94 | A shared kept volume that lives on a node is accepted on that node only. |
| `AffinityRuns.AcceptedHomeIff` | pkg/algorithm/predicate/hostpathpv_affinity.go:66-94 | A claimed shared kept volume is accepted on a node if and only if it lives there or nowhere yet. |
| `AffinityRuns.SingleNodeResidency` | pkg/algorithm/predicate/hostpathpv_affinity.go:66-94 | Over every run the nodes with a ready pod or an entry of a shared kept volume are at most one. |
| `ValueText.ListMapString` | pkg/algorithm/predicate/namespaces_nodeselector.go:175-181 | Lists a set in an arbitrary order, each member once. |
| `ValueText.InsertValue` | pkg/algorithm/predicate/namespaces_nodeselector.go:215-233 | The comma-separated pieces of the text are added to the key's values; a new key starts empty. |
| `ValueText.SplitJoin` | pkg/algorithm/predicate/namespaces_nodeselector.go:215-221 | A list of comma-free values, empty ones included, comes back from its joined text. |
| `ValueText.RelistedValues` | pkg/algorithm/predicate/namespaces_nodeselector_httpserver.go:151-156 | Joining any listing of a non-empty comma-free value set and inserting the text gives the set back. |
| `NsSelector.GetNsConfigByConfigMap` | pkg/algorithm/predicate/namespaces_nodeselector.go:183-211 | Every listed namespace gets an item and every absent not-match map the default exclusion, an empty one does not; malformed text gives nothing. |
| `NsSelector.AppendRequirements` | pkg/algorithm/predicate/namespaces_nodeselector.go:123-159 | For every order of the keys the appended requirements restrict the accepted labels by exactly the map's meaning. |
| `NsSelector.GetNsLabelSelector` | pkg/algorithm/predicate/namespaces_nodeselector.go:92-164 | For every order of the maps the compiled list accepts exactly the label sets the configuration means. |
| `NsSelector.PodMatchNode` | pkg/algorithm/predicate/namespaces_nodeselector.go:76-90 | Accepted exactly when the node's labels satisfy the namespace's stored configuration. |
| `NsSelector.EffectiveOfList` | pkg/algorithm/predicate/namespaces_nodeselector.go:126-126 | The value list a requirement is parsed back to, for any listing order; an empty set becomes the empty value. |
| `NsSelector.CompiledMeaningIff` | pkg/algorithm/predicate/namespaces_nodeselector.go:123-160 | The compiled requirement has the intended meaning for all labels if and only if the value set is not empty. |
| `NsMeaning.StoredByLabels` | pkg/algorithm/predicate/namespaces_nodeselector.go:92-164 | By labels and values only: a node is accepted for a stored item if and only if it meets every entry of all four maps, where the empty value and the star stand for any value; without a not-match map nodes with the system label are kept off. |
| `NsMeaning.UnstoredByLabels` | pkg/algorithm/predicate/namespaces_nodeselector.go:92-106 | A namespace that is not stored, and every namespace while the text is missing or malformed, keeps off exactly the nodes with the system label. |
| `NsMeaning.ReadItems` | pkg/algorithm/predicate/namespaces_nodeselector.go:183-211 | Reading fails exactly on malformed text, gives every listed namespace an item, and changes nothing in a stored one but an absent not-match map. |
| `NsEdit.EditMap` | pkg/algorithm/predicate/namespaces_nodeselector_httpserver.go:345-370 | Add needs a new key, delete and update an existing one, each with its error; the map changes accordingly. |
| `NsEdit.EditConfig` | pkg/algorithm/predicate/namespaces_nodeselector_httpserver.go:315-407 | The handler's edit from read to new configuration, with all error cases. |
| `NsMeaning.AcceptedIff` | pkg/algorithm/predicate/namespaces_nodeselector_httpserver.go:345-402 | A request is rejected with each error exactly for an unknown operation, an unknown type, an existing key of an add, or a missing key of the others. |
| `NsMeaning.EditStores` | pkg/algorithm/predicate/namespaces_nodeselector_httpserver.go:345-404 | An accepted edit rewrites one key of one map of one item to the pieces of the value, or removes it; everything else stays as read. |
| `NsMeaning.AddByLabels` | pkg/algorithm/predicate/namespaces_nodeselector.go:108-160 | An accepted add keeps exactly the nodes accepted before that meet the requirement, by labels and pieces only; under not-match for a namespace without an item all nodes count as accepted before. |
| `NsEdit.EditsPreserveOthers` | pkg/algorithm/predicate/namespaces_nodeselector_httpserver.go:329-407 | An edit changes the accepted nodes of no other namespace although it writes default items for all listed ones. |
| `NsEdit.AddMeaning` | pkg/algorithm/predicate/namespaces_nodeselector_httpserver.go:346-352 | An add intersects the accepted nodes with the new requirement, except that a not-match key for a namespace without an item replaces the default exclusion. |
| `NsEdit.AddIntersectsIff` | pkg/algorithm/predicate/namespaces_nodeselector_httpserver.go:336-391 | Add intersects for all nodes if and only if the namespace has an item, or the map is not not-match, or the key is the exclusion itself. |
| `NsEdit.AddThenDelete` | pkg/algorithm/predicate/namespaces_nodeselector_httpserver.go:346-359 | Deleting the added key under any later listing restores the accepted nodes, with the same exception. |
| `NsEdit.UpdateIsDeleteThenAdd` | pkg/algorithm/predicate/namespaces_nodeselector_httpserver.go:360-368 | A successful update is the delete followed by the add. |
| `NsRuns.EditKeepsGuardIff` | pkg/algorithm/predicate/namespaces_nodeselector_httpserver.go:329-407 | An edit keeps the exclusion of system nodes if and only if it is not a not-match edit of the namespace that deletes the system label, gives it particular values, or writes another key for a namespace without an item. |
| `NsRuns.SystemNodesExcluded` | pkg/algorithm/predicate/namespaces_nodeselector.go:203-208 | Over every run of edits the exclusion stands at every time if and only if no edit so far gave it up, and while it stands no node with the system label is accepted. |
| `NsRuns.UnlistedNotMatchOpens` | pkg/algorithm/predicate/namespaces_nodeselector_httpserver.go:336-391 | One not-match key for an unlisted namespace opens it to system nodes. |
| `NsRuns.DeletedExclusionStaysGone` | pkg/algorithm/predicate/namespaces_nodeselector.go:204-207 | After an explicit delete the exclusion stays gone over all later reads and edits until it is added again. |
| `NsRuns.ReleasedIgnoresSystemLabel` | pkg/algorithm/predicate/namespaces_nodeselector.go:142-150 | A namespace released that way treats system nodes like others unless another of its maps names the label. |
| `NsRuns.StoredValuesStayGood` | pkg/algorithm/predicate/namespaces_nodeselector.go:215-233 | Over every run all stored value sets are non-empty and comma-free. |
| `NsCache.Shared.Get` | pkg/algorithm/predicate/namespaces_nodeselector_httpserver.go:110-127 | The package-level cache: the cached object while it is at most 5 seconds old, else a new one with the stored text, cached; an uncached empty one exactly when the cache is stale and the fetch fails (the predicate's read is the same code). |
| `NsCache.Server.GetConfigMap` | pkg/algorithm/predicate/namespaces_nodeselector_httpserver.go:129-136 | The server's cache on top: its own object while usable, else what the package-level read gives; with successful fetches within both timeouts together, within the shared one when told not to use the cache. |
| `NsCache.Server.AddUpdateOrDelete` | pkg/algorithm/predicate/namespaces_nodeselector_httpserver.go:329-418 | The base of an edit is the trusted cached text, else the stored text, else, after a failed fetch, nothing; the edit rewrites the shared object in place and the result replaces the store; a rejected edit writes nothing; a failed write leaves the unsaved edit in the cached object. |
| `NsFallback.EmptyBaseLeavesDefaults` | pkg/algorithm/predicate/namespaces_nodeselector_httpserver.go:114-123 | After an edit from an empty base another namespace has an item only if listed, the default one, and reads as the bare exclusion of system nodes. |
| `NsFallback.EmptyBaseKeepsIff` | pkg/algorithm/predicate/namespaces_nodeselector_httpserver.go:329-407 | Such an edit keeps the meaning another namespace had in the stored text if and only if its item there, if any, excludes all system nodes and restricts nothing else. |
| `NsServer.Serve` | pkg/algorithm/predicate/namespaces_nodeselector_httpserver.go:110-136 | Over every run of reads, edits and foreign writes with successful fetches and writes: every read returns a text the store held within its bound, and an edit edits the stored text and the predicate reads it, unless another client wrote within the shared timeout or the cache was out of step with the store when the run began within it. |
| `NsServer.ServedIsRun` | pkg/algorithm/predicate/namespaces_nodeselector_httpserver.go:329-418 | Without foreign writes the texts a server leaves in the store form a run of its edits, so the theorems on runs of edits hold of the server. |
| `NsServer.PredicateKeepsOff` | pkg/algorithm/predicate/namespaces_nodeselector.go:76-90 | While no edit served gives the exclusion up, no read of the predicate accepts a node with the system label. |
| `NsServer.EditAfterForeignWrite` | pkg/algorithm/predicate/namespaces_nodeselector_httpserver.go:111-113 | An edit that follows a foreign write while the cached object is trusted edits the cached text and replaces what the other client wrote. |
| `NsServer.ReadAfterFailedWrite` | pkg/algorithm/predicate/namespaces_nodeselector_httpserver.go:409-412 | After a failed write the predicate reads the unsaved edit for as long as the object read for it is trusted, then the stored text, or nothing when the fetch fails. |
| `NsServer.FailedWrite` | pkg/algorithm/predicate/namespaces_nodeselector_httpserver.go:409-412 | The package-level cache is valid after a failed write if and only if the store held the edited text since the object was read. |
| `Scoring.RawScoreMonotone` | pkg/algorithm/prioritize/hostpathpv_diskuse.go:72-77 | A node with a larger free ratio never has a smaller truncated percentage. |
| `Scoring.RawScoreIs` | pkg/algorithm/prioritize/hostpathpv_diskuse.go:58-77 | With A the sum of the declared sizes and Q the sum of the charged quotas, the raw score is the whole number n with n*A <= 100*(A-Q) < (n+1)*A when 0 < A and Q < A, and 0 otherwise. |
| `Scoring.FinalUseIs` | pkg/algorithm/prioritize/hostpathpv_diskuse.go:83-103 | The final score is the whole number n with n*M <= 10*raw < (n+1)*M for the largest raw score M, and 0 when M is 0. |
| `Scoring.SpreadScoreIs` | pkg/algorithm/prioritize/hostpathpv_spread.go:87-107 | The spread score is the whole number n with n*M <= 10*(M-count) < (n+1)*M for the largest count M, and 10 when M is 0. |
| `Scoring.MapScoringNode` | pkg/algorithm/prioritize/hostpathpv_diskuse.go:52-82 | A node's raw score from its disks and charged directories, 0 with an error when either cannot be read. |
| `Scoring.MaxCount` | pkg/algorithm/prioritize/hostpathpv_diskuse.go:84-89 | The largest score, at least 0. |
| `Scoring.ReduceUse` | pkg/algorithm/prioritize/hostpathpv_diskuse.go:83-103 | Every score is rescaled in place by the largest; hosts are kept. |
| `Scoring.ReduceSpread` | pkg/algorithm/prioritize/hostpathpv_spread.go:87-107 | Every count is rescaled in place by its distance from the largest; hosts are kept. |
| `Scoring.UseScoresKeepOrder` | pkg/algorithm/prioritize/hostpathpv_diskuse.go:72-102 | Through both truncations scores lie in 0..10, a freer node never scores lower, and the freest gets 10 when any raw score is positive. |
| `Scoring.SpreadReversesOrder` | pkg/algorithm/prioritize/hostpathpv_spread.go:87-107 | Counts map to 0..10 in reversed order; a node without pods gets 10 and the fullest 0 when any has pods. |
| `Scoring.InterleavingIrrelevant` | pkg/algorithm/prioritize/hostpathpv_diskuse.go:117-123 | For every schedule of the tasks' actions the finished list is the sequential one and each failed node is reported once. |
| `Scoring.RunToEnd` | pkg/algorithm/prioritize/hostpathpv_diskuse.go:111-123 | Running the tasks in place in any order ends with the sequential list. |
| `Scoring.NodesScoring` | pkg/algorithm/prioritize/hostpathpv_diskuse.go:105-133 | From disks and charged directories, for every interleaving: the unscaled list and a failure when a node cannot be read, else every node's final score. |
| `Scoring.NodesKeepOrder` | pkg/algorithm/prioritize/hostpathpv_diskuse.go:52-103 | From disks and charged directories to final scores: a node with a larger free ratio never scores lower. |

## Left out

- JSON text of annotations and of the stored configuration: the decoded value, with an unreadable case, stands for it; absent and empty label maps stay apart.
- `path.Clean`: any function from paths to paths.
- `labels.Parse`: requirements are modelled by meaning and only the comma-separated value list as text, so keys and values are taken to be valid label syntax.
- `sort.Sort`: an insertion sort on the array stands for it; `DiskPressure.SortedSizes` shows that the algorithm does not matter to the decision.
- The driver-name test that recognises CSI hostpath volumes: a kind of volume stands for it.
- Floating point in scores: exact rationals with truncation, so the bits of a score at a representable boundary are not claimed.
- 64-bit wrap-around of sizes, and negative annotated capacities except in `Packing.GreedyExactIff`.
- The raw count of the spread priority: a sum of the pod maps of `HostPathPV.GetHostPathPVUsedPodMap`; only its rescaling is modelled.
- `SetHostpathPVCapacity`, and the fields of a mount record that no decision reads (current size, file count, pod).
- The extra fetch of a pod whose node name is empty, and failures of listers.
- HTTP routing, form values, authentication, TLS, the read-only handlers and their output, and the pod deletion of the refresh handler.
- A stored ConfigMap without any data map, on which the edit handler stops with a runtime error.
- Several edit servers sharing the package-level cache, and requests served concurrently: requests are served one after the other.
- The time a fetch takes: fetch and timestamp of a cached object are one instant.
- Informer start-up, registration of predicates and priorities, and the filter loop around a predicate.
- Volume-independent predicates of Kubernetes itself, and a scheduler that binds on stale pod listings.
- OvercommitRuns.NoOvercommit: a directory that the accounting does not reserve is recorded only where there is room, because `OvercommitLimits.FirstRecordOvercommits` and `OvercommitLimits.LeftoverOvercommits` show that acceptance alone does not ensure it; runs have no change of a volume's capacity, policy or claim while it has an entry on the node, and no change of the node's disks.
- AffinityRuns.NoDirectoryLeak: counts the directories of a volume's first entry per node, the only one the program reads.
