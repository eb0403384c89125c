# libvirt exporter: a verified model of its bookkeeping

The exporter reads statistics of libvirt domains (virtual machines) and
publishes them as Prometheus gauges labelled with domain, device, instance
uuid and OpenStack tenant. This project models the state the exporter keeps
between scrapes and proves what each step does to it. That state is:

- the two tenant caches, instance uuid to tenant id and instance uuid to
  tenant name, with their bulk refresh, their lazy refill and the two
  resolvers that give up after three attempts (module `Tenants`, class
  `TenantCache`);
- metric extraction, which turns a domain's raw statistics into metric
  collections. cpu and memory give one dimension per metric; disk and
  interface give one dimension per target device (module `Collections`);
- publishing a collection into the gauge registry `g_dict` and the
  stale-series tracker `dom_list` (module `Registry`, as functions on values);
- the reconciliation cycle of `job` (module `Cycle`, as functions on values);
- the class `Exporter`, holding `g_dict` and `dom_list` as fields. Its methods
  `AddMetrics` and `Job` do the work in loops and are proved equal to the
  functions above (module `Exporter`, which also holds `GetDomains`).

A gauge is a map from label-value tuples to values. A tuple is written in
label order, since the source passes `.values()` positionally. The tracker
maps a domain name and a series name to one label tuple. A label value is
`Option<string>`: a tenant label whose resolver gave up holds `None`.

The tracker behaves as written, not as an ideal design would. For each domain
and series it keeps only the tuple of the LAST dimension set (the overwrites
at lines 266 and 272). The retirement properties are therefore stated against
what is tracked:

- `CycleRetires`: every tracked tuple of a domain that is no longer
  enumerated is removed.
- `CycleKeepsUntracked`: nothing else is removed.
- `EarlierDeviceOutlivesDomain`: for a domain with two or more disks or
  interfaces, the series of every device but the last survive the domain.
- `CycleOrphansInactive`: a domain that is enumerated but found inactive
  when the rebuild reaches it loses its tracker entry while its series stay
  registered.
- `FailedGroupOutlivesDomain`: a domain that is active but has every group
  fail in its last cycle keeps the series of its previous cycle after it
  disappears.
- `ChangedTupleOutlivesDomain`: a series whose label tuple the domain no
  longer records after a cycle survives the domain.
- `CycleStable`: a second cycle over the same enumeration and statistics
  leaves the state exactly as the first one left it.

## Design versus code

The exporter's design promises that stale series stay only until the
instance is reconciled away. In four ways the code does not keep that
promise. The model follows the code.

- The design promises that every series an instance published is removed
  once the instance disappears. The code tracks one tuple per domain and
  series, the last one set. For a domain with two or more disks or
  interfaces, every device but the last keeps its series after the domain
  is gone (`EarlierDeviceOutlivesDomain`).
- The design expects the records of stopped instances to survive clearing
  so that their series get removed. The enumeration (`listDomainsID`, line
  135) lists running domains only, so a domain already stopped when it runs
  is not enumerated, its record is not cleared, and its series are removed
  (`CycleRetires`). The gap is a domain that is listed and then stops before
  the `isActive()` test at line 299: the code has already cleared its
  record (lines 284-286) and does not rebuild it, so its series stay
  registered with no record left to remove them (`CycleOrphansInactive`).
- A domain that is enumerated and active, but whose groups fail in its last
  cycle (a statistics call raising while it shuts down, or a tenant lookup
  raising, which fails every group), has its record cleared at lines
  284-286. The failing groups record nothing (lines 303-307). The series
  of its previous cycle stay registered, and once the domain is no longer
  enumerated nothing tracked removes them (`FailedGroupOutlivesDomain`).
- A domain that is enumerated and active, but whose label tuple for a
  series changes between cycles, leaves the old series behind. The tuple
  can change when its tenant labels resolve differently after a refill, a
  disk or interface is detached or swapped, or a statistics key disappears.
  Its record is cleared at lines 284-286, so the old tuple is not removed.
  The new cycle records only the new tuple at lines 266 and 272, so the old
  series is never tracked again and survives the domain
  (`ChangedTupleOutlivesDomain`).

The design also promises that remote failures stay contained. The tenant
refresh does not keep that promise: `update_tenant` (lines 314-318) catches
nothing. A raising server listing (lines 68 and 89) or project lookup
(line 92) escapes the first call at line 329, or `scheduler.run()` at line
331 for later calls, and ends the exporter.

## Model

| member | source | states |
|---|---|---|
| Tenants.FillExact | libvirt_exporter.py:65-71 | a cache filled from a listing holds exactly the listed instance ids; each holds the value of the last listing entry for that id |
| Tenants.IdCacheExact | libvirt_exporter.py:63-71 | after a bulk refill the id cache holds exactly the listed instance ids, each with the `tenant_id` of the last listing entry for that id |
| Tenants.NameCacheExact | libvirt_exporter.py:84-93 | after a complete bulk refill the name cache holds exactly the listed instance ids, each with the project name of the last listing entry for that id |
| Tenants.ResolveBounded | libvirt_exporter.py:97-119 | at most three lookups; each lookup is issued only while the uuid is missing from the cache as refilled so far, so the resolver stops at the first hit; the cache left is the old one refilled by the lookups issued; a resolved value is what the cache holds and is found before the attempts run out; giving up (`None`) happens only after the third lookup; a raising lookup is the last one |
| Tenants.ResolveTouchesOnlyReplies | libvirt_exporter.py:55-59 | lazy refill only inserts or overwrites the keys the lookups returned; every other entry keeps its value and no other key appears |
| Tenants.LazyRefillResolves | libvirt_exporter.py:100-106 | a miss that the first lookup refills is answered on the second attempt, after exactly one lookup |
| Tenants.ThirdLookupNeverRead | libvirt_exporter.py:99-107 | when the third lookup brings the uuid, the resolver still answers `None`, with the uuid now cached |
| Tenants.TenantCache.constructor | libvirt_exporter.py:52-53 | both caches start empty |
| Tenants.TenantCache.AddTenant | libvirt_exporter.py:55-59 | one lookup inserts or overwrites the single entry `server.id`; a raising lookup changes nothing |
| Tenants.TenantCache.UpdateTenants | libvirt_exporter.py:63-71 | after the refresh the id cache is exactly the listing's entries; nothing from before survives |
| Tenants.TenantCache.AddTenantName | libvirt_exporter.py:75-80 | one lookup pair inserts or overwrites the single entry `server.id` with the project name; a raising lookup changes nothing |
| Tenants.TenantCache.UpdateTenantNames | libvirt_exporter.py:84-93 | after a full refresh the name cache is exactly the listing's name entries; a raising project lookup leaves the entries of the instances before it |
| Tenants.TenantCache.RefreshAll | libvirt_exporter.py:314-317 | the id cache is refilled exactly from its listing; the name cache too when no project lookup raises, and otherwise holds the entries of the instances before the first raising one |
| Tenants.TenantCache.GetTenant | libvirt_exporter.py:97-107 | equals `ResolveFrom` over the id cache; a cached uuid is answered with no lookup; at most three lookups; a resolved value is in the cache |
| Tenants.TenantCache.GetTenantName | libvirt_exporter.py:109-119 | the same for the name cache: equals `ResolveFrom` over it, with the id cache unchanged |
| Collections.MetricNameInjective | libvirt_exporter.py:208-253 | a series name starts with its group's prefix; two groups or two metric names never share a series name |
| Collections.SingleDim | libvirt_exporter.py:150-165 | exactly one dimension per metric name, holding that name's statistic with the shared labels; fails exactly when a name has no statistic |
| Collections.ZipAt | libvirt_exporter.py:195 | with distinct names, `dict(zip(...))` maps the i-th name to the i-th value exactly when there is one |
| Collections.ZipAbsent | libvirt_exporter.py:195 | a name outside the list is not a key of the zipped dictionary |
| Collections.DeviceDims | libvirt_exporter.py:180-197 | one dimension per target, in target order, labelled with that target; fails exactly when a target has no value for the metric |
| Collections.MultiDim | libvirt_exporter.py:178-199 | the metrics in order, each with its device dimensions; fails exactly when some target lacks some metric |
| Collections.FanOut | libvirt_exporter.py:178-199 | with distinct names: succeeds exactly when every target has at least as many statistics as names; then metric i has one dimension per target, holding the target's i-th statistic |
| Collections.GroupLabelled | libvirt_exporter.py:154-185 | every dimension of a group carries the fixed ordered label set: `domain, uuid, project_id, project_name`, with `target_device` second for devices |
| Collections.SingleDimGroups | libvirt_exporter.py:206-219 | the header dispatch `GroupCollection` for cpu and memory: cpu reads the first per-cpu dictionary and memory the snapshot; one dimension per key; a cpu answer without a dictionary fails |
| Collections.WellFormedGroupsSucceed | libvirt_exporter.py:150-165 | on a statistics dictionary whose keys are distinct and exactly its contents' keys, the cpu and memory groups never fail and their metric names are distinct |
| Collections.BlockFanOut | libvirt_exporter.py:187-195 | `GroupCollection` for the disk group: each of the nine disk metrics has one dimension per disk; metric i reads the i-th entry of the block statistics followed by the four flag statistics |
| Collections.InterfaceFanOut | libvirt_exporter.py:237-249 | `GroupCollection` for the interface group: each of the eight interface metrics has one dimension per interface, reading the interface's i-th statistic |
| Registry.SetAllFrame | libvirt_exporter.py:262-272 | only gauge `name` and tracker entry `(dom, name)` change; the tracker ends up holding the LAST dimension's label values |
| Registry.SetAllKeys | libvirt_exporter.py:262-272 | the gauge gains exactly the keys of the dimensions |
| Registry.SetAllValues | libvirt_exporter.py:262-272 | each key holds the value of the last dimension carrying it; keys of no dimension keep their values |
| Registry.PublishMetricEffect | libvirt_exporter.py:256-272 | create-once gauges: fails exactly for a new name with no dimension; an existing gauge keeps its label names; a new gauge takes the first dimension's names; every dimension's key is set; other gauges are unchanged |
| Registry.PublishMetricGrows | libvirt_exporter.py:256-272 | publishing removes no gauge and no series key |
| Registry.PublishMetricExtends | libvirt_exporter.py:256-272 | publishing for a domain adds only keys led by that domain and changes only that domain's tracker entry, with registered tuples |
| Registry.PublishStops | libvirt_exporter.py:252-273 | once a metric raises, the rest of the collection is not published |
| Registry.PublishExtends | libvirt_exporter.py:252-273 | a group publishes only keys and tracker entries of its own domain |
| Registry.PublishComplete | libvirt_exporter.py:252-273 | when every metric has a dimension, publishing succeeds and every dimension is registered under its series name |
| Cycle.GroupsExtend | libvirt_exporter.py:303-307 | the groups of a domain add only that domain's keys and change only its tracker entry |
| Cycle.PublishGroupExtends | libvirt_exporter.py:304-307 | the same for one group, whether it fails or not |
| Cycle.CollectIsSafe | libvirt_exporter.py:297-307 | rebuilding removes nothing; new keys are led by an active enumerated domain; the tracker gains exactly the active names; the invariant holds |
| Cycle.CycleTracker | libvirt_exporter.py:284-307 | after a cycle the tracker's keys are exactly the enumerated active domains, and every tracked tuple is registered and led by its domain |
| Cycle.CycleRetires | libvirt_exporter.py:284-292 | every tuple tracked for a domain absent from the enumeration is gone from its gauge |
| Cycle.CycleKeepsUntracked | libvirt_exporter.py:284-292 | removals hit only tuples tracked for absent domains; every other series survives the cycle |
| Cycle.CycleOrphansInactive | libvirt_exporter.py:284-301 | an enumerated but inactive domain leaves the tracker while its series stay registered |
| Cycle.EarlierDeviceOutlivesDomain | libvirt_exporter.py:262-290 | only the last device is tracked, so the first device's series survives a cycle without its domain |
| Cycle.FailedGroupOutlivesDomain | libvirt_exporter.py:284-307 | an active domain whose groups all fail is left with an empty record while its previous series stay; a later cycle without the domain still keeps them |
| Cycle.ChangedTupleOutlivesDomain | libvirt_exporter.py:262-290 | a series tracked for an enumerated domain survives the cycle; if the cycle does not record the same tuple for it again, it also survives a later cycle without the domain |
| Cycle.KeptUntracked | libvirt_exporter.py:284-292 | a series of a domain that the domain does not track is tracked by no one and survives any cycle |
| Cycle.GroupsPublish | libvirt_exporter.py:303-307 | a group whose metrics all have dimensions is fully registered, whatever the other groups of the domain do |
| Cycle.CollectPublishes | libvirt_exporter.py:297-307 | the same across domains: one domain's failures do not affect another's |
| Cycle.CyclePublishes | libvirt_exporter.py:284-307 | failure isolation over a whole cycle: each such group of each active domain is fully registered afterwards |
| Stability.CycleStable | libvirt_exporter.py:284-307 | a second cycle over the same enumeration and statistics leaves the same state: the same series with the same values, and the same tracker |
| Stability.ApplyAt | libvirt_exporter.py:256-272 | after a batch of sets, a series exists when it did or is set; an existing gauge keeps its label names; a key holds the last value set at it, or its old value |
| Stability.ApplyTwice | libvirt_exporter.py:256-272 | repeating a batch of sets changes nothing |
| Stability.GroupUniform | libvirt_exporter.py:150-199 | the metrics of a group all have one dimension (cpu, memory) or one per target (disk, interface), so either every metric has one or none has |
| Stability.PublishGroupEffect | libvirt_exporter.py:204-273 | publishing a group applies its sets to the gauges, raising or not; the tracker it leaves depends on the tracker alone |
| Stability.CollectEffect | libvirt_exporter.py:297-307 | the rebuild applies the sets of every active domain's groups in turn; the tracker it leaves depends on the tracker alone |
| Exporter.GetDomains | libvirt_exporter.py:131-147 | `None` exactly when no domain is listed; otherwise the handles in the order of the id listing |
| Exporter.RemovalHitsRegistered | libvirt_exporter.py:288-290 | under the invariant, each tuple about to be removed is still a series of its gauge |
| Exporter.Exporter.constructor | libvirt_exporter.py:324-325 | empty registry and tracker, invariant established |
| Exporter.Exporter.AddMetrics | libvirt_exporter.py:204-273 | the new state and the success flag are those of `PublishGroup` |
| Exporter.Exporter.PublishCollection | libvirt_exporter.py:252-273 | the metric loop equals `Publish`, stopping at the first raise |
| Exporter.Exporter.AddMetric | libvirt_exporter.py:253-272 | one metric equals `PublishMetric`; a raise changes nothing |
| Exporter.Exporter.SetDimensions | libvirt_exporter.py:262-272 | the dimension loop equals `SetAll` |
| Exporter.Exporter.Job | libvirt_exporter.py:284-307 | the new state is `RunCycle` of the old one, and the tracker invariant holds |
| Exporter.Exporter.ClearTracked | libvirt_exporter.py:284-286 | the entries of the enumerated domains are emptied; nothing else changes |
| Exporter.Exporter.RemoveTracked | libvirt_exporter.py:288-290 | every tracked tuple is removed from its gauge; the tracker is unchanged |
| Exporter.Exporter.PublishAll | libvirt_exporter.py:297-307 | the rebuild loop equals `Collect` |
| Exporter.Exporter.PublishDomain | libvirt_exporter.py:299-307 | a fresh tracker entry, then the four groups in order, as `Groups` |

## Left out

- Argument parsing, credential loading and the keystone and nova session setup (lines 18-49): configuration, with no state to specify.
- HTTP exposition and the internals of `prometheus_client.Gauge`: a gauge is a map from label tuples to values. `remove` of an absent tuple is a no-op here. Under the class invariant every removed tuple is present (`RemovalHitsRegistered`), so the choice does not matter. Label values are keys as `Option` values; their rendering with `str()` is not modelled.
- The libvirt connection, the statistics calls and the XML descriptor parsing: their answers are fields of `Domain`. A statistics call that raises is an absent answer.
- Repeated statistics calls: the source calls `blockStats` and `blockStatsFlags`, and `interfaceStats`, once per metric and target (lines 178-194), so each disk is read nine times and each interface eight times. The model keeps one reading per target, so `FanOut`, `BlockFanOut` and `InterfaceFanOut` assume every call on a target returns the same answer. Readings that change between calls, or a call that raises for one metric but not another, are not modelled.
- A raising tenant refresh: `update_tenant` (lines 314-318) catches nothing. A server listing (lines 68 and 89) or project lookup (line 92) that raises therefore ends the exporter. `RefreshAll` returns the state at that point, but nothing models the process ending. A raising listing, which would leave a cleared cache behind (lines 65 and 86), is not modelled: the listings are plain sequences.
- A raising `dom.isActive()`: the call at line 299 is outside the `try`, so a raise there ends `job` and with it the scheduled cycles. `Domain.active` is a plain boolean, so the model does not capture that crash.
- The `sched` scheduler, the re-entry intervals and the `time.sleep` loop that waits for a non-empty enumeration: `Job` takes one non-empty enumeration.
- All `print` logging.
- `GetDomains`: the lookup-failure branch at line 139 is not modelled, because it would itself crash on `dom.name()`. Every listed id is required to have a handle.
- Tenant labels: each `Domain` carries the two resolver answers once. The source resolves them separately for the cpu group and for the memory group (lines 155-156), and again for every device dimension of the disk and interface groups (lines 184-185). The answers can differ between calls through lazy refills. One domain's cpu and memory series can then carry different tenant labels: after a case like `ThirdLookupNeverRead`, the first call answers `None` and the next one answers from the cache.
- A resolver whose remote lookup raises (`LookupFailed`) ends the group in the source, since the exception escapes to the `except` at line 306. In the extraction model a domain's tenant labels are given values, so that failure shows only as the group failing.
- The registry is keyed by `seq<Option<string>>` rather than by plain strings, so that a `None` tenant label is kept apart from a string.
- Metric iteration order: `for mn in metrics_collection` iterates a Python 2 dictionary, whose order is unspecified. The model takes the order of the metric names. This matters only for where a failing group stops.
- Label order: the labels of a dimension are Python 2 dictionaries (lines 154-185), iterated in hash order, not insertion order. `.keys()` (line 259) and `.values()` (lines 264 and 270) agree with each other, so the model's insertion-order tuples are a consistent renumbering of positions. The statements that the domain label comes first and `target_device` second, and that tracked tuples lead with the domain (`Consistent`, `GroupLabelled`), describe the model's layout, not the positions the program uses.
- `StatDict` holds a key sequence and a map independently, so it can also represent a repeated key or a key without a value, which a Python dict cannot. `SingleDim` fails on the latter. `WellFormedGroupsSucceed` shows that on dictionaries shaped as Python builds them, the cpu and memory groups never fail.
- A gauge created with one label set and later set with a different number of labels would raise in `prometheus_client`. Every group has a fixed label set (`GroupLabelled`) and series names never cross groups (`MetricNameInjective`), so this cannot happen and is not modelled.
