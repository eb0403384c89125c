/** Metric extraction: turning the raw statistics of one domain into metric
    collections, each metric name mapped to its dimensions, a dimension being
    a value and the ordered label set it is published under. */
module Collections {
  import opened Common

  /** The tenant labels of a domain, as the two resolvers returned them. */
  datatype Tenant = Tenant(projectId: Option<string>, projectName: Option<string>)

  /** One value and the ordered labels it is published under. */
  datatype Dimension = Dimension(value: int, labels: seq<Label>)

  /** `metrics_collection`: each metric name with its dimensions, in the
      order the names are iterated. */
  type Collection = seq<(string, seq<Dimension>)>

  /** A statistics dictionary: its keys in iteration order and its contents. */
  datatype StatDict = StatDict(keys: seq<string>, values: map<string, int>)

  /** What `blockStats` and `blockStatsFlags` report for one disk target. */
  datatype DiskReading = DiskReading(block: seq<int>, flags: map<string, int>)

  /** One domain as a cycle sees it: identity, state, tenant labels and the
      answers of its statistics calls (None for a call that raised). Targets
      are the `dev` attributes of the descriptor's disk and interface targets;
      a target missing from `diskStats` or `nicStats` is one whose call raised. */
  datatype Domain = Domain(
    name: string,
    uuid: string,
    active: bool,
    tenant: Tenant,
    cpuStats: Option<seq<StatDict>>,
    memStats: Option<StatDict>,
    disks: seq<string>,
    diskStats: map<string, DiskReading>,
    nics: seq<string>,
    nicStats: map<string, seq<int>>)

  /** The four metric groups, each with its fixed name prefix. */
  datatype Header = Cpu | Memory | Block | Interface

  const Headers: seq<Header> := [Cpu, Memory, Block, Interface]

  function Prefix(h: Header): string
  {
    match h
    case Cpu => "libvirt_cpu_stats_"
    case Memory => "libvirt_mem_stats_"
    case Block => "libvirt_block_stats_"
    case Interface => "libvirt_interface_"
  }

  function Unit(h: Header): string
  {
    if h == Cpu then "_nanosecs" else ""
  }

  /** The full series name of metric `mn` of group `h`. */
  function MetricName(h: Header, mn: string): string
  {
    Prefix(h) + mn + Unit(h)
  }

  /** Series names start with the group's prefix, and distinct groups or
      metric names never share a series name. */
  lemma MetricNameInjective(h1: Header, a: string, h2: Header, b: string)
    ensures MetricName(h1, a)[..|Prefix(h1)|] == Prefix(h1)
    ensures MetricName(h1, a) == MetricName(h2, b) <==> h1 == h2 && a == b
  {
    var s := MetricName(h1, a);
    assert s[..|Prefix(h1)|] == Prefix(h1);
    if s == MetricName(h2, b) {
      assert s[8] == Prefix(h1)[8] && s[8] == Prefix(h2)[8];
      assert h1 == h2;
      var p, u := |Prefix(h1)|, |Unit(h1)|;
      assert s[p..|s| - u] == a;
      assert MetricName(h2, b)[p..|s| - u] == b;
    }
  }

  const BlockMetricNames: seq<string> := [
    "read_requests_issued", "read_bytes", "write_requests_issued", "write_bytes",
    "errors_number", "writes_total_time", "reads_total_time", "flush_total_times",
    "flush_operations"]

  const InterfaceMetricNames: seq<string> := [
    "read_bytes", "read_packets", "read_errors", "read_drops",
    "write_bytes", "write_packets", "write_errors", "write_drops"]

  /** The keys appended, in this order, to a disk's basic block statistics. */
  const FlagKeys: seq<string> := ["wr_total_times", "rd_total_times", "flush_total_times", "flush_operations"]

  predicate Distinct(names: seq<string>)
  {
    forall a, b :: 0 <= a < b < |names| ==> names[a] != names[b]
  }

  /** Labels of the single-dimension groups. */
  function BaseLabels(domain: string, uuid: string, tenant: Tenant): seq<Label>
  {
    [Label("domain", Some(domain)), Label("uuid", Some(uuid)),
     Label("project_id", tenant.projectId), Label("project_name", tenant.projectName)]
  }

  /** Labels of one device's dimension in the multi-dimension groups. */
  function DeviceLabels(domain: string, target: string, uuid: string, tenant: Tenant): seq<Label>
  {
    [Label("domain", Some(domain)), Label("target_device", Some(target)), Label("uuid", Some(uuid)),
     Label("project_id", tenant.projectId), Label("project_name", tenant.projectName)]
  }

  /** `get_metrics_collections`: one dimension per metric name, all sharing
      `labels`; a name missing from the statistics raises (None). */
  function SingleDim(labels: seq<Label>, names: seq<string>, stats: map<string, int>): (r: Option<Collection>)
    ensures r.Some? <==> forall i :: 0 <= i < |names| ==> names[i] in stats
    ensures r.Some? ==>
      |r.value| == |names| &&
      forall i :: 0 <= i < |names| ==> r.value[i] == (names[i], [Dimension(stats[names[i]], labels)])
    decreases |names|
  {
    if names == [] then Some([])
    else
      var init := names[..|names| - 1];
      var mn := names[|names| - 1];
      match SingleDim(labels, init, stats)
      case None => None
      case Some(c) => if mn in stats then Some(c + [(mn, [Dimension(stats[mn], labels)])]) else None
  }

  /** `dict(zip(names, values))`: pairs up to the shorter of the two, a later
      pair overwriting an earlier one with the same name. */
  function Zip(names: seq<string>, values: seq<int>): map<string, int>
    decreases |names|
  {
    if names == [] || values == [] then map[]
    else map[names[0] := values[0]] + Zip(names[1..], values[1..])
  }

  /** With distinct names, the i-th name reads the i-th value, and is present
      exactly when there is an i-th value. */
  lemma {:induction false} ZipAt(names: seq<string>, values: seq<int>, i: nat)
    requires Distinct(names) && i < |names|
    ensures names[i] in Zip(names, values) <==> i < |values|
    ensures i < |values| ==> Zip(names, values)[names[i]] == values[i]
    decreases |names|
  {
    if values != [] {
      if i == 0 {
        ZipAbsent(names[1..], values[1..], names[0]);
      } else {
        assert names[1..][i - 1] == names[i];
        ZipAt(names[1..], values[1..], i - 1);
      }
    }
  }

  /** A name that is not among `names` is not a key of the zipped dictionary. */
  lemma {:induction false} ZipAbsent(names: seq<string>, values: seq<int>, name: string)
    requires name !in names
    ensures name !in Zip(names, values)
    decreases |names|
  {
    if names != [] && values != [] {
      ZipAbsent(names[1..], values[1..], name);
    }
  }

  /** The dimensions of metric `mn` over `targets`: for each target, the value
      of `mn` in its zipped statistics, labelled with the target. A target with
      no statistics or without a value for `mn` raises (None). */
  function DeviceDims(
    domain: string, uuid: string, tenant: Tenant, names: seq<string>, mn: string,
    targets: seq<string>, vectors: map<string, seq<int>>): (r: Option<seq<Dimension>>)
    ensures r.Some? <==>
      forall j :: 0 <= j < |targets| ==> targets[j] in vectors && mn in Zip(names, vectors[targets[j]])
    ensures r.Some? ==>
      |r.value| == |targets| &&
      forall j :: 0 <= j < |targets| ==>
        r.value[j] == Dimension(Zip(names, vectors[targets[j]])[mn], DeviceLabels(domain, targets[j], uuid, tenant))
    decreases |targets|
  {
    if targets == [] then Some([])
    else
      var t := targets[|targets| - 1];
      match DeviceDims(domain, uuid, tenant, names, mn, targets[..|targets| - 1], vectors)
      case None => None
      case Some(ds) =>
        if t in vectors && mn in Zip(names, vectors[t]) then
          Some(ds + [Dimension(Zip(names, vectors[t])[mn], DeviceLabels(domain, t, uuid, tenant))])
        else None
  }

  /** `get_metrics_multidim_collections` over the first `upto` metric names:
      for each name, one dimension per target. */
  function MultiDim(
    domain: string, uuid: string, tenant: Tenant, names: seq<string>, upto: nat,
    targets: seq<string>, vectors: map<string, seq<int>>): (r: Option<Collection>)
    requires upto <= |names|
    ensures r.Some? <==>
      forall i, j :: 0 <= i < upto && 0 <= j < |targets| ==>
        targets[j] in vectors && names[i] in Zip(names, vectors[targets[j]])
    ensures r.Some? ==>
      |r.value| == upto &&
      forall i :: 0 <= i < upto ==>
        r.value[i].0 == names[i] &&
        Some(r.value[i].1) == DeviceDims(domain, uuid, tenant, names, names[i], targets, vectors)
    decreases upto
  {
    if upto == 0 then Some([])
    else
      var mn := names[upto - 1];
      match MultiDim(domain, uuid, tenant, names, upto - 1, targets, vectors)
      case None => None
      case Some(c) =>
        match DeviceDims(domain, uuid, tenant, names, mn, targets, vectors)
        case None => None
        case Some(ds) => Some(c + [(mn, ds)])
  }

  /** Multi-dimension fan-out: with distinct metric names the collection
      exists exactly when every target has statistics covering every name;
      then metric i has one dimension per target, in target order, holding
      the target's i-th statistic and labelled with that target. */
  lemma FanOut(
    domain: string, uuid: string, tenant: Tenant, names: seq<string>,
    targets: seq<string>, vectors: map<string, seq<int>>)
    requires Distinct(names) && names != []
    ensures var r := MultiDim(domain, uuid, tenant, names, |names|, targets, vectors);
      && (r.Some? <==> forall j :: 0 <= j < |targets| ==> targets[j] in vectors && |names| <= |vectors[targets[j]]|)
      && (r.Some? ==>
            |r.value| == |names| &&
            forall i :: 0 <= i < |names| ==>
              r.value[i].0 == names[i] && |r.value[i].1| == |targets| &&
              forall j :: 0 <= j < |targets| ==>
                r.value[i].1[j] == Dimension(vectors[targets[j]][i], DeviceLabels(domain, targets[j], uuid, tenant)))
  {
    var r := MultiDim(domain, uuid, tenant, names, |names|, targets, vectors);
    forall i, j | 0 <= i < |names| && 0 <= j < |targets| && targets[j] in vectors
      ensures names[i] in Zip(names, vectors[targets[j]]) <==> i < |vectors[targets[j]]|
      ensures i < |vectors[targets[j]]| ==> Zip(names, vectors[targets[j]])[names[i]] == vectors[targets[j]][i]
    {
      ZipAt(names, vectors[targets[j]], i);
    }
    if !r.Some? {
      var i, j :| 0 <= i < |names| && 0 <= j < |targets| &&
        !(targets[j] in vectors && names[i] in Zip(names, vectors[targets[j]]));
      assert !(targets[j] in vectors && |names| <= |vectors[targets[j]]|);
    } else {
      forall j | 0 <= j < |targets|
        ensures targets[j] in vectors && |names| <= |vectors[targets[j]]|
      {
        assert names[|names| - 1] in Zip(names, vectors[targets[j]]);
      }
    }
  }

  /** A disk's statistics: the basic block statistics followed by the four
      flag statistics; a missing flag raises (None). */
  function DiskVector(r: DiskReading): Option<seq<int>>
  {
    if forall k :: k in FlagKeys ==> k in r.flags then
      Some(r.block + [r.flags[FlagKeys[0]], r.flags[FlagKeys[1]], r.flags[FlagKeys[2]], r.flags[FlagKeys[3]]])
    else None
  }

  /** The statistics vector of every disk target whose calls succeed. */
  function DiskVectors(stats: map<string, DiskReading>): map<string, seq<int>>
  {
    map t | t in stats && DiskVector(stats[t]).Some? :: DiskVector(stats[t]).value
  }

  /** The collection of group `h` for domain `dom`, as `add_metrics` computes
      it before publishing; None when any call or lookup on the way raises. */
  function GroupCollection(dom: Domain, h: Header): Option<Collection>
  {
    var base := BaseLabels(dom.name, dom.uuid, dom.tenant);
    match h
    case Cpu =>
      (match dom.cpuStats
       case None => None
       case Some(cpus) => if cpus == [] then None else SingleDim(base, cpus[0].keys, cpus[0].values))
    case Memory =>
      (match dom.memStats
       case None => None
       case Some(d) => SingleDim(base, d.keys, d.values))
    case Block =>
      MultiDim(dom.name, dom.uuid, dom.tenant, BlockMetricNames, |BlockMetricNames|, dom.disks, DiskVectors(dom.diskStats))
    case Interface =>
      MultiDim(dom.name, dom.uuid, dom.tenant, InterfaceMetricNames, |InterfaceMetricNames|, dom.nics, dom.nicStats)
  }

  /** The label names every dimension of group `h` carries, in order. */
  function GroupLabelNames(h: Header): seq<string>
  {
    if h == Cpu || h == Memory then ["domain", "uuid", "project_id", "project_name"]
    else ["domain", "target_device", "uuid", "project_id", "project_name"]
  }

  /** Every dimension a collection holds leads with the domain label of `domain`. */
  predicate LeadsWith(c: Collection, domain: string)
  {
    forall i, j :: 0 <= i < |c| && 0 <= j < |c[i].1| ==>
      |c[i].1[j].labels| > 0 && c[i].1[j].labels[0] == Label("domain", Some(domain))
  }

  /** ... and every dimension carries the label names `labelNames`. */
  predicate Labelled(c: Collection, domain: string, labelNames: seq<string>)
  {
    && LeadsWith(c, domain)
    && forall i, j :: 0 <= i < |c| && 0 <= j < |c[i].1| ==> Names(c[i].1[j].labels) == labelNames
  }

  /** Every group's dimensions carry the group's fixed, ordered label set,
      led by the domain's name. */
  lemma GroupLabelled(dom: Domain, h: Header)
    ensures GroupCollection(dom, h).Some? ==> Labelled(GroupCollection(dom, h).value, dom.name, GroupLabelNames(h))
  {
    var base := BaseLabels(dom.name, dom.uuid, dom.tenant);
    assert Names(base) == GroupLabelNames(Cpu);
    forall t ensures Names(DeviceLabels(dom.name, t, dom.uuid, dom.tenant)) == GroupLabelNames(Block) {
    }
  }

  /** The single-dimension groups: cpu reads the first per-cpu dictionary,
      memory the snapshot; each key becomes exactly one dimension with the
      base labels. A cpu answer with no dictionary raises. */
  lemma SingleDimGroups(dom: Domain)
    ensures dom.cpuStats.Some? && dom.cpuStats.value != [] ==>
      var d := dom.cpuStats.value[0];
      GroupCollection(dom, Cpu) == SingleDim(BaseLabels(dom.name, dom.uuid, dom.tenant), d.keys, d.values)
    ensures (dom.cpuStats.None? || dom.cpuStats.value == []) ==> GroupCollection(dom, Cpu).None?
    ensures dom.memStats.None? ==> GroupCollection(dom, Memory).None?
    ensures GroupCollection(dom, Memory).Some? ==>
      var d := dom.memStats.value;
      var c := GroupCollection(dom, Memory).value;
      |c| == |d.keys| &&
      forall i :: 0 <= i < |d.keys| ==>
        c[i] == (d.keys[i], [Dimension(d.values[d.keys[i]], BaseLabels(dom.name, dom.uuid, dom.tenant))])
  {
  }

  /** A statistics dictionary as a Python dict is: its keys are distinct and
      are exactly the keys of its contents. */
  predicate WellFormedStats(d: StatDict)
  {
    && Distinct(d.keys)
    && (forall k :: k in d.values ==> k in d.keys)
    && (forall i :: 0 <= i < |d.keys| ==> d.keys[i] in d.values)
  }

  /** On well-formed dictionaries the cpu and memory groups never raise on a
      key lookup, and their metric names are pairwise distinct. */
  lemma WellFormedGroupsSucceed(dom: Domain, h: Header)
    requires h == Cpu ==> dom.cpuStats.Some? && dom.cpuStats.value != [] && WellFormedStats(dom.cpuStats.value[0])
    requires h == Memory ==> dom.memStats.Some? && WellFormedStats(dom.memStats.value)
    requires h == Cpu || h == Memory
    ensures GroupCollection(dom, h).Some?
    ensures var c := GroupCollection(dom, h).value;
      forall a, b :: 0 <= a < b < |c| ==> c[a].0 != c[b].0
  {
  }

  /** The block group: one dimension per disk target for each of the nine
      names, metric i reading the i-th entry of the basic statistics followed
      by the four flag statistics. */
  lemma BlockFanOut(dom: Domain)
    ensures var r := GroupCollection(dom, Block);
      && (r.Some? <==>
            forall j :: 0 <= j < |dom.disks| ==>
              dom.disks[j] in dom.diskStats && DiskVector(dom.diskStats[dom.disks[j]]).Some? &&
              |BlockMetricNames| <= |DiskVector(dom.diskStats[dom.disks[j]]).value|)
      && (r.Some? ==>
            |r.value| == |BlockMetricNames| &&
            forall i :: 0 <= i < |BlockMetricNames| ==>
              r.value[i].0 == BlockMetricNames[i] && |r.value[i].1| == |dom.disks| &&
              forall j :: 0 <= j < |dom.disks| ==>
                var s := dom.diskStats[dom.disks[j]];
                r.value[i].1[j] ==
                  Dimension((s.block + [s.flags["wr_total_times"], s.flags["rd_total_times"],
                                        s.flags["flush_total_times"], s.flags["flush_operations"]])[i],
                            DeviceLabels(dom.name, dom.disks[j], dom.uuid, dom.tenant)))
  {
    var v := DiskVectors(dom.diskStats);
    FanOut(dom.name, dom.uuid, dom.tenant, BlockMetricNames, dom.disks, v);
  }

  /** The interface group: one dimension per interface target for each of the
      eight names, metric i reading the i-th interface statistic. */
  lemma InterfaceFanOut(dom: Domain)
    ensures var r := GroupCollection(dom, Interface);
      && (r.Some? <==>
            forall j :: 0 <= j < |dom.nics| ==>
              dom.nics[j] in dom.nicStats && |InterfaceMetricNames| <= |dom.nicStats[dom.nics[j]]|)
      && (r.Some? ==>
            |r.value| == |InterfaceMetricNames| &&
            forall i :: 0 <= i < |InterfaceMetricNames| ==>
              r.value[i].0 == InterfaceMetricNames[i] && |r.value[i].1| == |dom.nics| &&
              forall j :: 0 <= j < |dom.nics| ==>
                r.value[i].1[j] ==
                  Dimension(dom.nicStats[dom.nics[j]][i], DeviceLabels(dom.name, dom.nics[j], dom.uuid, dom.tenant)))
  {
    FanOut(dom.name, dom.uuid, dom.tenant, InterfaceMetricNames, dom.nics, dom.nicStats);
  }
}
