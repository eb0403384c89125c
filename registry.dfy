/** Publishing a domain's metric collections into the gauge registry and
    the stale-series tracker, as `add_metrics` does. */
module Registry {
  import opened Common
  import opened Collections

  /** One gauge: the label names fixed when it was created and its series,
      each keyed by its label values. */
  datatype Gauge = Gauge(labelNames: seq<string>, series: map<LabelValues, int>)

  /** The exporter's state: `g_dict`, gauges by series name, and `dom_list`,
      per domain name and series name the label values last recorded. */
  datatype State = State(gauges: map<string, Gauge>, track: map<string, map<string, LabelValues>>)

  /** A publishing step's result: whether it ran to the end and the state it
      leaves (on an exception, the state as far as it got). */
  datatype Published = Published(ok: bool, state: State)

  /** Every tracked tuple is a registered series of an existing gauge. */
  predicate Registered(st: State)
  {
    forall d, n :: d in st.track && n in st.track[d] ==>
      n in st.gauges && st.track[d][n] in st.gauges[n].series
  }

  /** Every tuple tracked under a domain leads with that domain's name. */
  predicate Consistent(track: map<string, map<string, LabelValues>>)
  {
    forall d, n :: d in track && n in track[d] ==> |track[d][n]| > 0 && track[d][n][0] == Some(d)
  }

  /** Setting every dimension of series `name`, recording each one's label
      values for `dom` in turn. */
  function SetAll(st: State, dom: string, name: string, dims: seq<Dimension>): (r: State)
    requires name in st.gauges && dom in st.track
    ensures r.gauges.Keys == st.gauges.Keys && r.track.Keys == st.track.Keys
    decreases |dims|
  {
    if dims == [] then st
    else
      var s := SetAll(st, dom, name, dims[..|dims| - 1]);
      var d := dims[|dims| - 1];
      var g := s.gauges[name];
      State(s.gauges[name := g.(series := g.series[Values(d.labels) := d.value])],
            s.track[dom := s.track[dom][name := Values(d.labels)]])
  }

  /** Setting the dimensions touches only gauge `name`, keeping its label
      names, and the tracker entry of `dom` for `name`, which ends up holding
      only the LAST dimension's label values. */
  lemma {:induction false} SetAllFrame(st: State, dom: string, name: string, dims: seq<Dimension>)
    requires name in st.gauges && dom in st.track
    ensures var r := SetAll(st, dom, name, dims);
      && (forall n :: n in st.gauges && n != name ==> r.gauges[n] == st.gauges[n])
      && (forall d :: d in st.track && d != dom ==> r.track[d] == st.track[d])
      && r.gauges[name].labelNames == st.gauges[name].labelNames
      && (forall n :: n in st.track[dom] && n != name ==> n in r.track[dom] && r.track[dom][n] == st.track[dom][n])
      && (forall n :: n in r.track[dom] ==> n in st.track[dom] || n == name)
      && (dims == [] ==> r == st)
      && (dims != [] ==> name in r.track[dom] && r.track[dom][name] == Values(dims[|dims| - 1].labels))
    decreases |dims|
  {
    if dims != [] {
      SetAllFrame(st, dom, name, dims[..|dims| - 1]);
    }
  }

  /** The gauge gains exactly the dimensions' keys. */
  lemma {:induction false} SetAllKeys(st: State, dom: string, name: string, dims: seq<Dimension>)
    requires name in st.gauges && dom in st.track
    ensures forall k :: k in SetAll(st, dom, name, dims).gauges[name].series <==>
      k in st.gauges[name].series || exists j :: 0 <= j < |dims| && Values(dims[j].labels) == k
    decreases |dims|
  {
    if dims != [] {
      var init := dims[..|dims| - 1];
      SetAllKeys(st, dom, name, init);
      var r := SetAll(st, dom, name, dims);
      forall k | k in st.gauges[name].series || exists j :: 0 <= j < |dims| && Values(dims[j].labels) == k
        ensures k in r.gauges[name].series
      {
        if k != Values(dims[|dims| - 1].labels) && k !in st.gauges[name].series {
          var j :| 0 <= j < |dims| && Values(dims[j].labels) == k;
          assert init[j] == dims[j];
        }
      }
      forall k | k in r.gauges[name].series
        ensures k in st.gauges[name].series || exists j :: 0 <= j < |dims| && Values(dims[j].labels) == k
      {
        if k != Values(dims[|dims| - 1].labels) && k !in st.gauges[name].series {
          var j :| 0 <= j < |init| && Values(init[j].labels) == k;
          assert dims[j] == init[j];
        }
      }
    }
  }

  /** A key no dimension carries keeps its value. */
  lemma {:induction false} SetAllKeeps(st: State, dom: string, name: string, dims: seq<Dimension>, k: LabelValues)
    requires name in st.gauges && dom in st.track && k in st.gauges[name].series
    requires forall j :: 0 <= j < |dims| ==> Values(dims[j].labels) != k
    ensures var g := SetAll(st, dom, name, dims).gauges[name];
      k in g.series && g.series[k] == st.gauges[name].series[k]
    decreases |dims|
  {
    if dims != [] {
      var init := dims[..|dims| - 1];
      assert forall j :: 0 <= j < |init| ==> init[j] == dims[j];
      SetAllKeeps(st, dom, name, init, k);
    }
  }

  /** A dimension no later dimension overrides leaves its value at its key. */
  lemma {:induction false} SetAllLastWins(st: State, dom: string, name: string, dims: seq<Dimension>, j: nat)
    requires name in st.gauges && dom in st.track && j < |dims|
    requires forall j' :: j < j' < |dims| ==> Values(dims[j'].labels) != Values(dims[j].labels)
    ensures var g := SetAll(st, dom, name, dims).gauges[name];
      Values(dims[j].labels) in g.series && g.series[Values(dims[j].labels)] == dims[j].value
    decreases |dims|
  {
    var init := dims[..|dims| - 1];
    if j < |init| {
      assert init[j] == dims[j];
      assert forall j' :: j < j' < |init| ==> init[j'] == dims[j'];
      SetAllLastWins(st, dom, name, init, j);
      assert Values(dims[|dims| - 1].labels) != Values(dims[j].labels);
    }
  }

  /** Every dimension's value is set: a key holds the value of the last
      dimension carrying it, and a key no dimension carries keeps its value. */
  lemma SetAllValues(st: State, dom: string, name: string, dims: seq<Dimension>)
    requires name in st.gauges && dom in st.track
    ensures var g := SetAll(st, dom, name, dims).gauges[name];
      && (forall k :: k in st.gauges[name].series && (forall j :: 0 <= j < |dims| ==> Values(dims[j].labels) != k) ==>
            k in g.series && g.series[k] == st.gauges[name].series[k])
      && (forall j :: 0 <= j < |dims| && (forall j' :: j < j' < |dims| ==> Values(dims[j'].labels) != Values(dims[j].labels)) ==>
            Values(dims[j].labels) in g.series && g.series[Values(dims[j].labels)] == dims[j].value)
  {
    forall k | k in st.gauges[name].series && (forall j :: 0 <= j < |dims| ==> Values(dims[j].labels) != k) {
      SetAllKeeps(st, dom, name, dims, k);
    }
    forall j: nat | j < |dims| && (forall j' :: j < j' < |dims| ==> Values(dims[j'].labels) != Values(dims[j].labels)) {
      SetAllLastWins(st, dom, name, dims, j);
    }
  }

  /** Publishing one metric: create the gauge on first sight, with the label
      names of the first dimension, then set every dimension. A new gauge with
      no dimension raises (None): there is no first dimension to name it. */
  function PublishMetric(st: State, dom: string, name: string, dims: seq<Dimension>): (r: Option<State>)
    requires dom in st.track
    ensures r.Some? ==> r.value.track.Keys == st.track.Keys && r.value.gauges.Keys == st.gauges.Keys + {name}
  {
    if name in st.gauges then Some(SetAll(st, dom, name, dims))
    else if dims == [] then None
    else Some(SetAll(st.(gauges := st.gauges[name := Gauge(Names(dims[0].labels), map[])]), dom, name, dims))
  }

  /** Create-once gauges: publishing fails exactly for a new name with no
      dimension; an existing gauge is reused with its label names, a new one
      takes the first dimension's label names; every dimension's key is set. */
  lemma PublishMetricEffect(st: State, dom: string, name: string, dims: seq<Dimension>)
    requires dom in st.track
    ensures var r := PublishMetric(st, dom, name, dims);
      && (r.None? <==> name !in st.gauges && dims == [])
      && (r.Some? ==>
            && name in r.value.gauges
            && r.value.gauges[name].labelNames ==
                 (if name in st.gauges then st.gauges[name].labelNames else Names(dims[0].labels))
            && (forall n :: n in st.gauges && n != name ==> r.value.gauges[n] == st.gauges[n])
            && (forall k :: k in r.value.gauges[name].series <==>
                  (name in st.gauges && k in st.gauges[name].series) ||
                  exists j :: 0 <= j < |dims| && Values(dims[j].labels) == k)
            && (forall j :: 0 <= j < |dims| ==> Values(dims[j].labels) in r.value.gauges[name].series))
  {
    if name in st.gauges {
      SetAllFrame(st, dom, name, dims);
      SetAllKeys(st, dom, name, dims);
    } else if dims != [] {
      var s := st.(gauges := st.gauges[name := Gauge(Names(dims[0].labels), map[])]);
      SetAllFrame(s, dom, name, dims);
      SetAllKeys(s, dom, name, dims);
    }
  }

  /** `add_metrics` after extraction: each metric of the collection in turn,
      stopping at the first that raises. */
  function Publish(st: State, dom: string, h: Header, c: Collection): (r: Published)
    requires dom in st.track
    ensures r.state.track.Keys == st.track.Keys && st.gauges.Keys <= r.state.gauges.Keys
    decreases |c|
  {
    if c == [] then Published(true, st)
    else
      var p := Publish(st, dom, h, c[..|c| - 1]);
      if !p.ok then p
      else match PublishMetric(p.state, dom, MetricName(h, c[|c| - 1].0), c[|c| - 1].1)
        case None => Published(false, p.state)
        case Some(s) => Published(true, s)
  }

  /** Publishing a prefix one metric longer. */
  lemma PublishPrefix(st: State, dom: string, h: Header, c: Collection, i: nat)
    requires dom in st.track && i < |c|
    ensures var p := Publish(st, dom, h, c[..i]);
      Publish(st, dom, h, c[..i + 1]) ==
        if !p.ok then p
        else match PublishMetric(p.state, dom, MetricName(h, c[i].0), c[i].1)
          case None => Published(false, p.state)
          case Some(s) => Published(true, s)
  {
    assert c[..i + 1][..i] == c[..i] && c[..i + 1][i] == c[i];
  }

  /** Once a metric raises, the rest of the collection is not looked at. */
  lemma {:induction false} PublishStops(st: State, dom: string, h: Header, c: Collection, k: nat)
    requires dom in st.track && k <= |c| && !Publish(st, dom, h, c[..k]).ok
    ensures Publish(st, dom, h, c) == Publish(st, dom, h, c[..k])
    decreases |c|
  {
    if k < |c| {
      assert c[..|c| - 1][..k] == c[..k];
      PublishStops(st, dom, h, c[..|c| - 1], k);
    } else {
      assert c[..k] == c;
    }
  }

  /** `add_metrics` for one group: extract, then publish; an extraction that
      raises changes nothing. */
  function PublishGroup(st: State, dom: Domain, h: Header): (r: Published)
    requires dom.name in st.track
    ensures r.state.track.Keys == st.track.Keys
  {
    match GroupCollection(dom, h)
    case None => Published(false, st)
    case Some(c) => Publish(st, dom.name, h, c)
  }

  /** `b` keeps every gauge and every series key of `a`. */
  predicate Grows(a: State, b: State)
  {
    forall n :: n in a.gauges ==> n in b.gauges && a.gauges[n].series.Keys <= b.gauges[n].series.Keys
  }

  /** From `a` to `b`, only domain `dom` published: `b` grows `a`, every
      series key `b` adds leads with `dom`, other domains' tracker entries
      are untouched and whatever changed in `dom`'s entry is a registered
      tuple leading with `dom`. */
  predicate Extends(a: State, b: State, dom: string)
  {
    Grows(a, b) && NewKeysLead(a, b, dom) && TrackFrame(a, b, dom)
  }

  /** Every series key `b` has and `a` has not leads with `dom`. */
  predicate NewKeysLead(a: State, b: State, dom: string)
  {
    forall n, k :: n in b.gauges && k in b.gauges[n].series && !(n in a.gauges && k in a.gauges[n].series) ==>
      |k| > 0 && k[0] == Some(dom)
  }

  /** Only `dom`'s tracker entry changes, and what changed in it is a
      registered tuple leading with `dom`. */
  predicate TrackFrame(a: State, b: State, dom: string)
  {
    && a.track.Keys == b.track.Keys
    && (forall d :: d in a.track && d != dom ==> b.track[d] == a.track[d])
    && (dom in b.track ==>
          forall n :: n in b.track[dom] && !(n in a.track[dom] && b.track[dom][n] == a.track[dom][n]) ==>
            n in b.gauges && b.track[dom][n] in b.gauges[n].series && |b.track[dom][n]| > 0 && b.track[dom][n][0] == Some(dom))
  }

  lemma ExtendsTrans(a: State, b: State, c: State, dom: string)
    requires Extends(a, b, dom) && Extends(b, c, dom)
    ensures Extends(a, c, dom)
  {
  }

  /** One published metric keeps everything and registers every dimension. */
  lemma PublishMetricGrows(st: State, dom: string, name: string, dims: seq<Dimension>)
    requires dom in st.track
    ensures var r := PublishMetric(st, dom, name, dims);
      r.Some? ==>
        && Grows(st, r.value)
        && name in r.value.gauges
        && forall j :: 0 <= j < |dims| ==> Values(dims[j].labels) in r.value.gauges[name].series
  {
    PublishMetricEffect(st, dom, name, dims);
  }

  /** The dimensions of `dims` all lead with the domain label of `dom`. */
  predicate DimsLead(dims: seq<Dimension>, dom: string)
  {
    forall j :: 0 <= j < |dims| ==> |dims[j].labels| > 0 && dims[j].labels[0] == Label("domain", Some(dom))
  }

  /** The state `PublishMetric` hands to `SetAll`: the gauge created if new. */
  function WithGauge(st: State, name: string, dims: seq<Dimension>): (s: State)
    requires name in st.gauges || dims != []
    ensures name in s.gauges && s.track == st.track
    ensures forall n :: n in st.gauges ==> n in s.gauges && s.gauges[n] == st.gauges[n]
    ensures forall n :: n in s.gauges && n != name ==> n in st.gauges
    ensures name !in st.gauges ==> s.gauges[name].series == map[]
  {
    if name in st.gauges then st else st.(gauges := st.gauges[name := Gauge(Names(dims[0].labels), map[])])
  }

  lemma SetAllNewKeysLead(st: State, s: State, dom: string, name: string, dims: seq<Dimension>)
    requires dom in st.track && (name in st.gauges || dims != []) && DimsLead(dims, dom)
    requires s == WithGauge(st, name, dims)
    ensures NewKeysLead(st, SetAll(s, dom, name, dims), dom)
  {
    var r := SetAll(s, dom, name, dims);
    SetAllFrame(s, dom, name, dims);
    SetAllKeys(s, dom, name, dims);
    forall n, k | n in r.gauges && k in r.gauges[n].series && !(n in st.gauges && k in st.gauges[n].series)
      ensures |k| > 0 && k[0] == Some(dom)
    {
      assert n == name;
      var j :| 0 <= j < |dims| && Values(dims[j].labels) == k;
    }
  }

  lemma SetAllTrackFrame(st: State, s: State, dom: string, name: string, dims: seq<Dimension>)
    requires dom in st.track && (name in st.gauges || dims != []) && DimsLead(dims, dom)
    requires s == WithGauge(st, name, dims)
    ensures TrackFrame(st, SetAll(s, dom, name, dims), dom)
  {
    var r := SetAll(s, dom, name, dims);
    SetAllFrame(s, dom, name, dims);
    if dims != [] {
      SetAllKeys(s, dom, name, dims);
      assert Values(dims[|dims| - 1].labels) in r.gauges[name].series;
    }
  }

  /** One published metric of domain `dom` whose dimensions lead with `dom`
      extends the state for `dom`. */
  lemma PublishMetricExtends(st: State, dom: string, name: string, dims: seq<Dimension>)
    requires dom in st.track && DimsLead(dims, dom)
    ensures PublishMetric(st, dom, name, dims).Some? ==> Extends(st, PublishMetric(st, dom, name, dims).value, dom)
  {
    if PublishMetric(st, dom, name, dims).Some? {
      var s := WithGauge(st, name, dims);
      assert PublishMetric(st, dom, name, dims).value == SetAll(s, dom, name, dims);
      PublishMetricGrows(st, dom, name, dims);
      SetAllNewKeysLead(st, s, dom, name, dims);
      SetAllTrackFrame(st, s, dom, name, dims);
    }
  }

  /** Nothing `add_metrics` does removes a gauge, a series or another
      domain's tracker entry; every series it adds leads with the domain's
      name, and so does everything it records for the domain. */
  lemma {:induction false} PublishExtends(st: State, dom: string, h: Header, c: Collection)
    requires dom in st.track && LeadsWith(c, dom)
    ensures Extends(st, Publish(st, dom, h, c).state, dom)
    decreases |c|
  {
    if c != [] {
      var init := c[..|c| - 1];
      assert LeadsWith(init, dom) by {
        assert forall i :: 0 <= i < |init| ==> init[i] == c[i];
      }
      PublishExtends(st, dom, h, init);
      var p := Publish(st, dom, h, init);
      if p.ok {
        var dims := c[|c| - 1].1;
        assert DimsLead(dims, dom);
        PublishMetricExtends(p.state, dom, MetricName(h, c[|c| - 1].0), dims);
        if PublishMetric(p.state, dom, MetricName(h, c[|c| - 1].0), dims).Some? {
          ExtendsTrans(st, p.state, Publish(st, dom, h, c).state, dom);
        }
      }
    }
  }

  /** Every dimension of `c` is registered in `st` under its series name. */
  predicate AllRegistered(st: State, h: Header, c: Collection)
  {
    forall i, j :: 0 <= i < |c| && 0 <= j < |c[i].1| ==> RegisteredDim(st, h, c, i, j)
  }

  /** Dimension `j` of metric `i` of `c` is registered in `st`. */
  predicate RegisteredDim(st: State, h: Header, c: Collection, i: int, j: int)
    requires 0 <= i < |c| && 0 <= j < |c[i].1|
  {
    MetricName(h, c[i].0) in st.gauges && Values(c[i].1[j].labels) in st.gauges[MetricName(h, c[i].0)].series
  }

  lemma GrowsAt(a: State, b: State, n: string, k: LabelValues)
    requires Grows(a, b) && n in a.gauges && k in a.gauges[n].series
    ensures n in b.gauges && k in b.gauges[n].series
  {
    assert k in a.gauges[n].series.Keys;
  }

  lemma RegisteredAt(st: State, h: Header, c: Collection, i: nat, j: nat)
    requires AllRegistered(st, h, c) && i < |c| && j < |c[i].1|
    ensures MetricName(h, c[i].0) in st.gauges && Values(c[i].1[j].labels) in st.gauges[MetricName(h, c[i].0)].series
  {
    assert RegisteredDim(st, h, c, i, j);
  }

  /** Registration extends from all but the last metric to all of `c` once
      the last metric's dimensions are registered in a state that grows. */
  lemma AllRegisteredStep(a: State, b: State, h: Header, c: Collection, name: string, dims: seq<Dimension>)
    requires c != [] && AllRegistered(a, h, c[..|c| - 1]) && Grows(a, b)
    requires name == MetricName(h, c[|c| - 1].0) && dims == c[|c| - 1].1 && name in b.gauges
    requires forall j :: 0 <= j < |dims| ==> Values(dims[j].labels) in b.gauges[name].series
    ensures AllRegistered(b, h, c)
  {
    var init := c[..|c| - 1];
    forall i, j | 0 <= i < |c| && 0 <= j < |c[i].1|
      ensures RegisteredDim(b, h, c, i, j)
    {
      if i < |init| {
        assert init[i] == c[i];
        RegisteredGrows(a, b, h, init, i, j);
      } else {
        assert c[i] == c[|c| - 1];
        assert Values(dims[j].labels) in b.gauges[name].series;
      }
    }
  }

  lemma RegisteredGrows(a: State, b: State, h: Header, c: Collection, i: nat, j: nat)
    requires AllRegistered(a, h, c) && Grows(a, b) && i < |c| && j < |c[i].1|
    ensures RegisteredDim(b, h, c, i, j)
  {
    RegisteredAt(a, h, c, i, j);
    GrowsAt(a, b, MetricName(h, c[i].0), Values(c[i].1[j].labels));
  }

  /** Registration of a whole collection survives any growth of the state. */
  lemma AllRegisteredGrows(a: State, b: State, h: Header, c: Collection)
    requires AllRegistered(a, h, c) && Grows(a, b)
    ensures AllRegistered(b, h, c)
  {
    forall i, j | 0 <= i < |c| && 0 <= j < |c[i].1|
      ensures RegisteredDim(b, h, c, i, j)
    {
      RegisteredGrows(a, b, h, c, i, j);
    }
  }

  /** Every metric of the collection has at least one dimension. */
  predicate EveryMetricHasDims(c: Collection)
  {
    forall i :: 0 <= i < |c| ==> c[i].1 != []
  }

  /** A collection whose every metric has a dimension publishes completely:
      every dimension's key is registered under its series name. */
  lemma {:induction false} PublishComplete(st: State, dom: string, h: Header, c: Collection)
    requires dom in st.track && EveryMetricHasDims(c)
    ensures Publish(st, dom, h, c).ok && AllRegistered(Publish(st, dom, h, c).state, h, c)
    decreases |c|
  {
    if c != [] {
      var init := c[..|c| - 1];
      PublishComplete(st, dom, h, init);
      var p := Publish(st, dom, h, init);
      var name := MetricName(h, c[|c| - 1].0);
      var dims := c[|c| - 1].1;
      PublishMetricGrows(p.state, dom, name, dims);
      var r := PublishMetric(p.state, dom, name, dims).value;
      assert Publish(st, dom, h, c) == Published(true, r);
      AllRegisteredStep(p.state, r, h, c, name, dims);
    }
  }
}
