/** Two cycles in a row over the same enumeration and the same statistics
    leave the exporter's state as the first one left it: the second cycle
    retires nothing, since it clears every record the first one made, and it
    repeats the first cycle's writes, which a gauge registry absorbs. */
module Stability {
  import opened Common
  import opened Collections
  import opened Registry
  import opened Cycle

  type Gauges = map<string, Gauge>

  /** One `labels(...).set(...)` on series `name`, with its dimension. */
  type Write = (string, Dimension)

  /** One write: the gauge is created on first sight with the dimension's
      label names, then its series for the dimension's label values is set. */
  function WriteOne(g: Gauges, x: Write): Gauges
  {
    var cur := if x.0 in g then g[x.0] else Gauge(Names(x.1.labels), map[]);
    g[x.0 := cur.(series := cur.series[Values(x.1.labels) := x.1.value])]
  }

  /** The writes in turn. */
  function Apply(g: Gauges, w: seq<Write>): Gauges
    decreases |w|
  {
    if w == [] then g else WriteOne(Apply(g, w[..|w| - 1]), w[|w| - 1])
  }

  /** Some write goes to series `n`. */
  predicate Touches(w: seq<Write>, n: string)
    decreases |w|
  {
    w != [] && (w[|w| - 1].0 == n || Touches(w[..|w| - 1], n))
  }

  /** The value of the last write to key `k` of series `n`, if any. */
  function LastValue(w: seq<Write>, n: string, k: LabelValues): (r: Option<int>)
    ensures r.Some? ==> Touches(w, n)
    decreases |w|
  {
    if w == [] then None
    else if w[|w| - 1].0 == n && Values(w[|w| - 1].1.labels) == k then Some(w[|w| - 1].1.value)
    else LastValue(w[..|w| - 1], n, k)
  }

  /** What the writes leave at one series and key: the series exists when it
      did or is written; an existing gauge keeps its label names; a key is
      present when it was or is written, and holds the last written value,
      or its old value when no write reaches it. */
  lemma {:induction false} ApplyAt(g: Gauges, w: seq<Write>, n: string, k: LabelValues)
    ensures var r := Apply(g, w);
      && (n in r <==> n in g || Touches(w, n))
      && (n in g ==> r[n].labelNames == g[n].labelNames)
      && (n in r ==> (k in r[n].series <==> (n in g && k in g[n].series) || LastValue(w, n, k).Some?))
      && (n in r && LastValue(w, n, k).Some? ==> r[n].series[k] == LastValue(w, n, k).value)
      && (n in g && k in g[n].series && LastValue(w, n, k).None? ==> r[n].series[k] == g[n].series[k])
    decreases |w|
  {
    if w != [] {
      ApplyAt(g, w[..|w| - 1], n, k);
    }
  }

  /** Writes applied twice leave what they left once. */
  lemma ApplyTwice(g: Gauges, w: seq<Write>)
    ensures Apply(Apply(g, w), w) == Apply(g, w)
  {
    var g1 := Apply(g, w);
    var g2 := Apply(g1, w);
    forall n ensures n in g2 <==> n in g1 {
      ApplyAt(g, w, n, []);
      ApplyAt(g1, w, n, []);
    }
    forall n | n in g1 ensures g2[n] == g1[n] {
      forall k ensures k in g2[n].series <==> k in g1[n].series {
        ApplyAt(g, w, n, k);
        ApplyAt(g1, w, n, k);
      }
      forall k | k in g1[n].series ensures g2[n].series[k] == g1[n].series[k] {
        ApplyAt(g, w, n, k);
        ApplyAt(g1, w, n, k);
      }
      ApplyAt(g1, w, n, []);
      assert g2[n].series == g1[n].series;
    }
  }

  /** Applying two batches is applying their concatenation. */
  lemma {:induction false} ApplyConcat(g: Gauges, a: seq<Write>, b: seq<Write>)
    ensures Apply(g, a + b) == Apply(Apply(g, a), b)
    decreases |b|
  {
    if b == [] {
      assert a + b == a;
    } else {
      assert (a + b)[..|a + b| - 1] == a + b[..|b| - 1];
      ApplyConcat(g, a, b[..|b| - 1]);
    }
  }

  /** The writes of one metric. */
  function Tag(name: string, dims: seq<Dimension>): seq<Write>
  {
    seq(|dims|, i requires 0 <= i < |dims| => (name, dims[i]))
  }

  /** Setting the dimensions of an existing gauge is applying their writes. */
  lemma {:induction false} SetAllGauges(st: State, dom: string, name: string, dims: seq<Dimension>)
    requires name in st.gauges && dom in st.track
    ensures SetAll(st, dom, name, dims).gauges == Apply(st.gauges, Tag(name, dims))
    decreases |dims|
  {
    if dims != [] {
      assert Tag(name, dims)[..|dims| - 1] == Tag(name, dims[..|dims| - 1]);
      SetAllGauges(st, dom, name, dims[..|dims| - 1]);
    }
  }

  /** The tracker a `SetAll` leaves depends on the tracker alone. */
  lemma {:induction false} SetAllTrack(a: State, b: State, dom: string, name: string, dims: seq<Dimension>)
    requires name in a.gauges && name in b.gauges && dom in a.track && a.track == b.track
    ensures SetAll(a, dom, name, dims).track == SetAll(b, dom, name, dims).track
    decreases |dims|
  {
    if dims != [] {
      SetAllTrack(a, b, dom, name, dims[..|dims| - 1]);
    }
  }

  /** Publishing a metric that does not raise is applying its writes; a new
      gauge is created as the first write creates it. */
  lemma PublishMetricGauges(st: State, dom: string, name: string, dims: seq<Dimension>)
    requires dom in st.track && (name in st.gauges || dims != [])
    ensures PublishMetric(st, dom, name, dims).Some?
    ensures PublishMetric(st, dom, name, dims).value.gauges == Apply(st.gauges, Tag(name, dims))
  {
    if name in st.gauges {
      SetAllGauges(st, dom, name, dims);
    } else {
      var created := st.gauges[name := Gauge(Names(dims[0].labels), map[])];
      SetAllGauges(st.(gauges := created), dom, name, dims);
      var t := Tag(name, dims);
      assert t == [t[0]] + t[1..];
      ApplyConcat(created, [t[0]], t[1..]);
      ApplyConcat(st.gauges, [t[0]], t[1..]);
      assert [t[0]][..0] == [];
      assert t[0] == (name, dims[0]);
      assert Apply(created, [t[0]]) == WriteOne(created, t[0]) == WriteOne(st.gauges, t[0]) == Apply(st.gauges, [t[0]]);
    }
  }

  /** The writes of a collection, metric by metric. */
  function CollWrites(h: Header, c: Collection): seq<Write>
    decreases |c|
  {
    if c == [] then [] else CollWrites(h, c[..|c| - 1]) + Tag(MetricName(h, c[|c| - 1].0), c[|c| - 1].1)
  }

  /** No metric of the collection has a dimension. */
  predicate NoMetricHasDims(c: Collection)
  {
    forall i :: 0 <= i < |c| ==> c[i].1 == []
  }

  /** Every group's metrics all have the same number of dimensions (one each
      for cpu and memory, one per target for disks and interfaces), so either
      every metric has a dimension or none has. */
  lemma GroupUniform(dom: Domain, h: Header)
    ensures GroupCollection(dom, h).Some? ==>
      EveryMetricHasDims(GroupCollection(dom, h).value) || NoMetricHasDims(GroupCollection(dom, h).value)
  {
    if GroupCollection(dom, h).Some? && (h == Block || h == Interface) {
      var c := GroupCollection(dom, h).value;
      var targets := if h == Block then dom.disks else dom.nics;
      forall i | 0 <= i < |c| ensures |c[i].1| == |targets| {
      }
    }
  }

  /** A collection whose metrics all have dimensions publishes every write,
      and the tracker it leaves depends on the tracker alone. */
  lemma {:induction false} PublishFull(a: State, b: State, dom: string, h: Header, c: Collection)
    requires dom in a.track && a.track == b.track && EveryMetricHasDims(c)
    ensures Publish(a, dom, h, c).ok
    ensures Publish(a, dom, h, c).state.gauges == Apply(a.gauges, CollWrites(h, c))
    ensures Publish(a, dom, h, c).state.track == Publish(b, dom, h, c).state.track
    decreases |c|
  {
    if c != [] {
      var init := c[..|c| - 1];
      assert forall i :: 0 <= i < |init| ==> init[i] == c[i];
      PublishFull(a, b, dom, h, init);
      PublishFull(b, a, dom, h, init);
      var p := Publish(a, dom, h, init).state;
      var q := Publish(b, dom, h, init).state;
      var name := MetricName(h, c[|c| - 1].0);
      var dims := c[|c| - 1].1;
      PublishMetricGauges(p, dom, name, dims);
      PublishMetricGauges(q, dom, name, dims);
      ApplyConcat(a.gauges, CollWrites(h, init), Tag(name, dims));
      var p' := if name in p.gauges then p else p.(gauges := p.gauges[name := Gauge(Names(dims[0].labels), map[])]);
      var q' := if name in q.gauges then q else q.(gauges := q.gauges[name := Gauge(Names(dims[0].labels), map[])]);
      SetAllTrack(p', q', dom, name, dims);
    }
  }

  /** A collection none of whose metrics has a dimension changes nothing,
      whether its publishing raises or not, and has no writes. */
  lemma {:induction false} PublishEmpty(st: State, dom: string, h: Header, c: Collection)
    requires dom in st.track && NoMetricHasDims(c)
    ensures Publish(st, dom, h, c).state == st
    ensures CollWrites(h, c) == []
    decreases |c|
  {
    if c != [] {
      var init := c[..|c| - 1];
      assert forall i :: 0 <= i < |init| ==> init[i] == c[i];
      PublishEmpty(st, dom, h, init);
    }
  }

  /** The writes of one group: none when its extraction raises. */
  function GroupWrites(dom: Domain, h: Header): seq<Write>
  {
    match GroupCollection(dom, h)
    case None => []
    case Some(c) => CollWrites(h, c)
  }

  /** Publishing one group applies its writes, and the tracker it leaves
      depends on the tracker alone. */
  lemma PublishGroupEffect(a: State, b: State, dom: Domain, h: Header)
    requires dom.name in a.track && a.track == b.track
    ensures PublishGroup(a, dom, h).state.gauges == Apply(a.gauges, GroupWrites(dom, h))
    ensures PublishGroup(a, dom, h).state.track == PublishGroup(b, dom, h).state.track
  {
    GroupUniform(dom, h);
    match GroupCollection(dom, h)
    case None =>
    case Some(c) =>
      if EveryMetricHasDims(c) {
        PublishFull(a, b, dom.name, h, c);
      } else {
        PublishEmpty(a, dom.name, h, c);
        PublishEmpty(b, dom.name, h, c);
      }
  }

  /** The writes of the first `k` groups of a domain. */
  function DomainWrites(dom: Domain, k: nat): seq<Write>
    requires k <= |Headers|
  {
    if k == 0 then [] else DomainWrites(dom, k - 1) + GroupWrites(dom, Headers[k - 1])
  }

  lemma {:induction false} GroupsEffect(a: State, b: State, dom: Domain, k: nat)
    requires k <= |Headers| && dom.name in a.track && a.track == b.track
    ensures Groups(a, dom, k).gauges == Apply(a.gauges, DomainWrites(dom, k))
    ensures Groups(a, dom, k).track == Groups(b, dom, k).track
    decreases k
  {
    if k > 0 {
      GroupsEffect(a, b, dom, k - 1);
      var s := Groups(a, dom, k - 1);
      PublishGroupEffect(s, Groups(b, dom, k - 1), dom, Headers[k - 1]);
      ApplyConcat(a.gauges, DomainWrites(dom, k - 1), GroupWrites(dom, Headers[k - 1]));
    }
  }

  /** The writes of a rebuild: every group of every active domain, in turn. */
  function CycleWrites(domains: seq<Domain>): seq<Write>
    decreases |domains|
  {
    if domains == [] then []
    else
      var dom := domains[|domains| - 1];
      CycleWrites(domains[..|domains| - 1]) + (if dom.active then DomainWrites(dom, |Headers|) else [])
  }

  /** Rebuilding applies the rebuild's writes, and the tracker it leaves
      depends on the tracker alone. */
  lemma {:induction false} CollectEffect(a: State, b: State, domains: seq<Domain>)
    requires a.track == b.track
    ensures Collect(a, domains).gauges == Apply(a.gauges, CycleWrites(domains))
    ensures Collect(a, domains).track == Collect(b, domains).track
    decreases |domains|
  {
    if domains != [] {
      var init := domains[..|domains| - 1];
      var dom := domains[|domains| - 1];
      CollectEffect(a, b, init);
      var s := Collect(a, init);
      var t := Collect(b, init);
      if dom.active {
        GroupsEffect(s.(track := s.track[dom.name := map[]]), t.(track := t.track[dom.name := map[]]), dom, |Headers|);
        ApplyConcat(a.gauges, CycleWrites(init), DomainWrites(dom, |Headers|));
      } else {
        assert Collect(a, domains) == s && Collect(b, domains) == t;
        assert CycleWrites(domains) == CycleWrites(init) + [] == CycleWrites(init);
      }
    }
  }

  /** After a cycle every record belongs to an enumerated domain, so the next
      cycle over the same enumeration clears them all and removes nothing. */
  lemma RetiresNothing(st: State, domains: seq<Domain>)
    requires forall d :: d in st.track ==> ActiveIn(domains, d)
    ensures Retired(st, domains) == State(st.gauges, map[])
  {
    var cleared := ClearEnumerated(st.track, domains);
    forall n ensures TrackedFor(cleared, n) == {} {
      forall d | d in cleared ensures cleared[d] == map[] {
        var i :| 0 <= i < |domains| && domains[i].active && domains[i].name == d;
        assert Enumerated(domains, d);
      }
    }
    var g := Retire(st.gauges, cleared);
    forall n | n in g ensures g[n] == st.gauges[n] {
      assert g[n].series == st.gauges[n].series - {};
    }
  }

  /** A second cycle over the same enumeration and the same statistics
      changes nothing: the same series hold the same values, and the tracker
      holds the same records. */
  lemma CycleStable(st: State, domains: seq<Domain>)
    ensures RunCycle(RunCycle(st, domains), domains) == RunCycle(st, domains)
  {
    var s1 := RunCycle(st, domains);
    CycleTracker(st, domains);
    RetiresNothing(s1, domains);
    var start := Retired(st, domains);
    var again := Retired(s1, domains);
    CollectEffect(start, again, domains);
    CollectEffect(again, start, domains);
    ApplyTwice(start.gauges, CycleWrites(domains));
  }
}
