/** The exporter's mutable state and the two procedures that change it:
    `add_metrics`, which publishes one group of one domain, and `job`, one
    reconciliation cycle. Also `get_domains`, the enumeration a cycle runs on. */
module Exporter {
  import opened Common
  import opened Collections
  import opened Registry
  import opened Cycle

  /** `get_domains`: the handles of the listed ids in order, or None when
      nothing is running. Each lookup is a key of `handles`. */
  method GetDomains(ids: seq<int>, handles: map<int, Domain>) returns (r: Option<seq<Domain>>)
    requires forall i :: 0 <= i < |ids| ==> ids[i] in handles
    ensures r.None? <==> ids == []
    ensures r.Some? ==> |r.value| == |ids| && forall i :: 0 <= i < |ids| ==> r.value[i] == handles[ids[i]]
  {
    var domains: seq<Domain> := [];
    for i := 0 to |ids|
      invariant |domains| == i
      invariant forall k :: 0 <= k < i ==> domains[k] == handles[ids[k]]
    {
      domains := domains + [handles[ids[i]]];
    }
    if |domains| == 0 {
      return None;
    }
    return Some(domains);
  }

  /** The removal step of one series in the middle of retirement: the
      domains of `done` retired in full, and of domain `d` the series in
      `doneNames`. */
  function Stripped(g0: map<string, Gauge>, t: map<string, map<string, LabelValues>>,
                    done: set<string>, d: string, doneNames: set<string>): map<string, Gauge>
    requires d in t
  {
    map n | n in g0 :: g0[n].(series := g0[n].series - TrackedBy(t, done, n) - (if n in doneNames && n in t[d] then {t[d][n]} else {}))
  }

  /** Once every series of `d` is removed, `d` counts as done. */
  lemma StrippedDomain(g0: map<string, Gauge>, t: map<string, map<string, LabelValues>>, done: set<string>, d: string)
    requires d in t
    ensures Stripped(g0, t, done, d, t[d].Keys) == StrippedDone(g0, t, done + {d})
  {
    var a := Stripped(g0, t, done, d, t[d].Keys);
    var b := StrippedDone(g0, t, done + {d});
    forall n | n in g0 ensures a[n] == b[n] {
      var extra := if n in t[d].Keys then {t[d][n]} else {};
      assert TrackedBy(t, done + {d}, n) == TrackedBy(t, done, n) + extra;
    }
  }

  /** Retirement with the domains of `done` processed. */
  function StrippedDone(g0: map<string, Gauge>, t: map<string, map<string, LabelValues>>, done: set<string>): map<string, Gauge>
  {
    map n | n in g0 :: g0[n].(series := g0[n].series - TrackedBy(t, done, n))
  }

  /** The live state: `g_dict` and `dom_list`, which survive from cycle to
      cycle. */
  class Exporter {
    var gauges: map<string, Gauge>
    var track: map<string, map<string, LabelValues>>

    /** The state as a value. */
    function Snapshot(): State
      reads this
    {
      State(gauges, track)
    }

    /** Every tracked tuple is registered and leads with its domain's name. */
    predicate Valid()
      reads this
    {
      Cycle.Valid(Snapshot())
    }

    /** `main`: an empty registry and an empty tracker. */
    constructor()
      ensures gauges == map[] && track == map[]
      ensures Valid()
    {
      gauges := map[];
      track := map[];
    }

    /** `add_metrics` for one domain and one group: extract, then for each
        metric create the gauge on first sight and set every dimension,
        recording its label values for the domain. The `ok` result is false
        where the source raises (and `job` swallows the exception); the state
        is then as far as the source got. */
    method AddMetrics(dom: Domain, h: Header) returns (ok: bool)
      requires dom.name in track
      modifies this
      ensures Published(ok, Snapshot()) == PublishGroup(old(Snapshot()), dom, h)
    {
      var extracted := GroupCollection(dom, h);
      if extracted.None? {
        return false;
      }
      ok := PublishCollection(dom.name, h, extracted.value);
    }

    /** The loop of `add_metrics` over the extracted collection, stopping
        at the first metric that raises. */
    method PublishCollection(domName: string, h: Header, c: Collection) returns (ok: bool)
      requires domName in track
      modifies this
      ensures Published(ok, Snapshot()) == Publish(old(Snapshot()), domName, h, c)
    {
      ghost var st0 := Snapshot();
      for i := 0 to |c|
        invariant domName in track
        invariant Publish(st0, domName, h, c[..i]) == Published(true, Snapshot())
      {
        PublishPrefix(st0, domName, h, c, i);
        var published := AddMetric(domName, MetricName(h, c[i].0), c[i].1);
        if !published {
          PublishStops(st0, domName, h, c, i + 1);
          return false;
        }
      }
      assert c[..|c|] == c;
      return true;
    }

    /** The body of `add_metrics` for one metric: create the gauge on first
        sight, named by the first dimension's labels (raising when there is
        none), then set every dimension. */
    method AddMetric(domName: string, name: string, dims: seq<Dimension>) returns (ok: bool)
      requires domName in track
      modifies this
      ensures ok <==> PublishMetric(old(Snapshot()), domName, name, dims).Some?
      ensures ok ==> Snapshot() == PublishMetric(old(Snapshot()), domName, name, dims).value
      ensures !ok ==> Snapshot() == old(Snapshot())
    {
      if name !in gauges && dims == [] {
        return false;
      }
      if name !in gauges {
        gauges := gauges[name := Gauge(Names(dims[0].labels), map[])];
      }
      SetDimensions(domName, name, dims);
      return true;
    }

    /** Setting each dimension of series `name` and recording its label
        values for the domain, one after the other. */
    method SetDimensions(domName: string, name: string, dims: seq<Dimension>)
      requires domName in track && name in gauges
      modifies this
      ensures Snapshot() == SetAll(old(Snapshot()), domName, name, dims)
    {
      ghost var w := Snapshot();
      for j := 0 to |dims|
        invariant domName in track && name in gauges
        invariant Snapshot() == SetAll(w, domName, name, dims[..j])
      {
        assert dims[..j + 1][..j] == dims[..j];
        var values := Values(dims[j].labels);
        gauges := gauges[name := gauges[name].(series := gauges[name].series[values := dims[j].value])];
        track := track[domName := track[domName][name := values]];
      }
      assert dims[..|dims|] == dims;
    }

    /** `job` on a non-empty enumeration: clear the tracker entries of the
        enumerated domains, remove every tuple still tracked, empty the
        tracker, then publish all four groups of every active domain,
        swallowing each group's failure. Every removal hits a registered
        series. */
    method Job(domains: seq<Domain>)
      requires Valid() && domains != []
      modifies this
      ensures Snapshot() == RunCycle(old(Snapshot()), domains)
      ensures Valid()
    {
      ghost var st0 := Snapshot();
      ClearTracked(domains);
      RemoveTracked(st0);
      track := map[];
      assert Snapshot() == Retired(st0, domains);
      PublishAll(domains);
      CycleTracker(st0, domains);
    }

    /** The last loop of `job`: each enumerated domain in turn; an active one
        gets a fresh tracker entry and its four groups published. */
    method PublishAll(domains: seq<Domain>)
      modifies this
      ensures Snapshot() == Collect(old(Snapshot()), domains)
    {
      ghost var start := Snapshot();
      for i := 0 to |domains|
        invariant Snapshot() == Collect(start, domains[..i])
      {
        assert domains[..i + 1][..i] == domains[..i];
        if domains[i].active {
          PublishDomain(domains[i]);
        }
      }
      assert domains[..|domains|] == domains;
    }

    /** One active domain: a fresh tracker entry, then each group in turn,
        a group's failure swallowed. */
    method PublishDomain(dom: Domain)
      modifies this
      ensures Snapshot() == Groups(old(Snapshot()).(track := old(track)[dom.name := map[]]), dom, |Headers|)
    {
      track := track[dom.name := map[]];
      ghost var s' := Snapshot();
      for g := 0 to |Headers|
        invariant dom.name in track
        invariant Snapshot() == Groups(s', dom, g)
      {
        var _ := AddMetrics(dom, Headers[g]);
      }
    }

    /** First step of `job`: empty the tracker entry of every enumerated
        domain that has one. */
    method ClearTracked(domains: seq<Domain>)
      modifies this
      ensures gauges == old(gauges) && track == ClearEnumerated(old(track), domains)
    {
      ghost var t0 := track;
      for i := 0 to |domains|
        invariant gauges == old(gauges)
        invariant track == ClearEnumerated(t0, domains[..i])
      {
        ClearStep(t0, domains, i);
        if domains[i].name in track {
          track := track[domains[i].name := map[]];
        }
      }
      assert domains[..|domains|] == domains;
    }

    /** Second step of `job`: remove every tracked tuple from its gauge. The
        tracker entries are the old ones or empty, so under the invariant
        every removed tuple is registered. */
    method RemoveTracked(ghost st0: State)
      requires Cycle.Valid(st0) && gauges == st0.gauges
      requires track.Keys == st0.track.Keys
      requires forall d :: d in track ==> track[d] == map[] || track[d] == st0.track[d]
      modifies this
      ensures track == old(track) && gauges == Retire(old(gauges), old(track))
    {
      ghost var g0 := gauges;
      ghost var t := track;
      ghost var done: set<string> := {};
      var pending := track.Keys;
      StrippedNone(g0, t);
      while pending != {}
        invariant track == t && done <= t.Keys && pending == t.Keys - done
        invariant gauges == StrippedDone(g0, t, done)
        decreases pending
      {
        var d :| d in pending;
        var names := track[d].Keys;
        ghost var doneNames: set<string> := {};
        StrippedStart(g0, t, done, d);
        while names != {}
          invariant track == t && doneNames <= t[d].Keys && names == t[d].Keys - doneNames
          invariant gauges == Stripped(g0, t, done, d, doneNames)
          decreases names
        {
          var n :| n in names;
          assert t[d] == st0.track[d];
          RemovalHitsRegistered(st0, g0, t, done, d, n, doneNames);
          gauges := gauges[n := gauges[n].(series := gauges[n].series - {track[d][n]})];
          names := names - {n};
          StrippedStep(g0, t, done, d, doneNames, n);
          doneNames := doneNames + {n};
        }
        StrippedDomain(g0, t, done, d);
        pending := pending - {d};
        done := done + {d};
      }
      assert done == t.Keys;
      RetireDone(g0, t);
    }
  }

  /** Clearing one more domain of the enumeration. */
  lemma ClearStep(t: map<string, map<string, LabelValues>>, domains: seq<Domain>, i: nat)
    requires i < |domains|
    ensures var before := ClearEnumerated(t, domains[..i]);
      ClearEnumerated(t, domains[..i + 1]) ==
        if domains[i].name in before then before[domains[i].name := map[]] else before
  {
    var before := ClearEnumerated(t, domains[..i]);
    var after := ClearEnumerated(t, domains[..i + 1]);
    var expected := if domains[i].name in before then before[domains[i].name := map[]] else before;
    assert Enumerated(domains[..i + 1], domains[i].name);
    forall d | d in t ensures after[d] == expected[d] {
      if Enumerated(domains[..i], d) {
        var k :| 0 <= k < i && domains[..i][k].name == d;
        assert domains[..i + 1][k] == domains[..i][k];
      }
      if Enumerated(domains[..i + 1], d) && d != domains[i].name {
        var k :| 0 <= k < i + 1 && domains[..i + 1][k].name == d;
        assert domains[..i][k] == domains[..i + 1][k];
      }
    }
  }

  /** Nothing removed yet. */
  lemma StrippedNone(g0: map<string, Gauge>, t: map<string, map<string, LabelValues>>)
    ensures StrippedDone(g0, t, {}) == g0
  {
    var a := StrippedDone(g0, t, {});
    forall n | n in g0 ensures a[n] == g0[n] {
      assert TrackedBy(t, {}, n) == {};
      assert a[n].series == g0[n].series;
    }
  }

  /** Nothing of `d` removed yet. */
  lemma StrippedStart(g0: map<string, Gauge>, t: map<string, map<string, LabelValues>>, done: set<string>, d: string)
    requires d in t
    ensures Stripped(g0, t, done, d, {}) == StrippedDone(g0, t, done)
  {
    var a := Stripped(g0, t, done, d, {});
    var b := StrippedDone(g0, t, done);
    forall n | n in g0 ensures a[n] == b[n] {
      assert a[n].series == b[n].series;
    }
  }

  /** Removing the tuple of one more series of `d`. */
  lemma StrippedStep(g0: map<string, Gauge>, t: map<string, map<string, LabelValues>>,
                     done: set<string>, d: string, doneNames: set<string>, n: string)
    requires d in t && n in g0 && n in t[d] && n !in doneNames
    ensures var s := Stripped(g0, t, done, d, doneNames);
      s[n := s[n].(series := s[n].series - {t[d][n]})] == Stripped(g0, t, done, d, doneNames + {n})
  {
    var s := Stripped(g0, t, done, d, doneNames);
    var a := s[n := s[n].(series := s[n].series - {t[d][n]})];
    var b := Stripped(g0, t, done, d, doneNames + {n});
    forall m | m in g0 ensures a[m] == b[m] {
      assert a[m].series == b[m].series;
    }
  }

  /** Retirement with every domain processed is `Retire`. */
  lemma RetireDone(g0: map<string, Gauge>, t: map<string, map<string, LabelValues>>)
    ensures StrippedDone(g0, t, t.Keys) == Retire(g0, t)
  {
  }

  /** The tuple removed next is still registered: it is registered at the
      start of the cycle and leads with `d`, while what was removed before
      leads with a domain already done or is another series of `d`. */
  lemma RemovalHitsRegistered(st0: State, g0: map<string, Gauge>, t: map<string, map<string, LabelValues>>,
                              done: set<string>, d: string, n: string, doneNames: set<string>)
    requires Cycle.Valid(st0) && g0 == st0.gauges && d !in done
    requires d in st0.track && d in t && n in t[d] && t[d] == st0.track[d] && n !in doneNames
    requires forall e :: e in t ==> t[e] == map[] || (e in st0.track && t[e] == st0.track[e])
    ensures n in g0 && t[d][n] in Stripped(g0, t, done, d, doneNames)[n].series
  {
    assert t[d][n] in g0[n].series;
  }
}
