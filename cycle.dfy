/** The reconciliation cycle of `job`: clear the tracker entries of the
    enumerated domains, remove every tuple still tracked, empty the tracker
    and publish every group of every active domain afresh. */
module Cycle {
  import opened Common
  import opened Collections
  import opened Registry

  /** Some domain of the enumeration carries this name. */
  predicate Enumerated(domains: seq<Domain>, name: string)
  {
    exists i :: 0 <= i < |domains| && domains[i].name == name
  }

  /** Some active domain of the enumeration carries this name. */
  predicate ActiveIn(domains: seq<Domain>, name: string)
  {
    exists i :: 0 <= i < |domains| && domains[i].active && domains[i].name == name
  }

  /** The tracker invariant: every tracked tuple is registered, and leads
      with the name of the domain it is tracked under. */
  predicate Valid(st: State)
  {
    Registered(st) && Consistent(st.track)
  }

  /** First step: the entry of every enumerated domain is emptied. */
  function ClearEnumerated(track: map<string, map<string, LabelValues>>, domains: seq<Domain>)
    : map<string, map<string, LabelValues>>
  {
    map d | d in track :: if Enumerated(domains, d) then map[] else track[d]
  }

  /** The tuples tracked for series `n` by the domains of `names`. */
  function TrackedBy(track: map<string, map<string, LabelValues>>, names: set<string>, n: string): set<LabelValues>
  {
    set d | d in names && d in track && n in track[d] :: track[d][n]
  }

  /** The tuples tracked for series `n`, over all domains. */
  function TrackedFor(track: map<string, map<string, LabelValues>>, n: string): set<LabelValues>
  {
    TrackedBy(track, track.Keys, n)
  }

  /** Second step: every tracked tuple is removed from its gauge. */
  function Retire(gauges: map<string, Gauge>, track: map<string, map<string, LabelValues>>): map<string, Gauge>
  {
    map n | n in gauges :: gauges[n].(series := gauges[n].series - TrackedFor(track, n))
  }

  /** The first `k` groups of one domain in turn, a failing group skipped. */
  function Groups(st: State, dom: Domain, k: nat): (r: State)
    requires k <= |Headers| && dom.name in st.track
    ensures r.track.Keys == st.track.Keys
    decreases k
  {
    if k == 0 then st else PublishGroup(Groups(st, dom, k - 1), dom, Headers[k - 1]).state
  }

  /** Last step: the enumerated domains in turn; an active one gets a fresh
      tracker entry and all its groups published. */
  function Collect(st: State, domains: seq<Domain>): State
    decreases |domains|
  {
    if domains == [] then st
    else
      var s := Collect(st, domains[..|domains| - 1]);
      var dom := domains[|domains| - 1];
      if dom.active then Groups(s.(track := s.track[dom.name := map[]]), dom, |Headers|) else s
  }

  /** One cycle: clear, retire, empty the tracker (`dom_list.clear()`), collect. */
  function RunCycle(st: State, domains: seq<Domain>): State
  {
    Collect(Retired(st, domains), domains)
  }

  lemma ExtendsRefl(st: State, dom: string)
    ensures Extends(st, st, dom)
  {
  }

  /** Publishing the groups of `dom` extends the state for `dom`. */
  lemma {:induction false} GroupsExtend(st: State, dom: Domain, k: nat)
    requires k <= |Headers| && dom.name in st.track
    ensures Extends(st, Groups(st, dom, k), dom.name)
    decreases k
  {
    if k == 0 {
      ExtendsRefl(st, dom.name);
    } else {
      GroupsExtend(st, dom, k - 1);
      var s := Groups(st, dom, k - 1);
      var h := Headers[k - 1];
      PublishGroupExtends(s, dom, h);
      ExtendsTrans(st, s, Groups(st, dom, k), dom.name);
    }
  }

  /** Publishing one group of `dom` extends the state for `dom`. */
  lemma PublishGroupExtends(st: State, dom: Domain, h: Header)
    requires dom.name in st.track
    ensures Extends(st, PublishGroup(st, dom, h).state, dom.name)
  {
    match GroupCollection(dom, h)
    case None =>
    case Some(c) =>
      GroupLabelled(dom, h);
      PublishExtends(st, dom.name, h, c);
  }

  /** A state that extends a valid one for some domain is valid. */
  lemma ExtendsValid(a: State, b: State, dom: string)
    requires Valid(a) && Extends(a, b, dom)
    ensures Valid(b)
  {
    forall d, n | d in b.track && n in b.track[d]
      ensures n in b.gauges && b.track[d][n] in b.gauges[n].series
      ensures |b.track[d][n]| > 0 && b.track[d][n][0] == Some(d)
    {
      if d != dom || (n in a.track[dom] && b.track[dom][n] == a.track[dom][n]) {
        assert n in a.gauges && a.track[d][n] in a.gauges[n].series.Keys;
      }
    }
  }

  /** Every series key `b` has and `a` has not leads with the name of an
      active domain of the enumeration. */
  predicate NewKeysActive(a: State, b: State, domains: seq<Domain>)
  {
    forall n, k: LabelValues :: n in b.gauges && k in b.gauges[n].series && !(n in a.gauges && k in a.gauges[n].series) ==>
      |k| > 0 && k[0].Some? && ActiveIn(domains, k[0].value)
  }

  /** `b` tracks the domains `a` tracks and the active ones of the enumeration. */
  ghost predicate TrackerNames(a: State, b: State, domains: seq<Domain>)
  {
    forall d :: d in b.track <==> d in a.track || ActiveIn(domains, d)
  }

  /** What collecting guarantees: nothing is removed, every new series key
      leads with the name of an active enumerated domain, the tracker gains
      exactly the active domains' names and stays valid. */
  ghost predicate CollectSafe(st: State, domains: seq<Domain>, r: State)
  {
    Grows(st, r) && NewKeysActive(st, r, domains) && TrackerNames(st, r, domains) && Valid(r)
  }

  /** An active domain of a prefix is an active domain of the whole. */
  lemma ActiveInPrefix(domains: seq<Domain>, d: string)
    requires domains != [] && ActiveIn(domains[..|domains| - 1], d)
    ensures ActiveIn(domains, d)
  {
    var init := domains[..|domains| - 1];
    var i :| 0 <= i < |init| && init[i].active && init[i].name == d;
    assert domains[i] == init[i];
  }

  /** Emptying one tracker entry keeps the invariant. */
  lemma ResetValid(s: State, name: string)
    requires Valid(s)
    ensures Valid(s.(track := s.track[name := map[]]))
  {
  }

  /** An inactive last domain changes nothing. */
  lemma InactiveStep(st: State, s: State, domains: seq<Domain>)
    requires domains != [] && !domains[|domains| - 1].active
    requires CollectSafe(st, domains[..|domains| - 1], s)
    ensures CollectSafe(st, domains, s)
  {
    var init := domains[..|domains| - 1];
    forall d | ActiveIn(domains, d) ensures ActiveIn(init, d) {
      var i :| 0 <= i < |domains| && domains[i].active && domains[i].name == d;
      assert i < |init| && init[i] == domains[i];
    }
    forall d | ActiveIn(init, d) ensures ActiveIn(domains, d) {
      ActiveInPrefix(domains, d);
    }
  }

  /** From an extension for `dom` to collection safety, on an enumeration
      whose last domain `dom` is active. */
  lemma SafeStep(st: State, s: State, s': State, r: State, domains: seq<Domain>, dom: Domain)
    requires domains != [] && dom == domains[|domains| - 1] && dom.active
    requires CollectSafe(st, domains[..|domains| - 1], s)
    requires s' == s.(track := s.track[dom.name := map[]])
    requires Extends(s', r, dom.name) && Valid(r)
    ensures CollectSafe(st, domains, r)
  {
    var init := domains[..|domains| - 1];
    assert ActiveIn(domains, dom.name);
    SafeGrows(st, s, s', r, dom.name);
    forall n, k: LabelValues | n in r.gauges && k in r.gauges[n].series && !(n in st.gauges && k in st.gauges[n].series)
      ensures |k| > 0 && k[0].Some? && ActiveIn(domains, k[0].value)
    {
      if n in s.gauges && k in s.gauges[n].series {
        ActiveInPrefix(domains, k[0].value);
      }
    }
    forall d | d in r.track || ActiveIn(domains, d)
      ensures d in r.track <==> d in st.track || ActiveIn(domains, d)
    {
      if ActiveIn(init, d) {
        ActiveInPrefix(domains, d);
      }
      if ActiveIn(domains, d) && d != dom.name {
        var i :| 0 <= i < |domains| && domains[i].active && domains[i].name == d;
        assert i < |init| && init[i] == domains[i];
      }
    }
  }

  lemma SafeGrows(st: State, s: State, s': State, r: State, dom: string)
    requires Grows(st, s) && s' == s.(track := s.track[dom := map[]]) && Grows(s', r)
    ensures Grows(st, r)
  {
    forall n | n in st.gauges ensures n in r.gauges && st.gauges[n].series.Keys <= r.gauges[n].series.Keys {
      assert n in s'.gauges && st.gauges[n].series.Keys <= s'.gauges[n].series.Keys;
    }
  }

  /** Collecting keeps the state valid and only adds what active domains
      publish. */
  lemma {:induction false} CollectIsSafe(st: State, domains: seq<Domain>)
    requires Valid(st)
    ensures CollectSafe(st, domains, Collect(st, domains))
    decreases |domains|
  {
    if domains != [] {
      var init := domains[..|domains| - 1];
      var dom := domains[|domains| - 1];
      CollectIsSafe(st, init);
      var s := Collect(st, init);
      if dom.active {
        var s' := s.(track := s.track[dom.name := map[]]);
        ResetValid(s, dom.name);
        GroupsExtend(s', dom, |Headers|);
        var r := Groups(s', dom, |Headers|);
        ExtendsValid(s', r, dom.name);
        SafeStep(st, s, s', r, domains, dom);
      } else {
        InactiveStep(st, s, domains);
      }
    }
  }

  /** After a cycle the tracker holds exactly the names of the enumerated
      domains that are active, and the invariant holds. */
  lemma CycleTracker(st: State, domains: seq<Domain>)
    ensures var r := RunCycle(st, domains);
      && (forall d :: d in r.track <==> ActiveIn(domains, d))
      && Valid(r)
  {
    var start := Retired(st, domains);
    CollectIsSafe(start, domains);
  }

  /** The state a cycle starts collecting from. */
  function Retired(st: State, domains: seq<Domain>): State
  {
    State(Retire(st.gauges, ClearEnumerated(st.track, domains)), map[])
  }

  /** One tracked tuple of an absent domain is gone after the cycle. */
  lemma RetiredPair(st: State, domains: seq<Domain>, d: string, n: string)
    requires Consistent(st.track)
    requires d in st.track && !Enumerated(domains, d) && n in st.track[d]
    ensures var r := RunCycle(st, domains);
      n in r.gauges ==> st.track[d][n] !in r.gauges[n].series
  {
    var start := Retired(st, domains);
    CollectIsSafe(start, domains);
    var r := RunCycle(st, domains);
    var k := st.track[d][n];
    var cleared := ClearEnumerated(st.track, domains);
    assert d in cleared && cleared[d] == st.track[d];
    assert k in TrackedFor(cleared, n);
  }

  /** Retirement: every tuple tracked for a domain absent from the
      enumeration is gone from its gauge after the cycle. */
  lemma CycleRetires(st: State, domains: seq<Domain>)
    requires Consistent(st.track)
    ensures var r := RunCycle(st, domains);
      forall d, n :: d in st.track && !Enumerated(domains, d) && n in st.track[d] && n in r.gauges ==>
        st.track[d][n] !in r.gauges[n].series
  {
    forall d, n | d in st.track && !Enumerated(domains, d) && n in st.track[d] {
      RetiredPair(st, domains, d, n);
    }
  }

  /** Removals hit only tuples tracked for absent domains: every other
      series of the registry is still there after the cycle. */
  lemma CycleKeepsUntracked(st: State, domains: seq<Domain>)
    ensures var r := RunCycle(st, domains);
      forall n, k ::
        (n in st.gauges && k in st.gauges[n].series &&
         forall d :: d in st.track && !Enumerated(domains, d) && n in st.track[d] ==> st.track[d][n] != k)
        ==> n in r.gauges && k in r.gauges[n].series
  {
    var cleared := ClearEnumerated(st.track, domains);
    var start := Retired(st, domains);
    CollectIsSafe(start, domains);
    var r := RunCycle(st, domains);
    forall n, k | n in st.gauges && k in st.gauges[n].series &&
        (forall d :: d in st.track && !Enumerated(domains, d) && n in st.track[d] ==> st.track[d][n] != k)
      ensures n in r.gauges && k in r.gauges[n].series
    {
      assert k !in TrackedFor(cleared, n);
      assert k in start.gauges[n].series;
      GrowsAt(start, r, n, k);
    }
  }

  /** As written, a domain still enumerated but no longer active loses its
      tracker entry while its series stay registered, with no record left to
      remove them. */
  lemma CycleOrphansInactive(st: State, domains: seq<Domain>, d: string, n: string)
    requires Consistent(st.track)
    requires d in st.track && n in st.track[d] && n in st.gauges && st.track[d][n] in st.gauges[n].series
    requires Enumerated(domains, d) && !ActiveIn(domains, d)
    ensures var r := RunCycle(st, domains);
      d !in r.track && n in r.gauges && st.track[d][n] in r.gauges[n].series
  {
    CycleTracker(st, domains);
    CycleKeepsUntracked(st, domains);
    var k := st.track[d][n];
    forall d' | d' in st.track && !Enumerated(domains, d') && n in st.track[d']
      ensures st.track[d'][n] != k
    {
      assert d' != d;
    }
  }

  /** As written, only the last device of a metric is tracked: publishing
      a metric whose first and last dimensions differ leaves the first
      dimension's series registered after any later cycle that no longer
      enumerates the domain. */
  lemma EarlierDeviceOutlivesDomain(st: State, dom: string, name: string, dims: seq<Dimension>, domains: seq<Domain>)
    requires Valid(st) && dom in st.track && DimsLead(dims, dom) && |dims| >= 2
    requires Values(dims[0].labels) != Values(dims[|dims| - 1].labels)
    requires !Enumerated(domains, dom)
    ensures PublishMetric(st, dom, name, dims).Some?
    ensures var s := PublishMetric(st, dom, name, dims).value;
      var r := RunCycle(s, domains);
      && Values(dims[0].labels) in s.gauges[name].series
      && name in r.gauges && Values(dims[0].labels) in r.gauges[name].series
  {
    PublishMetricEffect(st, dom, name, dims);
    PublishMetricExtends(st, dom, name, dims);
    var s := PublishMetric(st, dom, name, dims).value;
    ExtendsValid(st, s, dom);
    SetAllFrame(WithGauge(st, name, dims), dom, name, dims);
    var k := Values(dims[0].labels);
    assert |k| > 0 && k[0] == Some(dom) by {
      assert dims[0].labels[0] == Label("domain", Some(dom));
    }
    CycleKeepsUntracked(s, domains);
    forall d | d in s.track && !Enumerated(domains, d) && name in s.track[d]
      ensures s.track[d][name] != k
    {
      if d == dom {
        assert s.track[dom][name] == Values(dims[|dims| - 1].labels);
      }
    }
  }

  /** Groups that all fail to extract leave the state as it was. */
  lemma {:induction false} GroupsFail(st: State, dom: Domain, k: nat)
    requires k <= |Headers| && dom.name in st.track
    requires forall g :: 0 <= g < |Headers| ==> GroupCollection(dom, Headers[g]).None?
    ensures Groups(st, dom, k) == st
    decreases k
  {
    if k > 0 {
      GroupsFail(st, dom, k - 1);
    }
  }

  /** As written, a domain that is active but has every group fail in its
      last cycle keeps the series of its previous cycle: its record was
      cleared and nothing was recorded afresh, so once the domain is no
      longer enumerated no cycle removes them. */
  lemma FailedGroupOutlivesDomain(st: State, dom: Domain, n: string, later: seq<Domain>)
    requires Valid(st) && dom.name in st.track && n in st.track[dom.name]
    requires dom.active && forall g :: 0 <= g < |Headers| ==> GroupCollection(dom, Headers[g]).None?
    requires !Enumerated(later, dom.name)
    ensures var s := RunCycle(st, [dom]);
      var r := RunCycle(s, later);
      && n in s.gauges && st.track[dom.name][n] in s.gauges[n].series
      && s.track == map[dom.name := map[]]
      && n in r.gauges && st.track[dom.name][n] in r.gauges[n].series
  {
    var k := st.track[dom.name][n];
    CycleKeepsUntracked(st, [dom]);
    forall d | d in st.track && !Enumerated([dom], d) && n in st.track[d]
      ensures st.track[d][n] != k
    {
      assert [dom][0].name == dom.name;
    }
    var start := Retired(st, [dom]);
    assert [dom][..0] == [];
    var s' := start.(track := start.track[dom.name := map[]]);
    GroupsFail(s', dom, |Headers|);
    assert Collect(start, [dom][..0]) == start;
    assert RunCycle(st, [dom]) == Collect(start, [dom]) == Groups(s', dom, |Headers|);
    var s := RunCycle(st, [dom]);
    CycleKeepsUntracked(s, later);
  }

  /** A series tracked for an enumerated domain survives the cycle. */
  lemma KeptWhileEnumerated(st: State, domains: seq<Domain>, d: string, n: string)
    requires Valid(st) && d in st.track && n in st.track[d] && Enumerated(domains, d)
    ensures var r := RunCycle(st, domains);
      n in r.gauges && st.track[d][n] in r.gauges[n].series
  {
    var k := st.track[d][n];
    CycleKeepsUntracked(st, domains);
    forall d' | d' in st.track && !Enumerated(domains, d') && n in st.track[d']
      ensures st.track[d'][n] != k
    {
      assert d' != d;
    }
  }

  /** A series of domain `d` that `d` does not track, in a consistent
      tracker, is tracked by no one and survives any cycle. */
  lemma KeptUntracked(st: State, domains: seq<Domain>, d: string, n: string, k: LabelValues)
    requires Consistent(st.track) && n in st.gauges && k in st.gauges[n].series && |k| > 0 && k[0] == Some(d)
    requires !(d in st.track && n in st.track[d] && st.track[d][n] == k)
    ensures var r := RunCycle(st, domains);
      n in r.gauges && k in r.gauges[n].series
  {
    CycleKeepsUntracked(st, domains);
    forall d' | d' in st.track && !Enumerated(domains, d') && n in st.track[d']
      ensures st.track[d'][n] != k
    {
      assert st.track[d'][n][0] == Some(d');
    }
  }

  /** As written, a series whose label tuple a domain stops publishing
      (its tenant labels resolve differently, a device is detached, a key
      disappears) is never removed: the domain's record is cleared while it
      is enumerated, and the new cycle records only the new tuple, so once
      the domain is no longer enumerated nothing tracked removes the old
      series. */
  lemma ChangedTupleOutlivesDomain(st: State, domains: seq<Domain>, later: seq<Domain>, d: string, n: string)
    requires Valid(st) && d in st.track && n in st.track[d]
    requires Enumerated(domains, d) && !Enumerated(later, d)
    ensures var k := st.track[d][n];
      var s := RunCycle(st, domains);
      var r := RunCycle(s, later);
      && n in s.gauges && k in s.gauges[n].series
      && (!(d in s.track && n in s.track[d] && s.track[d][n] == k) ==> n in r.gauges && k in r.gauges[n].series)
  {
    var k := st.track[d][n];
    KeptWhileEnumerated(st, domains, d, n);
    var s := RunCycle(st, domains);
    CycleTracker(st, domains);
    if !(d in s.track && n in s.track[d] && s.track[d][n] == k) {
      KeptUntracked(s, later, d, n, k);
    }
  }

  /** A group with dimensions for every metric is published within the
      groups of its domain, whatever the other groups do. */
  lemma {:induction false} GroupsPublish(st: State, dom: Domain, k: nat, g: nat, c: Collection)
    requires k <= |Headers| && dom.name in st.track && g < k
    requires GroupCollection(dom, Headers[g]) == Some(c) && EveryMetricHasDims(c)
    ensures AllRegistered(Groups(st, dom, k), Headers[g], c)
    decreases k
  {
    var s := Groups(st, dom, k - 1);
    var r := Groups(st, dom, k);
    assert r == PublishGroup(s, dom, Headers[k - 1]).state;
    if g == k - 1 {
      PublishComplete(s, dom.name, Headers[g], c);
      assert r == Publish(s, dom.name, Headers[g], c).state;
    } else {
      GroupsPublish(st, dom, k - 1, g, c);
      PublishGroupExtends(s, dom, Headers[k - 1]);
      AllRegisteredGrows(s, r, Headers[g], c);
    }
  }

  /** Failure isolation: for every active domain of the enumeration, every
      group whose extraction succeeds with dimensions for every metric is
      registered after collecting, whatever fails in other groups or domains. */
  lemma {:induction false} CollectPublishes(st: State, domains: seq<Domain>, i: nat, g: nat, c: Collection)
    requires Valid(st)
    requires i < |domains| && domains[i].active && g < |Headers|
    requires GroupCollection(domains[i], Headers[g]) == Some(c) && EveryMetricHasDims(c)
    ensures AllRegistered(Collect(st, domains), Headers[g], c)
    decreases |domains|
  {
    var init := domains[..|domains| - 1];
    var dom := domains[|domains| - 1];
    var s := Collect(st, init);
    var s' := s.(track := s.track[dom.name := map[]]);
    if i == |domains| - 1 {
      GroupsPublish(s', dom, |Headers|, g, c);
    } else {
      assert init[i] == domains[i];
      CollectPublishes(st, init, i, g, c);
      if dom.active {
        CollectIsSafe(st, init);
        GroupsExtend(s', dom, |Headers|);
        AllRegisteredGrows(s, Groups(s', dom, |Headers|), Headers[g], c);
      }
    }
  }

  /** Failure isolation over a whole cycle: every group of an active
      enumerated domain whose extraction succeeds with dimensions for every
      metric has all its series registered afterwards. */
  lemma CyclePublishes(st: State, domains: seq<Domain>, i: nat, g: nat, c: Collection)
    requires i < |domains| && domains[i].active && g < |Headers|
    requires GroupCollection(domains[i], Headers[g]) == Some(c) && EveryMetricHasDims(c)
    ensures AllRegistered(RunCycle(st, domains), Headers[g], c)
  {
    CollectPublishes(Retired(st, domains), domains, i, g, c);
  }
}
