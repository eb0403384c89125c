/** The tenant resolution cache: instance uuid to tenant id and instance
    uuid to tenant (project) name, refilled in bulk from the host-scoped
    instance listing or lazily one instance at a time, and read through two
    resolvers that give up after three attempts. */
module Tenants {
  import opened Common

  /** What the compute service returns for one instance. */
  datatype Server = Server(id: string, tenantId: string)

  /** `max_retries` of both resolvers. */
  const MaxRetries: nat := 3

  /** One cache entry: the instance id it is keyed by and the value stored. */
  type Entry = (string, string)

  /** A dictionary filled entry by entry, in order; a later entry with the same
      key overwrites an earlier one. */
  function Fill(entries: seq<Entry>): map<string, string>
    decreases |entries|
  {
    if entries == [] then map[]
    else Fill(entries[..|entries| - 1])[entries[|entries| - 1].0 := entries[|entries| - 1].1]
  }

  /** The keys of a filled dictionary are exactly the keys of the entries, and
      each key holds the value of the last entry carrying it. */
  lemma {:induction false} FillExact(entries: seq<Entry>, key: string)
    ensures key in Fill(entries) <==> exists i :: 0 <= i < |entries| && entries[i].0 == key
    ensures key in Fill(entries) ==>
      exists i :: 0 <= i < |entries| && entries[i].0 == key && Fill(entries)[key] == entries[i].1 &&
        forall j :: i < j < |entries| ==> entries[j].0 != key
  {
    if entries != [] {
      var n := |entries| - 1;
      var init := entries[..n];
      FillExact(init, key);
      assert forall j :: 0 <= j < n ==> init[j] == entries[j];
      if entries[n].0 != key && key in Fill(init) {
        var i :| 0 <= i < |init| && init[i].0 == key && Fill(init)[key] == init[i].1 &&
          forall j :: i < j < |init| ==> init[j].0 != key;
        assert entries[i].0 == key;
      }
    }
  }

  /** The id entries of a host-scoped listing: `srv.id` to `srv.tenant_id`. */
  function IdEntries(listing: seq<Server>): seq<Entry>
  {
    seq(|listing|, i requires 0 <= i < |listing| => (listing[i].id, listing[i].tenantId))
  }

  /** After a bulk id refill, the cache holds exactly the listed instance ids,
      each with the tenant of the last listing entry for that id. */
  lemma IdCacheExact(listing: seq<Server>, key: string)
    ensures key in Fill(IdEntries(listing)) <==> exists i :: 0 <= i < |listing| && listing[i].id == key
    ensures key in Fill(IdEntries(listing)) ==>
      exists i :: 0 <= i < |listing| && listing[i].id == key && Fill(IdEntries(listing))[key] == listing[i].tenantId &&
        forall j :: i < j < |listing| ==> listing[j].id != key
  {
    var entries := IdEntries(listing);
    assert |entries| == |listing|;
    assert forall i :: 0 <= i < |listing| ==> entries[i] == (listing[i].id, listing[i].tenantId);
    FillExact(entries, key);
  }

  /** Every listed instance's tenant is known to the identity service. */
  predicate Known(listing: seq<Server>, projects: map<string, string>)
  {
    forall i :: 0 <= i < |listing| ==> listing[i].tenantId in projects
  }

  /** The name entries of a host-scoped listing: `srv.id` to the name of the
      project `srv.tenant_id`, `projects` standing for the identity service. */
  function NameEntries(listing: seq<Server>, projects: map<string, string>): seq<Entry>
    requires Known(listing, projects)
  {
    seq(|listing|, i requires 0 <= i < |listing| => (listing[i].id, projects[listing[i].tenantId]))
  }

  /** After a complete bulk name refill, the cache holds exactly the listed
      instance ids, each with the project name of the last listing entry for
      that id. */
  lemma NameCacheExact(listing: seq<Server>, projects: map<string, string>, key: string)
    requires Known(listing, projects)
    ensures key in Fill(NameEntries(listing, projects)) <==> exists i :: 0 <= i < |listing| && listing[i].id == key
    ensures key in Fill(NameEntries(listing, projects)) ==>
      exists i :: 0 <= i < |listing| && listing[i].id == key &&
        Fill(NameEntries(listing, projects))[key] == projects[listing[i].tenantId] &&
        forall j :: i < j < |listing| ==> listing[j].id != key
  {
    var entries := NameEntries(listing, projects);
    assert |entries| == |listing|;
    assert forall i :: 0 <= i < |listing| ==> entries[i] == (listing[i].id, projects[listing[i].tenantId]);
    FillExact(entries, key);
  }

  /** The entry a single-instance id lookup adds, or None when the call raised. */
  function IdReply(reply: Option<Server>): Option<Entry>
  {
    match reply
    case None => None
    case Some(s) => Some((s.id, s.tenantId))
  }

  /** The entry a single-instance name lookup adds, or None when either the
      instance lookup or the project lookup raised. */
  function NameReply(reply: Option<Server>, projects: map<string, string>): Option<Entry>
  {
    match reply
    case None => None
    case Some(s) => if s.tenantId in projects then Some((s.id, projects[s.tenantId])) else None
  }

  function IdReplies(replies: seq<Option<Server>>): seq<Option<Entry>>
  {
    seq(|replies|, i requires 0 <= i < |replies| => IdReply(replies[i]))
  }

  function NameReplies(replies: seq<Option<Server>>, projects: map<string, string>): seq<Option<Entry>>
  {
    seq(|replies|, i requires 0 <= i < |replies| => NameReply(replies[i], projects))
  }

  /** How a resolver ends: with the cached value, with `None` after the last
      attempt, or by letting the exception of a remote lookup escape. */
  datatype Outcome = Resolved(value: string) | Unresolved | LookupFailed

  /** A resolver's outcome, the cache it leaves and how many single-instance
      lookups it issued. */
  datatype Resolution = Resolution(outcome: Outcome, cache: map<string, string>, lookups: nat)

  /** The resolver's retry loop from attempt `attempt` on; `replies[k]` is the
      answer to the k-th single-instance lookup. */
  function ResolveFrom(cache: map<string, string>, uuid: string, replies: seq<Option<Entry>>, attempt: nat): (r: Resolution)
    requires attempt <= MaxRetries <= |replies|
    ensures attempt <= r.lookups <= MaxRetries
    decreases MaxRetries - attempt
  {
    if attempt == MaxRetries then Resolution(Unresolved, cache, attempt)
    else if uuid in cache then Resolution(Resolved(cache[uuid]), cache, attempt)
    else match replies[attempt]
      case None => Resolution(LookupFailed, cache, attempt + 1)
      case Some(e) => ResolveFrom(cache[e.0 := e.1], uuid, replies, attempt + 1)
  }

  /** The cache after lookups `from` up to `to` (exclusive) were applied in
      turn; a lookup that raised adds nothing. */
  function Refilled(cache: map<string, string>, replies: seq<Option<Entry>>, from: nat, to: nat): map<string, string>
    requires from <= to <= |replies|
    decreases (to as int) - (from as int)
  {
    if from == to then cache
    else match replies[from]
      case None => Refilled(cache, replies, from + 1, to)
      case Some(e) => Refilled(cache[e.0 := e.1], replies, from + 1, to)
  }

  /** The retry bound: at most three lookups, each issued only after a miss,
      so the resolver stops at the first hit; the cache left is the old one
      refilled by the lookups issued; a resolved value is what the cache then
      holds, found before the attempts ran out; giving up happens only after
      the third lookup and a raised lookup is the last one issued. */
  lemma {:induction false} ResolveBounded(cache: map<string, string>, uuid: string, replies: seq<Option<Entry>>, attempt: nat)
    requires attempt <= MaxRetries <= |replies|
    ensures var r := ResolveFrom(cache, uuid, replies, attempt);
      && attempt <= r.lookups <= MaxRetries
      && (r.outcome.Resolved? ==> uuid in r.cache && r.cache[uuid] == r.outcome.value)
      && (r.outcome.Unresolved? ==> r.lookups == MaxRetries)
      && (r.outcome.LookupFailed? ==> attempt < r.lookups && replies[r.lookups - 1] == None)
      && (forall k :: attempt <= k < r.lookups && !(r.outcome.LookupFailed? && k == r.lookups - 1) ==> replies[k].Some?)
      && r.cache == Refilled(cache, replies, attempt, r.lookups)
      && (forall k :: attempt <= k < r.lookups ==> uuid !in Refilled(cache, replies, attempt, k))
      && (r.outcome.Resolved? ==> r.lookups < MaxRetries)
    decreases MaxRetries - attempt
  {
    if attempt < MaxRetries && uuid !in cache && replies[attempt].Some? {
      var e := replies[attempt].value;
      var c := cache[e.0 := e.1];
      ResolveBounded(c, uuid, replies, attempt + 1);
      var r := ResolveFrom(c, uuid, replies, attempt + 1);
      forall k | attempt + 1 <= k <= r.lookups
        ensures Refilled(cache, replies, attempt, k) == Refilled(c, replies, attempt + 1, k)
      {
      }
    }
  }

  /** A lazy refill only inserts or overwrites the keys the lookups returned:
      every other entry keeps its value, and no other key appears. */
  lemma {:induction false} ResolveTouchesOnlyReplies(cache: map<string, string>, uuid: string, replies: seq<Option<Entry>>, attempt: nat)
    requires attempt <= MaxRetries <= |replies|
    ensures var r := ResolveFrom(cache, uuid, replies, attempt);
      && r.lookups <= MaxRetries
      && (forall k :: k in cache && (forall i :: attempt <= i < r.lookups && replies[i].Some? ==> replies[i].value.0 != k) ==>
            k in r.cache && r.cache[k] == cache[k])
      && (forall k :: k in r.cache ==> k in cache || exists i :: attempt <= i < r.lookups && replies[i] == Some((k, r.cache[k])))
    decreases MaxRetries - attempt
  {
    var r := ResolveFrom(cache, uuid, replies, attempt);
    if attempt < MaxRetries && uuid !in cache && replies[attempt].Some? {
      var e := replies[attempt].value;
      var c := cache[e.0 := e.1];
      ResolveTouchesOnlyReplies(c, uuid, replies, attempt + 1);
      forall k | k in r.cache
        ensures k in cache || exists i :: attempt <= i < r.lookups && replies[i] == Some((k, r.cache[k]))
      {
        if k !in cache && k !in c {
          var i :| attempt + 1 <= i < r.lookups && replies[i] == Some((k, r.cache[k]));
        } else if k !in cache {
          assert k == e.0;
          if forall i :: attempt + 1 <= i < r.lookups && replies[i].Some? ==> replies[i].value.0 != k {
            assert replies[attempt] == Some((k, r.cache[k]));
          } else {
            var i :| attempt + 1 <= i < r.lookups && replies[i].Some? && replies[i].value.0 == k;
            var j := LastReplyFor(c, uuid, replies, attempt + 1, k, i);
          }
        }
      }
    }
  }

  /** Helper for the lemma above: a key a later lookup returned ends up with
      the value of one of the lookups. */
  lemma {:induction false} LastReplyFor(cache: map<string, string>, uuid: string, replies: seq<Option<Entry>>, attempt: nat, k: string, i: nat)
      returns (j: nat)
    requires attempt <= MaxRetries <= |replies|
    requires attempt <= i < ResolveFrom(cache, uuid, replies, attempt).lookups
    requires replies[i].Some? && replies[i].value.0 == k
    ensures var r := ResolveFrom(cache, uuid, replies, attempt);
      k in r.cache && attempt <= j < r.lookups && replies[j] == Some((k, r.cache[k]))
    decreases MaxRetries - attempt
  {
    var e := replies[attempt].value;
    var c := cache[e.0 := e.1];
    var r := ResolveFrom(cache, uuid, replies, attempt);
    assert r == ResolveFrom(c, uuid, replies, attempt + 1);
    ResolveBounded(c, uuid, replies, attempt + 1);
    if i > attempt {
      j := LastReplyFor(c, uuid, replies, attempt + 1, k, i);
    } else if exists i' :: attempt + 1 <= i' < r.lookups && replies[i'].Some? && replies[i'].value.0 == k {
      var i' :| attempt + 1 <= i' < r.lookups && replies[i'].Some? && replies[i'].value.0 == k;
      j := LastReplyFor(c, uuid, replies, attempt + 1, k, i');
    } else {
      ResolveTouchesOnlyReplies(c, uuid, replies, attempt + 1);
      j := attempt;
    }
  }

  /** A miss refilled by the first lookup is served by the second attempt. */
  lemma LazyRefillResolves(cache: map<string, string>, uuid: string, replies: seq<Option<Entry>>, v: string)
    requires MaxRetries <= |replies|
    requires uuid !in cache && replies[0] == Some((uuid, v))
    ensures ResolveFrom(cache, uuid, replies, 0) == Resolution(Resolved(v), cache[uuid := v], 1)
  {
  }

  /** The entry a third lookup adds is never read back: when the first two
      lookups returned other instances, the resolver answers `None` even though
      the third lookup put the requested uuid into the cache. */
  lemma ThirdLookupNeverRead(cache: map<string, string>, uuid: string, replies: seq<Option<Entry>>, v: string)
    requires MaxRetries <= |replies|
    requires uuid !in cache
    requires replies[0].Some? && replies[0].value.0 != uuid
    requires replies[1].Some? && replies[1].value.0 != uuid
    requires replies[2] == Some((uuid, v))
    ensures var r := ResolveFrom(cache, uuid, replies, 0);
      r.outcome == Unresolved && r.lookups == MaxRetries && uuid in r.cache && r.cache[uuid] == v
  {
    var c1 := cache[replies[0].value.0 := replies[0].value.1];
    var c2 := c1[replies[1].value.0 := replies[1].value.1];
    assert ResolveFrom(cache, uuid, replies, 0) == ResolveFrom(c1, uuid, replies, 1);
    assert ResolveFrom(c1, uuid, replies, 1) == ResolveFrom(c2, uuid, replies, 2);
  }

  /** The two module-level caches, updated in place. */
  class TenantCache {
    var ids: map<string, string>
    var names: map<string, string>

    constructor ()
      ensures ids == map[] && names == map[]
    {
      ids := map[];
      names := map[];
    }

    /** `add_tenant_instance_relation`: one instance lookup; `reply` is its
        answer, None when it raised (then nothing changes). */
    method AddTenant(reply: Option<Server>) returns (ok: bool)
      modifies this
      ensures ok == reply.Some?
      ensures ids == if ok then old(ids)[reply.value.id := reply.value.tenantId] else old(ids)
      ensures names == old(names)
    {
      ok := reply.Some?;
      if ok {
        ids := ids[reply.value.id := reply.value.tenantId];
      }
    }

    /** `update_tenant_instance_relation`: clear, then fill from the
        host-scoped listing. */
    method UpdateTenants(listing: seq<Server>)
      modifies this
      ensures ids == Fill(IdEntries(listing))
      ensures names == old(names)
    {
      ids := map[];
      for i := 0 to |listing|
        invariant ids == Fill(IdEntries(listing[..i]))
        invariant names == old(names)
      {
        ghost var next := IdEntries(listing[..i + 1]);
        assert next[..i] == IdEntries(listing[..i]);
        ids := ids[listing[i].id := listing[i].tenantId];
      }
      assert listing[..|listing|] == listing;
    }

    /** `add_tenant_name_instance_relation`: an instance lookup followed by a
        project lookup; either may raise, and then nothing changes. */
    method AddTenantName(reply: Option<Server>, projects: map<string, string>) returns (ok: bool)
      modifies this
      ensures ok == (reply.Some? && reply.value.tenantId in projects)
      ensures names == if ok then old(names)[reply.value.id := projects[reply.value.tenantId]] else old(names)
      ensures ids == old(ids)
    {
      ok := reply.Some? && reply.value.tenantId in projects;
      if ok {
        names := names[reply.value.id := projects[reply.value.tenantId]];
      }
    }

    /** `update_tenant_name_instance_relation`: clear, then fill from the
        listing with one project lookup per instance. A project lookup that
        raises stops the refill, leaving the entries of the instances before it. */
    method UpdateTenantNames(listing: seq<Server>, projects: map<string, string>) returns (ok: bool)
      modifies this
      ensures ok == Known(listing, projects)
      ensures ok ==> names == Fill(NameEntries(listing, projects))
      ensures !ok ==>
        exists n :: 0 <= n < |listing| && listing[n].tenantId !in projects &&
          Known(listing[..n], projects) && names == Fill(NameEntries(listing[..n], projects))
      ensures ids == old(ids)
    {
      names := map[];
      for i := 0 to |listing|
        invariant Known(listing[..i], projects)
        invariant names == Fill(NameEntries(listing[..i], projects))
        invariant ids == old(ids)
      {
        if listing[i].tenantId !in projects {
          assert !Known(listing, projects);
          return false;
        }
        assert Known(listing[..i + 1], projects);
        ghost var next := NameEntries(listing[..i + 1], projects);
        assert next[..i] == NameEntries(listing[..i], projects);
        names := names[listing[i].id := projects[listing[i].tenantId]];
      }
      assert listing[..|listing|] == listing;
      ok := true;
    }

    /** `update_tenant`: both bulk refreshes, each from its own listing call. */
    method RefreshAll(idListing: seq<Server>, nameListing: seq<Server>, projects: map<string, string>) returns (ok: bool)
      modifies this
      ensures ids == Fill(IdEntries(idListing))
      ensures ok == Known(nameListing, projects)
      ensures ok ==> names == Fill(NameEntries(nameListing, projects))
      ensures !ok ==>
        exists n :: 0 <= n < |nameListing| && nameListing[n].tenantId !in projects &&
          Known(nameListing[..n], projects) && names == Fill(NameEntries(nameListing[..n], projects))
    {
      UpdateTenants(idListing);
      ok := UpdateTenantNames(nameListing, projects);
    }

    /** `get_tenant`: read the id cache; on a miss issue one lookup (the
        `replies[k]` answer of the k-th) and read again, three attempts in all. */
    method GetTenant(uuid: string, replies: seq<Option<Server>>) returns (outcome: Outcome, lookups: nat)
      requires MaxRetries <= |replies|
      modifies this
      ensures Resolution(outcome, ids, lookups) == ResolveFrom(old(ids), uuid, IdReplies(replies), 0)
      ensures lookups <= MaxRetries
      ensures uuid in old(ids) ==> outcome == Resolved(old(ids)[uuid]) && lookups == 0 && ids == old(ids)
      ensures outcome.Resolved? ==> uuid in ids && ids[uuid] == outcome.value
      ensures names == old(names)
    {
      ghost var r := IdReplies(replies);
      ResolveBounded(ids, uuid, r, 0);
      lookups := 0;
      for i := 0 to MaxRetries
        invariant lookups == i
        invariant ResolveFrom(old(ids), uuid, r, 0) == ResolveFrom(ids, uuid, r, i)
        invariant names == old(names)
      {
        if uuid in ids {
          return Resolved(ids[uuid]), lookups;
        }
        var ok := AddTenant(replies[i]);
        lookups := lookups + 1;
        if !ok {
          return LookupFailed, lookups;
        }
      }
      outcome := Unresolved;
    }

    /** `get_tenant_name`: the same retry loop over the name cache. */
    method GetTenantName(uuid: string, replies: seq<Option<Server>>, projects: map<string, string>)
        returns (outcome: Outcome, lookups: nat)
      requires MaxRetries <= |replies|
      modifies this
      ensures Resolution(outcome, names, lookups) == ResolveFrom(old(names), uuid, NameReplies(replies, projects), 0)
      ensures lookups <= MaxRetries
      ensures uuid in old(names) ==> outcome == Resolved(old(names)[uuid]) && lookups == 0 && names == old(names)
      ensures outcome.Resolved? ==> uuid in names && names[uuid] == outcome.value
      ensures ids == old(ids)
    {
      ghost var r := NameReplies(replies, projects);
      ResolveBounded(names, uuid, r, 0);
      lookups := 0;
      for i := 0 to MaxRetries
        invariant lookups == i
        invariant ResolveFrom(old(names), uuid, r, 0) == ResolveFrom(names, uuid, r, i)
        invariant ids == old(ids)
      {
        if uuid in names {
          return Resolved(names[uuid]), lookups;
        }
        var ok := AddTenantName(replies[i], projects);
        lookups := lookups + 1;
        if !ok {
          return LookupFailed, lookups;
        }
      }
      outcome := Unresolved;
    }
  }
}
