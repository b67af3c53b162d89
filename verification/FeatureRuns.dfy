/** Tenants sharing the feature store: whole runs of interleaved requests. */
module FeatureRuns {
  import opened Results
  import opened FeatureTable

  // ----- what each operation keeps -----

  lemma {:induction false} AddKeeps(p: Partition, item: Item)
    requires Sorted(p) && forall x | x in p :: x.resourceId != item.resourceId
    ensures Sorted(Add(p, item))
    ensures forall x :: x in Add(p, item) <==> x in p || x == item
  {
    if p == [] {
    } else if Before(item.resourceId, p[0].resourceId) {
      forall j | 0 <= j < |p| ensures Before(item.resourceId, p[j].resourceId) {
        if j > 0 { BeforeTrans(item.resourceId, p[0].resourceId, p[j].resourceId); }
      }
    } else {
      assert p[0] in p;
      AddKeeps(p[1..], item);
      var r := Add(p[1..], item);
      assert forall x :: x in p <==> x == p[0] || x in p[1..];
      forall j | 0 <= j < |r| ensures Before(p[0].resourceId, r[j].resourceId) {
        assert r[j] in r;
        BeforeTotal(item.resourceId, p[0].resourceId);
        if r[j] != item {
          var i :| 0 <= i < |p[1..]| && p[1..][i] == r[j];
          assert p[i + 1] == r[j];
        }
      }
    }
  }

  lemma {:induction false} DropMembers(p: Partition, id: string)
    requires Sorted(p)
    ensures forall x :: x in Drop(p, id) <==> x in p && x.resourceId != id
  {
    if p != [] {
      assert forall x :: x in p <==> x == p[0] || x in p[1..];
      if p[0].resourceId == id {
        BeforeIsStrict(id);
        forall j | 0 < j < |p| ensures p[j].resourceId != id {
          assert Before(p[0].resourceId, p[j].resourceId);
        }
      } else {
        DropMembers(p[1..], id);
      }
    }
  }

  lemma {:induction false} DropKeeps(p: Partition, id: string)
    requires Sorted(p)
    ensures Sorted(Drop(p, id))
    ensures forall x :: x in Drop(p, id) <==> x in p && x.resourceId != id
  {
    DropMembers(p, id);
    if p != [] && p[0].resourceId != id {
      DropKeeps(p[1..], id);
      var r := Drop(p[1..], id);
      forall j | 0 <= j < |r| ensures Before(p[0].resourceId, r[j].resourceId) {
        assert r[j] in r;
        var i :| 0 <= i < |p[1..]| && p[1..][i] == r[j];
        assert p[i + 1] == r[j];
      }
    }
  }

  /** A sorted partition holds one item per key. */
  lemma SameKeySameItem(p: Partition, x: Item, y: Item)
    requires Sorted(p) && x in p && y in p && x.resourceId == y.resourceId
    ensures x == y
  {
    var i :| 0 <= i < |p| && p[i] == x;
    var j :| 0 <= j < |p| && p[j] == y;
    BeforeIsStrict(x.resourceId);
  }

  ghost predicate Proper(p: Partition) {
    Sorted(p) && WellTyped(p)
  }

  lemma ItemTyped(p: Partition, x: Item)
    requires WellTyped(p) && x in p
    ensures Typed(x)
  {
  }

  lemma PutKeepsProper(p: Partition, name: string, features: Features, now: string, io: Io)
    requires Proper(p)
    ensures Proper(Put(p, name, features, now, io).0)
  {
    var item := Item(FeatureId(name), "FEATURE_SET", name, features, now);
    var r := Put(p, name, features, now, io).0;
    if r != p {
      AddKeeps(p, item);
      forall i | 0 <= i < |r| ensures Typed(r[i]) {
        assert r[i] in r;
        if r[i] != item { ItemTyped(p, r[i]); }
      }
    }
  }

  lemma DeleteKeepsProper(p: Partition, name: string, io: Io)
    requires Proper(p)
    ensures Proper(Delete(p, name, io).0)
  {
    var r := Delete(p, name, io).0;
    DropKeeps(p, FeatureId(name));
    forall i | 0 <= i < |r| ensures Typed(r[i]) {
      assert r[i] in r;
      ItemTyped(p, r[i]);
    }
  }

  // ----- the abstract store of one tenant -----

  /** The feature sets of a partition by name. */
  function Sets(p: Partition): map<string, (Features, string)> {
    if p == [] then map[]
    else if IsFeatureId(p[0].resourceId) then Sets(p[1..])[p[0].name := (p[0].features, p[0].createdAt)]
    else Sets(p[1..])
  }

  lemma {:induction false} SetsLookup(p: Partition, name: string)
    requires Proper(p)
    ensures name in Sets(p) <==> Find(p, FeatureId(name)).Some?
    ensures name in Sets(p) ==>
              var x := Find(p, FeatureId(name)).value;
              Sets(p)[name] == (x.features, x.createdAt) && x.name == name && x.entityType == "FEATURE_SET"
  {
    if p != [] {
      assert p[0] in p;
      ItemTyped(p, p[0]);
      SetsLookup(p[1..], name);
      assert p[0].resourceId == FeatureId(name) ==> IsFeatureId(p[0].resourceId) && p[0].name == name by {
        assert FeatureId(p[0].name)[|FEATURE_PREFIX|..] == p[0].name && FeatureId(name)[|FEATURE_PREFIX|..] == name;
        assert FEATURE_PREFIX <= FeatureId(name);
      }
    }
  }

  lemma FeatureIdsDiffer(name: string, name': string)
    requires FeatureId(name) == FeatureId(name')
    ensures name == name'
  {
    assert FeatureId(name)[|FEATURE_PREFIX|..] == name && FeatureId(name')[|FEATURE_PREFIX|..] == name';
  }

  /** In a proper partition `Find` returns the item with that key whenever there is one. */
  lemma FindIs(p: Partition, x: Item)
    requires Sorted(p) && x in p
    ensures Find(p, x.resourceId) == Some(x)
  {
    var r := Find(p, x.resourceId);
    assert r.Some?;
    SameKeySameItem(p, x, r.value);
  }

  /** Each operation is the obvious one on a map from names to feature sets: create if absent, read, remove if present.
      An error that comes back leaves the map alone or, when it comes after the effect, with the effect in place. */
  lemma {:induction false} RefinesCreateIfAbsent(p: Partition, name: string, features: Features, now: string, io: Io)
    requires Proper(p)
    ensures var (p', r) := Put(p, name, features, now, io);
            && Sets(p') == (if io == FailsBefore || name in Sets(p) then Sets(p) else Sets(p)[name := (features, now)])
            && r == if io != Works then DataStoreError else if name in Sets(p) then Conflict
                    else Created(Item(FeatureId(name), "FEATURE_SET", name, features, now))
    ensures var r := GetFeatureSet(p, name, io);
            if io != Works then r == DataStoreError
            else if name !in Sets(p) then r == NotFound
            else r == Found(Item(FeatureId(name), "FEATURE_SET", name, Sets(p)[name].0, Sets(p)[name].1))
    ensures var (p', r) := Delete(p, name, io);
            && Sets(p') == (if io == FailsBefore then Sets(p) else Sets(p) - {name})
            && r == if io != Works then DataStoreError else if name in Sets(p) then Deleted else NotFound
  {
    SetsLookup(p, name);
    if Find(p, FeatureId(name)).None? { PutSets(p, name, features, now); }
    DeleteSets(p, name);
    assert name !in Sets(p) ==> Sets(p) - {name} == Sets(p);
  }

  lemma PutSets(p: Partition, name: string, features: Features, now: string)
    requires Proper(p) && Find(p, FeatureId(name)).None?
    ensures Sets(Add(p, Item(FeatureId(name), "FEATURE_SET", name, features, now))) == Sets(p)[name := (features, now)]
  {
    var item := Item(FeatureId(name), "FEATURE_SET", name, features, now);
    var r := Add(p, item);
    PutKeepsProper(p, name, features, now, Works);
    AddKeeps(p, item);
    forall n ensures n in Sets(r) <==> n in Sets(p)[name := (features, now)]
             ensures n in Sets(r) ==> Sets(r)[n] == Sets(p)[name := (features, now)][n] {
      SetsLookup(r, n);
      SetsLookup(p, n);
      if n == name {
        FindIs(r, item);
      } else {
        SameFind(p, r, FeatureId(n), item, n, name);
      }
    }
  }

  lemma SameFind(p: Partition, r: Partition, id: string, item: Item, n: string, name: string)
    requires Sorted(p) && Sorted(r) && n != name && id == FeatureId(n) && item.resourceId == FeatureId(name)
    requires forall x :: x in r <==> x in p || x == item
    ensures Find(r, id) == Find(p, id)
  {
    if FeatureId(n) == FeatureId(name) { FeatureIdsDiffer(n, name); }
    if Find(p, id).Some? {
      FindIs(r, Find(p, id).value);
    }
  }

  lemma DeleteSets(p: Partition, name: string)
    requires Proper(p)
    ensures Sets(Delete(p, name, Works).0) == Sets(p) - {name}
  {
    var r := Delete(p, name, Works).0;
    DeleteKeepsProper(p, name, Works);
    DropKeeps(p, FeatureId(name));
    forall n ensures n in Sets(r) <==> n in Sets(p) - {name}
             ensures n in Sets(r) ==> Sets(r)[n] == (Sets(p) - {name})[n] {
      SetsLookup(r, n);
      SetsLookup(p, n);
      if n != name {
        if FeatureId(n) == FeatureId(name) { FeatureIdsDiffer(n, name); }
        if Find(p, FeatureId(n)).Some? { FindIs(r, Find(p, FeatureId(n)).value); }
      }
    }
  }

  // ----- tenant records -----

  /** What is not a feature set: above all the tenant record. */
  ghost predicate SameRecords(p: Partition, p': Partition) {
    forall x: Item | !IsFeatureId(x.resourceId) :: x in p <==> x in p'
  }

  lemma TenantRecordsAreNoFeatures(tenant: string, name: string)
    ensures !IsFeatureId(TenantId(tenant)) && TenantId(tenant) != FeatureId(name)
    ensures TenantId(tenant) == "TENANT#" + tenant && FeatureId(name) == "FEATURE_SET#" + name
  {
    assert TenantId(tenant)[0] == 'T' && FeatureId(name)[0] == 'F' && FEATURE_PREFIX[0] == 'F';
  }

  lemma OperationsKeepRecords(p: Partition, name: string, features: Features, now: string, io: Io)
    requires Proper(p)
    ensures SameRecords(p, Put(p, name, features, now, io).0)
    ensures SameRecords(p, Delete(p, name, io).0)
  {
    var item := Item(FeatureId(name), "FEATURE_SET", name, features, now);
    assert FEATURE_PREFIX <= FeatureId(name);
    if Find(p, item.resourceId).None? { AddKeeps(p, item); }
    DropKeeps(p, FeatureId(name));
  }

  // ----- runs -----

  /** One atomic table operation, or the start of a listing, made by a request that is authenticated as `auth`. */
  datatype Request =
    | Create(tenant: string, name: string, features: Features, now: string, io: Io)
    | Read(requested: Option<string>, name: string, io: Io)
    | Remove(requested: Option<string>, name: string, io: Io)
    | ListStart(requested: Option<string>, thread: nat)
    | ListPage(thread: nat, limit: nat, more: bool, io: Io)

  datatype Step = Step(auth: string, request: Request)

  /** A listing between two of its pages. */
  datatype Listing = Listing(items: seq<Item>, start: Option<string>)

  datatype State = State(
    partitions: map<string, Partition>,
    listings: map<(string, nat), Listing>,
    responses: seq<(string, Response)>)

  function Of(s: State, tenant: string): Partition {
    if tenant in s.partitions then s.partitions[tenant] else []
  }

  /** `requested_tenant_id or authenticated_tenant.tenant_id`. */
  function Target(auth: string, requested: Option<string>): string {
    if requested.Some? && requested.value != "" then requested.value else auth
  }

  function Respond(s: State, auth: string, r: Response): State {
    s.(responses := s.responses + [(auth, r)])
  }

  function SetPartition(s: State, tenant: string, p: Partition): State {
    s.(partitions := s.partitions[tenant := p])
  }

  /** `_ensure_tenant_access`, then the operation of the data-access layer on the tenant asked for: the new state
      and the response, if the request is answered by this step. */
  function Effect(s: State, step: Step): (State, Option<Response>) {
    var auth := step.auth;
    match step.request
    case Create(tenant, name, features, now, io) =>
      if auth != tenant then (s, Some(Forbidden))
      else
        var (p, r) := Put(Of(s, tenant), name, features, now, io);
        (SetPartition(s, tenant, p), Some(r))
    case Read(requested, name, io) =>
      var tenant := Target(auth, requested);
      (s, Some(if auth != tenant then Forbidden else GetFeatureSet(Of(s, tenant), name, io)))
    case Remove(requested, name, io) =>
      var tenant := Target(auth, requested);
      if auth != tenant then (s, Some(Forbidden))
      else
        var (p, r) := Delete(Of(s, tenant), name, io);
        (SetPartition(s, tenant, p), Some(r))
    case ListStart(requested, thread) =>
      if auth != Target(auth, requested) then (s, Some(Forbidden))
      else (s.(listings := s.listings[(auth, thread) := Listing([], None)]), None)
    case ListPage(thread, limit, more, io) =>
      if (auth, thread) !in s.listings then (s, None)
      else if io != Works then (s.(listings := s.listings - {(auth, thread)}), Some(DataStoreError))
      else
        var listing := s.listings[(auth, thread)];
        var page := Query(Of(s, auth), listing.start, limit, more);
        var items := listing.items + page.items;
        if page.lastKey.Some? then (s.(listings := s.listings[(auth, thread) := Listing(items, page.lastKey)]), None)
        else (s.(listings := s.listings - {(auth, thread)}), Some(Listed(items)))
  }

  ghost predicate AllProper(s: State) {
    forall tenant :: Proper(Of(s, tenant))
  }

  // ----- who may do what -----

  /** The request is about another tenant than the one it is authenticated as. An empty tenant id is none. */
  predicate Foreign(step: Step) {
    match step.request
    case Create(tenant, _, _, _, _) => tenant != step.auth
    case Read(requested, _, _) => requested.Some? && requested.value !in {"", step.auth}
    case Remove(requested, _, _) => requested.Some? && requested.value !in {"", step.auth}
    case ListStart(requested, _) => requested.Some? && requested.value !in {"", step.auth}
    case ListPage(_, _, _, _) => false
  }

  /** Access is refused exactly for another tenant's data, whatever is there, and then nothing changes. */
  lemma ForbiddenExactly(s: State, step: Step)
    ensures Effect(s, step).1 == Some(Forbidden) <==> Foreign(step)
    ensures Foreign(step) ==> Effect(s, step).0 == s
  {
  }

  /** Create if absent, in a request's words: the sets of the tenant afterwards, and the response. */
  predicate Creates(before: map<string, (Features, string)>, name: string, features: Features, now: string, io: Io,
                    after: map<string, (Features, string)>, r: Response) {
    && after == (if io == FailsBefore || name in before then before else before[name := (features, now)])
    && r == if io != Works then DataStoreError else if name in before then Conflict
            else Created(Item(FeatureId(name), "FEATURE_SET", name, features, now))
  }

  predicate Gets(sets: map<string, (Features, string)>, name: string, io: Io, r: Response) {
    r == if io != Works then DataStoreError else if name !in sets then NotFound
         else Found(Item(FeatureId(name), "FEATURE_SET", name, sets[name].0, sets[name].1))
  }

  predicate Deletes(before: map<string, (Features, string)>, name: string, io: Io,
                    after: map<string, (Features, string)>, r: Response) {
    && after == (if io == FailsBefore then before else before - {name})
    && r == if io != Works then DataStoreError else if name in before then Deleted else NotFound
  }

  /** One page of an unfinished listing: it takes the next so many of the items that are still to come, and leaves
      the rest to come or, when none is left, answers. */
  predicate NextPage(p: Partition, l: Listing, after: Option<Listing>, r: Option<Response>) {
    var rest := FeaturesAfter(p, l.start);
    if r.Some? then after == None && r == Some(Listed(l.items + rest))
    else
      && after.Some? && |l.items| <= |after.value.items| <= |l.items| + |rest|
      && var k := |after.value.items| - |l.items|;
         after.value.items == l.items + rest[..k] && FeaturesAfter(p, after.value.start) == rest[k..]
  }

  function ListingOf(s: State, auth: string, thread: nat): Option<Listing> {
    if (auth, thread) in s.listings then Some(s.listings[(auth, thread)]) else None
  }

  /** Every other request acts on the caller's own data, and on nobody else's, as the operation it names says. */
  lemma OwnRequests(s: State, step: Step)
    requires AllProper(s) && !Foreign(step)
    ensures var ((s', r), auth) := (Effect(s, step), step.auth);
            var before, after := Sets(Of(s, auth)), Sets(Of(s', auth));
            && (forall tenant | tenant != auth :: Of(s', tenant) == Of(s, tenant))
            && match step.request
               case Create(_, name, features, now, io) =>
                 r.Some? && Creates(before, name, features, now, io, after, r.value) && s'.listings == s.listings
               case Read(_, name, io) => r.Some? && Gets(before, name, io, r.value) && s' == s
               case Remove(_, name, io) =>
                 r.Some? && Deletes(before, name, io, after, r.value) && s'.listings == s.listings
               case ListStart(_, thread) =>
                 r.None? && s' == s.(listings := s.listings[(auth, thread) := Listing([], None)])
               case ListPage(thread, _, _, io) =>
                 && s'.partitions == s.partitions && s'.listings - {(auth, thread)} == s.listings - {(auth, thread)}
                 && (ListingOf(s, auth, thread).None? ==> r.None? && s' == s)
                 && (ListingOf(s, auth, thread).Some? && io != Works ==>
                       r == Some(DataStoreError) && ListingOf(s', auth, thread).None?)
                 && (ListingOf(s, auth, thread).Some? && io == Works ==>
                       NextPage(Of(s, auth), ListingOf(s, auth, thread).value, ListingOf(s', auth, thread), r))
  {
    var auth := step.auth;
    assert Proper(Of(s, auth));
    match step.request
    case Create(_, name, features, now, io) => RefinesCreateIfAbsent(Of(s, auth), name, features, now, io);
    case Read(_, name, io) => RefinesCreateIfAbsent(Of(s, auth), name, map[], "", io);
    case Remove(_, name, io) => RefinesCreateIfAbsent(Of(s, auth), name, map[], "", io);
    case ListStart(_, thread) =>
    case ListPage(thread, limit, more, io) => OwnPage(s, auth, thread, limit, more, io);
  }

  /** A query finds the next items, and says where the rest begins. */
  lemma PageIsNext(p: Partition, l: Listing, limit: nat, more: bool)
    requires Sorted(p)
    ensures var page := Query(p, l.start, limit, more);
            NextPage(p, l, if page.lastKey.Some? then Some(Listing(l.items + page.items, page.lastKey)) else None,
                     if page.lastKey.Some? then None else Some(Listed(l.items + page.items)))
  {
    var page, rest := Query(p, l.start, limit, more), FeaturesAfter(p, l.start);
    PageSplits(p, l.start, limit, more);
    if page.lastKey.Some? {
      assert rest[..|page.items|] == page.items && rest[|page.items|..] == FeaturesAfter(p, page.lastKey);
    } else {
      assert page.items + [] == page.items;
    }
  }

  lemma OwnPage(s: State, auth: string, thread: nat, limit: nat, more: bool, io: Io)
    requires Sorted(Of(s, auth))
    ensures var (s', r) := Effect(s, Step(auth, ListPage(thread, limit, more, io)));
            && s'.partitions == s.partitions && s'.listings - {(auth, thread)} == s.listings - {(auth, thread)}
            && (ListingOf(s, auth, thread).Some? && io == Works ==>
                  NextPage(Of(s, auth), ListingOf(s, auth, thread).value, ListingOf(s', auth, thread), r))
  {
    if (auth, thread) in s.listings {
      PageIsNext(Of(s, auth), s.listings[(auth, thread)], limit, more);
    }
  }

  function Apply(s: State, step: Step): State {
    var (s', r) := Effect(s, step);
    if r.Some? then Respond(s', step.auth, r.value) else s'
  }

  function Run(s: State, steps: seq<Step>): State
    decreases |steps|
  {
    if steps == [] then s else Run(Apply(s, steps[0]), steps[1..])
  }

  // ----- non-interference -----

  function OnlyOf(steps: seq<Step>, tenant: string): seq<Step> {
    if steps == [] then []
    else if steps[0].auth == tenant then [steps[0]] + OnlyOf(steps[1..], tenant)
    else OnlyOf(steps[1..], tenant)
  }

  function ResponsesTo(responses: seq<(string, Response)>, tenant: string): seq<Response> {
    if responses == [] then []
    else
      var n := |responses| - 1;
      ResponsesTo(responses[..n], tenant) + (if responses[n].0 == tenant then [responses[n].1] else [])
  }

  /** Two states hold the same data for a tenant: same partition, same unfinished listings. */
  ghost predicate SameData(s: State, s': State, tenant: string) {
    && Of(s, tenant) == Of(s', tenant)
    && (forall thread :: (tenant, thread) in s.listings <==> (tenant, thread) in s'.listings)
    && (forall thread :: (tenant, thread) in s.listings ==>
       s.listings[(tenant, thread)] == s'.listings[(tenant, thread)])
  }

  /** Two states look the same to a tenant: same data, same answers so far. */
  ghost predicate SameView(s: State, s': State, tenant: string) {
    SameData(s, s', tenant) && ResponsesTo(s.responses, tenant) == ResponsesTo(s'.responses, tenant)
  }

  lemma ResponsesAppend(s: State, auth: string, r: Response, tenant: string)
    ensures ResponsesTo(Respond(s, auth, r).responses, tenant)
         == ResponsesTo(s.responses, tenant) + if auth == tenant then [r] else []
  {
    var rs := Respond(s, auth, r).responses;
    assert rs[..|rs| - 1] == s.responses;
  }

  /** A step of another tenant is invisible. */
  lemma {:induction false} OthersAreInvisible(s: State, step: Step, tenant: string)
    requires step.auth != tenant
    ensures SameView(Apply(s, step), s, tenant)
  {
    var (s', r) := Effect(s, step);
    EffectElsewhere(s, step, tenant);
    EffectKeepsResponses(s, step);
    if r.Some? { ResponsesAppend(s', step.auth, r.value, tenant); }
  }

  lemma EffectElsewhere(s: State, step: Step, tenant: string)
    requires step.auth != tenant
    ensures SameData(Effect(s, step).0, s, tenant)
  {
  }

  lemma EffectKeepsResponses(s: State, step: Step)
    ensures Effect(s, step).0.responses == s.responses
  {
  }

  /** A step of the tenant itself depends on nothing it cannot see. */
  lemma {:induction false} OwnStepsAgree(s: State, s': State, step: Step)
    requires SameView(s, s', step.auth)
    ensures SameView(Apply(s, step), Apply(s', step), step.auth)
  {
    var ((t, r), (t', r')) := (Effect(s, step), Effect(s', step));
    EffectsAgree(s, s', step);
    EffectKeepsResponses(s, step);
    EffectKeepsResponses(s', step);
    if r.Some? {
      ResponsesAppend(t, step.auth, r.value, step.auth);
      ResponsesAppend(t', step.auth, r.value, step.auth);
    }
  }

  lemma EffectsAgree(s: State, s': State, step: Step)
    requires SameData(s, s', step.auth)
    ensures Effect(s, step).1 == Effect(s', step).1
    ensures SameData(Effect(s, step).0, Effect(s', step).0, step.auth)
  {
    match step.request
    case Create(tenant, name, features, now, io) =>
    case Read(requested, name, io) =>
    case Remove(requested, name, io) =>
    case ListStart(requested, thread) =>
    case ListPage(thread, limit, more, io) => PagesAgree(s, s', step.auth, thread, limit, more, io);
  }

  lemma PagesAgree(s: State, s': State, auth: string, thread: nat, limit: nat, more: bool, io: Io)
    requires SameData(s, s', auth)
    ensures var step := Step(auth, ListPage(thread, limit, more, io));
            Effect(s, step).1 == Effect(s', step).1 && SameData(Effect(s, step).0, Effect(s', step).0, auth)
  {
    if (auth, thread) in s.listings {
      assert s.listings[(auth, thread)] == s'.listings[(auth, thread)];
    }
  }

  lemma {:induction false} ViewsAgree(s: State, s': State, steps: seq<Step>, tenant: string)
    requires SameView(s, s', tenant)
    ensures SameView(Run(s, steps), Run(s', OnlyOf(steps, tenant)), tenant)
    decreases |steps|
  {
    if steps != [] {
      if steps[0].auth == tenant {
        OwnStepsAgree(s, s', steps[0]);
        ViewsAgree(Apply(s, steps[0]), Apply(s', steps[0]), steps[1..], tenant);
        assert OnlyOf(steps, tenant)[1..] == OnlyOf(steps[1..], tenant);
      } else {
        OthersAreInvisible(s, steps[0], tenant);
        ViewsAgree(Apply(s, steps[0]), s', steps[1..], tenant);
      }
    }
  }

  /** Non-interference: whatever the other tenants do, and however their requests and pages interleave, a tenant gets
      the answers, and ends up with the data, of the run in which only its own requests were made. */
  lemma NonInterference(s: State, steps: seq<Step>, tenant: string)
    ensures ResponsesTo(Run(s, steps).responses, tenant) == ResponsesTo(Run(s, OnlyOf(steps, tenant)).responses, tenant)
    ensures Of(Run(s, steps), tenant) == Of(Run(s, OnlyOf(steps, tenant)), tenant)
  {
    ViewsAgree(s, s, steps, tenant);
  }

  // ----- records and properness over runs -----

  lemma StepKeepsRecords(s: State, step: Step, tenant: string)
    requires AllProper(s)
    ensures AllProper(Apply(s, step)) && SameRecords(Of(s, tenant), Of(Apply(s, step), tenant))
  {
    var s' := Apply(s, step);
    var p := Of(s, step.auth);
    assert Proper(p);
    forall t ensures Proper(Of(s', t)) && SameRecords(Of(s, t), Of(s', t)) {
      assert Proper(Of(s, t));
      match step.request
      case Create(_, name, features, now, io) =>
        PutKeepsProper(p, name, features, now, io);
        OperationsKeepRecords(p, name, features, now, io);
      case Remove(_, name, io) =>
        DeleteKeepsProper(p, name, io);
        OperationsKeepRecords(p, name, map[], "", io);
      case _ =>
    }
  }

  /** Tenant records, and everything else that is not a feature set, survive every run of feature operations. */
  lemma {:induction false} RecordsAreNeverAltered(s: State, steps: seq<Step>, tenant: string)
    requires AllProper(s)
    ensures AllProper(Run(s, steps))
    ensures SameRecords(Of(s, tenant), Of(Run(s, steps), tenant))
    decreases |steps|
  {
    if steps != [] {
      StepKeepsRecords(s, steps[0], tenant);
      RecordsAreNeverAltered(Apply(s, steps[0]), steps[1..], tenant);
    }
  }

  // ----- listings over runs -----

  /** The pages of one listing with nothing of the same tenant in between. */
  function Pages(thread: nat, cuts: seq<(nat, bool)>, auth: string): seq<Step> {
    if cuts == [] then []
    else [Step(auth, ListPage(thread, cuts[0].0, cuts[0].1, Works))] + Pages(thread, cuts[1..], auth)
  }

  /** However the table cuts a listing into pages, once it is answered it has returned every feature set of the tenant
      exactly once. */
  lemma {:induction false} PagedListing(s: State, auth: string, thread: nat, cuts: seq<(nat, bool)>)
    requires (auth, thread) in s.listings && Sorted(Of(s, auth))
    requires var l := s.listings[(auth, thread)];
             l.items + FeaturesAfter(Of(s, auth), l.start) == FeaturesAfter(Of(s, auth), None)
    ensures var s' := Run(s, Pages(thread, cuts, auth));
            && Of(s', auth) == Of(s, auth)
            && ((auth, thread) !in s'.listings ==>
                   s'.responses
                   == s.responses + [(auth, Listed(FeaturesAfter(Of(s, auth), None)))])
            && ((auth, thread) in s'.listings ==> s'.responses == s.responses)
    decreases |cuts|
  {
    if cuts != [] {
      var l := s.listings[(auth, thread)];
      var step := Step(auth, ListPage(thread, cuts[0].0, cuts[0].1, Works));
      var next := Apply(s, step);
      var page := Query(Of(s, auth), l.start, cuts[0].0, cuts[0].1);
      PageSplits(Of(s, auth), l.start, cuts[0].0, cuts[0].1);
      PageJoins(l.items, page.items, if page.lastKey.None? then []
          else FeaturesAfter(Of(s, auth), page.lastKey), FeaturesAfter(Of(s, auth), l.start));
      assert Pages(thread, cuts, auth)[1..] == Pages(thread, cuts[1..], auth);
      if page.lastKey.Some? {
        PagedListing(next, auth, thread, cuts[1..]);
      } else {
        assert l.items + page.items + [] == l.items + page.items;
        FinishedListing(next, auth, thread, cuts[1..]);
      }
    }
  }

  lemma {:induction false} FinishedListing(s: State, auth: string, thread: nat, cuts: seq<(nat, bool)>)
    requires (auth, thread) !in s.listings
    ensures Run(s, Pages(thread, cuts, auth)) == s
    decreases |cuts|
  {
    if cuts != [] {
      assert Pages(thread, cuts, auth)[1..] == Pages(thread, cuts[1..], auth);
      FinishedListing(s, auth, thread, cuts[1..]);
    }
  }
}
