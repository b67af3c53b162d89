/** The feature-store table: partitions of items in sort-key order, and the operations on feature sets. */
module FeatureTable {
  import opened Results

  type Features = map<string, real>

  datatype Item = Item(resourceId: string, entityType: string, name: string, features: Features, createdAt: string)

  const FEATURE_PREFIX := "FEATURE_SET#"
  const TENANT_PREFIX := "TENANT#"

  /** `_feature_resource_id`. */
  function FeatureId(name: string): string {
    FEATURE_PREFIX + name
  }

  /** `_tenant_resource_id`. */
  function TenantId(tenant: string): string {
    TENANT_PREFIX + tenant
  }

  predicate IsFeatureId(id: string) {
    FEATURE_PREFIX <= id
  }

  // ----- sort keys -----

  /** The table's order on sort keys: code point by code point. */
  predicate Before(a: string, b: string) {
    if b == "" then false
    else if a == "" then true
    else if a[0] != b[0] then a[0] < b[0]
    else Before(a[1..], b[1..])
  }

  /** Where two keys part, the smaller character decides; a key that ends there comes first. */
  predicate PartsAt(a: string, b: string, k: nat) {
    k <= |a| && k < |b| && a[..k] == b[..k] && (k == |a| || a[k] < b[k])
  }

  lemma PartsLater(a: string, b: string, k: nat)
    requires a != "" && PartsAt(a, b, k) && k > 0
    ensures a[0] == b[0]
  {
    assert a[..k][0] == b[..k][0];
  }

  lemma {:induction false} BeforeExactly(a: string, b: string)
    ensures Before(a, b) <==> exists k: nat :: PartsAt(a, b, k)
  {
    if b != "" && a != "" && a[0] == b[0] {
      BeforeExactly(a[1..], b[1..]);
      forall k: nat | PartsAt(a[1..], b[1..], k) ensures PartsAt(a, b, k + 1) {
        assert a[..k + 1] == [a[0]] + a[1..][..k] && b[..k + 1] == [b[0]] + b[1..][..k];
      }
      forall k: nat | PartsAt(a, b, k) ensures k > 0 && PartsAt(a[1..], b[1..], k - 1) {
        assert a[1..][..k - 1] == a[..k][1..] && b[1..][..k - 1] == b[..k][1..];
      }
    } else if b != "" {
      if a == "" || a[0] < b[0] { assert PartsAt(a, b, 0); }
      forall k: nat | PartsAt(a, b, k) ensures k == 0 {
        if k > 0 && a != "" { PartsLater(a, b, k); }
      }
    }
  }

  lemma {:induction false} BeforeIsStrict(a: string)
    ensures !Before(a, a)
  {
    if a != "" { BeforeIsStrict(a[1..]); }
  }

  lemma {:induction false} BeforeTrans(a: string, b: string, c: string)
    requires Before(a, b) && Before(b, c)
    ensures Before(a, c)
  {
    if a != "" && a[0] == b[0] && b[0] == c[0] {
      BeforeTrans(a[1..], b[1..], c[1..]);
    }
  }

  lemma {:induction false} BeforeTotal(a: string, b: string)
    ensures a == b || Before(a, b) || Before(b, a)
  {
    if a != "" && b != "" && a[0] == b[0] {
      BeforeTotal(a[1..], b[1..]);
      assert a == [a[0]] + a[1..] && b == [b[0]] + b[1..];
    }
  }

  // ----- partitions -----

  /** All items of one tenant. */
  type Partition = seq<Item>

  predicate Sorted(p: Partition) {
    forall i, j | 0 <= i < j < |p| :: Before(p[i].resourceId, p[j].resourceId)
  }

  /** Feature items carry their own sort key and type, and nothing else does. */
  predicate Typed(x: Item) {
    if IsFeatureId(x.resourceId) then x.resourceId == FeatureId(x.name) && x.entityType == "FEATURE_SET"
    else x.entityType != "FEATURE_SET"
  }

  predicate WellTyped(p: Partition) {
    forall i | 0 <= i < |p| :: Typed(p[i])
  }

  function Find(p: Partition, id: string): (r: Option<Item>)
    ensures r.Some? ==> r.value in p && r.value.resourceId == id
    ensures r.None? ==> forall x | x in p :: x.resourceId != id
  {
    if p == [] then None else if p[0].resourceId == id then Some(p[0]) else Find(p[1..], id)
  }

  function Add(p: Partition, item: Item): Partition {
    if p == [] || Before(item.resourceId, p[0].resourceId) then [item] + p else [p[0]] + Add(p[1..], item)
  }

  function Drop(p: Partition, id: string): Partition {
    if p == [] then [] else if p[0].resourceId == id then p[1..] else [p[0]] + Drop(p[1..], id)
  }

  // ----- the operations of the data-access layer -----

  /** What happens to one table operation: it works, or an error comes back with the effect missing or in place. */
  datatype Io = Works | FailsBefore | FailsAfter

  datatype Response = Created(item: Item) | Found(item: Item) | Listed(items: seq<Item>) | Deleted
                    | Conflict | NotFound | Forbidden | DataStoreError

  /** `put_feature_set`: a conditional write that creates only. */
  function Put(p: Partition, name: string, features: Features, now: string, io: Io): (r: (Partition, Response)) {
    var item := Item(FeatureId(name), "FEATURE_SET", name, features, now);
    if io == FailsBefore then (p, DataStoreError)
    else if Find(p, item.resourceId).Some? then (p, if io == FailsAfter then DataStoreError else Conflict)
    else (Add(p, item), if io == FailsAfter then DataStoreError else Created(item))
  }

  /** `get_feature_set`. */
  function GetFeatureSet(p: Partition, name: string, io: Io): (r: Response) {
    if io != Works then DataStoreError
    else
      match Find(p, FeatureId(name))
      case None => NotFound
      case Some(item) => if item.entityType != "FEATURE_SET" then NotFound else Found(item)
  }

  /** An item that is there under the set's key is found exactly if it is of the right type. */
  lemma {:induction false} GetExactly(p: Partition, name: string, x: Item)
    requires Sorted(p) && x in p && x.resourceId == FeatureId(name)
    ensures GetFeatureSet(p, name, Works) == if x.entityType == "FEATURE_SET" then Found(x) else NotFound
  {
    var i :| 0 <= i < |p| && p[i] == x;
    var found := Find(p, FeatureId(name));
    assert found.Some?;
    var j :| 0 <= j < |p| && p[j] == found.value;
    BeforeIsStrict(x.resourceId);
  }

  /** `delete_feature_set`: a conditional delete. */
  function Delete(p: Partition, name: string, io: Io): (r: (Partition, Response)) {
    if io == FailsBefore then (p, DataStoreError)
    else if Find(p, FeatureId(name)).None? then (p, if io == FailsAfter then DataStoreError else NotFound)
    else (Drop(p, FeatureId(name)), if io == FailsAfter then DataStoreError else Deleted)
  }

  /** The feature items behind the key a query starts after. */
  function FeaturesAfter(p: Partition, start: Option<string>): (items: Partition) {
    if p == [] then []
    else if IsFeatureId(p[0].resourceId) && (start.None? || Before(start.value, p[0].resourceId)) then
      [p[0]] + FeaturesAfter(p[1..], start)
    else FeaturesAfter(p[1..], start)
  }

  datatype Page = Page(items: seq<Item>, lastKey: Option<string>)

  /** One `query` call. The table returns as many items as it likes and says where it stopped; it may also report a
      last key when nothing is left, so that the next page is empty. */
  function Query(p: Partition, start: Option<string>, limit: nat, more: bool): (page: Page) {
    var matched := FeaturesAfter(p, start);
    var size := if limit < |matched| then (if start.None? && limit == 0 then 1 else limit) else |matched|;
    Page(matched[..size],
         if size < |matched| || more then (if size > 0 then Some(matched[size - 1].resourceId) else start) else None)
  }

  class DynamoTable {
    var partitions: map<string, Partition>

    constructor ()
      ensures partitions == map[]
    {
      partitions := map[];
    }

    function Of(tenant: string): Partition
      reads this
    {
      if tenant in partitions then partitions[tenant] else []
    }

    method PutFeatureSet(tenant: string, name: string, features: Features, now: string, io: Io) returns (r: Response)
      modifies this
      ensures (Of(tenant), r) == Put(old(Of(tenant)), name, features, now, io)
      ensures forall t | t != tenant :: Of(t) == old(Of(t))
    {
      var item := Item(FeatureId(name), "FEATURE_SET", name, features, now);
      var present := Find(Of(tenant), item.resourceId).Some?;
      if io != FailsBefore && !present {
        partitions := partitions[tenant := Add(Of(tenant), item)];
      }
      if io != Works { return DataStoreError; }
      r := if present then Conflict else Created(item);
    }

    method DeleteFeatureSet(tenant: string, name: string, io: Io) returns (r: Response)
      modifies this
      ensures (Of(tenant), r) == Delete(old(Of(tenant)), name, io)
      ensures forall t | t != tenant :: Of(t) == old(Of(t))
    {
      var present := Find(Of(tenant), FeatureId(name)).Some?;
      if io != FailsBefore && present {
        partitions := partitions[tenant := Drop(Of(tenant), FeatureId(name))];
      }
      if io != Works { return DataStoreError; }
      r := if present then Deleted else NotFound;
    }

    /** `list_feature_sets`: follows the pages, however the table cuts them; the first page that fails ends it. When
        the schedule is used up the table returns all the rest. */
    method ListFeatureSets(tenant: string, schedule: seq<(nat, bool, Io)>) returns (r: Response)
      requires Sorted(Of(tenant))
      ensures r == if SomePageFails(Of(tenant), None, schedule) then DataStoreError
                   else Listed(FeaturesAfter(Of(tenant), None))
    {
      var p := Of(tenant);
      var items := [];
      var start: Option<string> := None;
      var turn := 0;
      while true
        invariant items + FeaturesAfter(p, start) == FeaturesAfter(p, None)
        invariant 0 <= turn <= |schedule| + 1
        invariant SomePageFails(p, None, schedule)
                  <==> turn <= |schedule| && SomePageFails(p, start, schedule[turn..])
        decreases |schedule| + 1 - turn
      {
        var (limit, more, io) := if turn < |schedule| then schedule[turn] else (|p|, false, Works);
        if io != Works { return DataStoreError; }
        LastPage(p, start);
        PageSplits(p, start, limit, more);
        var page := Query(p, start, limit, more);
        PageJoins(items, page.items, if page.lastKey.None? then [] else FeaturesAfter(p, page.lastKey),
                  FeaturesAfter(p, start));
        items := items + page.items;
        if page.lastKey.None? { return Listed(items); }
        start := page.lastKey;
        turn := turn + 1;
      }
    }
  }

  /** One of the pages that a listing fetches under this schedule fails. */
  predicate SomePageFails(p: Partition, start: Option<string>, schedule: seq<(nat, bool, Io)>)
    decreases |schedule|
  {
    if schedule == [] then false
    else
      var (limit, more, io) := schedule[0];
      var page := Query(p, start, limit, more);
      io != Works || (page.lastKey.Some? && SomePageFails(p, page.lastKey, schedule[1..]))
  }

  // ----- pagination -----

  lemma {:induction false} AfterIsShort(p: Partition, start: Option<string>)
    ensures |FeaturesAfter(p, start)| <= |p|
  {
    if p != [] { AfterIsShort(p[1..], start); }
  }

  lemma {:induction false} AfterMember(p: Partition, start: Option<string>, x: Item)
    ensures x in FeaturesAfter(p, start) <==>
              x in p && IsFeatureId(x.resourceId)
              && (start.None? || Before(start.value, x.resourceId))
  {
    if p != [] {
      AfterMember(p[1..], start, x);
      assert p == [p[0]] + p[1..];
    }
  }

  /** Starting after the last item of a page leaves exactly the items behind that page. */
  lemma {:induction false} AfterTake(p: Partition, start: Option<string>, size: nat)
    requires Sorted(p) && 0 < size <= |FeaturesAfter(p, start)|
    ensures FeaturesAfter(p, Some(FeaturesAfter(p, start)[size - 1].resourceId)) == FeaturesAfter(p, start)[size..]
  {
    var matched, rest := FeaturesAfter(p, start), FeaturesAfter(p[1..], start);
    var last := matched[size - 1];
    var key := last.resourceId;
    if !(IsFeatureId(p[0].resourceId) && (start.None? || Before(start.value, p[0].resourceId))) {
      FirstIsNotAfter(p, start, last);
      AfterSkipsFirst(p, key);
      AfterTake(p[1..], start, size);
    } else if size == 1 {
      BeforeIsStrict(key);
      AfterSkipsFirst(p, key);
      AfterLater(p[1..], start, key);
      assert matched[1..] == rest;
    } else {
      assert matched[1..] == rest && last == rest[size - 2];
      FirstIsNotAfter(p, start, last);
      AfterSkipsFirst(p, key);
      AfterTake(p[1..], start, size - 1);
      assert matched[size..] == rest[size - 1..];
    }
  }

  lemma AfterSkipsFirst(p: Partition, key: string)
    requires p != [] && !Before(key, p[0].resourceId)
    ensures FeaturesAfter(p, Some(key)) == FeaturesAfter(p[1..], Some(key))
  {
  }

  /** No key of a later item comes before the first item. */
  lemma FirstIsNotAfter(p: Partition, start: Option<string>, x: Item)
    requires p != [] && Sorted(p) && x in FeaturesAfter(p[1..], start)
    ensures !Before(x.resourceId, p[0].resourceId)
  {
    AfterMember(p[1..], start, x);
    var i :| 0 <= i < |p[1..]| && p[1..][i] == x;
    assert Before(p[0].resourceId, p[i + 1].resourceId);
    if Before(x.resourceId, p[0].resourceId) {
      BeforeTrans(p[0].resourceId, x.resourceId, p[0].resourceId);
      BeforeIsStrict(p[0].resourceId);
    }
  }

  /** When every item comes after `key`, and those after `start` are among them, the two starts agree. */
  lemma {:induction false} AfterLater(p: Partition, start: Option<string>, key: string)
    requires forall i | 0 <= i < |p| :: Before(key, p[i].resourceId)
    requires start.Some? ==> Before(start.value, key)
    ensures FeaturesAfter(p, Some(key)) == FeaturesAfter(p, start)
  {
    if p != [] {
      if start.Some? { BeforeTrans(start.value, key, p[0].resourceId); }
      AfterLater(p[1..], start, key);
    }
  }

  /** A page and what the next query will find make up what this query was to find. */
  lemma PageSplits(p: Partition, start: Option<string>, limit: nat, more: bool)
    requires Sorted(p)
    ensures var page := Query(p, start, limit, more);
            page.items + (if page.lastKey.None? then [] else FeaturesAfter(p, page.lastKey)) == FeaturesAfter(p, start)
  {
    var matched := FeaturesAfter(p, start);
    var page := Query(p, start, limit, more);
    if page.items != [] && page.lastKey.Some? {
      AfterTake(p, start, |page.items|);
    }
    assert matched[..|page.items|] + matched[|page.items|..] == matched;
  }

  lemma LastPage(p: Partition, start: Option<string>)
    ensures Query(p, start, |p|, false).lastKey.None?
  {
    AfterIsShort(p, start);
  }

  lemma PageJoins(items: seq<Item>, page: seq<Item>, later: seq<Item>, all: seq<Item>)
    requires page + later == all
    ensures items + page + later == items + all
  {
  }

  /** A listing holds every feature set of the partition exactly once, in key order, and no other item. */
  lemma ListingIsExact(p: Partition)
    requires Sorted(p)
    ensures var items := FeaturesAfter(p, None);
            && (forall x :: x in items <==> x in p && IsFeatureId(x.resourceId))
            && (forall i, j | 0 <= i < j < |items| :: items[i].resourceId != items[j].resourceId)
  {
    forall x ensures x in FeaturesAfter(p, None) <==> x in p && IsFeatureId(x.resourceId) {
      AfterMember(p, None, x);
    }
    AfterSorted(p, None);
    var items := FeaturesAfter(p, None);
    forall i, j | 0 <= i < j < |items| ensures items[i].resourceId != items[j].resourceId {
      BeforeIsStrict(items[i].resourceId);
    }
  }

  lemma {:induction false} AfterSorted(p: Partition, start: Option<string>)
    requires Sorted(p)
    ensures Sorted(FeaturesAfter(p, start))
  {
    if p != [] {
      AfterSorted(p[1..], start);
      var rest := FeaturesAfter(p[1..], start);
      forall j | 0 <= j < |rest| ensures Before(p[0].resourceId, rest[j].resourceId) {
        AfterMember(p[1..], start, rest[j]);
        var i :| 0 <= i < |p[1..]| && p[1..][i] == rest[j];
        assert p[i + 1] == rest[j];
      }
    }
  }
}
