/** Listings among writes: what a listing that is answered tells, whatever happens between its pages. */
module FeatureListings {
  import opened Results
  import opened FeatureTable
  import opened FeatureRuns

  // ----- a run, point by point -----

  /** The state after the first `k` steps. */
  function At(s: State, steps: seq<Step>, k: nat): State
    requires k <= |steps|
  {
    Run(s, steps[..k])
  }

  lemma {:induction false} RunAppend(s: State, steps: seq<Step>, step: Step)
    ensures Run(s, steps + [step]) == Apply(Run(s, steps), step)
    decreases |steps|
  {
    if steps == [] {
      assert steps + [step] == [step] && [step][1..] == [];
      assert Run(Apply(s, step), []) == Apply(s, step);
    } else {
      assert (steps + [step])[1..] == steps[1..] + [step];
      RunAppend(Apply(s, steps[0]), steps[1..], step);
    }
  }

  lemma AtStep(s: State, steps: seq<Step>, k: nat)
    requires k < |steps|
    ensures At(s, steps, k + 1) == Apply(At(s, steps, k), steps[k])
  {
    assert steps[..k + 1] == steps[..k] + [steps[k]];
    RunAppend(s, steps[..k], steps[k]);
  }

  lemma ProperAt(s: State, steps: seq<Step>, k: nat, tenant: string)
    requires AllProper(s) && k <= |steps|
    ensures Proper(Of(At(s, steps, k), tenant))
  {
    RecordsAreNeverAltered(s, steps[..k], tenant);
  }

  // ----- what a listing has seen -----

  predicate IsIn(s: State, steps: seq<Step>, k: nat, tenant: string, x: Item)
    requires k <= |steps|
  {
    x in Of(At(s, steps, k), tenant)
  }

  ghost predicate Throughout(s: State, steps: seq<Step>, from: nat, to: nat, tenant: string, x: Item)
    requires to <= |steps|
  {
    forall k | from <= k <= to :: IsIn(s, steps, k, tenant, x)
  }

  ghost predicate AtSomePoint(s: State, steps: seq<Step>, from: nat, to: nat, tenant: string, x: Item)
    requires to <= |steps|
  {
    exists k | from <= k <= to :: IsIn(s, steps, k, tenant, x)
  }

  /** No item that has been listed comes after the key the next page starts after. */
  predicate NotPast(items: seq<Item>, start: Option<string>) {
    items == [] || (start.Some? && forall i | 0 <= i < |items| :: !Before(start.value, items[i].resourceId))
  }

  predicate StillToCome(x: Item, start: Option<string>) {
    start.None? || Before(start.value, x.resourceId)
  }

  ghost predicate OnlyExisting(s: State, steps: seq<Step>, from: nat, to: nat, tenant: string, items: seq<Item>)
    requires to <= |steps|
  {
    forall x | x in items :: IsFeatureId(x.resourceId) && AtSomePoint(s, steps, from, to, tenant, x)
  }

  /** A listing that is under way since point `from`, at point `to`. */
  ghost predicate Progress(s: State, steps: seq<Step>, from: nat, to: nat, tenant: string, l: Listing)
    requires to <= |steps|
  {
    && Sorted(l.items) && NotPast(l.items, l.start)
    && OnlyExisting(s, steps, from, to, tenant, l.items)
    && forall x: Item | IsFeatureId(x.resourceId) && Throughout(s, steps, from, to, tenant, x) ::
         x in l.items || StillToCome(x, l.start)
  }

  /** An answer: no set twice, in key order; only sets that existed at some point of the listing; and every set that
      existed throughout. */
  ghost predicate SoundListing(s: State, steps: seq<Step>, from: nat, to: nat, tenant: string, items: seq<Item>)
    requires to <= |steps|
  {
    && Sorted(items)
    && OnlyExisting(s, steps, from, to, tenant, items)
    && forall x: Item | IsFeatureId(x.resourceId) && Throughout(s, steps, from, to, tenant, x) :: x in items
  }

  // ----- one page -----

  /** What comes after a key comes after everything that does not. */
  lemma NotPastBefore(start: string, a: string, b: string)
    requires !Before(start, a) && Before(start, b)
    ensures Before(a, b)
  {
    BeforeTotal(a, start);
    if a != start { BeforeTrans(a, start, b); }
  }

  lemma BeforeIsAsymmetric(a: string, b: string)
    requires Before(a, b)
    ensures !Before(b, a)
  {
    if Before(b, a) {
      BeforeTrans(a, b, a);
      BeforeIsStrict(a);
    }
  }

  /** The listing goes on in key order. */
  lemma PageContinues(p: Partition, l: Listing, limit: nat, more: bool)
    requires Sorted(p) && Sorted(l.items) && NotPast(l.items, l.start)
    ensures Sorted(l.items + Query(p, l.start, limit, more).items)
  {
    var matched, page := FeaturesAfter(p, l.start), Query(p, l.start, limit, more);
    AfterSorted(p, l.start);
    forall i, j | 0 <= i < |l.items| && 0 <= j < |page.items|
      ensures Before(l.items[i].resourceId, page.items[j].resourceId)
    {
      assert page.items[j] in matched;
      AfterMember(p, l.start, page.items[j]);
      NotPastBefore(l.start.value, l.items[i].resourceId, page.items[j].resourceId);
    }
  }

  /** The next page starts after everything listed. */
  lemma PageEnds(p: Partition, l: Listing, limit: nat, more: bool)
    requires Sorted(p) && Sorted(l.items) && NotPast(l.items, l.start) && Query(p, l.start, limit, more).lastKey.Some?
    ensures var page := Query(p, l.start, limit, more); NotPast(l.items + page.items, page.lastKey)
  {
    var page := Query(p, l.start, limit, more);
    var items := l.items + page.items;
    PageContinues(p, l, limit, more);
    if page.items != [] {
      var last := |items| - 1;
      assert page.lastKey == Some(items[last].resourceId);
      forall i | 0 <= i < |items| ensures !Before(items[last].resourceId, items[i].resourceId) {
        if i < last {
          BeforeIsAsymmetric(items[i].resourceId, items[last].resourceId);
        } else {
          BeforeIsStrict(items[last].resourceId);
        }
      }
    } else {
      assert items == l.items;
    }
  }

  /** An item that is there and still to come is on this page or still to come after it; on the last page it is
      there. */
  lemma PageMisses(p: Partition, start: Option<string>, limit: nat, more: bool, x: Item)
    requires Sorted(p) && x in p && IsFeatureId(x.resourceId) && StillToCome(x, start)
    ensures var page := Query(p, start, limit, more);
            x in page.items || (page.lastKey.Some? && StillToCome(x, page.lastKey))
  {
    var matched, page := FeaturesAfter(p, start), Query(p, start, limit, more);
    AfterMember(p, start, x);
    AfterSorted(p, start);
    var j :| 0 <= j < |matched| && matched[j] == x;
    if j < |page.items| {
      assert page.items[j] == x;
    }
  }

  /** A page only holds feature sets that are there. */
  lemma PageItems(p: Partition, start: Option<string>, limit: nat, more: bool, x: Item)
    requires x in Query(p, start, limit, more).items
    ensures x in p && IsFeatureId(x.resourceId)
  {
    assert x in FeaturesAfter(p, start);
    AfterMember(p, start, x);
  }

  // ----- a listing and the steps around it -----

  /** Point `k` of the run is one more point of every listing under way. */
  lemma ProgressWaits(s: State, steps: seq<Step>, from: nat, k: nat, tenant: string, l: Listing)
    requires k < |steps| && Progress(s, steps, from, k, tenant, l)
    ensures Progress(s, steps, from, k + 1, tenant, l)
  {
    forall x | x in l.items ensures AtSomePoint(s, steps, from, k + 1, tenant, x) {
      var j :| from <= j <= k && IsIn(s, steps, j, tenant, x);
      assert IsIn(s, steps, j, tenant, x);
    }
  }

  lemma ItemsAfterPage(s: State, steps: seq<Step>, from: nat, k: nat, tenant: string, l: Listing, limit: nat,
                       more: bool)
    requires k <= |steps| && from <= k && OnlyExisting(s, steps, from, k, tenant, l.items)
    ensures OnlyExisting(s, steps, from, k, tenant,
                         l.items + Query(Of(At(s, steps, k), tenant), l.start, limit, more).items)
  {
    var p := Of(At(s, steps, k), tenant);
    var page := Query(p, l.start, limit, more);
    forall x | x in l.items + page.items
      ensures IsFeatureId(x.resourceId) && AtSomePoint(s, steps, from, k, tenant, x)
    {
      if x !in l.items {
        PageItems(p, l.start, limit, more, x);
        assert IsIn(s, steps, k, tenant, x);
      }
    }
  }

  /** A page taken at point `k`: the listing goes on, or its answer is sound. */
  lemma PageProgress(s: State, steps: seq<Step>, from: nat, k: nat, tenant: string, l: Listing, limit: nat, more: bool)
    requires AllProper(s) && k <= |steps| && from <= k && Progress(s, steps, from, k, tenant, l)
    ensures var page := Query(Of(At(s, steps, k), tenant), l.start, limit, more);
            if page.lastKey.Some? then Progress(s, steps, from, k, tenant, Listing(l.items + page.items, page.lastKey))
            else SoundListing(s, steps, from, k, tenant, l.items + page.items)
  {
    var p := Of(At(s, steps, k), tenant);
    var page := Query(p, l.start, limit, more);
    ProperAt(s, steps, k, tenant);
    PageContinues(p, l, limit, more);
    ItemsAfterPage(s, steps, from, k, tenant, l, limit, more);
    if page.lastKey.Some? { PageEnds(p, l, limit, more); }
    forall x: Item | IsFeatureId(x.resourceId) && Throughout(s, steps, from, k, tenant, x)
      ensures x in l.items + page.items || (page.lastKey.Some? && StillToCome(x, page.lastKey))
    {
      assert IsIn(s, steps, k, tenant, x);
      if x !in l.items { PageMisses(p, l.start, limit, more, x); }
    }
  }

  /** The step starts a listing of this thread, and is allowed to. */
  predicate Starts(step: Step, auth: string, thread: nat) {
    step.auth == auth && step.request.ListStart? && step.request.thread == thread
    && Target(auth, step.request.requested) == auth
  }

  /** Step `j` is the last one before point `k` that starts a listing of this thread. */
  predicate LastStart(steps: seq<Step>, j: nat, k: nat, auth: string, thread: nat)
    requires k <= |steps|
  {
    j < k && Starts(steps[j], auth, thread) && forall i | j < i < k :: !Starts(steps[i], auth, thread)
  }

  /** A listing that is under way at point `k` was started before, and has made progress since. */
  ghost predicate Tracked(s: State, steps: seq<Step>, k: nat, auth: string, thread: nat)
    requires k <= |steps|
  {
    (auth, thread) in At(s, steps, k).listings ==>
      exists j | 0 <= j < k :: TrackedFrom(s, steps, j, k, auth, thread)
  }

  ghost predicate TrackedFrom(s: State, steps: seq<Step>, j: nat, k: nat, auth: string, thread: nat)
    requires j < k <= |steps|
  {
    LastStart(steps, j, k, auth, thread) && (auth, thread) in At(s, steps, k).listings
    && Progress(s, steps, j + 1, k, auth, At(s, steps, k).listings[(auth, thread)])
  }

  lemma {:induction false} AlwaysTracked(s: State, steps: seq<Step>, k: nat, auth: string, thread: nat)
    requires AllProper(s) && s.listings == map[] && k <= |steps|
    ensures Tracked(s, steps, k, auth, thread)
  {
    if k == 0 {
      assert steps[..0] == [];
    } else {
      AlwaysTracked(s, steps, k - 1, auth, thread);
      StepKeepsTracked(s, steps, k - 1, auth, thread);
    }
  }

  lemma StepKeepsTracked(s: State, steps: seq<Step>, k: nat, auth: string, thread: nat)
    requires AllProper(s) && k < |steps| && Tracked(s, steps, k, auth, thread)
    ensures Tracked(s, steps, k + 1, auth, thread)
  {
    AtStep(s, steps, k);
    var before, after := At(s, steps, k), At(s, steps, k + 1);
    if (auth, thread) in after.listings {
      if Starts(steps[k], auth, thread) {
        assert after.listings[(auth, thread)] == Listing([], None);
        assert TrackedFrom(s, steps, k, k + 1, auth, thread);
      } else {
        OldListing(before, steps[k], auth, thread);
        var j: nat :| j < k && TrackedFrom(s, steps, j, k, auth, thread);
        StepKeepsTrackedFrom(s, steps, j, k, auth, thread);
      }
    }
  }

  lemma StepKeepsTrackedFrom(s: State, steps: seq<Step>, j: nat, k: nat, auth: string, thread: nat)
    requires AllProper(s) && j < k < |steps| && TrackedFrom(s, steps, j, k, auth, thread)
    requires !Starts(steps[k], auth, thread) && (auth, thread) in Apply(At(s, steps, k), steps[k]).listings
    ensures TrackedFrom(s, steps, j, k + 1, auth, thread)
  {
    AtStep(s, steps, k);
    var l, l' := At(s, steps, k).listings[(auth, thread)], At(s, steps, k + 1).listings[(auth, thread)];
    OldListing(At(s, steps, k), steps[k], auth, thread);
    if l' != l {
      PageProgress(s, steps, j + 1, k, auth, l, steps[k].request.limit, steps[k].request.more);
    }
    ProgressWaits(s, steps, j + 1, k, auth, l');
  }

  /** A listing that this step did not start was under way before, and only a page of its own changes it. */
  lemma OldListing(s: State, step: Step, auth: string, thread: nat)
    requires (auth, thread) in Apply(s, step).listings && !Starts(step, auth, thread)
    ensures (auth, thread) in s.listings
    ensures var l, l' := s.listings[(auth, thread)], Apply(s, step).listings[(auth, thread)];
            l' == l ||
            (step.request.ListPage? && step.auth == auth
             && var page := Query(Of(s, auth), l.start, step.request.limit, step.request.more);
                page.lastKey.Some? && l' == Listing(l.items + page.items, page.lastKey))
  {
  }

  /** Step `k` answers a listing with these items, and the listing was started by step `j`. */
  predicate Answers(s: State, steps: seq<Step>, j: nat, k: nat, items: seq<Item>) {
    && k < |steps| && steps[k].request.ListPage?
    && Effect(At(s, steps, k), steps[k]).1 == Some(Listed(items))
    && LastStart(steps, j, k, steps[k].auth, steps[k].request.thread)
  }

  lemma AnswersWereStarted(s: State, steps: seq<Step>, k: nat, items: seq<Item>)
    requires AllProper(s) && s.listings == map[] && k < |steps| && steps[k].request.ListPage?
    requires Effect(At(s, steps, k), steps[k]).1 == Some(Listed(items))
    ensures exists j: nat :: Answers(s, steps, j, k, items)
  {
    var auth, thread := steps[k].auth, steps[k].request.thread;
    AlwaysTracked(s, steps, k, auth, thread);
    var j: nat :| j < k && TrackedFrom(s, steps, j, k, auth, thread);
    assert Answers(s, steps, j, k, items);
  }

  /** In every run, whatever the tenant itself and all others do between the pages: an answered listing is strictly
      increasing in the sort key, so it names no set twice; it holds every set that was there from its start to its
      last page; and it holds only sets that were there at some point in between. */
  lemma ListingsAreSound(s: State, steps: seq<Step>, j: nat, k: nat, items: seq<Item>)
    requires AllProper(s) && s.listings == map[] && Answers(s, steps, j, k, items)
    ensures SoundListing(s, steps, j + 1, k, steps[k].auth, items)
  {
    var auth, thread := steps[k].auth, steps[k].request.thread;
    AlwaysTracked(s, steps, k, auth, thread);
    var i :| 0 <= i < k && TrackedFrom(s, steps, i, k, auth, thread);
    assert i == j;
    PageProgress(s, steps, j + 1, k, auth, At(s, steps, k).listings[(auth, thread)],
                 steps[k].request.limit, steps[k].request.more);
  }

  // ----- when a listing is a snapshot -----

  /** How many steps between the two points change the tenant's partition. */
  function Writes(s: State, steps: seq<Step>, from: nat, to: nat, tenant: string): nat
    requires from <= to <= |steps|
    decreases |steps[from..to]|
  {
    if from == to then 0
    else
      Writes(s, steps, from, to - 1, tenant)
      + if Of(At(s, steps, to - 1), tenant) == Of(At(s, steps, to), tenant) then 0 else 1
  }

  /** The items are the whole listing of the tenant at some point in between. */
  ghost predicate IsSnapshot(s: State, steps: seq<Step>, from: nat, to: nat, tenant: string, items: seq<Item>)
    requires to <= |steps|
  {
    exists k | from <= k <= to :: IsListingAt(s, steps, k, tenant, items)
  }

  predicate IsListingAt(s: State, steps: seq<Step>, k: nat, tenant: string, items: seq<Item>)
    requires k <= |steps|
  {
    items == FeaturesAfter(Of(At(s, steps, k), tenant), None)
  }

  /** `q` holds what `p` holds, and `x`. */
  ghost predicate Adds(p: Partition, q: Partition, x: Item) {
    forall y :: y in q <==> y in p || y == x
  }

  /** One of the two holds one item more than the other. */
  ghost predicate OneApart(p: Partition, q: Partition) {
    exists x :: Adds(p, q, x) || Adds(q, p, x)
  }

  lemma PutIsOneApart(p: Partition, name: string, features: Features, now: string, io: Io)
    requires Proper(p) && Put(p, name, features, now, io).0 != p
    ensures OneApart(p, Put(p, name, features, now, io).0)
  {
    var item := Item(FeatureId(name), "FEATURE_SET", name, features, now);
    AddKeeps(p, item);
    assert Adds(p, Put(p, name, features, now, io).0, item);
  }

  lemma DeleteIsOneApart(p: Partition, name: string, io: Io)
    requires Proper(p) && Delete(p, name, io).0 != p
    ensures OneApart(p, Delete(p, name, io).0)
  {
    var id := FeatureId(name);
    DropKeeps(p, id);
    var x := Find(p, id).value;
    forall y ensures y in p <==> y in Drop(p, id) || y == x {
      if y in p && y.resourceId == id { SameKeySameItem(p, x, y); }
    }
    assert Adds(Drop(p, id), p, x);
  }

  /** A step that changes a partition changes it by one item. */
  lemma WriteIsOneApart(s: State, step: Step, tenant: string)
    requires Proper(Of(s, tenant)) && Of(Apply(s, step), tenant) != Of(s, tenant)
    ensures OneApart(Of(s, tenant), Of(Apply(s, step), tenant))
  {
    match step.request
    case Create(_, name, features, now, io) => PutIsOneApart(Of(s, tenant), name, features, now, io);
    case Remove(_, name, io) => DeleteIsOneApart(Of(s, tenant), name, io);
    case _ =>
  }

  predicate OneOf(x: Partition, p: Partition, q: Partition) {
    x == p || x == q
  }

  /** Between the two points the partition is what it is at the first one or at the last one, and these are one item
      apart if they differ. */
  ghost predicate OneChange(s: State, steps: seq<Step>, from: nat, to: nat, tenant: string)
    requires from <= to <= |steps|
  {
    var p, q := Of(At(s, steps, from), tenant), Of(At(s, steps, to), tenant);
    && (p == q || OneApart(p, q))
    && forall k | from <= k <= to :: OneOf(Of(At(s, steps, k), tenant), p, q)
  }

  lemma {:induction false} NoWrites(s: State, steps: seq<Step>, from: nat, to: nat, tenant: string)
    requires from <= to <= |steps| && Writes(s, steps, from, to, tenant) == 0
    ensures forall k | from <= k <= to :: Of(At(s, steps, k), tenant) == Of(At(s, steps, from), tenant)
    decreases |steps[from..to]|
  {
    if from < to { NoWrites(s, steps, from, to - 1, tenant); }
  }

  lemma ChangeWaits(s: State, steps: seq<Step>, from: nat, to: nat, tenant: string)
    requires from <= to < |steps| && OneChange(s, steps, from, to, tenant)
    requires Of(At(s, steps, to), tenant) == Of(At(s, steps, to + 1), tenant)
    ensures OneChange(s, steps, from, to + 1, tenant)
  {
  }

  lemma ChangeNow(s: State, steps: seq<Step>, from: nat, to: nat, tenant: string)
    requires AllProper(s) && from <= to < |steps| && Writes(s, steps, from, to, tenant) == 0
    requires Of(At(s, steps, to), tenant) != Of(At(s, steps, to + 1), tenant)
    ensures OneChange(s, steps, from, to + 1, tenant)
  {
    NoWrites(s, steps, from, to, tenant);
    AtStep(s, steps, to);
    ProperAt(s, steps, to, tenant);
    WriteIsOneApart(At(s, steps, to), steps[to], tenant);
  }

  /** With one write at most there is one change at most. */
  lemma {:induction false} FewWrites(s: State, steps: seq<Step>, from: nat, to: nat, tenant: string)
    requires AllProper(s) && from <= to <= |steps| && Writes(s, steps, from, to, tenant) <= 1
    ensures OneChange(s, steps, from, to, tenant)
    decreases |steps[from..to]|
  {
    if from < to {
      if Of(At(s, steps, to - 1), tenant) == Of(At(s, steps, to), tenant) {
        FewWrites(s, steps, from, to - 1, tenant);
        ChangeWaits(s, steps, from, to - 1, tenant);
      } else {
        ChangeNow(s, steps, from, to - 1, tenant);
      }
    }
  }

  /** A sorted list is determined by its members. */
  lemma {:induction false} SortedSame(p: Partition, q: Partition)
    requires Sorted(p) && Sorted(q) && forall x :: x in p <==> x in q
    ensures p == q
    decreases |p|
  {
    if p == [] {
      assert forall i | 0 <= i < |q| :: q[i] in p;
    } else {
      assert p[0] in q && q != [];
      FirstIsLeast(p, q);
      FirstsRemoved(p, q);
      SortedSame(p[1..], q[1..]);
    }
  }

  lemma FirstIsLeast(p: Partition, q: Partition)
    requires Sorted(p) && Sorted(q) && p != [] && q != [] && p[0] in q && q[0] in p
    ensures p[0] == q[0]
  {
    var i :| 0 <= i < |q| && q[i] == p[0];
    var j :| 0 <= j < |p| && p[j] == q[0];
    if i > 0 && j > 0 { BeforeIsAsymmetric(q[0].resourceId, p[0].resourceId); }
  }

  lemma FirstsRemoved(p: Partition, q: Partition)
    requires Sorted(p) && Sorted(q) && p != [] && q != [] && p[0] == q[0] && forall x :: x in p <==> x in q
    ensures forall x :: x in p[1..] <==> x in q[1..]
  {
    BeforeIsStrict(p[0].resourceId);
    forall x ensures x in p[1..] <==> x in p && x != p[0] { RestIsOthers(p, x); }
    forall x ensures x in q[1..] <==> x in q && x != q[0] { RestIsOthers(q, x); }
  }

  lemma RestIsOthers(p: Partition, x: Item)
    requires Sorted(p) && p != [] && !Before(p[0].resourceId, p[0].resourceId)
    ensures x in p[1..] <==> x in p && x != p[0]
  {
    assert p == [p[0]] + p[1..];
    if x in p[1..] {
      var i :| 0 <= i < |p[1..]| && p[1..][i] == x;
      assert p[i + 1] == x;
    }
  }

  lemma SameListing(p: Partition, items: seq<Item>)
    requires Sorted(p) && Sorted(items) && forall x :: x in items <==> x in p && IsFeatureId(x.resourceId)
    ensures items == FeaturesAfter(p, None)
  {
    AfterSorted(p, None);
    forall x ensures x in FeaturesAfter(p, None) <==> x in p && IsFeatureId(x.resourceId) { AfterMember(p, None, x); }
    SortedSame(items, FeaturesAfter(p, None));
  }

  /** Between two partitions one item apart there is no third listing. */
  lemma NoThirdListing(p: Partition, q: Partition, items: seq<Item>)
    requires Sorted(p) && Sorted(q) && Sorted(items) && (p == q || OneApart(p, q))
    requires forall x | x in items :: IsFeatureId(x.resourceId) && (x in p || x in q)
    requires forall x: Item | IsFeatureId(x.resourceId) && x in p && x in q :: x in items
    ensures items == FeaturesAfter(p, None) || items == FeaturesAfter(q, None)
  {
    if p == q {
      SameListing(p, items);
    } else {
      var x :| Adds(p, q, x) || Adds(q, p, x);
      var (less, more) := if Adds(p, q, x) then (p, q) else (q, p);
      if x in items || x in less { SameListing(more, items); } else { SameListing(less, items); }
    }
  }

  /** With one write at most from its start to its last page, an answered listing is a snapshot. */
  lemma OneWriteSnapshot(s: State, steps: seq<Step>, j: nat, k: nat, items: seq<Item>)
    requires AllProper(s) && s.listings == map[] && Answers(s, steps, j, k, items)
    requires Writes(s, steps, j + 1, k, steps[k].auth) <= 1
    ensures IsSnapshot(s, steps, j + 1, k, steps[k].auth, items)
  {
    var tenant, from := steps[k].auth, j + 1;
    var p, q := Of(At(s, steps, from), tenant), Of(At(s, steps, k), tenant);
    ListingsAreSound(s, steps, j, k, items);
    FewWrites(s, steps, from, k, tenant);
    ProperAt(s, steps, from, tenant);
    ProperAt(s, steps, k, tenant);
    forall x | x in items ensures IsFeatureId(x.resourceId) && (x in p || x in q) {
      var i :| from <= i <= k && IsIn(s, steps, i, tenant, x);
      assert OneOf(Of(At(s, steps, i), tenant), p, q);
    }
    forall x: Item | IsFeatureId(x.resourceId) && x in p && x in q ensures x in items {
      forall i | from <= i <= k ensures IsIn(s, steps, i, tenant, x) {
        assert OneOf(Of(At(s, steps, i), tenant), p, q);
      }
      assert Throughout(s, steps, from, k, tenant, x);
    }
    NoThirdListing(p, q, items);
    assert IsListingAt(s, steps, from, tenant, items) || IsListingAt(s, steps, k, tenant, items);
  }

  // ----- two writes -----

  lemma {:induction false} BeforePrefix(prefix: string, a: string, b: string)
    ensures Before(prefix + a, prefix + b) <==> Before(a, b)
  {
    if prefix == "" {
      assert prefix + a == a && prefix + b == b;
    } else {
      assert (prefix + a)[1..] == prefix[1..] + a && (prefix + b)[1..] == prefix[1..] + b;
      BeforePrefix(prefix[1..], a, b);
    }
  }

  function FeatureItem(name: string): Item {
    Item(FeatureId(name), "FEATURE_SET", name, map[], "")
  }

  /** A tenant with two feature sets. */
  function TwoSets(tenant: string, a: string, b: string): State {
    State(map[tenant := [FeatureItem(a), FeatureItem(b)]], map[], [])
  }

  /** List one set, remove it, add a third one behind both, list the rest. */
  function TornRun(tenant: string, a: string, c: string): seq<Step> {
    [ Step(tenant, ListStart(None, 0)), Step(tenant, ListPage(0, 1, false, Works)),
      Step(tenant, Request.Remove(None, a, Works)), Step(tenant, Create(tenant, c, map[], "", Works)),
      Step(tenant, ListPage(0, 2, false, Works)) ]
  }

  lemma OrderedItems(a: string, b: string)
    requires Before(a, b)
    ensures Before(FeatureItem(a).resourceId, FeatureItem(b).resourceId)
    ensures !Before(FeatureItem(b).resourceId, FeatureItem(a).resourceId)
    ensures FeatureItem(a).resourceId != FeatureItem(b).resourceId
  {
    BeforePrefix(FEATURE_PREFIX, a, b);
    BeforeIsAsymmetric(FeatureItem(a).resourceId, FeatureItem(b).resourceId);
    BeforeIsStrict(FeatureItem(a).resourceId);
  }

  lemma TwoSetsProper(tenant: string, a: string, b: string)
    requires Before(a, b)
    ensures AllProper(TwoSets(tenant, a, b))
  {
    OrderedItems(a, b);
  }

  lemma FirstPage(x: Item, y: Item)
    requires IsFeatureId(x.resourceId) && IsFeatureId(y.resourceId)
    ensures FeaturesAfter([x, y], None) == [x, y]
    ensures Query([x, y], None, 1, false) == Page([x], Some(x.resourceId))
  {
    assert [x, y][1..] == [y] && [y][1..] == [];
    assert FeaturesAfter([y], None) == [y];
  }

  lemma SecondPage(x: Item, y: Item, start: string)
    requires IsFeatureId(x.resourceId) && IsFeatureId(y.resourceId)
    requires Before(start, x.resourceId) && Before(start, y.resourceId)
    ensures Query([x, y], Some(start), 2, false) == Page([x, y], None)
  {
    assert [x, y][1..] == [y] && [y][1..] == [];
    assert FeaturesAfter([y], Some(start)) == [y];
    assert FeaturesAfter([x, y], Some(start)) == [x, y];
  }

  /** The tenant's partition, and its listing number 0. */
  ghost predicate Holds(s: State, tenant: string, p: Partition, l: Listing) {
    Of(s, tenant) == p && (tenant, 0) in s.listings && s.listings[(tenant, 0)] == l
  }

  lemma StartStep(s: State, tenant: string, p: Partition)
    requires Of(s, tenant) == p
    ensures Holds(Apply(s, Step(tenant, ListStart(None, 0))), tenant, p, Listing([], None))
  {
  }

  lemma PageStep(s: State, tenant: string, x: Item, y: Item)
    requires Holds(s, tenant, [x, y], Listing([], None)) && IsFeatureId(x.resourceId) && IsFeatureId(y.resourceId)
    ensures var s' := Apply(s, Step(tenant, ListPage(0, 1, false, Works)));
            Holds(s', tenant, [x, y], Listing([x], Some(x.resourceId)))
  {
    FirstPage(x, y);
    assert [] + [x] == [x];
  }

  lemma RemoveStep(s: State, tenant: string, a: string, y: Item, l: Listing)
    requires Holds(s, tenant, [FeatureItem(a), y], l)
    ensures Holds(Apply(s, Step(tenant, Request.Remove(None, a, Works))), tenant, [y], l)
  {
    assert [FeatureItem(a), y][1..] == [y];
  }

  lemma CreateStep(s: State, tenant: string, c: string, y: Item, l: Listing)
    requires Holds(s, tenant, [y], l) && y.resourceId != FeatureId(c) && !Before(FeatureId(c), y.resourceId)
    ensures Holds(Apply(s, Step(tenant, Create(tenant, c, map[], "", Works))), tenant, [y, FeatureItem(c)], l)
  {
    assert [y][1..] == [];
    assert Find([y], FeatureId(c)).None?;
    assert Add([], FeatureItem(c)) == [FeatureItem(c)];
  }

  lemma AnswerStep(s: State, tenant: string, x: Item, y: Item, z: Item)
    requires Holds(s, tenant, [y, z], Listing([x], Some(x.resourceId)))
    requires IsFeatureId(y.resourceId) && IsFeatureId(z.resourceId)
    requires Before(x.resourceId, y.resourceId) && Before(x.resourceId, z.resourceId)
    ensures Effect(s, Step(tenant, ListPage(0, 2, false, Works))).1 == Some(Listed([x, y, z]))
  {
    SecondPage(y, z, x.resourceId);
    assert [x] + [y, z] == [x, y, z];
  }

  /** The three items are feature sets in key order. */
  ghost predicate InOrder(x: Item, y: Item, z: Item) {
    && IsFeatureId(x.resourceId) && IsFeatureId(y.resourceId) && IsFeatureId(z.resourceId)
    && Before(x.resourceId, y.resourceId) && Before(x.resourceId, z.resourceId) && Before(y.resourceId, z.resourceId)
    && y.resourceId != z.resourceId && !Before(z.resourceId, y.resourceId)
  }

  lemma ItemsInOrder(a: string, b: string, c: string)
    requires Before(a, b) && Before(b, c)
    ensures InOrder(FeatureItem(a), FeatureItem(b), FeatureItem(c))
  {
    OrderedItems(a, b);
    OrderedItems(b, c);
    BeforeTrans(FeatureId(a), FeatureId(b), FeatureId(c));
    assert FEATURE_PREFIX <= FeatureId(a) && FEATURE_PREFIX <= FeatureId(b) && FEATURE_PREFIX <= FeatureId(c);
  }

  /** The states of the torn run, point by point: up to the first page, and from there on. */
  lemma TornStart(tenant: string, a: string, c: string, x: Item, y: Item, s: State, steps: seq<Step>)
    requires IsFeatureId(x.resourceId) && IsFeatureId(y.resourceId)
    requires Of(s, tenant) == [x, y] && steps == TornRun(tenant, a, c)
    ensures Of(At(s, steps, 1), tenant) == [x, y]
    ensures Holds(At(s, steps, 2), tenant, [x, y], Listing([x], Some(x.resourceId)))
  {
    assert steps[..0] == [] && At(s, steps, 0) == s;
    AtStep(s, steps, 0);
    StartStep(s, tenant, [x, y]);
    AtStep(s, steps, 1);
    PageStep(At(s, steps, 1), tenant, x, y);
  }

  lemma TornEnd(tenant: string, a: string, c: string, x: Item, y: Item, z: Item, s: State, steps: seq<Step>)
    requires InOrder(x, y, z) && x == FeatureItem(a) && z == FeatureItem(c) && steps == TornRun(tenant, a, c)
    requires Holds(At(s, steps, 2), tenant, [x, y], Listing([x], Some(x.resourceId)))
    ensures Of(At(s, steps, 3), tenant) == [y] && Of(At(s, steps, 4), tenant) == [y, z]
    ensures Effect(At(s, steps, 4), steps[4]).1 == Some(Listed([x, y, z]))
  {
    var l := Listing([x], Some(x.resourceId));
    AtStep(s, steps, 2);
    RemoveStep(At(s, steps, 2), tenant, a, y, l);
    AtStep(s, steps, 3);
    CreateStep(At(s, steps, 3), tenant, c, y, l);
    AnswerStep(At(s, steps, 4), tenant, x, y, z);
  }

  /** Three sets, where there were never more than two. */
  lemma NeverThree(s: State, steps: seq<Step>, tenant: string, x: Item, y: Item, z: Item)
    requires |steps| == 5 && Of(At(s, steps, 1), tenant) == [x, y] && Of(At(s, steps, 2), tenant) == [x, y]
    requires Of(At(s, steps, 3), tenant) == [y] && Of(At(s, steps, 4), tenant) == [y, z]
    ensures Writes(s, steps, 1, 4, tenant) == 2
    ensures !IsSnapshot(s, steps, 1, 4, tenant, [x, y, z])
  {
    assert Writes(s, steps, 1, 1, tenant) == 0 && Writes(s, steps, 1, 2, tenant) == 0;
    assert Writes(s, steps, 1, 3, tenant) == 1;
    forall k | 1 <= k <= 4 ensures !IsListingAt(s, steps, k, tenant, [x, y, z]) {
      AfterIsShort(Of(At(s, steps, k), tenant), None);
    }
  }

  /** Two writes can tear a listing: this one is answered with a set that was removed before another one it holds was
      created. */
  lemma TwoWritesTear(tenant: string, a: string, b: string, c: string)
    requires Before(a, b) && Before(b, c)
    ensures var s, steps := TwoSets(tenant, a, b), TornRun(tenant, a, c);
            var items := [FeatureItem(a), FeatureItem(b), FeatureItem(c)];
            && AllProper(s) && s.listings == map[] && Answers(s, steps, 0, 4, items)
            && Writes(s, steps, 1, 4, tenant) == 2 && !IsSnapshot(s, steps, 1, 4, tenant, items)
  {
    var s, steps := TwoSets(tenant, a, b), TornRun(tenant, a, c);
    var x, y, z := FeatureItem(a), FeatureItem(b), FeatureItem(c);
    TwoSetsProper(tenant, a, b);
    ItemsInOrder(a, b, c);
    TornStart(tenant, a, c, x, y, s, steps);
    TornEnd(tenant, a, c, x, y, z, s, steps);
    NeverThree(s, steps, tenant, x, y, z);
  }

  /** Every answered listing with `n` writes at most between its start and its last page is a snapshot. */
  ghost predicate SnapshotsUpTo(n: nat) {
    forall s, steps: seq<Step>, j: nat, k: nat, items |
      AllProper(s) && s.listings == map[] && Answers(s, steps, j, k, items)
      && Writes(s, steps, j + 1, k, steps[k].auth) <= n ::
        IsSnapshot(s, steps, j + 1, k, steps[k].auth, items)
  }

  /** Exactly when listings are snapshots. */
  lemma SnapshotsExactly(n: nat)
    ensures SnapshotsUpTo(n) <==> n <= 1
  {
    if n <= 1 {
      forall s, steps: seq<Step>, j: nat, k: nat, items |
        AllProper(s) && s.listings == map[] && Answers(s, steps, j, k, items)
        && Writes(s, steps, j + 1, k, steps[k].auth) <= n
        ensures IsSnapshot(s, steps, j + 1, k, steps[k].auth, items)
      {
        OneWriteSnapshot(s, steps, j, k, items);
      }
    } else {
      TwoWritesTear("t", "a", "b", "c");
      var s, steps := TwoSets("t", "a", "b"), TornRun("t", "a", "c");
      assert Writes(s, steps, 0 + 1, 4, steps[4].auth) <= n;
    }
  }
}
