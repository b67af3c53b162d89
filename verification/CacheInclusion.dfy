/** A bigger model cache never misses where a smaller one hits. */
module CacheInclusion {
  import opened Results
  import opened Bytes
  import opened OrderedDict
  import opened PyStr
  import opened InferenceEngine

  // ----- subsequences -----

  /** `xs` can be had from `ys` by leaving elements out. */
  predicate IsSubsequence<K(==)>(xs: seq<K>, ys: seq<K>) {
    if xs == [] then true
    else if ys == [] then false
    else if xs[0] == ys[0] then IsSubsequence(xs[1..], ys[1..])
    else IsSubsequence(xs, ys[1..])
  }

  predicate Distinct<K(==)>(ks: seq<K>) {
    forall i, j | 0 <= i < j < |ks| :: ks[i] != ks[j]
  }

  function Without<K(==)>(ks: seq<K>, k: K): seq<K> {
    if ks == [] then [] else if ks[0] == k then ks[1..] else [ks[0]] + Without(ks[1..], k)
  }

  lemma {:induction false} SubsequenceMember<K>(xs: seq<K>, ys: seq<K>, k: K)
    requires IsSubsequence(xs, ys) && k in xs
    ensures k in ys
  {
    if xs[0] == ys[0] {
      if k != xs[0] { SubsequenceMember(xs[1..], ys[1..], k); }
    } else {
      SubsequenceMember(xs, ys[1..], k);
    }
  }

  lemma {:induction false} SubsequenceDrop<K>(xs: seq<K>, ys: seq<K>)
    requires IsSubsequence(xs, ys) && xs != []
    ensures IsSubsequence(xs[1..], ys[1..])
    decreases |ys|, 0
  {
    if xs[0] != ys[0] {
      SubsequenceDrop(xs, ys[1..]);
      SubsequenceWeaken(xs[1..], ys[1..]);
    }
  }

  lemma {:induction false} SubsequenceWeaken<K>(xs: seq<K>, ys: seq<K>)
    requires ys != [] && IsSubsequence(xs, ys[1..])
    ensures IsSubsequence(xs, ys)
    decreases |ys|, 1
  {
    if xs != [] && xs[0] == ys[0] {
      SubsequenceDrop(xs, ys[1..]);
      if ys[1..] != [] {
        SubsequenceWeaken(xs[1..], ys[1..]);
      }
    }
  }

  lemma {:induction false} SubsequenceAppend<K>(xs: seq<K>, ys: seq<K>, z: K)
    requires IsSubsequence(xs, ys)
    ensures IsSubsequence(xs + [z], ys + [z])
    ensures IsSubsequence(xs, ys + [z])
  {
    if ys != [] {
      assert (ys + [z])[1..] == ys[1..] + [z];
      if xs == [] {
        SubsequenceAppend(xs, ys[1..], z);
      } else if xs[0] == ys[0] {
        assert (xs + [z])[1..] == xs[1..] + [z];
        SubsequenceAppend(xs[1..], ys[1..], z);
      } else {
        SubsequenceAppend(xs, ys[1..], z);
      }
    }
  }

  lemma {:induction false} WithoutAbsent<K>(ks: seq<K>, k: K)
    requires k !in ks
    ensures Without(ks, k) == ks
  {
    if ks != [] {
      WithoutAbsent(ks[1..], k);
    }
  }

  lemma {:induction false} WithoutMember<K>(ks: seq<K>, k: K, x: K)
    requires x in Without(ks, k)
    ensures x in ks
  {
    if ks[0] != k && x != ks[0] {
      WithoutMember(ks[1..], k, x);
    }
  }

  lemma {:induction false} SubsequenceWithout<K>(xs: seq<K>, ys: seq<K>, k: K)
    requires Distinct(xs) && Distinct(ys) && IsSubsequence(xs, ys)
    ensures IsSubsequence(Without(xs, k), Without(ys, k))
  {
    if xs != [] {
      if xs[0] == ys[0] {
        if xs[0] != k {
          SubsequenceWithout(xs[1..], ys[1..], k);
        }
      } else {
        var xs' := Without(xs, k);
        if ys[0] == k {
          if k in xs { SubsequenceMember(xs, ys[1..], k); }
          WithoutAbsent(xs, k);
        } else {
          SubsequenceWithout(xs, ys[1..], k);
          if xs' != [] && xs'[0] == ys[0] {
            WithoutMember(xs, k, xs'[0]);
            SubsequenceMember(xs, ys[1..], xs'[0]);
          }
        }
      }
    }
  }

  // ----- keys of a cache -----

  lemma {:induction false} KeysOfRemove(models: Models, name: string)
    ensures Keys(Remove(models, name)) == Without(Keys(models), name)
  {
    if models != [] {
      assert Keys(models)[1..] == Keys(models[1..]);
      KeysOfRemove(models[1..], name);
    }
  }

  lemma KeysFacts(models: Models)
    requires Unique(models)
    ensures Distinct(Keys(models))
    ensures forall name :: Has(models, name) <==> name in Keys(models)
  {
    forall name | Has(models, name) ensures name in Keys(models) {
      var i :| 0 <= i < |models| && models[i].0 == name;
      assert Keys(models)[i] == name;
    }
  }

  lemma KeysOfTouch(models: Models, name: string)
    requires Unique(models) && Has(models, name)
    ensures Keys(Touch(models, name)) == Without(Keys(models), name) + [name]
  {
    KeysOfRemove(models, name);
  }

  function Last<K>(ks: seq<K>, n: nat): seq<K> {
    if |ks| > n then ks[|ks| - n..] else ks
  }

  lemma KeysOfKeepLast(models: Models, max: nat)
    ensures Keys(KeepLast(models, max)) == Last(Keys(models), max)
  {
  }

  lemma KeysOfAppend(models: Models, name: string, loaded: LoadedModel)
    ensures Keys(models + [(name, loaded)]) == Keys(models) + [name]
  {
  }

  lemma KeysOfInsert(models: Models, max: nat, name: string, loaded: LoadedModel)
    ensures Keys(Insert(models, max, name, loaded)) == Last(Without(Keys(models), name) + [name], max)
  {
    KeysOfRemove(models, name);
    KeysOfAppend(Remove(models, name), name, loaded);
    KeysOfKeepLast(Remove(models, name) + [(name, loaded)], max);
  }

  // ----- runs -----

  datatype Call = LoadCall(name: string, weights: seq<byte>) | PredictCall(name: string, features: seq<real>)
      | UnloadCall(name: string)

  function Apply(lib: Library, max: nat, models: Models, call: Call): Models {
    match call
    case LoadCall(name, weights) => Load(lib, max, models, name, weights).0
    case PredictCall(name, features) => Predict(lib, models, name, features).0
    case UnloadCall(name) => Unload(models, name)
  }

  function Run(lib: Library, max: nat, models: Models, calls: seq<Call>): Models
    decreases calls
  {
    if calls == [] then models else Run(lib, max, Apply(lib, max, models, calls[0]), calls[1..])
  }

  /** The small cache's recency list is a subsequence of the large one's, and the large cache has used no more
      than its extra room. */
  ghost predicate Included(small: Models, large: Models, c1: nat, c2: nat) {
    && 0 < c1 <= c2
    && WellFormed(small, c1) && WellFormed(large, c2)
    && IsSubsequence(Keys(small), Keys(large))
    && |large| - |small| <= c2 - c1
  }

  lemma HitsAreInherited(small: Models, large: Models, c1: nat, c2: nat, name: string)
    requires Included(small, large, c1, c2)
    ensures Has(small, name) ==> Has(large, name)
  {
    KeysFacts(small);
    KeysFacts(large);
    if Has(small, name) {
      SubsequenceMember(Keys(small), Keys(large), name);
    }
  }

  /** A use of `name`: the large cache touches it if it can, and the small one does the same or has no such entry. */
  lemma TouchKeepsIncluded(small: Models, large: Models, c1: nat, c2: nat, name: string)
    requires Included(small, large, c1, c2)
    ensures Included(Touch(small, name), Touch(large, name), c1, c2)
  {
    KeysFacts(small);
    KeysFacts(large);
    HitsAreInherited(small, large, c1, c2, name);
    TouchKeepsWellFormed(small, c1, name);
    TouchKeepsWellFormed(large, c2, name);
    if Has(large, name) {
      KeysOfTouch(large, name);
      TouchShape(large, name);
      SubsequenceWithout(Keys(small), Keys(large), name);
      SubsequenceAppend(Without(Keys(small), name), Without(Keys(large), name), name);
      if Has(small, name) {
        KeysOfTouch(small, name);
        TouchShape(small, name);
      } else {
        WithoutAbsent(Keys(small), name);
      }
    }
  }

  /** Trimming both sides to their capacities keeps one a subsequence of the other, when the larger side has no
      more surplus than the capacities allow. */
  lemma {:induction false} LastKeepsSubsequence(xs: seq<string>, ys: seq<string>, c1: nat, c2: nat)
    requires IsSubsequence(xs, ys) && |ys| - |xs| <= c2 - c1
    requires c1 <= c2 && |xs| <= c1 + 1 && |ys| <= c2 + 1
    ensures IsSubsequence(Last(xs, c1), Last(ys, c2))
  {
    if |xs| > c1 {
      SubsequenceDrop(xs, ys);
      if |ys| <= c2 {
        SubsequenceWeaken(xs[1..], ys);
      }
    }
  }

  /** A load that misses in the small cache and decrypts. */
  lemma InsertKeepsIncluded(small: Models, large: Models, c1: nat, c2: nat, name: string, loaded: LoadedModel)
    requires Included(small, large, c1, c2) && !Has(small, name)
    requires loaded.modelName == name && IsName(name) && loaded.featureDimension > 0
    ensures Included(Insert(small, c1, name, loaded),
                     if Has(large, name) then Touch(large, name) else Insert(large, c2, name, loaded), c1, c2)
  {
    KeysFacts(small);
    KeysFacts(large);
    var xs, ys := Without(Keys(small), name) + [name], Without(Keys(large), name) + [name];
    InsertKeepsWellFormed(small, c1, name, loaded);
    InsertKeepsWellFormed(large, c2, name, loaded);
    KeysOfInsert(small, c1, name, loaded);
    KeysOfInsert(large, c2, name, loaded);
    SubsequenceWithout(Keys(small), Keys(large), name);
    SubsequenceAppend(Without(Keys(small), name), Without(Keys(large), name), name);
    WithoutAbsent(Keys(small), name);
    RemoveUnique(large, name);
    KeysOfRemove(large, name);
    LastKeepsSubsequence(xs, ys, c1, c2);
    if Has(large, name) {
      TouchKeepsWellFormed(large, c2, name);
      TouchShape(large, name);
      KeysOfTouch(large, name);
    }
  }

  lemma UnloadKeepsIncluded(small: Models, large: Models, c1: nat, c2: nat, name: string)
    requires Included(small, large, c1, c2)
    ensures Included(Remove(small, name), Remove(large, name), c1, c2)
  {
    KeysFacts(small);
    KeysFacts(large);
    HitsAreInherited(small, large, c1, c2, name);
    RemoveUnique(small, name);
    RemoveUnique(large, name);
    EntriesStay(small, Remove(small, name), c1);
    EntriesStay(large, Remove(large, name), c2);
    KeysOfRemove(small, name);
    KeysOfRemove(large, name);
    SubsequenceWithout(Keys(small), Keys(large), name);
  }

  lemma LoadKeepsIncluded(lib: Library, c1: nat, c2: nat, small: Models, large: Models, modelName: string,
                          weights: seq<byte>)
    requires Included(small, large, c1, c2)
    ensures Included(Load(lib, c1, small, modelName, weights).0, Load(lib, c2, large, modelName, weights).0, c1, c2)
  {
    var name := Strip(modelName);
    StripTwice(modelName);
    HitsAreInherited(small, large, c1, c2, name);
    if name != "" && weights != [] {
      if !Has(small, name) && DecryptModel(lib, name, weights).Success? {
        DecryptedModelIsNamed(lib, name, weights);
        InsertKeepsIncluded(small, large, c1, c2, name, DecryptModel(lib, name, weights).value);
      } else {
        TouchKeepsIncluded(small, large, c1, c2, name);
      }
    }
  }

  lemma PredictKeepsIncluded(lib: Library, c1: nat, c2: nat, small: Models, large: Models, modelName: string,
                             features: seq<real>)
    requires Included(small, large, c1, c2)
    ensures Included(Predict(lib, small, modelName, features).0, Predict(lib, large, modelName, features).0, c1, c2)
  {
    var name := Strip(modelName);
    HitsAreInherited(small, large, c1, c2, name);
    TouchKeepsIncluded(small, large, c1, c2, name);
  }

  lemma CallKeepsIncluded(lib: Library, c1: nat, c2: nat, small: Models, large: Models, call: Call)
    requires Included(small, large, c1, c2)
    ensures Included(Apply(lib, c1, small, call), Apply(lib, c2, large, call), c1, c2)
  {
    match call
    case UnloadCall(name) => UnloadKeepsIncluded(small, large, c1, c2, Strip(name));
    case PredictCall(name, features) => PredictKeepsIncluded(lib, c1, c2, small, large, name, features);
    case LoadCall(name, weights) => LoadKeepsIncluded(lib, c1, c2, small, large, name, weights);
  }

  /** LRU inclusion: run the same calls against two engines, the second at least as large as the first. At every
      point the small recency list is a subsequence of the large one. Failing loads, unloads and predictions
      included. */
  lemma {:induction false} Inclusion(lib: Library, c1: nat, c2: nat, small: Models, large: Models, calls: seq<Call>)
    requires Included(small, large, c1, c2)
    ensures Included(Run(lib, c1, small, calls), Run(lib, c2, large, calls), c1, c2)
    decreases calls
  {
    if calls != [] {
      CallKeepsIncluded(lib, c1, c2, small, large, calls[0]);
      Inclusion(lib, c1, c2, Apply(lib, c1, small, calls[0]), Apply(lib, c2, large, calls[0]), calls[1..]);
    }
  }

  /** So, from two empty engines on, the large cache never misses where the small one hits. */
  lemma {:induction false} BiggerNeverMissesMore(lib: Library, c1: nat, c2: nat, calls: seq<Call>, name: string)
    requires 0 < c1 <= c2
    ensures IsSubsequence(Keys(Run(lib, c1, [], calls)), Keys(Run(lib, c2, [], calls)))
    ensures Has(Run(lib, c1, [], calls), name) ==> Has(Run(lib, c2, [], calls), name)
  {
    Inclusion(lib, c1, c2, [], [], calls);
    HitsAreInherited(Run(lib, c1, [], calls), Run(lib, c2, [], calls), c1, c2, name);
  }

  // ----- what a hit serves -----

  /** The call loads this model under this name, should it miss. */
  predicate LoadsAs(lib: Library, call: Call, name: string, loaded: LoadedModel) {
    && call.LoadCall? && Strip(call.name) == name && name != "" && call.weights != []
    && DecryptModel(lib, name, call.weights) == Success(loaded)
  }

  ghost predicate LoadedIn(lib: Library, calls: seq<Call>, name: string, loaded: LoadedModel) {
    exists i | 0 <= i < |calls| :: LoadsAs(lib, calls[i], name, loaded)
  }

  ghost predicate AllLoadedIn(lib: Library, calls: seq<Call>, models: Models) {
    forall e | e in models :: LoadedIn(lib, calls, e.0, e.1)
  }

  /** No two loads among these calls would put different models under one name. */
  ghost predicate NoConflict(lib: Library, calls: seq<Call>) {
    forall i, j, name, x, y | 0 <= i < |calls| && 0 <= j < |calls| ::
      LoadsAs(lib, calls[i], name, x) && LoadsAs(lib, calls[j], name, y) ==> x == y
  }

  /** An entry of the cache after a call was there before, or is what the call loads. */
  lemma CallAdds(lib: Library, max: nat, models: Models, call: Call, e: (string, LoadedModel))
    requires max > 0 && WellFormed(models, max) && e in Apply(lib, max, models, call)
    ensures e in models || LoadsAs(lib, call, e.0, e.1)
  {
    var name := Strip(call.name);
    RemoveUnique(models, name);
    if !call.UnloadCall? && Has(models, name) { TouchShape(models, name); }
  }

  lemma CallKeepsWellFormed(lib: Library, max: nat, models: Models, call: Call)
    requires max > 0 && WellFormed(models, max)
    ensures WellFormed(Apply(lib, max, models, call), max)
  {
    var name := Strip(call.name);
    match call
    case LoadCall(modelName, weights) => LoadKeepsWellFormed(lib, max, models, modelName, weights);
    case PredictCall(_, _) => TouchKeepsWellFormed(models, max, name);
    case UnloadCall(_) =>
      RemoveUnique(models, name);
      EntriesStay(models, Remove(models, name), max);
  }

  lemma {:induction false} RunServesItsLoads(lib: Library, max: nat, models: Models, past: seq<Call>, calls: seq<Call>)
    requires max > 0 && WellFormed(models, max) && AllLoadedIn(lib, past, models)
    ensures AllLoadedIn(lib, past + calls, Run(lib, max, models, calls))
    decreases calls
  {
    if calls == [] {
      assert past + calls == past;
    } else {
      var next := Apply(lib, max, models, calls[0]);
      CallKeepsWellFormed(lib, max, models, calls[0]);
      CallServesItsLoads(lib, max, models, past, calls[0]);
      assert past + [calls[0]] + calls[1..] == past + calls;
      RunServesItsLoads(lib, max, next, past + [calls[0]], calls[1..]);
    }
  }

  lemma CallServesItsLoads(lib: Library, max: nat, models: Models, past: seq<Call>, call: Call)
    requires max > 0 && WellFormed(models, max) && AllLoadedIn(lib, past, models)
    ensures AllLoadedIn(lib, past + [call], Apply(lib, max, models, call))
  {
    forall e | e in Apply(lib, max, models, call) ensures LoadedIn(lib, past + [call], e.0, e.1) {
      CallAdds(lib, max, models, call, e);
      if e in models {
        assert LoadedIn(lib, past, e.0, e.1);
        var i :| 0 <= i < |past| && LoadsAs(lib, past[i], e.0, e.1);
        assert (past + [call])[i] == past[i];
      } else {
        assert (past + [call])[|past|] == call;
      }
    }
  }

  /** When no two loads of a run conflict, the capacity is invisible in what is served: wherever both caches hold a
      name, they hold the same model. */
  lemma CapacityIsTransparent(lib: Library, c1: nat, c2: nat, calls: seq<Call>, name: string)
    requires c1 > 0 && c2 > 0 && NoConflict(lib, calls)
    requires Has(Run(lib, c1, [], calls), name) && Has(Run(lib, c2, [], calls), name)
    ensures Get(Run(lib, c1, [], calls), name) == Get(Run(lib, c2, [], calls), name)
  {
    ServedIsLoaded(lib, c1, calls, name);
    ServedIsLoaded(lib, c2, calls, name);
  }

  lemma ServedIsLoaded(lib: Library, max: nat, calls: seq<Call>, name: string)
    requires max > 0 && Has(Run(lib, max, [], calls), name)
    ensures LoadedIn(lib, calls, name, Get(Run(lib, max, [], calls), name).value)
  {
    var models := Run(lib, max, [], calls);
    RunServesItsLoads(lib, max, [], [], calls);
    assert [] + calls == calls;
    var i :| 0 <= i < |models| && models[i] == (name, Get(models, name).value);
    assert models[i] in models;
  }

  lemma RunThree(lib: Library, max: nat, a: Call, b: Call, c: Call)
    ensures Run(lib, max, [], [a, b, c]) == Apply(lib, max, Apply(lib, max, Apply(lib, max, [], a), b), c)
  {
    assert [a, b, c][1..] == [b, c] && [b, c][1..] == [c] && [c][1..] == [];
    var two := Apply(lib, max, Apply(lib, max, [], a), b);
    assert Run(lib, max, Apply(lib, max, two, c), []) == Apply(lib, max, two, c);
    assert Run(lib, max, two, [c]) == Apply(lib, max, two, c);
  }

  lemma LoadFresh(lib: Library, max: nat, models: Models, call: Call, name: string, loaded: LoadedModel)
    requires !Has(models, name) && LoadsAs(lib, call, name, loaded)
    ensures Apply(lib, max, models, call) == KeepLast(models + [(name, loaded)], max)
  {
    RemoveAbsent(models, name);
  }

  /** And any two loads that conflict make it visible, once there is another model to push the first one out: the cache
      is keyed by name only, so the engine that still holds `a` keeps serving the first bundle, while the one that had
      to evict it serves the second. */
  lemma CapacityCanChangeTheModel(lib: Library, first: Call, other: Call, second: Call, a: string, b: string,
                                  x: LoadedModel, y: LoadedModel, z: LoadedModel)
    requires LoadsAs(lib, first, a, x) && LoadsAs(lib, second, a, y) && LoadsAs(lib, other, b, z)
    requires a != b && x != y
    ensures Get(Run(lib, 1, [], [first, other, second]), a) == Some(y)
    ensures Get(Run(lib, 2, [], [first, other, second]), a) == Some(x)
  {
    RunThree(lib, 1, first, other, second);
    RunThree(lib, 2, first, other, second);
    var onlyA: Models := [(a, x)];
    var onlyB: Models := [(b, z)];
    var both: Models := [(a, x), (b, z)];
    LoadFresh(lib, 1, [], first, a, x);
    LoadFresh(lib, 2, [], first, a, x);
    LoadFresh(lib, 1, onlyA, other, b, z);
    LoadFresh(lib, 2, onlyA, other, b, z);
    LoadFresh(lib, 1, onlyB, second, a, y);
    assert both[0].0 == a && Has(both, a);
    assert Remove(both, a) == onlyB;
    assert Apply(lib, 2, both, second) == [(b, z), (a, x)];
  }

  /** Engines of these capacities serve the same model under this name after this run, if both hold one. */
  ghost predicate ServeAlike(lib: Library, c1: nat, c2: nat, run: seq<Call>, name: string) {
    Has(Run(lib, c1, [], run), name) && Has(Run(lib, c2, [], run), name) ==>
      Get(Run(lib, c1, [], run), name) == Get(Run(lib, c2, [], run), name)
  }

  ghost predicate CapacityInvisible(lib: Library, calls: seq<Call>) {
    forall c1: nat, c2: nat, run, name |
      c1 > 0 && c2 > 0 && forall call | call in run :: call in calls :: ServeAlike(lib, c1, c2, run, name)
  }

  /** All loads among these calls are of one name. */
  ghost predicate OneName(lib: Library, calls: seq<Call>) {
    forall i, j, name, other, x, y | 0 <= i < |calls| && 0 <= j < |calls| ::
      LoadsAs(lib, calls[i], name, x) && LoadsAs(lib, calls[j], other, y) ==> name == other
  }

  ghost predicate LoadsOnly(lib: Library, calls: seq<Call>, name: string) {
    forall i, other, x | 0 <= i < |calls| :: LoadsAs(lib, calls[i], other, x) ==> other == name
  }

  /** Nothing but this name is cached, if anything is. */
  predicate HoldsOnly(models: Models, name: string) {
    models == [] || (|models| == 1 && models[0].0 == name)
  }

  lemma HoldsNothing(models: Models, name: string)
    requires HoldsOnly(models, name) && !Has(models, name)
    ensures models == []
  {
  }

  /** With a single name to load no cache is ever full, and the capacity does nothing. */
  lemma CallIgnoresCapacity(lib: Library, c1: nat, c2: nat, models: Models, call: Call, name: string)
    requires c1 > 0 && c2 > 0 && HoldsOnly(models, name)
    requires forall other, x :: LoadsAs(lib, call, other, x) ==> other == name
    ensures Apply(lib, c1, models, call) == Apply(lib, c2, models, call)
    ensures HoldsOnly(Apply(lib, c1, models, call), name)
  {
    if call.LoadCall? {
      var key := Strip(call.name);
      if key != "" && call.weights != [] && !Has(models, key) && DecryptModel(lib, key, call.weights).Success? {
        assert LoadsAs(lib, call, key, DecryptModel(lib, key, call.weights).value);
        HoldsNothing(models, key);
      }
    }
  }

  lemma {:induction false} RunIgnoresCapacity(lib: Library, c1: nat, c2: nat, models: Models, calls: seq<Call>,
                                              name: string)
    requires c1 > 0 && c2 > 0 && HoldsOnly(models, name) && LoadsOnly(lib, calls, name)
    ensures Run(lib, c1, models, calls) == Run(lib, c2, models, calls)
    decreases calls
  {
    if calls != [] {
      CallIgnoresCapacity(lib, c1, c2, models, calls[0], name);
      RunIgnoresCapacity(lib, c1, c2, Apply(lib, c1, models, calls[0]), calls[1..], name);
    }
  }

  lemma OneNameIsTransparent(lib: Library, c1: nat, c2: nat, calls: seq<Call>)
    requires c1 > 0 && c2 > 0 && OneName(lib, calls)
    ensures Run(lib, c1, [], calls) == Run(lib, c2, [], calls)
  {
    if i, name, x :| 0 <= i < |calls| && LoadsAs(lib, calls[i], name, x) {
      RunIgnoresCapacity(lib, c1, c2, [], calls, name);
    } else {
      RunIgnoresCapacity(lib, c1, c2, [], calls, "");
    }
  }

  /** So: the capacity is invisible in every run made of these calls if and only if no two of them conflict, or they all
      load the same name. */
  lemma CapacityInvisibleExactly(lib: Library, calls: seq<Call>)
    ensures CapacityInvisible(lib, calls) <==> NoConflict(lib, calls) || OneName(lib, calls)
  {
    if NoConflict(lib, calls) || OneName(lib, calls) {
      forall c1: nat, c2: nat, run, name | c1 > 0 && c2 > 0 && forall call | call in run :: call in calls
        ensures ServeAlike(lib, c1, c2, run, name)
      {
        if OneName(lib, calls) {
          FewerNames(lib, calls, run);
          OneNameIsTransparent(lib, c1, c2, run);
        } else {
          FewerConflicts(lib, calls, run);
          if Has(Run(lib, c1, [], run), name) && Has(Run(lib, c2, [], run), name) {
            CapacityIsTransparent(lib, c1, c2, run, name);
          }
        }
      }
    } else {
      var i, j, b, c, x, y :| 0 <= i < |calls| && 0 <= j < |calls|
                              && LoadsAs(lib, calls[i], b, x) && LoadsAs(lib, calls[j], c, y) && b != c;
      ConflictIsVisible(lib, calls, calls[i], calls[j], b, c, x, y);
    }
  }

  lemma FewerNames(lib: Library, calls: seq<Call>, run: seq<Call>)
    requires OneName(lib, calls) && forall call | call in run :: call in calls
    ensures OneName(lib, run)
  {
    forall i, j, name, other, x, y |
      0 <= i < |run| && 0 <= j < |run| && LoadsAs(lib, run[i], name, x) && LoadsAs(lib, run[j], other, y)
      ensures name == other
    {
      assert run[i] in calls && run[j] in calls;
      var k :| 0 <= k < |calls| && calls[k] == run[i];
      var l :| 0 <= l < |calls| && calls[l] == run[j];
      assert LoadsAs(lib, calls[k], name, x) && LoadsAs(lib, calls[l], other, y);
    }
  }

  lemma FewerConflicts(lib: Library, calls: seq<Call>, run: seq<Call>)
    requires NoConflict(lib, calls) && forall call | call in run :: call in calls
    ensures NoConflict(lib, run)
  {
    forall i, j, name, x, y |
      0 <= i < |run| && 0 <= j < |run| && LoadsAs(lib, run[i], name, x) && LoadsAs(lib, run[j], name, y)
      ensures x == y
    {
      assert run[i] in calls && run[j] in calls;
      var k :| 0 <= k < |calls| && calls[k] == run[i];
      var l :| 0 <= l < |calls| && calls[l] == run[j];
      assert LoadsAs(lib, calls[k], name, x) && LoadsAs(lib, calls[l], name, y);
    }
  }

  lemma ConflictIsVisible(lib: Library, calls: seq<Call>, one: Call, two: Call, b: string, c: string, x: LoadedModel,
                          y: LoadedModel)
    requires one in calls && two in calls && b != c && !NoConflict(lib, calls)
    requires LoadsAs(lib, one, b, x) && LoadsAs(lib, two, c, y)
    ensures !CapacityInvisible(lib, calls)
  {
    var i, j, name, v, w :| 0 <= i < |calls| && 0 <= j < |calls|
                            && LoadsAs(lib, calls[i], name, v) && LoadsAs(lib, calls[j], name, w) && v != w;
    var (other, otherName, otherModel) := if b != name then (one, b, x) else (two, c, y);
    var run := [calls[i], other, calls[j]];
    CapacityCanChangeTheModel(lib, calls[i], other, calls[j], name, otherName, v, w, otherModel);
    assert forall call | call in run :: call in calls;
    assert !ServeAlike(lib, 1, 2, run, name);
  }

  /** A library for an example: the first byte of a bundle names the model and the second is its version. */
  function ToyLibrary(): Library {
    Library(
      base64 := (s: string) => Some(if s == "new" then [1] else [0]),
      parseBundle := (w: seq<byte>) =>
        if |w| != 2 then None
        else Some(Bundle(Some("t"), Some(if w[0] == 0 then "a" else "b"), Some("key"),
                         Some(if w[1] == 1 then "new" else "old"))),
      parseArtifact := (blob: seq<byte>) =>
        Some(Artifact(Some("AESGCM"), Some("nonce"), Some(if blob == [1] then "new" else "old"), NoAad, None)),
      unwrapKey := (k: seq<byte>, t: string) => Some(k),
      openSealed := (k: seq<byte>, n: seq<byte>, c: seq<byte>, a: seq<byte>) => Some(c),
      deserialize := (bs: seq<byte>) => Some(Model(bs, Some(1))),
      infer := (m: Model, fs: seq<real>) => Predicted(if m.weights == [1] then 1.0 else 0.0, 1.0))
  }

  const OLD_A := LoadedModel("a", Model([0], Some(1)), 1)
  const NEW_A := LoadedModel("a", Model([1], Some(1)), 1)
  const OLD_B := LoadedModel("b", Model([0], Some(1)), 1)

  lemma ToyLoads()
    ensures LoadsAs(ToyLibrary(), LoadCall("a", [0, 0]), "a", OLD_A)
    ensures LoadsAs(ToyLibrary(), LoadCall("b", [1, 0]), "b", OLD_B)
    ensures LoadsAs(ToyLibrary(), LoadCall("a", [0, 1]), "a", NEW_A)
  {
    assert "new" != "old" by { assert "new"[0] != "old"[0]; }
    assert Strip("a") == "a" && Strip("b") == "b";
  }

  /** For instance: load `a`, load `b`, load a retrained `a`. */
  lemma RetrainedModelIsServedByTheSmallEngine()
    ensures var run := [LoadCall("a", [0, 0]), LoadCall("b", [1, 0]), LoadCall("a", [0, 1])];
            && Get(Run(ToyLibrary(), 1, [], run), "a") == Some(NEW_A)
            && Get(Run(ToyLibrary(), 2, [], run), "a") == Some(OLD_A)
  {
    ToyLoads();
    CapacityCanChangeTheModel(ToyLibrary(), LoadCall("a", [0, 0]), LoadCall("b", [1, 0]), LoadCall("a", [0, 1]),
                              "a", "b", OLD_A, NEW_A, OLD_B);
  }
}
