/** The engine under interleaving: any number of threads, each of whose lock regions is one atomic action. */
module EngineRuns {
  import opened Results
  import opened Bytes
  import opened OrderedDict
  import opened PyStr
  import opened InferenceEngine
  import opened BundleLoading
  import opened Recency
  import Utf8

  /** One lock region of some thread. A `load_model` is a `Touched`, and on a miss, after decrypting without the
      lock, a `Stored`; the library that decryption called may be a different one each time. A `predict` is a
      `Touched`, an `unload_model` a `Removed`. Names are stripped already. */
  datatype Action =
    | Touched(name: string)
    | Stored(name: string, lib: Library, weights: seq<byte>)
    | Removed(name: string)

  function Do(max: nat, models: Models, a: Action): Models {
    match a
    case Touched(name) => Touch(models, name)
    case Stored(name, lib, weights) =>
      var decrypted := DecryptModel(lib, name, weights);
      if decrypted.Success? then Insert(models, max, name, decrypted.value) else models
    case Removed(name) => Remove(models, name)
  }

  function Run(max: nat, models: Models, actions: seq<Action>): Models
    decreases |actions|
  {
    if actions == [] then models else Run(max, Do(max, models, actions[0]), actions[1..])
  }

  /** `load_model` refuses blank names before it decrypts. */
  ghost predicate Possible(actions: seq<Action>) {
    forall i | 0 <= i < |actions| :: actions[i].Stored? ==> IsName(actions[i].name)
  }

  lemma DoKeepsWellFormed(max: nat, models: Models, a: Action)
    requires max > 0 && WellFormed(models, max) && (a.Stored? ==> IsName(a.name))
    ensures WellFormed(Do(max, models, a), max)
  {
    match a
    case Touched(name) => TouchKeepsWellFormed(models, max, name);
    case Stored(name, lib, weights) =>
      if DecryptModel(lib, name, weights).Success? {
        DecryptedModelIsNamed(lib, name, weights);
        InsertKeepsWellFormed(models, max, name, DecryptModel(lib, name, weights).value);
      }
    case Removed(name) =>
      RemoveUnique(models, name);
      EntriesStay(models, Remove(models, name), max);
  }

  /** A whole call run without interference is what its lock regions do one after the other. */
  lemma CallsAreActions(lib: Library, max: nat, models: Models, modelName: string, weights: seq<byte>,
                        features: seq<real>)
    requires Unique(models)
    ensures var name := Strip(modelName);
            && (name != "" && weights != [] ==>
                  Load(lib, max, models, modelName, weights).0
                  == if Has(models, name) then Do(max, models, Touched(name))
                      else Do(max, models, Stored(name, lib, weights)))
            && (name != "" ==> Predict(lib, models, modelName, features).0 == Do(max, models, Touched(name)))
            && Unload(models, modelName) == Do(max, models, Removed(name))
  {
  }

  // ----- provenance -----

  /** Some load in the run put this model there. */
  ghost predicate Accounted(actions: seq<Action>, name: string, loaded: LoadedModel) {
    exists i | 0 <= i < |actions| :: actions[i].Stored? && actions[i].name == name
        && Opened(actions[i].lib, name, actions[i].weights, loaded)
  }

  ghost predicate AllAccounted(actions: seq<Action>, models: Models) {
    forall e | e in models :: Accounted(actions, e.0, e.1)
  }

  lemma DoKeepsAccounted(max: nat, models: Models, past: seq<Action>, a: Action)
    requires Unique(models) && AllAccounted(past, models)
    ensures AllAccounted(past + [a], Do(max, models, a))
  {
    var r := Do(max, models, a);
    RemoveUnique(models, a.name);
    if a.Touched? && Has(models, a.name) { TouchShape(models, a.name); }
    forall e | e in r ensures Accounted(past + [a], e.0, e.1) {
      if e in models {
        assert Accounted(past, e.0, e.1);
        var i :| 0 <= i < |past| && past[i].Stored? && past[i].name == e.0
            && Opened(past[i].lib, e.0, past[i].weights, e.1);
        assert (past + [a])[i] == past[i];
      } else {
        DecryptedIsOpened(a.lib, a.name, a.weights);
        assert (past + [a])[|past|] == a;
      }
    }
  }

  lemma {:induction false} ProvenanceFrom(max: nat, models: Models, past: seq<Action>, actions: seq<Action>)
    requires max > 0 && WellFormed(models, max) && AllAccounted(past, models) && Possible(actions)
    ensures WellFormed(Run(max, models, actions), max)
    ensures AllAccounted(past + actions, Run(max, models, actions))
    decreases |actions|
  {
    if actions == [] {
      assert past + actions == past;
    } else {
      DoKeepsWellFormed(max, models, actions[0]);
      DoKeepsAccounted(max, models, past, actions[0]);
      assert past + [actions[0]] + actions[1..] == past + actions;
      ProvenanceFrom(max, Do(max, models, actions[0]), past + [actions[0]], actions[1..]);
    }
  }

  /** Cache provenance: however loads, predictions and unloads interleave, every entry of the cache stems from a
      bundle of its own name that was unwrapped for the bundle's tenant and opened; names stay unique, the cache
      stays within its limit, and a decryption that fails adds nothing. */
  lemma Provenance(max: nat, actions: seq<Action>)
    requires max > 0 && Possible(actions)
    ensures WellFormed(Run(max, [], actions), max)
    ensures AllAccounted(actions, Run(max, [], actions))
  {
    ProvenanceFrom(max, [], [], actions);
    assert [] + actions == actions;
  }

  // ----- retention -----

  /** The action uses a model: a look-up that hits, or a load that decrypts and is stored. Look-ups that miss and loads
      that fail use nothing. */
  predicate Uses(models: Models, a: Action) {
    match a
    case Touched(name) => Has(models, name)
    case Stored(name, lib, weights) => DecryptModel(lib, name, weights).Success?
    case Removed(_) => false
  }

  /** The models used since `name` was, unloaded ones aside, after one more action. */
  function NextAbove(models: Models, a: Action, name: string, above: set<string>): set<string> {
    if a.Removed? then above - {a.name}
    else if !Uses(models, a) then above
    else if a.name == name then {}
    else above + {a.name}
  }

  /** At every point of the run, fewer than `max` other models have been used since `name` was and not been unloaded. */
  predicate Uncrowded(max: nat, models: Models, actions: seq<Action>, name: string, above: set<string>)
    decreases |actions|
  {
    && |above| < max
    && (actions == [] ||
        Uncrowded(max, Do(max, models, actions[0]), actions[1..], name, NextAbove(models, actions[0], name, above)))
  }

  predicate CachedThroughout(max: nat, models: Models, actions: seq<Action>, name: string)
    decreases |actions|
  {
    Has(models, name) && (actions == [] || CachedThroughout(max, Do(max, models, actions[0]), actions[1..], name))
  }

  /** One action on a cached model: it keeps its place below the ones used since, or goes when they fill the cache. */
  lemma DoKeepsBelow(max: nat, models: Models, a: Action, name: string, above: set<string>)
    requires max > 0 && WellFormed(models, max) && (a.Stored? ==> IsName(a.name))
    requires Below(models, name, above) && a != Removed(name)
    ensures var above', next := NextAbove(models, a, name, above), Do(max, models, a);
            if |above'| < max then Below(next, name, above') else !Has(next, name)
  {
    BelowHas(models, name, above);
    if a.Stored? && Uses(models, a) {
      StoreKeepsBelow(max, models, a, name, above);
    } else {
      if a.Removed? {
        DropOther(models, name, above, a.name);
      } else if Uses(models, a) {
        TouchKeepsBelow(models, a.name, name, above);
      }
      DoKeepsWellFormed(max, models, a);
      FewAbove(Do(max, models, a), name, NextAbove(models, a, name, above));
    }
  }

  lemma TouchKeepsBelow(models: Models, used: string, name: string, above: set<string>)
    requires Unique(models) && Below(models, name, above) && Has(models, used)
    ensures Below(Touch(models, used), name, if used == name then {} else above + {used})
  {
    if used == name {
      UseSelf(Remove(models, name), name, Get(models, name).value);
    } else {
      UseOther(models, name, above, used, Get(models, used).value);
    }
  }

  lemma StoreKeepsBelow(max: nat, models: Models, a: Action, name: string, above: set<string>)
    requires max > 0 && Unique(models) && |models| <= max && Below(models, name, above) && a.Stored? && Uses(models, a)
    ensures var above', next := NextAbove(models, a, name, above), Do(max, models, a);
            if |above'| < max then Below(next, name, above') else !Has(next, name)
  {
    var loaded := DecryptModel(a.lib, a.name, a.weights).value;
    var all := Remove(models, a.name) + [(a.name, loaded)];
    RemoveUnique(models, a.name);
    AppendUnique(Remove(models, a.name), a.name, loaded);
    if a.name == name {
      UseSelf(Remove(models, name), name, loaded);
    } else {
      UseOther(models, name, above, a.name, loaded);
    }
    Trim(all, name, NextAbove(models, a, name, above), max);
  }

  /** Retention, exactly: under any interleaving that does not unload it, a cached model stays cached at every point
      if and only if at every point fewer than `max` other models have been used since it was, unloaded ones aside. */
  lemma {:induction false} RetainedExactly(max: nat, models: Models, actions: seq<Action>, name: string,
                                           above: set<string>)
    requires max > 0 && WellFormed(models, max) && Possible(actions)
    requires Below(models, name, above) && Removed(name) !in actions
    ensures CachedThroughout(max, models, actions, name) <==> Uncrowded(max, models, actions, name, above)
    decreases |actions|
  {
    BelowHas(models, name, above);
    FewAbove(models, name, above);
    if actions != [] {
      var next, above' := Do(max, models, actions[0]), NextAbove(models, actions[0], name, above);
      DoKeepsBelow(max, models, actions[0], name, above);
      DoKeepsWellFormed(max, models, actions[0]);
      if |above'| < max {
        RetainedExactly(max, next, actions[1..], name, above');
      }
    }
  }

  /** The names other than `name` that are used in a run. */
  function UsedOthers(max: nat, models: Models, actions: seq<Action>, name: string): set<string>
    decreases |actions|
  {
    if actions == [] then {}
    else
      var later := UsedOthers(max, Do(max, models, actions[0]), actions[1..], name);
      if Uses(models, actions[0]) && actions[0].name != name then {actions[0].name} + later else later
  }

  /** Fewer than `max` others in the whole run never crowd a model out. */
  lemma {:induction false} FewOthers(max: nat, models: Models, actions: seq<Action>, name: string, above: set<string>)
    requires |above + UsedOthers(max, models, actions, name)| < max
    ensures Uncrowded(max, models, actions, name, above)
    decreases |actions|
  {
    var all := above + UsedOthers(max, models, actions, name);
    SubsetSize(above, all);
    if actions != [] {
      var next, above' := Do(max, models, actions[0]), NextAbove(models, actions[0], name, above);
      SubsetSize(above' + UsedOthers(max, next, actions[1..], name), all);
      FewOthers(max, next, actions[1..], name, above');
    }
  }

  lemma {:induction false} CachedAtTheEnd(max: nat, models: Models, actions: seq<Action>, name: string)
    requires CachedThroughout(max, models, actions, name)
    ensures Has(Run(max, models, actions), name)
    decreases |actions|
  {
    if actions != [] {
      CachedAtTheEnd(max, Do(max, models, actions[0]), actions[1..], name);
    }
  }

  lemma NewestIsBelowNothing(models: Models, name: string)
    requires models != [] && models[|models| - 1].0 == name
    ensures Below(models, name, {})
  {
    assert SitsBelow(models, |models| - 1, name, {});
  }

  /** Retention: a name that was just used stays cached through any interleaving that does not unload it and uses
      fewer than `max` other models. */
  lemma Retention(max: nat, models: Models, actions: seq<Action>, name: string)
    requires max > 0 && WellFormed(models, max) && Possible(actions)
    requires models != [] && models[|models| - 1].0 == name
    requires Removed(name) !in actions && |UsedOthers(max, models, actions, name)| < max
    ensures CachedThroughout(max, models, actions, name) && Has(Run(max, models, actions), name)
  {
    NewestIsBelowNothing(models, name);
    assert {} + UsedOthers(max, models, actions, name) == UsedOthers(max, models, actions, name);
    FewOthers(max, models, actions, name, {});
    RetainedExactly(max, models, actions, name, {});
    CachedAtTheEnd(max, models, actions, name);
  }

  lemma PredictHit(lib: Library, models: Models, modelName: string, features: seq<real>)
    requires Has(models, Strip(modelName)) && Strip(modelName) != ""
    ensures Predict(lib, models, modelName, features).1 != Failure(ModelNotLoaded)
  {
  }

  /** An action that uses a model leaves it the most recent one. */
  lemma UsedIsNewest(max: nat, models: Models, a: Action)
    requires max > 0 && Unique(models) && Uses(models, a)
    ensures var r := Do(max, models, a); r != [] && r[|r| - 1].0 == a.name
  {
    if a.Touched? {
      TouchShape(models, a.name);
    }
  }

  /** The prediction a handler makes after its own load finds the model, provided no other thread unloads it and fewer
      than `max` other models are used in between. `last` is the lock region in which the load ended, by a hit or a
      store, in whatever state other threads had made of the cache by then. */
  lemma PredictFindsLoadedModel(lib: Library, max: nat, models: Models, modelName: string, last: Action,
                                between: seq<Action>, features: seq<real>)
    requires max > 0 && WellFormed(models, max) && Possible(between)
    requires last.name == Strip(modelName) && IsName(last.name) && Uses(models, last)
    requires Removed(last.name) !in between && |UsedOthers(max, Do(max, models, last), between, last.name)| < max
    ensures var after := Run(max, Do(max, models, last), between);
            Has(after, Strip(modelName)) && Predict(lib, after, modelName, features).1 != Failure(ModelNotLoaded)
  {
    DoKeepsWellFormed(max, models, last);
    UsedIsNewest(max, models, last);
    Retention(max, Do(max, models, last), between, last.name);
    PredictHit(lib, Run(max, Do(max, models, last), between), modelName, features);
  }

  /** Loads of pairwise different names that all decrypt. */
  ghost predicate DistinctLoads(actions: seq<Action>) {
    && (forall i | 0 <= i < |actions| ::
           actions[i].Stored?
           && DecryptModel(actions[i].lib, actions[i].name, actions[i].weights).Success?)
    && (forall i, j | 0 <= i < j < |actions| :: actions[i].name != actions[j].name)
  }

  /** The most recent entries carry exactly the names of `actions`, in order. */
  ghost predicate EndsWith(models: Models, actions: seq<Action>) {
    var start := |models| - |actions|;
    start >= 0 && forall i | start <= i < |models| :: models[i].0 == actions[i - start].name
  }

  lemma DropOlder(models: Models, k: nat, actions: seq<Action>)
    requires EndsWith(models, actions) && k < |models| - |actions|
    ensures EndsWith(models[..k] + models[k + 1..], actions)
  {
  }

  /** Removing a name that is not among the last ones leaves those where they are. */
  lemma RemoveOlder(models: Models, name: string, actions: seq<Action>)
    requires Unique(models) && EndsWith(models, actions)
    requires forall i | 0 <= i < |actions| :: actions[i].name != name
    ensures EndsWith(Remove(models, name), actions)
  {
    if Has(models, name) {
      var k :| 0 <= k < |models| && models[k].0 == name;
      assert k < |models| - |actions|;
      RemoveAt(models, k);
      DropOlder(models, k, actions);
    } else {
      RemoveAbsent(models, name);
    }
  }

  lemma AppendEnds(models: Models, actions: seq<Action>, a: Action, loaded: LoadedModel, max: nat)
    requires EndsWith(models, actions) && max > |actions|
    ensures EndsWith(KeepLast(models + [(a.name, loaded)], max), actions + [a])
  {
  }

  lemma {:induction false} StoreExtends(max: nat, models: Models, actions: seq<Action>, a: Action)
    requires max > |actions| && Unique(models) && EndsWith(models, actions)
    requires DistinctLoads(actions + [a])
    ensures EndsWith(Do(max, models, a), actions + [a])
  {
    assert (actions + [a])[|actions|] == a;
    forall i | 0 <= i < |actions| ensures actions[i].name != a.name {
      assert (actions + [a])[i] == actions[i];
    }
    RemoveOlder(models, a.name, actions);
    AppendEnds(Remove(models, a.name), actions, a, DecryptModel(a.lib, a.name, a.weights).value, max);
  }

  lemma {:induction false} StoresFillTheCache(max: nat, models: Models, actions: seq<Action>)
    requires WellFormed(models, max) && Possible(actions)
    requires 0 < max && |actions| <= max && DistinctLoads(actions)
    ensures WellFormed(Run(max, models, actions), max) && EndsWith(Run(max, models, actions), actions)
    decreases |actions|
  {
    if actions != [] {
      var front, a := actions[..|actions| - 1], actions[|actions| - 1];
      assert front + [a] == actions;
      StoresFillTheCache(max, models, front);
      RunAppend(max, models, front, a);
      DoKeepsWellFormed(max, Run(max, models, front), a);
      StoreExtends(max, Run(max, models, front), front, a);
    }
  }

  lemma {:induction false} RunAppend(max: nat, models: Models, actions: seq<Action>, a: Action)
    ensures Run(max, models, actions + [a]) == Do(max, Run(max, models, actions), a)
    decreases |actions|
  {
    if actions == [] {
      assert actions + [a] == [a] && [a][1..] == [];
      assert Run(max, Do(max, models, a), []) == Do(max, models, a);
    } else {
      assert (actions + [a])[1..] == actions[1..] + [a];
      RunAppend(max, Do(max, models, actions[0]), actions[1..], a);
    }
  }

  /** The bound is exact: `max` other models stored in a row push the name out. */
  lemma {:induction false} EvictedAfterMaxOthers(max: nat, models: Models, actions: seq<Action>, name: string)
    requires WellFormed(models, max) && Possible(actions)
    requires 0 < max == |actions| && DistinctLoads(actions)
    requires forall i | 0 <= i < |actions| :: actions[i].name != name
    ensures !Has(Run(max, models, actions), name)
  {
    StoresFillTheCache(max, models, actions);
    var r := Run(max, models, actions);
    assert |r| == |actions|;
    forall i | 0 <= i < |r| ensures r[i].0 != name {
    }
  }
}
