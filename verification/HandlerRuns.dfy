/** The prediction handler among other threads: what it answers when the cache may change between its lock regions. */
module HandlerRuns {
  import opened Results
  import opened Bytes
  import opened OrderedDict
  import opened PyStr
  import opened InferenceEngine
  import opened BundleLoading
  import opened Dispatch
  import opened EngineRuns

  /** The cache as the handler finds it in each of its lock regions: at `is_model_loaded`, at the look-up of
      `load_model`, and at the look-up of `predict`. */
  datatype Seen = Seen(atCheck: Models, atLoad: Models, atPredict: Models)

  /** How `load_model` ends when its look-up finds this cache; the store that may follow cannot fail. */
  function LoadOutcome(lib: Library, models: Models, modelName: string, weights: seq<byte>): Result<(), LoadError> {
    var name := Strip(modelName);
    if name == "" || weights == [] then Failure(ModelLoadError)
    else if Has(models, name) then Success(())
    else
      match DecryptModel(lib, name, weights)
      case Failure(e) => Failure(e)
      case Success(_) => Success(())
  }

  /** `_handle_predict`, each of whose regions may find another cache. */
  function HandlerReply(env: Environment, request: Request, seen: Seen): (r: Response) {
    var name, features := Lookup(request, "model_name"), Lookup(request, "features");
    var tenant, blob := Lookup(request, "tenant_id"), Lookup(request, "encrypted_model_blob");
    var key := Lookup(request, "encrypted_model_key");
    if !name.JString? || Blank(name.s) || !tenant.JString? || Blank(tenant.s) || !features.JArray? then
      Error(INVALID_REQUEST)
    else if blob == JNull then
      if !Has(seen.atCheck, name.s) then Error(MODEL_NOT_FOUND)
      else ServerRun(env, seen.atPredict, name.s, features.items, true).1
    else if !key.JString? || key.s == "" then Error(INVALID_REQUEST)
    else
      match LoadOutcome(env.lib, seen.atLoad, name.s, BundleOf(env, request))
      case Failure(BadBase64) => Error(INVALID_REQUEST)
      case Failure(ModelLoadError) => Error(DECRYPTION_FAILED)
      case Success(_) => ServerRun(env, seen.atPredict, name.s, features.items, false).1
  }

  /** The request names a model and a tenant, and its features are an array. */
  predicate Shaped(request: Request) {
    && Lookup(request, "model_name").JString? && !Blank(Lookup(request, "model_name").s)
    && Lookup(request, "tenant_id").JString? && !Blank(Lookup(request, "tenant_id").s)
    && Lookup(request, "features").JArray?
  }

  /** The request brings a bundle, with a key. */
  predicate Brings(request: Request) {
    && Lookup(request, "encrypted_model_blob") != JNull
    && Lookup(request, "encrypted_model_key").JString? && Lookup(request, "encrypted_model_key").s != ""
  }

  /** The load of a bundle succeeds: it is not empty, and the name is cached or the bundle opens to a model. */
  ghost predicate Loads(lib: Library, models: Models, name: string, weights: seq<byte>) {
    weights != [] && (Has(models, name) || exists loaded :: Opened(lib, name, weights, loaded))
  }

  /** It fails because a field of it is not base64. */
  ghost predicate IsNotBase64(lib: Library, models: Models, name: string, weights: seq<byte>) {
    weights != [] && !Has(models, name)
    && exists bundle :: IsBundle(lib, name, weights, bundle) && BundleIsBad(lib, bundle)
  }

  /** The handler gets as far as its prediction. */
  ghost predicate Predicts(env: Environment, request: Request, seen: Seen) {
    && Shaped(request)
    && var name := Lookup(request, "model_name").s;
       if Lookup(request, "encrypted_model_blob") == JNull then Has(seen.atCheck, name)
       else Brings(request) && Loads(env.lib, seen.atLoad, Strip(name), BundleOf(env, request))
  }

  /** The state in which a handler that runs alone makes its prediction. */
  function AfterLoad(env: Environment, max: nat, models: Models, request: Request): Models {
    var name, blob := Lookup(request, "model_name"), Lookup(request, "encrypted_model_blob");
    if name.JString? && Lookup(request, "tenant_id").JString? && Lookup(request, "encrypted_model_key").JString?
       && blob != JNull then Load(env.lib, max, models, name.s, BundleOf(env, request)).0
    else models
  }

  lemma LoadEndsAlike(lib: Library, max: nat, models: Models, modelName: string, weights: seq<byte>)
    ensures LoadOutcome(lib, models, modelName, weights) == Load(lib, max, models, modelName, weights).1
  {
  }

  /** A handler that nothing interrupts answers as the server function says. */
  lemma AloneIsServerPredict(env: Environment, max: nat, models: Models, request: Request)
    ensures HandlerReply(env, request, Seen(models, models, AfterLoad(env, max, models, request)))
            == ServerPredict(env, max, models, request).1
  {
    var name, key := Lookup(request, "model_name"), Lookup(request, "encrypted_model_key");
    if name.JString? && Lookup(request, "tenant_id").JString? && key.JString? {
      LoadEndsAlike(env.lib, max, models, name.s, BundleOf(env, request));
    }
  }

  lemma LoadEnds(lib: Library, models: Models, modelName: string, weights: seq<byte>)
    requires Strip(modelName) != ""
    ensures var r := LoadOutcome(lib, models, modelName, weights);
            && (r.Success? <==> Loads(lib, models, Strip(modelName), weights))
            && (r == Failure(BadBase64) <==> IsNotBase64(lib, models, Strip(modelName), weights))
  {
    var name := Strip(modelName);
    BadBase64Exactly(lib, name, weights);
    if DecryptModel(lib, name, weights).Success? {
      LoadsExactly(lib, name, weights, DecryptModel(lib, name, weights).value);
    }
    forall loaded | Opened(lib, name, weights, loaded) ensures DecryptModel(lib, name, weights).Success? {
      LoadsExactly(lib, name, weights, loaded);
    }
  }

  /** What becomes of a model that runs: the response to what inference gives. */
  function ReplyTo(result: Inference, fromCache: bool): Response {
    match result
    case Predicted(p, c) => Answer(Prediction(p, c), fromCache)
    case ModelFailed => Error(INFERENCE_FAILED)
    case BadNumber => Error(INVALID_REQUEST)
    case Unexpected => Error(INTERNAL_ERROR)
  }

  /** The features are numbers, and not as many as the model takes. */
  ghost predicate Mismatch(env: Environment, loaded: LoadedModel, items: seq<Json>) {
    !NotNumeric(env, items) && (items == [] || |items| != loaded.featureDimension)
  }

  /** How a prediction ends that finds this model, or none: items that are no numbers come first, then a missing
      model, then the number of features, and then the model itself. */
  ghost predicate RunEnds(env: Environment, found: Option<LoadedModel>, items: seq<Json>, fromCache: bool,
                          r: Response) {
    || (FailsWith(env, items, NotANumber) && r == Error(INVALID_REQUEST))
    || (FailsWith(env, items, OutOfRange) && r == Error(INTERNAL_ERROR))
    || (!NotNumeric(env, items) && found.None? && r == Error(MODEL_NOT_FOUND))
    || (found.Some? && Mismatch(env, found.value, items) && r == Error(FEATURE_DIMENSION_MISMATCH))
    || (found.Some? && exists result :: Infers(env, found.value, items, result) && r == ReplyTo(result, fromCache))
  }

  lemma RunAs(env: Environment, loaded: LoadedModel, items: seq<Json>, features: seq<real>, result: Inference)
    requires Converts(env, items, features)
    ensures Infers(env, loaded, items, result) <==>
              items != [] && |items| == loaded.featureDimension && env.lib.infer(loaded.model, features) == result
  {
    forall other | Converts(env, items, other) ensures other == features {
      forall i | 0 <= i < |items| ensures other[i] == features[i] {
        assert env.toFloat(items[i]) == Number(other[i]);
      }
    }
  }

  /** The response to a request whose features are these numbers. */
  function AfterRun(lib: Library, found: Option<LoadedModel>, features: seq<real>, fromCache: bool): Response {
    if found.None? then Error(MODEL_NOT_FOUND)
    else if features == [] || |features| != found.value.featureDimension then Error(FEATURE_DIMENSION_MISMATCH)
    else ReplyTo(lib.infer(found.value.model, features), fromCache)
  }

  lemma NumbersEnd(env: Environment, found: Option<LoadedModel>, items: seq<Json>, features: seq<real>, fromCache: bool,
                   r: Response)
    requires Converts(env, items, features) && !NotNumeric(env, items) && forall c :: !FailsWith(env, items, c)
    ensures RunEnds(env, found, items, fromCache, r) <==> r == AfterRun(env.lib, found, features, fromCache)
  {
    if found.Some? {
      var result := env.lib.infer(found.value.model, features);
      RunAs(env, found.value, items, features, result);
      forall other | Infers(env, found.value, items, other) ensures other == result {
        RunAs(env, found.value, items, features, other);
      }
    }
  }

  lemma OthersEnd(env: Environment, found: Option<LoadedModel>, items: seq<Json>, c: Conversion, fromCache: bool,
                  r: Response)
    requires FailsWith(env, items, c) && ToFloats(env, items) == Failure(c)
    ensures RunEnds(env, found, items, fromCache, r)
            <==> r == Error(if c == NotANumber then INVALID_REQUEST else INTERNAL_ERROR)
  {
    ToFloatsExactly(env, items);
    NotNumericFails(env, items);
    forall features ensures !Converts(env, items, features) {
      assert ToFloats(env, items) != Success(features);
    }
  }

  lemma NumbersRun(env: Environment, models: Models, name: string, items: seq<Json>, features: seq<real>,
                   fromCache: bool)
    requires Strip(name) != "" && ToFloats(env, items) == Success(features)
    ensures ServerRun(env, models, name, items, fromCache).1
            == AfterRun(env.lib, Get(models, Strip(name)), features, fromCache)
  {
  }

  lemma RunExactly(env: Environment, models: Models, name: string, items: seq<Json>, fromCache: bool, r: Response)
    requires Strip(name) != ""
    ensures ServerRun(env, models, name, items, fromCache).1 == r
            <==> RunEnds(env, Get(models, Strip(name)), items, fromCache, r)
  {
    ToFloatsExactly(env, items);
    NotNumericFails(env, items);
    match ToFloats(env, items)
    case Success(features) =>
      NumbersRun(env, models, name, items, features, fromCache);
      NumbersEnd(env, Get(models, Strip(name)), items, features, fromCache, r);
    case Failure(c) => OthersEnd(env, Get(models, Strip(name)), items, c, fromCache, r);
  }

  /** The handler's prediction region, for a request that reaches it. */
  lemma PredictionEnds(env: Environment, request: Request, seen: Seen, r: Response)
    requires Predicts(env, request, seen)
    ensures var name, items := Lookup(request, "model_name").s, Lookup(request, "features").items;
            var fromCache := Lookup(request, "encrypted_model_blob") == JNull;
            HandlerReply(env, request, seen) == r
            <==> RunEnds(env, Get(seen.atPredict, Strip(name)), items, fromCache, r)
  {
    var name, items := Lookup(request, "model_name").s, Lookup(request, "features").items;
    RunExactly(env, seen.atPredict, name, items, Lookup(request, "encrypted_model_blob") == JNull, r);
    if Brings(request) { LoadEnds(env.lib, seen.atLoad, name, BundleOf(env, request)); }
  }

  /** Where a request is turned away before its prediction, among any other threads: without a name, tenant or array of
      features, or with a bundle without key or not in base64, it is invalid; a model that is not cached as it is named,
      and comes without a bundle, is not found; and a bundle that does not load otherwise is not decrypted. */
  lemma TurnedAway(env: Environment, request: Request, seen: Seen)
    requires !Predicts(env, request, seen)
    ensures var r := HandlerReply(env, request, seen);
            if !Shaped(request) then r == Error(INVALID_REQUEST)
            else if Lookup(request, "encrypted_model_blob") == JNull then r == Error(MODEL_NOT_FOUND)
            else if !Brings(request) then r == Error(INVALID_REQUEST)
            else
              var name, weights := Strip(Lookup(request, "model_name").s), BundleOf(env, request);
              r == Error(if IsNotBase64(env.lib, seen.atLoad, name, weights) then INVALID_REQUEST
                         else DECRYPTION_FAILED)
  {
    if Shaped(request) && Brings(request) {
      LoadEnds(env.lib, seen.atLoad, Lookup(request, "model_name").s, BundleOf(env, request));
    }
  }

  /** Among any other threads, an answer is what the model gives that is cached under the stripped name when the
      prediction looks it up, whoever loaded it, on the numbers of the request in their order; and `served_from_cache`
      says whether no bundle came, which takes a model that was cached when the handler checked. */
  lemma InterleavedAnswer(env: Environment, request: Request, seen: Seen)
    requires HandlerReply(env, request, seen).Answer?
    ensures var r, name := HandlerReply(env, request, seen), Lookup(request, "model_name").s;
            && Predicts(env, request, seen) && Has(seen.atPredict, Strip(name))
            && Gives(env, Get(seen.atPredict, Strip(name)).value, Lookup(request, "features").items, r.prediction)
            && (r.servedFromCache <==> Lookup(request, "encrypted_model_blob") == JNull)
            && (r.servedFromCache ==> Has(seen.atCheck, name))
  {
    if Predicts(env, request, seen) {
      PredictionEnds(env, request, seen, HandlerReply(env, request, seen));
    } else {
      TurnedAway(env, request, seen);
    }
  }

  /** MODEL_NOT_FOUND comes exactly of a model that is missing: at the check of a request without a blob, or at the
      prediction of numeric features. */
  lemma NotFoundExactly(env: Environment, request: Request, seen: Seen)
    ensures HandlerReply(env, request, seen) == Error(MODEL_NOT_FOUND) <==>
              && Shaped(request)
              && var name := Lookup(request, "model_name").s;
                 || (Lookup(request, "encrypted_model_blob") == JNull && !Has(seen.atCheck, name))
                 || (Predicts(env, request, seen) && !Has(seen.atPredict, Strip(name))
                     && !NotNumeric(env, Lookup(request, "features").items))
  {
    if Predicts(env, request, seen) {
      PredictionEnds(env, request, seen, Error(MODEL_NOT_FOUND));
    } else {
      TurnedAway(env, request, seen);
    }
  }

  /** So a request with a blob is never answered MODEL_NOT_FOUND when, between the region in which its load ended and
      its prediction, nobody unloads the model and fewer than `max` other models are used. */
  lemma LoadedModelIsFound(env: Environment, max: nat, request: Request, seen: Seen, models: Models, last: Action,
                           between: seq<Action>)
    requires max > 0 && WellFormed(models, max) && Possible(between)
    requires Lookup(request, "model_name").JString? && Lookup(request, "encrypted_model_blob") != JNull
    requires last.name == Strip(Lookup(request, "model_name").s) && IsName(last.name) && Uses(models, last)
    requires Removed(last.name) !in between && |UsedOthers(max, Do(max, models, last), between, last.name)| < max
    requires seen.atPredict == Run(max, Do(max, models, last), between)
    ensures HandlerReply(env, request, seen) != Error(MODEL_NOT_FOUND)
  {
    PredictFindsLoadedModel(env.lib, max, models, Lookup(request, "model_name").s, last, between, []);
    NotFoundExactly(env, request, seen);
  }
}
