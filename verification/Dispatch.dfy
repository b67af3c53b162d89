/** The two front ends of the engine: the RPC dispatcher inside the enclave and the in-process mock. */
module Dispatch {
  import opened Results
  import opened Bytes
  import opened OrderedDict
  import opened PyStr
  import opened InferenceEngine

  /** JSON values as far as the dispatchers tell them apart. */
  datatype Json = JNull | JString(s: string) | JArray(items: seq<Json>) | JOther(tag: int)

  /** A request object; `dict.get` gives `JNull` for an absent key. */
  type Request = map<string, Json>

  function Lookup(request: Request, key: string): Json {
    if key in request then request[key] else JNull
  }

  /** `float(v)`: a number, a `ValueError` or `TypeError`, or another exception (`OverflowError`). */
  datatype Conversion = Number(value: real) | NotANumber | OutOfRange

  datatype Environment = Environment(
    lib: Library,
    toFloat: Json -> Conversion,
    dumpBundle: (string, string, string, Json) -> seq<byte>)

  datatype Code = INVALID_REQUEST | INVALID_ACTION | MODEL_NOT_FOUND | DECRYPTION_FAILED
                | FEATURE_DIMENSION_MISMATCH | INFERENCE_FAILED | INTERNAL_ERROR

  /** Responses without their message texts and latencies. */
  datatype Response =
    | Answer(prediction: Prediction, servedFromCache: bool)
    | Health(echo: Json, modelsLoaded: nat)
    | ModelList(names: seq<string>)
    | Error(code: Code)

  /** `[float(value) for value in features]`. */
  function ToFloats(env: Environment, items: seq<Json>): (r: Result<seq<real>, Conversion>)
    ensures r.Success? ==> |r.value| == |items|
    ensures r.Failure? ==> !r.error.Number?
  {
    if items == [] then Success([])
    else
      var first := env.toFloat(items[0]);
      if !first.Number? then Failure(first)
      else
        match ToFloats(env, items[1..])
        case Failure(e) => Failure(e)
        case Success(rest) => Success([first.value] + rest)
  }

  /** The numbers that these items stand for, in the same order. */
  predicate Converts(env: Environment, items: seq<Json>, features: seq<real>) {
    |features| == |items| && forall i | 0 <= i < |items| :: env.toFloat(items[i]) == Number(features[i])
  }

  /** Item `i` is no number, by this exception, and it is the first such item. */
  predicate FirstBad(env: Environment, items: seq<Json>, i: nat, c: Conversion) {
    && i < |items| && env.toFloat(items[i]) == c && !c.Number?
    && forall j | 0 <= j < i :: env.toFloat(items[j]).Number?
  }

  ghost predicate FailsWith(env: Environment, items: seq<Json>, c: Conversion) {
    exists i: nat :: FirstBad(env, items, i, c)
  }

  /** The conversion gives every item its number, in order, or fails as the first item does that is none. */
  lemma {:induction false} ToFloatsExactly(env: Environment, items: seq<Json>)
    ensures forall features :: Converts(env, items, features) <==> ToFloats(env, items) == Success(features)
    ensures forall c :: FailsWith(env, items, c) <==> ToFloats(env, items) == Failure(c)
  {
    if items != [] {
      ToFloatsExactly(env, items[1..]);
      forall features ensures Converts(env, items, features) <==> ToFloats(env, items) == Success(features) {
        ConvertsStep(env, items, features);
        if features != [] { assert features == [features[0]] + features[1..]; }
      }
      forall c ensures FailsWith(env, items, c) <==> ToFloats(env, items) == Failure(c) {
        FailsStep(env, items, c);
      }
    }
  }

  lemma ConvertsStep(env: Environment, items: seq<Json>, features: seq<real>)
    requires items != []
    ensures Converts(env, items, features) <==>
              features != [] && env.toFloat(items[0]) == Number(features[0]) && Converts(env, items[1..], features[1..])
  {
    if features != [] && Converts(env, items[1..], features[1..]) {
      assert forall i | 0 < i < |items| :: items[i] == items[1..][i - 1] && features[i] == features[1..][i - 1];
    }
  }

  lemma FailsStep(env: Environment, items: seq<Json>, c: Conversion)
    requires items != []
    ensures FailsWith(env, items, c) <==>
              if env.toFloat(items[0]).Number? then FailsWith(env, items[1..], c) else env.toFloat(items[0]) == c
  {
    if env.toFloat(items[0]).Number? {
      forall i: nat | FirstBad(env, items[1..], i, c) ensures FirstBad(env, items, i + 1, c) {
        assert forall j | 0 < j <= i + 1 :: items[j] == items[1..][j - 1];
      }
      forall i: nat | FirstBad(env, items, i, c) ensures FirstBad(env, items[1..], i - 1, c) {
        assert forall j | 0 < j <= i :: items[j] == items[1..][j - 1];
      }
    } else if env.toFloat(items[0]) == c {
      assert FirstBad(env, items, 0, c);
    }
  }

  function HealthReply(models: Models, request: Request): Response {
    Health(if "echo" in request then request["echo"] else JString("ping"), |models|)
  }

  // ----- the server -----

  /** The end of `_handle_predict`: convert the features, predict, and sort out the exceptions. */
  function ServerRun(env: Environment, models: Models, name: string, items: seq<Json>,
                     fromCache: bool): (r: (Models, Response)) {
    match ToFloats(env, items)
    case Failure(e) => (models, Error(if e.NotANumber? then INVALID_REQUEST else INTERNAL_ERROR))
    case Success(features) =>
      var (touched, outcome) := Predict(env.lib, models, name, features);
      match outcome
      case Success(p) => (touched, Answer(p, fromCache))
      case Failure(NumberError) => (touched, Error(INVALID_REQUEST))
      case Failure(ModelNotLoaded) => (touched, Error(MODEL_NOT_FOUND))
      case Failure(DimensionMismatch) => (touched, Error(FEATURE_DIMENSION_MISMATCH))
      case Failure(PredictionFailed) => (touched, Error(INFERENCE_FAILED))
      case Failure(UnexpectedError) => (touched, Error(INTERNAL_ERROR))
  }

  /** `VsockRPCServer._handle_predict`. */
  function ServerPredict(env: Environment, max: nat, models: Models, request: Request): (r: (Models, Response)) {
    var name, features, tenant := Lookup(request, "model_name"), Lookup(request, "features"),
        Lookup(request, "tenant_id");
    var key, blob := Lookup(request, "encrypted_model_key"), Lookup(request, "encrypted_model_blob");
    if !name.JString? || Blank(name.s) then (models, Error(INVALID_REQUEST))
    else if !tenant.JString? || Blank(tenant.s) then (models, Error(INVALID_REQUEST))
    else if !features.JArray? then (models, Error(INVALID_REQUEST))
    else if blob != JNull then
      if !key.JString? || key.s == "" then (models, Error(INVALID_REQUEST))
      else
        var (loaded, outcome) := Load(env.lib, max, models, name.s, env.dumpBundle(tenant.s, name.s, key.s, blob));
        match outcome
        case Failure(BadBase64) => (loaded, Error(INVALID_REQUEST))
        case Failure(ModelLoadError) => (loaded, Error(DECRYPTION_FAILED))
        case Success(_) => ServerRun(env, loaded, name.s, features.items, false)
    else if !Has(models, name.s) then (models, Error(MODEL_NOT_FOUND))
    else ServerRun(env, models, name.s, features.items, true)
  }

  /** `VsockRPCServer._dispatch_request`. */
  function ServerReply(env: Environment, max: nat, models: Models, request: Request): (r: (Models, Response)) {
    var action := Lookup(request, "action");
    if action == JString("health") then (models, HealthReply(models, request))
    else if action == JString("list_models") then (models, ModelList(Keys(models)))
    else if action == JString("predict") then ServerPredict(env, max, models, request)
    else (models, Error(INVALID_ACTION))
  }

  class RpcServer {
    const env: Environment
    const engine: Engine

    constructor (env: Environment, engine: Engine)
      ensures this.env == env && this.engine == engine
    {
      this.env, this.engine := env, engine;
    }

    method HandlePredict(request: Request) returns (r: Response)
      requires engine.Valid() && engine.lib == env.lib
      modifies engine`models
      ensures engine.Valid()
      ensures (engine.models, r) == ServerPredict(env, engine.maxModels, old(engine.models), request)
    {
      var name, features, tenant := Lookup(request, "model_name"), Lookup(request, "features"),
          Lookup(request, "tenant_id");
      var key, blob := Lookup(request, "encrypted_model_key"), Lookup(request, "encrypted_model_blob");
      if !name.JString? || Blank(name.s) { return Error(INVALID_REQUEST); }
      if !tenant.JString? || Blank(tenant.s) { return Error(INVALID_REQUEST); }
      if !features.JArray? { return Error(INVALID_REQUEST); }
      var servedFromCache := engine.IsModelLoaded(name.s);
      if blob != JNull {
        if !key.JString? || key.s == "" { return Error(INVALID_REQUEST); }
        var loaded := engine.LoadModel(name.s, env.dumpBundle(tenant.s, name.s, key.s, blob));
        if loaded == Failure(BadBase64) { return Error(INVALID_REQUEST); }
        if loaded == Failure(ModelLoadError) { return Error(DECRYPTION_FAILED); }
        servedFromCache := false;
      } else if !servedFromCache {
        return Error(MODEL_NOT_FOUND);
      }
      var numbers := ToFloats(env, features.items);
      if numbers.Failure? { return Error(if numbers.error.NotANumber? then INVALID_REQUEST else INTERNAL_ERROR); }
      var outcome := engine.PredictOne(name.s, numbers.value);
      match outcome
      case Success(p) => r := Answer(p, servedFromCache);
      case Failure(NumberError) => r := Error(INVALID_REQUEST);
      case Failure(ModelNotLoaded) => r := Error(MODEL_NOT_FOUND);
      case Failure(DimensionMismatch) => r := Error(FEATURE_DIMENSION_MISMATCH);
      case Failure(PredictionFailed) => r := Error(INFERENCE_FAILED);
      case Failure(UnexpectedError) => r := Error(INTERNAL_ERROR);
    }

    method DispatchRequest(request: Request) returns (r: Response)
      requires engine.Valid() && engine.lib == env.lib
      modifies engine`models
      ensures engine.Valid()
      ensures (engine.models, r) == ServerReply(env, engine.maxModels, old(engine.models), request)
    {
      var action := Lookup(request, "action");
      if action == JString("health") { return HealthReply(engine.models, request); }
      if action == JString("list_models") {
        var names := engine.ListLoadedModels();
        assert names == Keys(engine.models);
        return ModelList(names);
      }
      if action == JString("predict") {
        r := HandlePredict(request);
        return;
      }
      r := Error(INVALID_ACTION);
    }
  }

  // ----- the mock -----

  /** The end of the mock's `predict` branch: every exception it has no clause for becomes `INVALID_REQUEST`. */
  function MockRun(env: Environment, models: Models, name: string, items: seq<Json>,
                   fromCache: bool): (r: (Models, Response)) {
    match ToFloats(env, items)
    case Failure(e) => (models, Error(INVALID_REQUEST))
    case Success(features) =>
      var (touched, outcome) := Predict(env.lib, models, name, features);
      match outcome
      case Success(p) => (touched, Answer(p, fromCache))
      case Failure(DimensionMismatch) => (touched, Error(FEATURE_DIMENSION_MISMATCH))
      case Failure(ModelNotLoaded) => (touched, Error(MODEL_NOT_FOUND))
      case Failure(_) => (touched, Error(INVALID_REQUEST))
  }

  /** The `predict` branch of `MockEnclaveClient.send_request`. */
  function MockPredict(env: Environment, max: nat, models: Models, payload: Request): (r: (Models, Response)) {
    var name, features, tenant := Lookup(payload, "model_name"), Lookup(payload, "features"),
        Lookup(payload, "tenant_id");
    var key, blob := Lookup(payload, "encrypted_model_key"), Lookup(payload, "encrypted_model_blob");
    if !name.JString? || !features.JArray? then (models, Error(INVALID_REQUEST))
    else if !tenant.JString? || tenant.s == "" then (models, Error(INVALID_REQUEST))
    else if blob != JNull then
      if !key.JString? || key.s == "" then (models, Error(INVALID_REQUEST))
      else
        var (loaded, outcome) := Load(env.lib, max, models, name.s, env.dumpBundle(tenant.s, name.s, key.s, blob));
        match outcome
        case Failure(ModelLoadError) => (loaded, Error(DECRYPTION_FAILED))
        case Failure(BadBase64) => (loaded, Error(INVALID_REQUEST))
        case Success(_) => MockRun(env, loaded, name.s, features.items, false)
    else if !Has(models, name.s) then (models, Error(MODEL_NOT_FOUND))
    else MockRun(env, models, name.s, features.items, true)
  }

  /** `MockEnclaveClient.send_request`. */
  function MockReply(env: Environment, max: nat, models: Models, action: string,
                     payload: Request): (r: (Models, Response)) {
    if action == "health" then (models, HealthReply(models, payload))
    else if action == "list_models" then (models, ModelList(Keys(models)))
    else if action != "predict" then (models, Error(INVALID_ACTION))
    else MockPredict(env, max, models, payload)
  }

  class MockClient {
    const env: Environment
    const engine: Engine

    constructor (env: Environment, engine: Engine)
      ensures this.env == env && this.engine == engine
    {
      this.env, this.engine := env, engine;
    }

    method SendRequest(action: string, payload: Request) returns (r: Response)
      requires engine.Valid() && engine.lib == env.lib
      modifies engine`models
      ensures engine.Valid()
      ensures (engine.models, r) == MockReply(env, engine.maxModels, old(engine.models), action, payload)
    {
      if action == "health" { return HealthReply(engine.models, payload); }
      if action == "list_models" {
        var names := engine.ListLoadedModels();
        assert names == Keys(engine.models);
        return ModelList(names);
      }
      if action != "predict" { return Error(INVALID_ACTION); }
      var name, features, tenant := Lookup(payload, "model_name"), Lookup(payload, "features"),
          Lookup(payload, "tenant_id");
      var key, blob := Lookup(payload, "encrypted_model_key"), Lookup(payload, "encrypted_model_blob");
      if !name.JString? || !features.JArray? { return Error(INVALID_REQUEST); }
      if !tenant.JString? || tenant.s == "" { return Error(INVALID_REQUEST); }
      var servedFromCache := engine.IsModelLoaded(name.s);
      if blob != JNull {
        if !key.JString? || key.s == "" { return Error(INVALID_REQUEST); }
        var loaded := engine.LoadModel(name.s, env.dumpBundle(tenant.s, name.s, key.s, blob));
        if loaded == Failure(ModelLoadError) { return Error(DECRYPTION_FAILED); }
        if loaded == Failure(BadBase64) { return Error(INVALID_REQUEST); }
        servedFromCache := false;
      } else if !servedFromCache {
        return Error(MODEL_NOT_FOUND);
      }
      var numbers := ToFloats(env, features.items);
      if numbers.Failure? { return Error(INVALID_REQUEST); }
      var outcome := engine.PredictOne(name.s, numbers.value);
      match outcome
      case Success(p) => r := Answer(p, servedFromCache);
      case Failure(DimensionMismatch) => r := Error(FEATURE_DIMENSION_MISMATCH);
      case Failure(ModelNotLoaded) => r := Error(MODEL_NOT_FOUND);
      case Failure(_) => r := Error(INVALID_REQUEST);
    }
  }

  // ----- what the server's answers mean -----

  predicate IsNewest(models: Models, name: string) {
    models != [] && models[|models| - 1].0 == name
  }

  function Newest(models: Models): LoadedModel
    requires models != []
  {
    models[|models| - 1].1
  }

  lemma {:induction false} NewestIsFound(models: Models, name: string)
    requires Unique(models) && IsNewest(models, name)
    ensures Get(models, name) == Some(Newest(models))
    ensures Touch(models, name) == models
  {
    var n := |models| - 1;
    GetAt(models, n);
    RemoveAt(models, n);
    assert models == models[..n] + [models[n]];
  }

  lemma NewestHas(models: Models, name: string)
    ensures IsNewest(models, name) ==> Has(models, name)
  {
  }

  /** A prediction that finds its model leaves it the most recent one, and is that model's. */
  lemma PredictOnCached(lib: Library, models: Models, name: string, features: seq<real>)
    requires Unique(models) && Strip(name) != "" && Has(models, Strip(name))
    ensures var (after, outcome) := Predict(lib, models, name, features);
            && IsNewest(after, Strip(name))
            && Newest(after) == Get(models, Strip(name)).value
            && outcome == RunModel(lib, Newest(after), features)
            && outcome != Failure(ModelNotLoaded)
  {
    var touched := Touch(models, Strip(name));
    assert touched[|touched| - 1] == (Strip(name), Get(models, Strip(name)).value);
  }

  lemma CachedNamesAreNames(models: Models, max: nat, name: string)
    requires WellFormed(models, max) && Has(models, name)
    ensures IsName(name)
  {
  }

  /** This model, run on the numbers that the items stand for, in their order and as many as it takes, gives this. */
  ghost predicate Infers(env: Environment, loaded: LoadedModel, items: seq<Json>, result: Inference) {
    exists features ::
      && Converts(env, items, features) && features != [] && |features| == loaded.featureDimension
      && env.lib.infer(loaded.model, features) == result
  }

  ghost predicate Gives(env: Environment, loaded: LoadedModel, items: seq<Json>, p: Prediction) {
    Infers(env, loaded, items, Inference.Predicted(p.prediction, p.confidence))
  }

  /** The model that answers: the newest one in the cache, run on the features as given. */
  ghost predicate AnsweredBy(env: Environment, after: Models, name: string, items: seq<Json>, p: Prediction) {
    IsNewest(after, name) && Gives(env, Newest(after), items, p)
  }

  lemma RunGives(env: Environment, loaded: LoadedModel, items: seq<Json>, p: Prediction)
    ensures Gives(env, loaded, items, p) <==>
              ToFloats(env, items).Success? && RunModel(env.lib, loaded, ToFloats(env, items).value) == Success(p)
  {
    ToFloatsExactly(env, items);
  }

  /** The end of the handler, on a cache that holds the model. */
  lemma RunOnCached(env: Environment, models: Models, name: string, items: seq<Json>, fromCache: bool)
    requires Unique(models) && Strip(name) != "" && Has(models, Strip(name))
    ensures var (after, r) := ServerRun(env, models, name, items, fromCache);
            && r != Error(MODEL_NOT_FOUND) && r != Error(DECRYPTION_FAILED)
            && (r.Answer? ==>
                  && r.servedFromCache == fromCache
                  && AnsweredBy(env, after, Strip(name), items, r.prediction)
                  && Newest(after) == Get(models, Strip(name)).value)
  {
    var floats := ToFloats(env, items);
    if floats.Success? {
      PredictOnCached(env.lib, models, name, floats.value);
      var (after, r) := ServerRun(env, models, name, items, fromCache);
      if r.Answer? { RunGives(env, Newest(after), items, r.prediction); }
    }
  }

  /** After the handler's load the model is cached: the one that was there before, if there was one, and otherwise the
      one the bundle decrypts to. */
  lemma LoadedIsCached(lib: Library, max: nat, models: Models, name: string, weights: seq<byte>)
    requires max > 0 && WellFormed(models, max) && Load(lib, max, models, name, weights).1.Success?
    ensures var loaded := Load(lib, max, models, name, weights).0;
            && Strip(name) != "" && WellFormed(loaded, max) && Has(loaded, Strip(name))
            && (Has(models, Strip(name)) ==> Get(loaded, Strip(name)) == Get(models, Strip(name)))
            && (!Has(models, Strip(name)) ==>
                  DecryptModel(lib, Strip(name), weights) == Success(Get(loaded, Strip(name)).value))
  {
    var loaded := Load(lib, max, models, name, weights).0;
    LoadKeepsWellFormed(lib, max, models, name, weights);
    NewestIsFound(loaded, Strip(name));
    NewestHas(loaded, Strip(name));
    if Has(models, Strip(name)) {
      assert loaded[|loaded| - 1].1 == Get(models, Strip(name)).value;
    } else {
      assert loaded[|loaded| - 1].1 == DecryptModel(lib, Strip(name), weights).value;
    }
  }

  /** The bundle the handler makes up from a request that carries a blob. */
  function BundleOf(env: Environment, request: Request): seq<byte>
    requires Lookup(request, "model_name").JString? && Lookup(request, "tenant_id").JString?
    requires Lookup(request, "encrypted_model_key").JString?
  {
    env.dumpBundle(Lookup(request, "tenant_id").s, Lookup(request, "model_name").s,
                   Lookup(request, "encrypted_model_key").s, Lookup(request, "encrypted_model_blob"))
  }

  /** An answer comes from the model under the stripped name, which is the most recent one afterwards. A model that was
      cached before is the one that answers, whatever bundle came along; otherwise it is the one decrypted from the
      request's own bundle. And `served_from_cache` says whether no bundle came. */
  lemma AnswersComeFromTheCache(env: Environment, max: nat, models: Models, request: Request)
    requires max > 0 && WellFormed(models, max) && ServerPredict(env, max, models, request).1.Answer?
    ensures var (after, r) := ServerPredict(env, max, models, request);
            var name := Strip(Lookup(request, "model_name").s);
            && AnsweredBy(env, after, name, Lookup(request, "features").items, r.prediction)
            && (Has(models, name) ==> Newest(after) == Get(models, name).value)
            && (r.servedFromCache <==> Lookup(request, "encrypted_model_blob") == JNull)
            && (r.servedFromCache ==> Has(models, name))
            && (!Has(models, name) ==>
                  DecryptModel(env.lib, name, BundleOf(env, request)) == Success(Newest(after)))
  {
    var name, items := Lookup(request, "model_name").s, Lookup(request, "features").items;
    var tenant, blob := Lookup(request, "tenant_id").s, Lookup(request, "encrypted_model_blob");
    if blob == JNull {
      CachedNamesAreNames(models, max, name);
      RunOnCached(env, models, name, items, true);
    } else {
      var weights := env.dumpBundle(tenant, name, Lookup(request, "encrypted_model_key").s, blob);
      LoadedIsCached(env.lib, max, models, name, weights);
      RunOnCached(env, Load(env.lib, max, models, name, weights).0, name, items, false);
    }
  }

  /** A request answered MODEL_NOT_FOUND or DECRYPTION_FAILED has changed nothing. */
  lemma RefusalsChangeNothing(env: Environment, max: nat, models: Models, request: Request)
    requires max > 0 && WellFormed(models, max)
    requires var r := ServerPredict(env, max, models, request).1;
             r == Error(MODEL_NOT_FOUND) || r == Error(DECRYPTION_FAILED)
    ensures ServerPredict(env, max, models, request).0 == models
  {
    var name, features := Lookup(request, "model_name"), Lookup(request, "features");
    var tenant, key := Lookup(request, "tenant_id"), Lookup(request, "encrypted_model_key");
    var blob := Lookup(request, "encrypted_model_blob");
    if blob == JNull {
      if Has(models, name.s) {
        CachedNamesAreNames(models, max, name.s);
        RunOnCached(env, models, name.s, features.items, true);
      }
    } else {
      var weights := env.dumpBundle(tenant.s, name.s, key.s, blob);
      var (loaded, outcome) := Load(env.lib, max, models, name.s, weights);
      if outcome.Success? {
        LoadedIsCached(env.lib, max, models, name.s, weights);
        RunOnCached(env, loaded, name.s, features.items, false);
      }
    }
  }

  // ----- the two agree -----

  /** What the host puts on the wire: the payload with its action. */
  function Wire(action: string, payload: Request): Request {
    payload["action" := JString(action)]
  }

  /** The mock's rendering of a server response: it has no clause for the two internal failures. */
  function AsMock(r: Response): Response {
    if r == Error(INFERENCE_FAILED) || r == Error(INTERNAL_ERROR) then Error(INVALID_REQUEST) else r
  }

  /** A prediction request the mock takes and the server refuses: a model name or tenant of white space only. */
  predicate BlankField(payload: Request) {
    var name, features, tenant := Lookup(payload, "model_name"), Lookup(payload, "features"),
        Lookup(payload, "tenant_id");
    name.JString? && features.JArray? && tenant.JString? && tenant.s != "" && (Blank(name.s) || Blank(tenant.s))
  }

  lemma RunsAgree(env: Environment, models: Models, name: string, items: seq<Json>, fromCache: bool)
    ensures var (s, m) :=
            (ServerRun(env, models, name, items, fromCache), MockRun(env, models, name, items, fromCache));
            m.0 == s.0 && m.1 == AsMock(s.1)
  {
  }

  lemma {:induction false} PredictAgrees(env: Environment, max: nat, models: Models, payload: Request)
    requires !BlankField(payload)
    ensures var (s, m) := (ServerPredict(env, max, models, payload), MockPredict(env, max, models, payload));
            m.0 == s.0 && m.1 == AsMock(s.1)
  {
    var name, features, tenant := Lookup(payload, "model_name"), Lookup(payload, "features"),
        Lookup(payload, "tenant_id");
    var key, blob := Lookup(payload, "encrypted_model_key"), Lookup(payload, "encrypted_model_blob");
    if name.JString? && features.JArray? && tenant.JString? {
      assert tenant.s == "" ==> Blank(tenant.s);
      RunsAgree(env, models, name.s, features.items, true);
      if blob != JNull && key.JString? {
        RunsAgree(env, Load(env.lib, max, models, name.s, env.dumpBundle(tenant.s, name.s, key.s, blob)).0,
            name.s, features.items, false);
      }
    }
  }

  lemma WireKeepsFields(action: string, payload: Request, key: string)
    requires key != "action"
    ensures Lookup(Wire(action, payload), key) == Lookup(payload, key)
  {
  }

  /** Mock and server leave the engine in the same state and order and give the same answer, up to the two internal
      codes, for every action and every request without a blank model name or tenant. */
  lemma {:induction false} Simulation(env: Environment, max: nat, models: Models, action: string, payload: Request)
    requires action == "predict" ==> !BlankField(payload)
    ensures var (s, m) :=
            (ServerReply(env, max, models, Wire(action, payload)), MockReply(env, max, models, action, payload));
            m.0 == s.0 && m.1 == AsMock(s.1)
  {
    WireKeepsFields(action, payload, "model_name");
    WireKeepsFields(action, payload, "features");
    WireKeepsFields(action, payload, "tenant_id");
    WireKeepsFields(action, payload, "encrypted_model_key");
    WireKeepsFields(action, payload, "encrypted_model_blob");
    assert ServerPredict(env, max, models, Wire(action, payload)) == ServerPredict(env, max, models, payload);
    if action == "predict" {
      PredictAgrees(env, max, models, payload);
    }
  }

  function ServerRuns(env: Environment, max: nat, models: Models,
                      requests: seq<(string, Request)>): (r: (Models, seq<Response>))
    decreases |requests|
  {
    if requests == [] then (models, [])
    else
      var (next, reply) := ServerReply(env, max, models, Wire(requests[0].0, requests[0].1));
      var (last, replies) := ServerRuns(env, max, next, requests[1..]);
      (last, [AsMock(reply)] + replies)
  }

  function MockRuns(env: Environment, max: nat, models: Models,
                    requests: seq<(string, Request)>): (r: (Models, seq<Response>))
    decreases |requests|
  {
    if requests == [] then (models, [])
    else
      var (next, reply) := MockReply(env, max, models, requests[0].0, requests[0].1);
      var (last, replies) := MockRuns(env, max, next, requests[1..]);
      (last, [reply] + replies)
  }

  /** The same over whole request sequences: no test against the mock can tell it from the server. */
  lemma {:induction false} SimulationOverRuns(env: Environment, max: nat, models: Models,
                                              requests: seq<(string, Request)>)
    requires forall i | 0 <= i < |requests| :: requests[i].0 == "predict" ==> !BlankField(requests[i].1)
    ensures MockRuns(env, max, models, requests) == ServerRuns(env, max, models, requests)
    decreases |requests|
  {
    if requests != [] {
      Simulation(env, max, models, requests[0].0, requests[0].1);
      SimulationOverRuns(env, max, MockReply(env, max, models, requests[0].0, requests[0].1).0, requests[1..]);
    }
  }

  // ----- one level up: what a caller of `predict` sees -----

  /** The exceptions of `_normalize_predict_response`. */
  datatype PredictException = RemoteModelNotFound | RemoteFeatureDimensionMismatch | RemoteInvalidRequest
                            | CommunicationError | MalformedResponse

  /** `_normalize_predict_response`, which both clients share. */
  function Normalize(r: Response): (n: Result<(Prediction, bool), PredictException>) {
    match r
    case Answer(p, fromCache) => Success((p, fromCache))
    case Error(MODEL_NOT_FOUND) => Failure(RemoteModelNotFound)
    case Error(FEATURE_DIMENSION_MISMATCH) => Failure(RemoteFeatureDimensionMismatch)
    case Error(INVALID_REQUEST) => Failure(RemoteInvalidRequest)
    case Error(_) => Failure(CommunicationError)
    case Health(_, _) => Failure(MalformedResponse)
    case ModelList(_) => Failure(MalformedResponse)
  }

  /** What a caller of `predict` sees of a response: an answer as it is, and an exception of its own for a missing
      model, a wrong number of features and an invalid request; the other errors are communication errors, and a
      response of another kind is malformed. */
  lemma NormalizeExactly(r: Response)
    ensures forall p, c :: Normalize(r) == Success((p, c)) <==> r == Answer(p, c)
    ensures Normalize(r) == Failure(RemoteModelNotFound) <==> r == Error(MODEL_NOT_FOUND)
    ensures Normalize(r) == Failure(RemoteFeatureDimensionMismatch) <==> r == Error(FEATURE_DIMENSION_MISMATCH)
    ensures Normalize(r) == Failure(RemoteInvalidRequest) <==> r == Error(INVALID_REQUEST)
    ensures Normalize(r) == Failure(CommunicationError)
            <==> r.Error? && r.code in {INVALID_ACTION, DECRYPTION_FAILED, INFERENCE_FAILED, INTERNAL_ERROR}
    ensures Normalize(r) == Failure(MalformedResponse) <==> r.Health? || r.ModelList?
  {
  }

  /** The actions that do not predict change nothing: `health` echoes what it was sent, or "ping", and counts the
      models; `list_models` names them from the least to the most recently used; anything else is an invalid action. */
  lemma OtherActions(env: Environment, max: nat, models: Models, request: Request)
    requires Lookup(request, "action") != JString("predict")
    ensures var (after, r) := ServerReply(env, max, models, request);
            && after == models
            && match Lookup(request, "action")
               case JString("health") =>
                 r == Health(if "echo" in request then request["echo"] else JString("ping"), |models|)
               case JString("list_models") =>
                 r.ModelList? && |r.names| == |models| && forall i | 0 <= i < |models| :: r.names[i] == models[i].0
               case _ => r == Error(INVALID_ACTION)
  {
  }

  /** What the mock's rendering of a response does to a caller. */
  lemma NormalizeAsMock(s: Response)
    ensures Normalize(AsMock(s)) == Normalize(s) <==> s != Error(INFERENCE_FAILED) && s != Error(INTERNAL_ERROR)
    ensures Normalize(AsMock(s)) != Normalize(s) ==>
              Normalize(s) == Failure(CommunicationError) && Normalize(AsMock(s)) == Failure(RemoteInvalidRequest)
  {
  }

  /** A caller of `predict` gets the same result or the same exception from either client, except exactly where the
      enclave fails internally: the real client then reports a communication error and the mock an invalid request. */
  lemma {:induction false} PredictCallersAgree(env: Environment, max: nat, models: Models, payload: Request)
    requires !BlankField(payload)
    ensures var s := ServerReply(env, max, models, Wire("predict", payload)).1;
            var m := MockReply(env, max, models, "predict", payload).1;
            && (Normalize(m) == Normalize(s) <==> s != Error(INFERENCE_FAILED) && s != Error(INTERNAL_ERROR))
            && (Normalize(m) != Normalize(s) ==>
                  Normalize(s) == Failure(CommunicationError)
                  && Normalize(m) == Failure(RemoteInvalidRequest))
  {
    Simulation(env, max, models, "predict", payload);
    NormalizeAsMock(ServerReply(env, max, models, Wire("predict", payload)).1);
  }

  lemma NamesAreStripped(models: Models, max: nat, name: string)
    requires WellFormed(models, max) && Blank(name)
    ensures !Has(models, name)
  {
  }

  /** With a blank model name the two agree exactly if a blob comes without a usable key; otherwise the server says
      INVALID_REQUEST and the mock MODEL_NOT_FOUND or DECRYPTION_FAILED. */
  lemma BlankNameAgreement(env: Environment, max: nat, models: Models, payload: Request)
    requires WellFormed(models, max) && BlankField(payload) && Blank(Lookup(payload, "model_name").s)
    ensures var (s, m) := (ServerPredict(env, max, models, payload), MockPredict(env, max, models, payload));
            var key, blob := Lookup(payload, "encrypted_model_key"), Lookup(payload, "encrypted_model_blob");
            m == (s.0, AsMock(s.1)) <==> blob != JNull && (!key.JString? || key.s == "")
  {
    NamesAreStripped(models, max, Lookup(payload, "model_name").s);
  }

  /** Running this model on these items ends in an answer the mock renders as INVALID_REQUEST: an item is no number,
      or the right number of features makes the model fail. */
  ghost predicate FailsInside(env: Environment, loaded: LoadedModel, items: seq<Json>) {
    NotNumeric(env, items) || exists result :: Infers(env, loaded, items, result) && !result.Predicted?
  }

  /** Some item is no number. */
  ghost predicate NotNumeric(env: Environment, items: seq<Json>) {
    exists item | item in items :: !env.toFloat(item).Number?
  }

  lemma NotNumericFails(env: Environment, items: seq<Json>)
    ensures NotNumeric(env, items) <==> ToFloats(env, items).Failure?
  {
    ToFloatsExactly(env, items);
    if ToFloats(env, items).Failure? {
      var c := ToFloats(env, items).error;
      assert FailsWith(env, items, c);
      var i: nat :| FirstBad(env, items, i, c);
      assert items[i] in items;
    } else {
      assert Converts(env, items, ToFloats(env, items).value);
    }
  }

  lemma FailsInsideAs(env: Environment, loaded: LoadedModel, items: seq<Json>)
    ensures FailsInside(env, loaded, items) <==>
              var floats := ToFloats(env, items);
              floats.Success? ==>
                floats.value != [] && |floats.value| == loaded.featureDimension
                && !env.lib.infer(loaded.model, floats.value).Predicted?
  {
    NotNumericFails(env, items);
    ToFloatsExactly(env, items);
    var floats := ToFloats(env, items);
    if floats.Success? && floats.value != [] && |floats.value| == loaded.featureDimension {
      assert Infers(env, loaded, items, env.lib.infer(loaded.model, floats.value));
    }
  }

  lemma MockRefusal(env: Environment, models: Models, name: string, items: seq<Json>, fromCache: bool)
    requires Strip(name) != "" && Has(models, Strip(name))
    ensures MockRun(env, models, name, items, fromCache)
            == (if NotNumeric(env, items) then models else Touch(models, Strip(name)), Error(INVALID_REQUEST))
            <==> FailsInside(env, Get(models, Strip(name)).value, items)
  {
    NotNumericFails(env, items);
    FailsInsideAs(env, Get(models, Strip(name)).value, items);
  }

  /** The mock's run says INVALID_REQUEST and leaves the cache as it was exactly if an item is no number, or the
      model is the most recent one already and fails. */
  lemma MockRunRefuses(env: Environment, models: Models, name: string, items: seq<Json>, fromCache: bool)
    requires Unique(models) && Strip(name) != "" && Has(models, Strip(name))
    ensures MockRun(env, models, name, items, fromCache) == (models, Error(INVALID_REQUEST))
            <==> NotNumeric(env, items) || (IsNewest(models, Strip(name))
                 && FailsInside(env, Get(models, Strip(name)).value, items))
  {
    MockRefusal(env, models, name, items, fromCache);
    NotNumericFails(env, items);
    if IsNewest(models, Strip(name)) {
      NewestIsFound(models, Strip(name));
    } else {
      TouchShape(models, Strip(name));
      assert Touch(models, Strip(name))[|models| - 1].0 == Strip(name);
    }
  }

  lemma MockRunOnNewest(env: Environment, models: Models, name: string, items: seq<Json>, fromCache: bool)
    requires Unique(models) && IsNewest(models, Strip(name))
    ensures MockRun(env, models, name, items, fromCache).0 == models
  {
    NewestIsFound(models, Strip(name));
  }

  /** After a load that succeeds, the mock's answer can be the server's refusal only if the model was the most recent
      one before and fails now. */
  lemma LoadThenRefuse(env: Environment, max: nat, models: Models, name: string, weights: seq<byte>, items: seq<Json>)
    requires max > 0 && WellFormed(models, max) && Load(env.lib, max, models, name, weights).1.Success?
    ensures MockRun(env, Load(env.lib, max, models, name, weights).0, name, items, false)
            == (models, Error(INVALID_REQUEST))
            <==> IsNewest(models, Strip(name)) && FailsInside(env, Get(models, Strip(name)).value, items)
  {
    var key := Strip(name);
    var loaded := Load(env.lib, max, models, name, weights).0;
    LoadKeepsWellFormed(env.lib, max, models, name, weights);
    NewestIsFound(loaded, key);
    MockRunOnNewest(env, loaded, name, items, false);
    if IsNewest(models, key) {
      NewestIsFound(models, key);
      MockRunRefuses(env, models, name, items, false);
    } else {
      assert loaded != models;
    }
  }

  /** When the mock refuses as the server does, a blank tenant notwithstanding: its own checks fail, or a field of the
      bundle is not base64, or the cache is not touched and the features or the model make it fail. */
  ghost predicate RefusesAnyway(env: Environment, models: Models, name: string, items: seq<Json>, key: Json, blob: Json,
                          tenant: string) {
    if blob == JNull then
      Has(models, name)
      && (NotNumeric(env, items) || (IsNewest(models, name) && FailsInside(env, Get(models, name).value, items)))
    else if !key.JString? || key.s == "" then true
    else
      var weights := env.dumpBundle(tenant, name, key.s, blob);
      weights != []
      && if Has(models, Strip(name)) then IsNewest(models, Strip(name))
         && FailsInside(env, Get(models, Strip(name)).value, items)
         else DecryptModel(env.lib, Strip(name), weights) == Failure(BadBase64)
  }

  /** With a blank tenant the server refuses, and mock and server agree exactly if the mock refuses anyway. */
  lemma BlankTenantAgreement(env: Environment, max: nat, models: Models, payload: Request)
    requires max > 0 && WellFormed(models, max) && BlankField(payload) && !Blank(Lookup(payload, "model_name").s)
    ensures var (s, m) := (ServerPredict(env, max, models, payload), MockPredict(env, max, models, payload));
            var name, items, tenant := Lookup(payload, "model_name").s, Lookup(payload, "features").items,
                Lookup(payload, "tenant_id").s;
            && s == (models, Error(INVALID_REQUEST))
            && (m == (s.0, AsMock(s.1)) <==>
                  RefusesAnyway(env, models, name, items, Lookup(payload, "encrypted_model_key"),
                                Lookup(payload, "encrypted_model_blob"), tenant))
  {
    var name, items, tenant := Lookup(payload, "model_name").s, Lookup(payload, "features").items,
        Lookup(payload, "tenant_id").s;
    var key, blob := Lookup(payload, "encrypted_model_key"), Lookup(payload, "encrypted_model_blob");
    if blob == JNull {
      if Has(models, name) {
        CachedNamesAreNames(models, max, name);
        MockRunRefuses(env, models, name, items, true);
      }
    } else if key.JString? && key.s != "" {
      var weights := env.dumpBundle(tenant, name, key.s, blob);
      if Load(env.lib, max, models, name, weights).1.Success? {
        LoadThenRefuse(env, max, models, name, weights, items);
        NewestHas(models, Strip(name));
      }
    }
  }

  /** For instance: a model that is loaded and predicts, asked for by a tenant of one space. */
  lemma BlankTenantDisagreement(env: Environment, max: nat, models: Models, name: string, p: Prediction,
                                loaded: LoadedModel)
    requires models == [(name, loaded)] && Strip(name) == name && name != ""
    requires loaded.featureDimension == 1 && env.toFloat(JOther(0)) == Number(0.0)
    requires env.lib.infer(loaded.model, [0.0]) == Inference.Predicted(p.prediction, p.confidence)
    ensures var payload :=
            map["model_name" := JString(name), "features" := JArray([JOther(0)]), "tenant_id" := JString(" ")];
            && BlankField(payload)
            && ServerPredict(env, max, models, payload).1 == Error(INVALID_REQUEST)
            && MockPredict(env, max, models, payload).1 == Answer(p, true)
  {
    assert Strip(" ") == "";
    var items := [JOther(0)];
    assert items[1..] == [];
    assert ToFloats(env, []) == Success([]) && [0.0] + [] == [0.0];
    assert ToFloats(env, items) == Success([0.0]);
    assert models[0].0 == name && Has(models, name);
    assert RunModel(env.lib, loaded, [0.0]) == Success(p);
  }

  /** `is_model_loaded` does not strip: a loaded model asked for without a blob is reported missing exactly if its name
      is padded. */
  lemma PaddedNameIsNotFound(env: Environment, max: nat, models: Models, request: Request)
    requires WellFormed(models, max)
    requires var name := Lookup(request, "model_name"); name.JString? && !Blank(name.s) && Has(models, Strip(name.s))
    requires Lookup(request, "tenant_id").JString? && !Blank(Lookup(request, "tenant_id").s)
    requires Lookup(request, "features").JArray? && Lookup(request, "encrypted_model_blob") == JNull
    ensures var (after, r) := ServerPredict(env, max, models, request);
            var name := Lookup(request, "model_name").s;
            && (r == Error(MODEL_NOT_FOUND) <==> Strip(name) != name)
            && (Strip(name) != name ==> after == models)
  {
    var name := Lookup(request, "model_name").s;
    if Has(models, name) {
      CachedNamesAreNames(models, max, name);
      RunOnCached(env, models, name, Lookup(request, "features").items, true);
    }
  }
}
