/** The model cache inside the enclave: an LRU dictionary filled by decrypting bundles. */
module InferenceEngine {
  import opened Results
  import opened Bytes
  import opened OrderedDict
  import opened PyStr
  import Utf8

  /** A deserialized model: its bytes and the feature count it reports, if any. */
  datatype Model = Model(weights: seq<byte>, nFeatures: Option<int>)

  datatype LoadedModel = LoadedModel(modelName: string, model: Model, featureDimension: int)

  type Models = Dict<string, LoadedModel>

  /** JSON objects as far as the engine looks at them; `None` is a field that is absent or of another type. */
  datatype Bundle = Bundle(tenantId: Option<string>, modelName: Option<string>, encryptedKey: Option<string>,
      encryptedBlob: Option<string>)
  datatype Artifact = Artifact(algorithm: Option<string>, nonce: Option<string>, ciphertext: Option<string>,
                               aad: Aad, featureDimension: Option<int>)

  /** The `aad_b64` field: absent or false in Python's eyes, a text, or any other value. */
  datatype Aad = NoAad | AadText(text: string) | AadOther

  /** What running a model on a feature vector gives: a prediction with its confidence, a failure inside the
      model, or an exception while the result is converted. */
  datatype Inference = Predicted(prediction: real, confidence: real) | ModelFailed | BadNumber | Unexpected

  /** The libraries the engine calls. `None` stands for the exception each of them raises. */
  datatype Library = Library(
    base64: string -> Option<seq<byte>>,
    parseBundle: seq<byte> -> Option<Bundle>,
    parseArtifact: seq<byte> -> Option<Artifact>,
    unwrapKey: (seq<byte>, string) -> Option<seq<byte>>,
    openSealed: (seq<byte>, seq<byte>, seq<byte>, seq<byte>) -> Option<seq<byte>>,
    deserialize: seq<byte> -> Option<Model>,
    infer: (Model, seq<real>) -> Inference)

  /** `ModelLoadError`, or what `b64decode` raises for a field that is not base64 text: a `binascii.Error`, which
      is a `ValueError`, or a `TypeError`. */
  datatype LoadError = ModelLoadError | BadBase64

  datatype PredictError = ModelNotLoaded | DimensionMismatch | PredictionFailed | NumberError | UnexpectedError

  datatype Prediction = Prediction(prediction: real, confidence: real)

  /** `_extract_feature_dimension`: the model's own count decides when it has one, valid or not; otherwise the
      artifact's, if it is positive. */
  function FeatureDimension(model: Model, artifact: Artifact): (r: Option<int>)
    ensures r.Some? ==> r.value > 0
    ensures model.nFeatures.Some? ==> r == model.nFeatures || (r.None? && model.nFeatures.value <= 0)
    ensures model.nFeatures.None? ==> (r.Some? <==> exists n | n > 0 :: artifact.featureDimension == Some(n))
    ensures model.nFeatures.None? && r.Some? ==> r == artifact.featureDimension
  {
    match model.nFeatures
    case Some(n) => if n <= 0 then None else Some(n)
    case None =>
      if artifact.featureDimension.Some? && artifact.featureDimension.value > 0 then artifact.featureDimension else None
  }

  /** `_build_aad`; `None` where the given value is not base64 text. */
  function AssociatedData(lib: Library, tenantId: string, name: string, aad: Aad): Option<seq<byte>> {
    match aad
    case AadOther => None
    case AadText(text) => if text != "" then lib.base64(text) else Some(Utf8.Encode(tenantId + ":" + name))
    case NoAad => Some(Utf8.Encode(tenantId + ":" + name))
  }

  /** The second half of the unlocked part of `load_model`: from the unwrapped key to the model. */
  function OpenArtifact(lib: Library, name: string, tenantId: string, key: seq<byte>,
                        blob: seq<byte>): (r: Result<LoadedModel, LoadError>) {
    var artifact := lib.parseArtifact(blob);
    if artifact.None? || artifact.value.algorithm != Some("AESGCM") || artifact.value.nonce.None?
        || artifact.value.ciphertext.None? then
      Failure(ModelLoadError)
    else
      var nonce, ciphertext := lib.base64(artifact.value.nonce.value), lib.base64(artifact.value.ciphertext.value);
      if nonce.None? || ciphertext.None? then Failure(BadBase64)
      else
        var aad := AssociatedData(lib, tenantId, name, artifact.value.aad);
        if aad.None? then Failure(BadBase64)
        else
          var plaintext := lib.openSealed(key, nonce.value, ciphertext.value, aad.value);
          if plaintext.None? then Failure(ModelLoadError)
          else
            var model := lib.deserialize(plaintext.value);
            if model.None? then Failure(ModelLoadError)
            else
              var dimension := FeatureDimension(model.value, artifact.value);
              if dimension.None? then Failure(ModelLoadError)
              else Success(LoadedModel(name, model.value, dimension.value))
  }

  /** What `load_model` does without holding the lock: bundle bytes to a loaded model. */
  function DecryptModel(lib: Library, name: string, weights: seq<byte>): (r: Result<LoadedModel, LoadError>) {
    var parsed := lib.parseBundle(weights);
    if parsed.None? then Failure(ModelLoadError)
    else
      var bundle := parsed.value;
      if bundle.tenantId.None? || bundle.modelName.None? || bundle.encryptedKey.None? || bundle.encryptedBlob.None? then
        Failure(ModelLoadError)
      else if bundle.modelName.value != name then Failure(ModelLoadError)
      else
        var encryptedKey, blob := lib.base64(bundle.encryptedKey.value), lib.base64(bundle.encryptedBlob.value);
        if encryptedKey.None? || blob.None? then Failure(BadBase64)
        else
          var key := lib.unwrapKey(encryptedKey.value, bundle.tenantId.value);
          if key.None? then Failure(ModelLoadError)
          else OpenArtifact(lib, name, bundle.tenantId.value, key.value, blob.value)
  }

  // ----- the lock regions -----

  /** The look-up of `load_model` and of `predict`: a hit becomes the most recently used entry. */
  function Touch(models: Models, name: string): (r: Models) {
    if Has(models, name) then MoveToEnd(models, name) else models
  }

  /** The store of `load_model`: the entry goes to the end and the oldest ones go while there are too many. */
  function Insert(models: Models, max: nat, name: string, loaded: LoadedModel): (r: Models)
    ensures |r| <= max
  {
    KeepLast(Remove(models, name) + [(name, loaded)], max)
  }

  // ----- whole calls, run without interference -----

  function Load(lib: Library, max: nat, models: Models, modelName: string,
                weights: seq<byte>): (r: (Models, Result<(), LoadError>)) {
    var name := Strip(modelName);
    if name == "" || weights == [] then (models, Failure(ModelLoadError))
    else if Has(models, name) then (Touch(models, name), Success(()))
    else
      match DecryptModel(lib, name, weights)
      case Failure(e) => (models, Failure(e))
      case Success(loaded) => (Insert(models, max, name, loaded), Success(()))
  }

  /** `predict` once the model is found: `_validate_features`, then the model. */
  function RunModel(lib: Library, loaded: LoadedModel, features: seq<real>): (r: Result<Prediction, PredictError>) {
    if features == [] || |features| != loaded.featureDimension then Failure(DimensionMismatch)
    else
      match lib.infer(loaded.model, features)
      case Predicted(p, c) => Success(Prediction(p, c))
      case ModelFailed => Failure(PredictionFailed)
      case BadNumber => Failure(NumberError)
      case Unexpected => Failure(UnexpectedError)
  }

  function Predict(lib: Library, models: Models, modelName: string,
                   features: seq<real>): (r: (Models, Result<Prediction, PredictError>)) {
    var name := Strip(modelName);
    if name == "" then (models, Failure(ModelNotLoaded))
    else
      match Get(models, name)
      case None => (models, Failure(ModelNotLoaded))
      case Some(loaded) => (Touch(models, name), RunModel(lib, loaded, features))
  }

  function Unload(models: Models, modelName: string): (r: Models) {
    Remove(models, Strip(modelName))
  }

  /** What every entry point leaves: one entry per name, no more than `max`, and each name the stripped,
      non-blank name its model was loaded under. */
  ghost predicate WellFormed(models: Models, max: nat) {
    && Unique(models)
    && |models| <= max
    && forall i | 0 <= i < |models| ::
         models[i].0 == models[i].1.modelName && IsName(models[i].0) && models[i].1.featureDimension > 0
  }

  /** The engine object. Its lock makes each region atomic; the methods here run without interference. */
  class Engine {
    const lib: Library
    const maxModels: nat
    var models: Models

    constructor (lib: Library, maxModels: nat)
      requires maxModels > 0
      ensures this.lib == lib && this.maxModels == maxModels && models == []
    {
      this.lib, this.maxModels, this.models := lib, maxModels, [];
    }

    ghost predicate Valid()
      reads this
    {
      maxModels > 0 && WellFormed(models, maxModels)
    }

    /** `is_model_loaded` compares the name as given, without stripping it. */
    method IsModelLoaded(modelName: string) returns (r: bool)
      ensures r <==> Has(models, modelName)
    {
      r := Get(models, modelName).Some?;
    }

    /** The names of the cached models, each once, from the least to the most recently used one. */
    method ListLoadedModels() returns (names: seq<string>)
      requires Valid()
      ensures forall n :: n in names <==> Has(models, n)
      ensures forall i, j | 0 <= i < j < |names| :: names[i] != names[j]
      ensures |names| == |models| <= maxModels
      ensures forall i | 0 <= i < |names| :: names[i] == models[i].0 && IsName(names[i])
    {
      names := Keys(models);
      forall n | Has(models, n) ensures n in names {
        var i :| 0 <= i < |models| && models[i].0 == n;
        assert names[i] == n;
      }
    }

    method LoadModel(modelName: string, weights: seq<byte>) returns (r: Result<(), LoadError>)
      requires Valid()
      modifies this`models
      ensures Valid()
      ensures (models, r) == Load(lib, maxModels, old(models), modelName, weights)
      ensures r.Failure? ==> models == old(models)
      ensures r.Success? ==> Has(models, Strip(modelName)) && models[|models| - 1].0 == Strip(modelName)
    {
      LoadKeepsWellFormed(lib, maxModels, models, modelName, weights);
      var name := Strip(modelName);
      if name == "" { return Failure(ModelLoadError); }
      if weights == [] { return Failure(ModelLoadError); }
      var cached := Get(models, name);
      if cached.Some? {
        models := MoveToEnd(models, name);
        return Success(());
      }
      var decrypted := DecryptModel(lib, name, weights);
      if decrypted.Failure? { return Failure(decrypted.error); }
      StoreModel(name, decrypted.value);
      r := Success(());
    }

    /** The second lock region of `load_model`. */
    method StoreModel(name: string, loaded: LoadedModel)
      requires Unique(models) && maxModels > 0
      modifies this`models
      ensures models == Insert(old(models), maxModels, name, loaded)
    {
      PutLast(models, name, loaded);
      models := Put(models, name, loaded);
      models := MoveToEnd(models, name);
      ghost var all := models;
      while |models| > maxModels
        invariant |models| <= |all| && models == all[|all| - |models|..]
        invariant |models| >= maxModels || models == all
      {
        models := models[1..];
      }
    }

    method PredictOne(modelName: string, features: seq<real>) returns (r: Result<Prediction, PredictError>)
      requires Valid()
      modifies this`models
      ensures Valid()
      ensures (models, r) == Predict(lib, old(models), modelName, features)
    {
      TouchKeepsWellFormed(models, maxModels, Strip(modelName));
      var name := Strip(modelName);
      if name == "" { return Failure(ModelNotLoaded); }
      var loaded := Get(models, name);
      if loaded.None? { return Failure(ModelNotLoaded); }
      models := MoveToEnd(models, name);
      r := RunModel(lib, loaded.value, features);
    }

    method UnloadModel(modelName: string)
      requires Valid()
      modifies this`models
      ensures Valid()
      ensures models == Unload(old(models), modelName)
      ensures !Has(models, Strip(modelName))
    {
      RemoveUnique(models, Strip(modelName));
      EntriesStay(models, Remove(models, Strip(modelName)), maxModels);
      models := Remove(models, Strip(modelName));
    }
  }

  // ----- what the regions keep -----

  lemma {:induction false} TouchShape(models: Models, name: string)
    requires Unique(models) && Has(models, name)
    ensures Unique(Touch(models, name)) && |Touch(models, name)| == |models|
    ensures Touch(models, name) == Remove(models, name) + [(name, Get(models, name).value)]
    ensures forall e | e in Touch(models, name) :: e in models
  {
    RemoveUnique(models, name);
    AppendUnique(Remove(models, name), name, Get(models, name).value);
    var i :| 0 <= i < |models| && models[i] == (name, Get(models, name).value);
  }

  lemma TouchKeepsWellFormed(models: Models, max: nat, name: string)
    requires WellFormed(models, max)
    ensures WellFormed(Touch(models, name), max)
  {
    if Has(models, name) {
      TouchShape(models, name);
      EntriesStay(models, Touch(models, name), max);
    }
  }

  /** Entries taken from a well-formed cache are well-formed. */
  lemma EntriesStay(models: Models, fewer: Models, max: nat)
    requires WellFormed(models, max) && Unique(fewer) && |fewer| <= max
    requires forall e | e in fewer :: e in models
    ensures WellFormed(fewer, max)
  {
    forall i | 0 <= i < |fewer|
      ensures fewer[i].0 == fewer[i].1.modelName && IsName(fewer[i].0) && fewer[i].1.featureDimension > 0
    {
      assert fewer[i] in models;
    }
  }

  lemma InsertKeepsWellFormed(models: Models, max: nat, name: string, loaded: LoadedModel)
    requires max > 0 && WellFormed(models, max)
    requires loaded.modelName == name && IsName(name) && loaded.featureDimension > 0
    ensures WellFormed(Insert(models, max, name, loaded), max)
    ensures var r := Insert(models, max, name, loaded); r != [] && r[|r| - 1] == (name, loaded)
  {
    RemoveUnique(models, name);
    var all := Remove(models, name) + [(name, loaded)];
    AppendUnique(Remove(models, name), name, loaded);
    forall i | 0 <= i < |all|
      ensures all[i].0 == all[i].1.modelName && IsName(all[i].0) && all[i].1.featureDimension > 0
    {
      if i < |models| && i < |all| - 1 {
        assert Remove(models, name)[i] in models;
      }
    }
  }

  /** A successful decryption yields a model with the right name and a positive feature count. */
  lemma DecryptedModelIsNamed(lib: Library, name: string, weights: seq<byte>)
    requires DecryptModel(lib, name, weights).Success?
    ensures DecryptModel(lib, name, weights).value.modelName == name
    ensures DecryptModel(lib, name, weights).value.featureDimension > 0
  {
  }

  /** `load_model` keeps the cache well-formed; when it fails nothing has changed, and when it succeeds the
      model is there, most recently used. */
  lemma LoadKeepsWellFormed(lib: Library, max: nat, models: Models, modelName: string, weights: seq<byte>)
    requires max > 0 && WellFormed(models, max)
    ensures var (r, outcome) := Load(lib, max, models, modelName, weights);
            && WellFormed(r, max)
            && (outcome.Failure? ==> r == models)
            && (outcome.Success? ==> r != [] && r[|r| - 1].0 == Strip(modelName))
  {
    var name := Strip(modelName);
    StripTwice(modelName);
    if name != "" && weights != [] {
      if Has(models, name) {
        TouchKeepsWellFormed(models, max, name);
        TouchShape(models, name);
      } else if DecryptModel(lib, name, weights).Success? {
        DecryptedModelIsNamed(lib, name, weights);
        InsertKeepsWellFormed(models, max, name, DecryptModel(lib, name, weights).value);
      }
    }
  }
}
