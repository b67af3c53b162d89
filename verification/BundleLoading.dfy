/** Which bundles load, and what comes out of them. */
module BundleLoading {
  import opened Results
  import opened Bytes
  import opened InferenceEngine
  import Utf8

  /** What decrypting a bundle comes across: the bundle, its unwrapped key, the artifact inside it, and the parts that
      go into opening it. */
  datatype Opening = Opening(bundle: Bundle, wrapped: seq<byte>, key: seq<byte>, blob: seq<byte>, artifact: Artifact,
                             nonce: seq<byte>, ciphertext: seq<byte>, aad: seq<byte>, plaintext: seq<byte>)

  /** `loaded` came out of this bundle: it is named `name`, its key was unwrapped for the tenant it names, the AES-GCM
      artifact it carries opened under that key, and the model has a positive feature dimension. */
  ghost predicate Opened(lib: Library, name: string, weights: seq<byte>, loaded: LoadedModel) {
    exists o :: Unwrapped(lib, name, weights, o) && Unsealed(lib, name, o, loaded)
  }

  ghost predicate Unwrapped(lib: Library, name: string, weights: seq<byte>, o: Opening) {
    && lib.parseBundle(weights) == Some(o.bundle)
    && o.bundle.modelName == Some(name) && o.bundle.tenantId.Some? && o.bundle.encryptedKey.Some?
       && o.bundle.encryptedBlob.Some?
    && lib.base64(o.bundle.encryptedKey.value) == Some(o.wrapped)
    && lib.base64(o.bundle.encryptedBlob.value) == Some(o.blob)
    && lib.unwrapKey(o.wrapped, o.bundle.tenantId.value) == Some(o.key)
  }

  /** The artifact is an AES-GCM one with its fields. */
  predicate IsArtifact(lib: Library, blob: seq<byte>, artifact: Artifact) {
    && lib.parseArtifact(blob) == Some(artifact) && artifact.algorithm == Some("AESGCM")
    && artifact.nonce.Some? && artifact.ciphertext.Some?
  }

  /** The associated data: as given, or tenant and name where nothing, or an empty text, is given. */
  predicate IsAad(lib: Library, tenantId: string, name: string, aad: Aad, bytes: seq<byte>) {
    if aad == NoAad || aad == AadText("") then bytes == Utf8.Encode(tenantId + ":" + name)
    else aad.AadText? && lib.base64(aad.text) == Some(bytes)
  }

  /** The model's own feature count, or the artifact's if the model has none. */
  predicate IsDimension(model: Model, artifact: Artifact, n: int) {
    n > 0 && (if model.nFeatures.Some? then model.nFeatures == Some(n) else artifact.featureDimension == Some(n))
  }

  ghost predicate Unsealed(lib: Library, name: string, o: Opening, loaded: LoadedModel) {
    && IsArtifact(lib, o.blob, o.artifact) && o.bundle.tenantId.Some?
    && lib.base64(o.artifact.nonce.value) == Some(o.nonce)
    && lib.base64(o.artifact.ciphertext.value) == Some(o.ciphertext)
    && IsAad(lib, o.bundle.tenantId.value, name, o.artifact.aad, o.aad)
    && lib.openSealed(o.key, o.nonce, o.ciphertext, o.aad) == Some(o.plaintext)
    && lib.deserialize(o.plaintext) == Some(loaded.model)
    && loaded.modelName == name && IsDimension(loaded.model, o.artifact, loaded.featureDimension)
  }

  lemma AadAs(lib: Library, tenantId: string, name: string, aad: Aad, bytes: seq<byte>)
    ensures AssociatedData(lib, tenantId, name, aad) == Some(bytes) <==> IsAad(lib, tenantId, name, aad, bytes)
  {
  }

  lemma DecryptedIsOpened(lib: Library, name: string, weights: seq<byte>)
    requires DecryptModel(lib, name, weights).Success?
    ensures Opened(lib, name, weights, DecryptModel(lib, name, weights).value)
  {
    var bundle := lib.parseBundle(weights).value;
    var wrapped, blob := lib.base64(bundle.encryptedKey.value).value, lib.base64(bundle.encryptedBlob.value).value;
    var key := lib.unwrapKey(wrapped, bundle.tenantId.value).value;
    var artifact := lib.parseArtifact(blob).value;
    var nonce, ciphertext := lib.base64(artifact.nonce.value).value, lib.base64(artifact.ciphertext.value).value;
    var aad := AssociatedData(lib, bundle.tenantId.value, name, artifact.aad).value;
    AadAs(lib, bundle.tenantId.value, name, artifact.aad, aad);
    var o := Opening(bundle, wrapped, key, blob, artifact, nonce, ciphertext, aad,
        lib.openSealed(key, nonce, ciphertext, aad).value);
    assert Unwrapped(lib, name, weights, o) && Unsealed(lib, name, o, DecryptModel(lib, name, weights).value);
  }

  lemma OpenedDecrypts(lib: Library, name: string, weights: seq<byte>, o: Opening, loaded: LoadedModel)
    requires Unwrapped(lib, name, weights, o) && Unsealed(lib, name, o, loaded)
    ensures DecryptModel(lib, name, weights) == Success(loaded)
  {
    AadAs(lib, o.bundle.tenantId.value, name, o.artifact.aad, o.aad);
  }

  /** A bundle loads as this model exactly if it opens to it. */
  lemma LoadsExactly(lib: Library, name: string, weights: seq<byte>, loaded: LoadedModel)
    ensures DecryptModel(lib, name, weights) == Success(loaded) <==> Opened(lib, name, weights, loaded)
  {
    if DecryptModel(lib, name, weights) == Success(loaded) {
      DecryptedIsOpened(lib, name, weights);
    }
    forall o | Unwrapped(lib, name, weights, o) && Unsealed(lib, name, o, loaded)
      ensures DecryptModel(lib, name, weights) == Success(loaded)
    {
      OpenedDecrypts(lib, name, weights, o, loaded);
    }
  }

  // ----- fields that are not base64 -----

  /** The bundle has its four fields and is for this name. */
  predicate IsBundle(lib: Library, name: string, weights: seq<byte>, bundle: Bundle) {
    && lib.parseBundle(weights) == Some(bundle) && bundle.modelName == Some(name)
    && bundle.tenantId.Some? && bundle.encryptedKey.Some? && bundle.encryptedBlob.Some?
  }

  predicate AadIsBad(lib: Library, aad: Aad) {
    aad == AadOther || (aad.AadText? && aad.text != "" && lib.base64(aad.text) == None)
  }

  predicate ArtifactIsBad(lib: Library, artifact: Artifact)
    requires artifact.nonce.Some? && artifact.ciphertext.Some?
  {
    || lib.base64(artifact.nonce.value) == None || lib.base64(artifact.ciphertext.value) == None
    || AadIsBad(lib, artifact.aad)
  }

  /** The bundle's key or artifact is not base64; or it is, the key unwraps, and a field of the artifact is not. */
  predicate BundleIsBad(lib: Library, bundle: Bundle)
    requires bundle.tenantId.Some? && bundle.encryptedKey.Some? && bundle.encryptedBlob.Some?
  {
    var wrapped, blob := lib.base64(bundle.encryptedKey.value), lib.base64(bundle.encryptedBlob.value);
    || wrapped == None || blob == None
    || (lib.unwrapKey(wrapped.value, bundle.tenantId.value).Some?
        && lib.parseArtifact(blob.value).Some?
        && var artifact := lib.parseArtifact(blob.value).value;
           IsArtifact(lib, blob.value, artifact) && ArtifactIsBad(lib, artifact))
  }

  /** A load fails for bad base64, rather than with ModelLoadError, exactly for such a field. */
  lemma BadBase64Exactly(lib: Library, name: string, weights: seq<byte>)
    ensures DecryptModel(lib, name, weights) == Failure(BadBase64)
            <==> exists bundle :: IsBundle(lib, name, weights, bundle) && BundleIsBad(lib, bundle)
  {
    var parsed := lib.parseBundle(weights);
    if parsed.Some? && IsBundle(lib, name, weights, parsed.value) {
      BadBundleExactly(lib, name, weights, parsed.value);
    }
  }

  lemma BadBundleExactly(lib: Library, name: string, weights: seq<byte>, bundle: Bundle)
    requires IsBundle(lib, name, weights, bundle)
    ensures DecryptModel(lib, name, weights) == Failure(BadBase64) <==> BundleIsBad(lib, bundle)
  {
    var wrapped, blob := lib.base64(bundle.encryptedKey.value), lib.base64(bundle.encryptedBlob.value);
    if wrapped.Some? && blob.Some? && lib.unwrapKey(wrapped.value, bundle.tenantId.value).Some? {
      var key := lib.unwrapKey(wrapped.value, bundle.tenantId.value).value;
      ArtifactExactly(lib, name, bundle.tenantId.value, key, blob.value);
    }
  }

  lemma ArtifactExactly(lib: Library, name: string, tenantId: string, key: seq<byte>, blob: seq<byte>)
    ensures OpenArtifact(lib, name, tenantId, key, blob) == Failure(BadBase64)
            <==> lib.parseArtifact(blob).Some? && IsArtifact(lib, blob, lib.parseArtifact(blob).value)
                 && ArtifactIsBad(lib, lib.parseArtifact(blob).value)
  {
  }
}
