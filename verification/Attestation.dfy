/** Attestation documents: the mock NSM that writes them and the parser that takes them apart. */
module Attestation {
  import opened Bytes
  import opened Results
  import opened CborValue
  import opened CborDecoder
  import opened CborTheorems
  import opened OrderedDict
  import opened Rendering
  import Utf8

  /** `ParsedAttestationDocument`. The timestamp is an `Int` or, since Python counts booleans as
      integers, a `Bool`. */
  datatype ParsedDocument = ParsedDocument(
    moduleId: string,
    timestamp: Value,
    digest: string,
    pcrs: Dict<string, string>,
    publicKey: Option<seq<byte>>,
    userData: Option<seq<byte>>,
    nonce: Option<seq<byte>>,
    isCoseSign1: bool)

  // ----- parsing -----

  /** `isinstance(v, int)`. */
  predicate IsInt(v: Value) {
    v.Int? || v.Bool?
  }

  /** `str(index)` for a PCR index. */
  function IndexName(v: Value): (s: string)
    requires IsInt(v)
  {
    if v.Int? then Decimal(v.i) else if v.b then "True" else "False"
  }

  /** The loop over the raw PCR map, on top of what is already in `acc`. */
  function NormalizePcrMap(es: seq<Entry>, acc: Dict<string, string>): (r: Result<Dict<string, string>, Error>) {
    if es == [] then Success(acc)
    else if !IsInt(es[0].key) || !es[0].val.Bytes? then Failure(AttestationError)
    else NormalizePcrMap(es[1..], Put(acc, IndexName(es[0].key), Hex(es[0].val.bytes)))
  }

  predicate OptionalBytes(v: Value) {
    v.Null? || v.Bytes?
  }

  function AsOption(v: Value): Option<seq<byte>>
    requires OptionalBytes(v)
  {
    if v.Bytes? then Some(v.bytes) else None
  }

  /** The field checks on the decoded payload. */
  function ParsePayload(payload: Value, cose: bool): (r: Result<ParsedDocument, Error>) {
    if !payload.Map? then Failure(AttestationError)
    else
      var es := payload.entries;
      var moduleId, timestamp, digest, pcrs := Field(es, "module_id"), Field(es, "timestamp"),
          Field(es, "digest"), Field(es, "pcrs");
      if !moduleId.Text? || !IsInt(timestamp) || !digest.Text? || !pcrs.Map? then Failure(AttestationError)
      else
        match NormalizePcrMap(pcrs.entries, [])
        case Failure(e) => Failure(e)
        case Success(normalized) =>
          var publicKey, userData, nonce := Field(es, "public_key"), Field(es, "user_data"), Field(es, "nonce");
          if !OptionalBytes(publicKey) || !OptionalBytes(userData)
              || !OptionalBytes(nonce) then Failure(AttestationError)
          else Success(ParsedDocument(moduleId.text, timestamp, digest.text, normalized,
                                      AsOption(publicKey), AsOption(userData), AsOption(nonce), cose))
  }

  /** A four-element list with bytes in third place is taken for a COSE_Sign1 wrapper. */
  predicate IsWrapper(v: Value) {
    v.List? && |v.items| == 4 && v.items[2].Bytes?
  }

  /** `_parse_attestation_document`. */
  function Parse(document: seq<byte>): (r: Result<ParsedDocument, Error>) {
    match DecodeAll(document)
    case Failure(e) => Failure(e)
    case Success(v) =>
      if !IsWrapper(v) then ParsePayload(v, false)
      else
        match DecodeAll(v.items[2].bytes)
        case Failure(e) => Failure(e)
        case Success(payload) => ParsePayload(payload, true)
  }

  method ParseDocument(document: seq<byte>) returns (r: Result<ParsedDocument, Error>)
    ensures r == Parse(document)
  {
    var decoded := CborDecode(document);
    if decoded.Failure? { return Failure(decoded.error); }
    var payload, cose := decoded.value, false;
    if IsWrapper(payload) {
      decoded := CborDecode(payload.items[2].bytes);
      if decoded.Failure? { return Failure(decoded.error); }
      payload, cose := decoded.value, true;
    }
    if !payload.Map? { return Failure(AttestationError); }
    var es := payload.entries;
    var moduleId, timestamp, digest, raw := Field(es, "module_id"), Field(es, "timestamp"), Field(es, "digest"),
        Field(es, "pcrs");
    if !moduleId.Text? { return Failure(AttestationError); }
    if !IsInt(timestamp) { return Failure(AttestationError); }
    if !digest.Text? { return Failure(AttestationError); }
    if !raw.Map? { return Failure(AttestationError); }

    var normalized: Dict<string, string> := [];
    for i := 0 to |raw.entries|
      invariant NormalizePcrMap(raw.entries, []) == NormalizePcrMap(raw.entries[i..], normalized)
    {
      var e := raw.entries[i];
      if !IsInt(e.key) { return Failure(AttestationError); }
      if !e.val.Bytes? { return Failure(AttestationError); }
      normalized := Put(normalized, IndexName(e.key), Hex(e.val.bytes));
    }

    var publicKey, userData, nonce := Field(es, "public_key"), Field(es, "user_data"), Field(es, "nonce");
    if !OptionalBytes(publicKey) || !OptionalBytes(userData) || !OptionalBytes(nonce) {
      return Failure(AttestationError);
    }
    r := Success(ParsedDocument(moduleId.text, timestamp, digest.text, normalized,
                                AsOption(publicKey), AsOption(userData), AsOption(nonce), cose));
  }

  // ----- the mock NSM -----

  /** A PCR map as a caller writes it: integer or text indexes, raw or hexadecimal values. */
  datatype PcrIndex = IntIndex(i: int) | TextIndex(text: string)
  datatype PcrValue = RawBytes(bytes: seq<byte>) | HexText(text: string)

  /** Python's `int(str)` and `bytes.fromhex`; `None` stands for `ValueError`. */
  datatype Library = Library(parseInt: string -> Option<int>, fromHex: string -> Option<seq<byte>>)

  predicate IsPcrLength(n: nat) {
    n == 32 || n == 48 || n == 64
  }

  /** One turn of the `_normalize_pcrs` loop; `None` stands for `AttestationError`. */
  function NormalizePcr(lib: Library, index: PcrIndex, value: PcrValue): (r: Option<(int, seq<byte>)>) {
    var i := if index.IntIndex? then Some(index.i) else lib.parseInt(index.text);
    if i.None? then None
    else
      var bs := if value.RawBytes? then Some(value.bytes) else lib.fromHex(value.text);
      if bs.None? || !IsPcrLength(|bs.value|) then None else Some((i.value, bs.value))
  }

  /** The dictionary the loop has built, or `None` as soon as an item is refused. */
  function Normalized(lib: Library, raw: seq<(PcrIndex, PcrValue)>): (r: Option<Dict<int, seq<byte>>>) {
    if raw == [] then Some([])
    else
      var n := |raw| - 1;
      var before, pcr := Normalized(lib, raw[..n]), NormalizePcr(lib, raw[n].0, raw[n].1);
      if before.None? || pcr.None? then None else Some(Put(before.value, pcr.value.0, pcr.value.1))
  }

  /** `int(i)` is this index: a text stands for the integer it parses to. */
  predicate Names(lib: Library, i: PcrIndex, index: int) {
    i == IntIndex(index) || (i.TextIndex? && lib.parseInt(i.text) == Some(index))
  }

  /** The value stands for these bytes, and there are as many of them as SHA-256, SHA-384 or SHA-512 has. */
  predicate StandsFor(lib: Library, v: PcrValue, bytes: seq<byte>) {
    (v == RawBytes(bytes) || (v.HexText? && lib.fromHex(v.text) == Some(bytes))) && |bytes| in {32, 48, 64}
  }

  /** Item `k` gives this index this value. */
  predicate Normalizes(lib: Library, raw: seq<(PcrIndex, PcrValue)>, k: nat, index: int, value: seq<byte>)
    requires k < |raw|
  {
    Names(lib, raw[k].0, index) && StandsFor(lib, raw[k].1, value)
  }

  lemma NormalizesAs(lib: Library, i: PcrIndex, v: PcrValue, index: int, value: seq<byte>)
    ensures Names(lib, i, index) && StandsFor(lib, v, value) <==> NormalizePcr(lib, i, v) == Some((index, value))
  {
  }

  lemma {:induction false} NormalizedFails(lib: Library, raw: seq<(PcrIndex, PcrValue)>, n: nat)
    requires n <= |raw| && Normalized(lib, raw[..n]).None?
    ensures Normalized(lib, raw).None?
  {
    if n < |raw| {
      assert raw[..|raw| - 1][..n] == raw[..n];
      NormalizedFails(lib, raw[..|raw| - 1], n);
    } else {
      assert raw[..n] == raw;
    }
  }

  /** `_normalize_pcrs`. */
  method NormalizePcrs(lib: Library, raw: seq<(PcrIndex, PcrValue)>) returns (r: Result<Dict<int, seq<byte>>, Error>)
    ensures var spec := Normalized(lib, raw); r == if spec.None? then Failure(AttestationError) else Success(spec.value)
  {
    var normalized: Dict<int, seq<byte>> := [];
    for n := 0 to |raw|
      invariant Normalized(lib, raw[..n]) == Some(normalized)
    {
      var pcr := NormalizePcr(lib, raw[n].0, raw[n].1);
      assert raw[..n + 1][..n] == raw[..n];
      if pcr.None? {
        NormalizedFails(lib, raw, n + 1);
        return Failure(AttestationError);
      }
      normalized := Put(normalized, pcr.value.0, pcr.value.1);
    }
    assert raw[..|raw|] == raw;
    r := Success(normalized);
  }

  /** Every item gives some index some value. */
  ghost predicate AllNormalize(lib: Library, raw: seq<(PcrIndex, PcrValue)>) {
    forall k {:trigger GivesSome(lib, raw, k)} | 0 <= k < |raw| :: GivesSome(lib, raw, k)
  }

  ghost predicate GivesSome(lib: Library, raw: seq<(PcrIndex, PcrValue)>, k: nat)
    requires k < |raw|
  {
    exists index, value :: Normalizes(lib, raw, k, index, value)
  }

  lemma GivesSomeAs(lib: Library, raw: seq<(PcrIndex, PcrValue)>, k: nat)
    requires k < |raw|
    ensures GivesSome(lib, raw, k) <==> NormalizePcr(lib, raw[k].0, raw[k].1).Some?
  {
    var pcr := NormalizePcr(lib, raw[k].0, raw[k].1);
    if pcr.Some? {
      NormalizesAs(lib, raw[k].0, raw[k].1, pcr.value.0, pcr.value.1);
      assert Normalizes(lib, raw, k, pcr.value.0, pcr.value.1);
    }
    if GivesSome(lib, raw, k) {
      var index, value :| Normalizes(lib, raw, k, index, value);
      NormalizesAs(lib, raw[k].0, raw[k].1, index, value);
    }
  }

  lemma AllNormalizeStep(lib: Library, raw: seq<(PcrIndex, PcrValue)>)
    requires raw != []
    ensures var n := |raw| - 1;
            AllNormalize(lib, raw) <==> AllNormalize(lib, raw[..n]) && NormalizePcr(lib, raw[n].0, raw[n].1).Some?
  {
    var front := raw[..|raw| - 1];
    GivesSomeAs(lib, raw, |raw| - 1);
    forall k | 0 <= k < |front| ensures GivesSome(lib, raw, k) <==> GivesSome(lib, front, k) {
      GivesSomeAs(lib, raw, k);
      GivesSomeAs(lib, front, k);
    }
  }

  lemma {:induction false} NormalizedAccepts(lib: Library, raw: seq<(PcrIndex, PcrValue)>)
    ensures Normalized(lib, raw).Some? <==> AllNormalize(lib, raw)
    ensures Normalized(lib, raw).Some? && raw != [] ==> Normalized(lib, raw).value != []
  {
    if raw != [] {
      NormalizedAccepts(lib, raw[..|raw| - 1]);
      AllNormalizeStep(lib, raw);
    }
  }

  lemma {:induction false} NormalizedLastWins(lib: Library, raw: seq<(PcrIndex, PcrValue)>)
    requires Normalized(lib, raw).Some?
    ensures IsLastWins(lib, raw, Normalized(lib, raw).value)
  {
    if raw != [] {
      var front, next := raw[..|raw| - 1], raw[|raw| - 1];
      assert front + [next] == raw;
      NormalizedLastWins(lib, front);
      PutKeepsLastWins(lib, front, next, Normalized(lib, front).value);
    }
  }

  /** Normalization fails exactly if some item does, and otherwise gives every index the value of the last item
      that names it. */
  lemma NormalizedExact(lib: Library, raw: seq<(PcrIndex, PcrValue)>)
    ensures Normalized(lib, raw).Some? <==> AllNormalize(lib, raw)
    ensures Normalized(lib, raw).Some? ==> IsLastWins(lib, raw, Normalized(lib, raw).value)
    ensures Normalized(lib, raw).Some? && raw != [] ==> Normalized(lib, raw).value != []
  {
    NormalizedAccepts(lib, raw);
    if Normalized(lib, raw).Some? { NormalizedLastWins(lib, raw); }
  }

  /** `d` has one entry per index that occurs in `raw`, with the value of its last occurrence. */
  ghost predicate IsLastWins(lib: Library, raw: seq<(PcrIndex, PcrValue)>, d: Dict<int, seq<byte>>) {
    && Unique(d)
    && (forall i | 0 <= i < |d| :: IsPcrLength(|d[i].1|))
    && (forall i | 0 <= i < |d| :: Occurs(lib, raw, d[i].0, d[i].1))
    && (forall k, index, value | 0 <= k < |raw| && IsLastFor(lib, raw, k, index, value) ::
       OrderedDict.Get(d, index) == Some(value))
  }

  ghost predicate Occurs(lib: Library, raw: seq<(PcrIndex, PcrValue)>, index: int, value: seq<byte>) {
    exists k | 0 <= k < |raw| :: IsLastFor(lib, raw, k, index, value)
  }

  /** Item `k` names `index` with this value, and no later item names it. */
  ghost predicate IsLastFor(lib: Library, raw: seq<(PcrIndex, PcrValue)>, k: nat, index: int, value: seq<byte>)
    requires k < |raw|
  {
    && Normalizes(lib, raw, k, index, value)
    && forall j, v | k < j < |raw| :: !Normalizes(lib, raw, j, index, v)
  }

  /** Being last for an index, one item later. */
  lemma LastForStep(lib: Library, raw: seq<(PcrIndex, PcrValue)>, next: (PcrIndex, PcrValue), k: nat, index: int,
                    value: seq<byte>)
    requires k < |raw| && NormalizePcr(lib, next.0, next.1).Some?
    ensures IsLastFor(lib, raw + [next], k, index, value)
            <==> IsLastFor(lib, raw, k, index, value) && NormalizePcr(lib, next.0, next.1).value.0 != index
  {
    var raw' := raw + [next];
    assert forall j, v | 0 <= j < |raw| :: Normalizes(lib, raw', j, index, v) == Normalizes(lib, raw, j, index, v);
    assert Normalizes(lib, raw', |raw|, index, NormalizePcr(lib, next.0, next.1).value.1)
           <==> NormalizePcr(lib, next.0, next.1).value.0 == index;
  }

  lemma PutKeepsLastWins(lib: Library, raw: seq<(PcrIndex, PcrValue)>, next: (PcrIndex, PcrValue),
                         d: Dict<int, seq<byte>>)
    requires IsLastWins(lib, raw, d) && NormalizePcr(lib, next.0, next.1).Some?
    ensures var (index, value) := NormalizePcr(lib, next.0, next.1).value;
            IsLastWins(lib, raw + [next], Put(d, index, value))
  {
    var (index, value) := NormalizePcr(lib, next.0, next.1).value;
    var raw', d' := raw + [next], Put(d, index, value);
    PutUnique(d, index, value);
    assert IsLastFor(lib, raw', |raw|, index, value);
    forall i | 0 <= i < |d'|
      ensures IsPcrLength(|d'[i].1|)
      ensures Occurs(lib, raw', d'[i].0, d'[i].1)
    {
      EveryEntryLast(lib, raw, next, d, i);
    }
    forall k, i, v | 0 <= k < |raw'| && IsLastFor(lib, raw', k, i, v)
      ensures Get(d', i) == Some(v)
    {
      PutLookup(d, index, value, i);
      if k < |raw| {
        LastForStep(lib, raw, next, k, i, v);
      }
    }
  }

  lemma EveryEntryLast(lib: Library, raw: seq<(PcrIndex, PcrValue)>, next: (PcrIndex, PcrValue),
                       d: Dict<int, seq<byte>>, i: nat)
    requires IsLastWins(lib, raw, d) && NormalizePcr(lib, next.0, next.1).Some?
    requires var (index, value) := NormalizePcr(lib, next.0, next.1).value;
             var d' := Put(d, index, value); Unique(d') && i < |d'|
    ensures var (index, value) := NormalizePcr(lib, next.0, next.1).value;
            var d', raw' := Put(d, index, value), raw + [next];
            && IsPcrLength(|d'[i].1|)
            && Occurs(lib, raw', d'[i].0, d'[i].1)
  {
    var (index, value) := NormalizePcr(lib, next.0, next.1).value;
    var d', raw' := Put(d, index, value), raw + [next];
    GetAt(d', i);
    PutLookup(d, index, value, d'[i].0);
    if d'[i].0 == index {
      assert IsLastFor(lib, raw', |raw|, index, value);
    } else {
      var j :| 0 <= j < |d| && d[j] == d'[i];
      var k :| 0 <= k < |raw| && IsLastFor(lib, raw, k, d[j].0, d[j].1);
      LastForStep(lib, raw, next, k, d[j].0, d[j].1);
      assert IsLastFor(lib, raw', k, d'[i].0, d'[i].1);
    }
  }

  // ----- the order of the indexes -----

  /** Item `k` is the first that names this index. */
  predicate IsFirstFor(lib: Library, raw: seq<(PcrIndex, PcrValue)>, index: int, k: nat) {
    k < |raw| && Names(lib, raw[k].0, index) && forall j | 0 <= j < k :: !Names(lib, raw[j].0, index)
  }

  ghost predicate NoIndexMissing(lib: Library, raw: seq<(PcrIndex, PcrValue)>, d: Dict<int, seq<byte>>) {
    forall j, index {:trigger Names(lib, raw[j].0, index)} | 0 <= j < |raw| && Names(lib, raw[j].0, index) ::
      Has(d, index)
  }

  predicate Increasing(at: seq<nat>) {
    forall i, j | 0 <= i < j < |at| :: at[i] < at[j]
  }

  /** Index number `i` of `d` is named first by item `at[i]`, and these come in the same order. */
  predicate IndexesOfFirsts(lib: Library, raw: seq<(PcrIndex, PcrValue)>, d: Dict<int, seq<byte>>, at: seq<nat>) {
    && |at| == |d| && Increasing(at)
    && forall i {:trigger IsFirstFor(lib, raw, d[i].0, at[i])} | 0 <= i < |d| :: IsFirstFor(lib, raw, d[i].0, at[i])
  }

  lemma FirstForStays(lib: Library, raw: seq<(PcrIndex, PcrValue)>, next: (PcrIndex, PcrValue), index: int, k: nat)
    requires IsFirstFor(lib, raw, index, k)
    ensures IsFirstFor(lib, raw + [next], index, k)
  {
    assert forall j | 0 <= j < |raw| :: (raw + [next])[j] == raw[j];
  }

  lemma NewIndexIsFirst(lib: Library, raw: seq<(PcrIndex, PcrValue)>, next: (PcrIndex, PcrValue), index: int,
                        d: Dict<int, seq<byte>>)
    requires NoIndexMissing(lib, raw, d) && !Has(d, index) && Names(lib, next.0, index)
    ensures IsFirstFor(lib, raw + [next], index, |raw|)
  {
    forall j | 0 <= j < |raw| ensures !Names(lib, (raw + [next])[j].0, index) {
      assert (raw + [next])[j] == raw[j];
      assert Names(lib, raw[j].0, index) ==> Has(d, index);
    }
  }

  lemma LaterStill(lib: Library, raw: seq<(PcrIndex, PcrValue)>, d: Dict<int, seq<byte>>, at: seq<nat>)
    requires IndexesOfFirsts(lib, raw, d, at)
    ensures Increasing(at + [|raw|])
  {
    forall i | 0 <= i < |at| ensures at[i] < |raw| {
      assert IsFirstFor(lib, raw, d[i].0, at[i]);
    }
  }

  /** One more item: the same indexes in the same order, and a new one last. */
  lemma IndexesStay(lib: Library, raw: seq<(PcrIndex, PcrValue)>, next: (PcrIndex, PcrValue), d: Dict<int, seq<byte>>,
                    at: seq<nat>, d': Dict<int, seq<byte>>) returns (at': seq<nat>)
    requires IndexesOfFirsts(lib, raw, d, at) && |d| <= |d'| <= |d| + 1
    requires forall i | 0 <= i < |d| :: d'[i].0 == d[i].0
    requires |d'| > |d| ==> IsFirstFor(lib, raw + [next], d'[|d|].0, |raw|)
    ensures IndexesOfFirsts(lib, raw + [next], d', at')
  {
    at' := if |d'| > |d| then at + [|raw|] else at;
    LaterStill(lib, raw, d, at);
    forall i | 0 <= i < |d'| ensures IsFirstFor(lib, raw + [next], d'[i].0, at'[i]) {
      if i < |d| {
        assert IsFirstFor(lib, raw, d[i].0, at[i]);
        FirstForStays(lib, raw, next, d[i].0, at[i]);
      }
    }
  }

  lemma StillNoneMissing(lib: Library, raw: seq<(PcrIndex, PcrValue)>, next: (PcrIndex, PcrValue), index: int,
                         value: seq<byte>, d: Dict<int, seq<byte>>)
    requires NoIndexMissing(lib, raw, d) && Names(lib, next.0, index)
    ensures NoIndexMissing(lib, raw + [next], Put(d, index, value))
  {
    var raw' := raw + [next];
    forall j, x | 0 <= j < |raw'| && Names(lib, raw'[j].0, x) ensures Has(Put(d, index, value), x) {
      PutLookup(d, index, value, x);
      if j < |raw| { assert Names(lib, raw[j].0, x); }
    }
  }

  /** The normalized dictionary keeps the order in which the indexes are first named. */
  lemma {:induction false} NormalizedInOrder(lib: Library, raw: seq<(PcrIndex, PcrValue)>)
      returns (d: Dict<int, seq<byte>>, at: seq<nat>)
    requires Normalized(lib, raw).Some?
    ensures d == Normalized(lib, raw).value && Unique(d)
    ensures IndexesOfFirsts(lib, raw, d, at) && NoIndexMissing(lib, raw, d)
  {
    if raw == [] {
      d, at := [], [];
    } else {
      var front, next := raw[..|raw| - 1], raw[|raw| - 1];
      assert front + [next] == raw;
      var before, earlier := NormalizedInOrder(lib, front);
      var (index, value) := NormalizePcr(lib, next.0, next.1).value;
      NormalizesAs(lib, next.0, next.1, index, value);
      d := Put(before, index, value);
      PutUnique(before, index, value);
      PutExactly(before, index, value);
      if |d| > |before| { NewIndexIsFirst(lib, front, next, index, before); }
      at := IndexesStay(lib, front, next, before, earlier, d);
      StillNoneMissing(lib, front, next, index, value, before);
    }
  }

  /** `MockNSM` after construction. */
  datatype MockNsm = MockNsm(
    pcrs: Dict<int, seq<byte>>,
    moduleId: string,
    timestamp: Option<int>,
    digest: string,
    certificate: seq<byte>,
    cabundle: seq<seq<byte>>)

  const MOCK_CERTIFICATE := "mock-certificate"
  const MOCK_CA := "mock-ca"
  const MOCK_SIGNATURE := "mock-signature"

  /** The bytes as given, or the mock's own if they are empty. */
  function OrMock(given: seq<byte>, mock: string): (bs: seq<byte>)
    ensures given != [] ==> bs == given
    ensures given == [] ==> bs == Utf8.Encode(mock)
  {
    if given == [] then Utf8.Encode(mock) else given
  }

  /** `MockNSM.__init__`: raises exactly if some PCR is refused. Otherwise the object holds every PCR with the last
      value given for its index, or the default one as PCR 0 if there is none; the names as given; and the certificate
      and bundle as given, or the mock's own for empty ones. */
  method NewMockNsm(lib: Library, pcrs: seq<(PcrIndex, PcrValue)>, moduleId: string, timestamp: Option<int>,
                    digest: string, certificate: seq<byte>, cabundle: seq<seq<byte>>, defaultPcr0: string)
    returns (r: Result<MockNsm, Error>)
    ensures r.Failure? ==> r.error == AttestationError
    ensures pcrs != [] ==> (r.Success? <==> AllNormalize(lib, pcrs))
    ensures pcrs != [] && r.Success? ==> HoldsPcrs(lib, pcrs, r.value.pcrs)
    ensures pcrs == [] ==>
              (r.Success? <==> exists bytes :: StandsFor(lib, HexText(defaultPcr0), bytes))
    ensures pcrs == [] && r.Success? ==> Some(r.value.pcrs) == OnlyPcr0(lib.fromHex(defaultPcr0))
    ensures r.Success? ==> r.value.moduleId == moduleId && r.value.timestamp == timestamp && r.value.digest == digest
    ensures r.Success? ==> r.value.certificate == OrMock(certificate, MOCK_CERTIFICATE)
    ensures r.Success? && cabundle != [] ==> r.value.cabundle == cabundle
    ensures r.Success? && cabundle == [] ==> r.value.cabundle == [OrMock([], MOCK_CA)]
  {
    var raw := if pcrs == [] then [(IntIndex(0), HexText(defaultPcr0))] else pcrs;
    var normalized := NormalizePcrs(lib, raw);
    ConfiguredPcrs(lib, raw);
    if pcrs == [] { DefaultPcr(lib, defaultPcr0); }
    if normalized.Failure? { return Failure(normalized.error); }
    var theCertificate := OrMock(certificate, MOCK_CERTIFICATE);
    var theBundle := if cabundle == [] then [OrMock([], MOCK_CA)] else cabundle;
    r := Success(MockNsm(normalized.value, moduleId, timestamp, digest, theCertificate, theBundle));
  }

  /** A dictionary of one PCR, number 0. */
  function OnlyPcr0(value: Option<seq<byte>>): Option<Dict<int, seq<byte>>> {
    if value.None? then None else Some([(0, value.value)])
  }

  lemma DefaultPcr(lib: Library, hex: string)
    ensures var n := Normalized(lib, [(IntIndex(0), HexText(hex))]);
            && (n.Some? <==> exists bytes :: StandsFor(lib, HexText(hex), bytes))
            && (n.Some? ==> n == OnlyPcr0(lib.fromHex(hex)))
  {
    var raw := [(IntIndex(0), HexText(hex))];
    assert raw[..0] == [];
    var pcr := NormalizePcr(lib, IntIndex(0), HexText(hex));
    if pcr.Some? { NormalizesAs(lib, IntIndex(0), HexText(hex), 0, pcr.value.1); }
    forall bytes | StandsFor(lib, HexText(hex), bytes) ensures pcr.Some? {
      NormalizesAs(lib, IntIndex(0), HexText(hex), 0, bytes);
    }
  }

  /** The PCRs of a mock are never empty, and are what normalization makes of the raw ones. */
  ghost predicate HoldsPcrs(lib: Library, raw: seq<(PcrIndex, PcrValue)>, pcrs: Dict<int, seq<byte>>) {
    pcrs != [] && Normalized(lib, raw) == Some(pcrs) && IsLastWins(lib, raw, pcrs)
  }

  lemma ConfiguredPcrs(lib: Library, raw: seq<(PcrIndex, PcrValue)>)
    requires raw != []
    ensures Normalized(lib, raw).Some? <==> AllNormalize(lib, raw)
    ensures Normalized(lib, raw).Some? ==> HoldsPcrs(lib, raw, Normalized(lib, raw).value)
  {
    NormalizedExact(lib, raw);
  }

  /** The optional arguments of `get_attestation_document`. */
  datatype Extras = Extras(publicKey: Option<seq<byte>>, userData: Option<seq<byte>>, nonce: Option<seq<byte>>)

  /** `self._timestamp_ms or` the clock. */
  function Timestamp(nsm: MockNsm, now: int): int {
    if nsm.timestamp.Some? && nsm.timestamp.value != 0 then nsm.timestamp.value else now
  }

  function PcrEntries(pcrs: Dict<int, seq<byte>>): (es: seq<Entry>)
    ensures |es| == |pcrs|
    ensures forall i | 0 <= i < |es| :: es[i] == Entry(Int(pcrs[i].0), Bytes(pcrs[i].1))
  {
    seq(|pcrs|, i requires 0 <= i < |pcrs| => Entry(Int(pcrs[i].0), Bytes(pcrs[i].1)))
  }

  function ByteItems(bundle: seq<seq<byte>>): (vs: seq<Value>)
    ensures |vs| == |bundle| && forall i | 0 <= i < |vs| :: vs[i] == Bytes(bundle[i])
  {
    seq(|bundle|, i requires 0 <= i < |bundle| => Bytes(bundle[i]))
  }

  function OptionalField(name: string, field: Option<seq<byte>>): seq<Entry> {
    if field.Some? then [Entry(Text(name), Bytes(field.value))] else []
  }

  function MandatoryFields(nsm: MockNsm, now: int): (es: seq<Entry>) {
    [ Entry(Text("module_id"), Text(nsm.moduleId)),
      Entry(Text("timestamp"), Int(Timestamp(nsm, now))),
      Entry(Text("digest"), Text(nsm.digest)),
      Entry(Text("pcrs"), Map(PcrEntries(nsm.pcrs))),
      Entry(Text("certificate"), Bytes(nsm.certificate)),
      Entry(Text("cabundle"), List(ByteItems(nsm.cabundle))) ]
  }

  function OptionalFields(extras: Extras): (es: seq<Entry>) {
    OptionalField("public_key", extras.publicKey)
    + (OptionalField("user_data", extras.userData) + OptionalField("nonce", extras.nonce))
  }

  function Payload(nsm: MockNsm, now: int, extras: Extras): (v: Value) {
    Map(MandatoryFields(nsm, now) + OptionalFields(extras))
  }

  function Wrapper(payload: seq<byte>): Value {
    List([Bytes([]), Map([]), Bytes(payload), Bytes(Utf8.Encode(MOCK_SIGNATURE))])
  }

  /** `MockNSM.get_attestation_document`: the encoded payload inside an encoded wrapper. */
  function Document(nsm: MockNsm, now: int, extras: Extras): (bs: seq<byte>)
    requires Encodable(Payload(nsm, now, extras)) && Encodable(Wrapper(Encode(Payload(nsm, now, extras))))
  {
    Encode(Wrapper(Encode(Payload(nsm, now, extras))))
  }

  const FIELD_NAMES: seq<string> := ["module_id", "timestamp", "digest", "pcrs", "certificate", "cabundle",
                                     "public_key", "user_data", "nonce"]

  lemma FieldNamesDistinct()
    ensures forall i, j | 0 <= i < j < 9 :: FIELD_NAMES[i] != FIELD_NAMES[j]
  {
    assert "module_id"[0] == 'm' && "timestamp"[0] == 't' && "user_data"[0] == 'u';
  }

  /** An optional argument is put into the payload only when it is given, and then behind everything else. */
  method AddOptional(payload: seq<Entry>, name: string, field: Option<seq<byte>>) returns (r: seq<Entry>)
    requires forall e | e in payload :: e.key != Text(name)
    ensures r == payload + OptionalField(name, field)
  {
    r := payload;
    if field.Some? {
      SetItemAppends(payload, Text(name), Bytes(field.value));
      r := SetItem(payload, Text(name), Bytes(field.value));
    }
  }

  lemma MandatoryKeys(nsm: MockNsm, now: int, i: nat)
    requires 6 <= i < 9
    ensures forall e | e in MandatoryFields(nsm, now) :: e.key != Text(FIELD_NAMES[i])
  {
    FieldNamesDistinct();
    var es := MandatoryFields(nsm, now);
    assert forall k | 0 <= k < 6 :: es[k].key == Text(FIELD_NAMES[k]);
  }

  /** The dictionary of `get_attestation_document`, field by field. */
  method AssemblePayload(nsm: MockNsm, now: int, extras: Extras) returns (payload: seq<Entry>)
    ensures Map(payload) == Payload(nsm, now, extras)
  {
    FieldNamesDistinct();
    MandatoryKeys(nsm, now, 6);
    MandatoryKeys(nsm, now, 7);
    MandatoryKeys(nsm, now, 8);
    ghost var mandatory := MandatoryFields(nsm, now);
    payload := MandatoryFields(nsm, now);
    payload := AddOptional(payload, FIELD_NAMES[6], extras.publicKey);
    payload := AddOptional(payload, FIELD_NAMES[7], extras.userData);
    payload := AddOptional(payload, FIELD_NAMES[8], extras.nonce);
    assert payload == mandatory + OptionalFields(extras);
  }

  /** `MockNSM.get_attestation_document`. */
  method GetAttestationDocument(nsm: MockNsm, now: int, extras: Extras) returns (bs: seq<byte>)
    requires Encodable(Payload(nsm, now, extras)) && Encodable(Wrapper(Encode(Payload(nsm, now, extras))))
    ensures bs == Document(nsm, now, extras)
  {
    var payload := AssemblePayload(nsm, now, extras);
    bs := Encode(Wrapper(Encode(Map(payload))));
  }

  /** Every number and length of the configuration fits the 64 bits of a CBOR header. */
  predicate Fits(nsm: MockNsm, now: int, extras: Extras) {
    && Unique(nsm.pcrs) && |nsm.pcrs| < TWO_TO_64
    && (forall i | 0 <= i < |nsm.pcrs| :: Encodable(Int(nsm.pcrs[i].0)) && Encodable(Bytes(nsm.pcrs[i].1)))
    && Encodable(Int(Timestamp(nsm, now))) && Encodable(Text(nsm.moduleId)) && Encodable(Text(nsm.digest))
    && Encodable(Bytes(nsm.certificate)) && |nsm.cabundle| < TWO_TO_64
    && (forall bs | bs in nsm.cabundle :: Encodable(Bytes(bs)))
    && (extras.publicKey.Some? ==> Encodable(Bytes(extras.publicKey.value)))
    && (extras.userData.Some? ==> Encodable(Bytes(extras.userData.value)))
    && (extras.nonce.Some? ==> Encodable(Bytes(extras.nonce.value)))
  }
}
