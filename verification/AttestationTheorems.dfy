/** The mock document and the parser agree, and the parser's PCR map loses nothing. */
module AttestationTheorems {
  import opened Bytes
  import opened Results
  import opened CborValue
  import opened CborDecoder
  import opened CborTheorems
  import opened OrderedDict
  import opened Rendering
  import opened Attestation
  import Utf8

  // ----- the PCR map -----

  predicate AllPcrs(es: seq<Entry>) {
    forall e | e in es :: IsInt(e.key) && e.val.Bytes?
  }

  function Rendered(es: seq<Entry>): (d: Dict<string, string>)
    requires AllPcrs(es)
    ensures |d| == |es|
    ensures forall i | 0 <= i < |d| :: d[i] == (IndexName(es[i].key), Hex(es[i].val.bytes))
  {
    seq(|es|, i requires 0 <= i < |es| => assert es[i] in es; (IndexName(es[i].key), Hex(es[i].val.bytes)))
  }

  /** Two PCR indexes with the same name are the same dictionary key: no two indexes collide. */
  lemma IndexNamesDiffer(k: Value, k': Value)
    requires IsInt(k) && IsInt(k') && IndexName(k) == IndexName(k')
    ensures SameKey(k, k')
  {
    if k.Int? && k'.Int? {
      DecimalRoundTrip(k.i);
      DecimalRoundTrip(k'.i);
    } else if k.Bool? && k'.Bool? {
      assert "True"[0] != "False"[0];
    }
  }

  ghost predicate FreshNames(es: seq<Entry>, acc: Dict<string, string>) {
    forall e | e in es :: IsInt(e.key) ==> !Has(acc, IndexName(e.key))
  }

  function Item(e: Entry): (string, string)
    requires IsInt(e.key) && e.val.Bytes?
  {
    (IndexName(e.key), Hex(e.val.bytes))
  }

  /** One turn of the loop on a good item. */
  lemma NormalizeStep(es: seq<Entry>, acc: Dict<string, string>)
    requires es != [] && IsInt(es[0].key) && es[0].val.Bytes?
    requires DistinctKeys(es) && Unique(acc) && FreshNames(es, acc)
    ensures NormalizePcrMap(es, acc) == NormalizePcrMap(es[1..], acc + [Item(es[0])])
    ensures DistinctKeys(es[1..]) && Unique(acc + [Item(es[0])]) && FreshNames(es[1..], acc + [Item(es[0])])
  {
    assert es[0] in es;
    assert !Has(acc, Item(es[0]).0);
    PutAbsent(acc, Item(es[0]).0, Item(es[0]).1);
    forall e | e in es[1..] && IsInt(e.key) ensures !Has(acc + [Item(es[0])], IndexName(e.key)) {
      var j :| 0 <= j < |es[1..]| && es[1..][j] == e;
      assert !SameKey(es[0].key, es[j + 1].key);
      if IndexName(e.key) == IndexName(es[0].key) { IndexNamesDiffer(es[0].key, e.key); }
      assert e in es;
      assert !Has(acc, IndexName(e.key));
    }
  }

  lemma AllPcrsStep(es: seq<Entry>)
    requires es != []
    ensures AllPcrs(es) <==> IsInt(es[0].key) && es[0].val.Bytes? && AllPcrs(es[1..])
    ensures AllPcrs(es) ==> Rendered(es) == [Item(es[0])] + Rendered(es[1..])
  {
    assert es[0] in es;
  }

  lemma RenderedStep(es: seq<Entry>, acc: Dict<string, string>)
    requires es != [] && AllPcrs(es)
    ensures AllPcrs(es[1..]) && acc + [Item(es[0])] + Rendered(es[1..]) == acc + Rendered(es)
  {
    AllPcrsStep(es);
    assert acc + [Item(es[0])] + Rendered(es[1..]) == acc + ([Item(es[0])] + Rendered(es[1..]));
  }

  ghost predicate NormalizesTo(es: seq<Entry>, acc: Dict<string, string>) {
    if AllPcrs(es) then NormalizePcrMap(es, acc) == Success(acc + Rendered(es)) && Unique(acc + Rendered(es))
    else NormalizePcrMap(es, acc) == Failure(AttestationError)
  }

  lemma {:induction false} NormalizeOnTop(es: seq<Entry>, acc: Dict<string, string>)
    requires DistinctKeys(es) && Unique(acc) && FreshNames(es, acc)
    ensures NormalizesTo(es, acc)
  {
    if es == [] {
      assert acc + Rendered(es) == acc;
    } else {
      AllPcrsStep(es);
      if IsInt(es[0].key) && es[0].val.Bytes? {
        NormalizeStep(es, acc);
        NormalizeOnTop(es[1..], acc + [Item(es[0])]);
        if AllPcrs(es) { RenderedStep(es, acc); }
      }
    }
  }

  /** The parser accepts a PCR map exactly if every index is an integer and every value is bytes; it then
      keeps every PCR, in order, under its decimal name and in lower-case hexadecimal, with no two alike. */
  lemma PcrMapExact(es: seq<Entry>)
    requires DistinctKeys(es)
    ensures NormalizePcrMap(es, []).Success? <==> AllPcrs(es)
    ensures AllPcrs(es) ==> NormalizePcrMap(es, []) == Success(Rendered(es)) && Unique(Rendered(es))
  {
    NormalizeOnTop(es, []);
    if AllPcrs(es) {
      assert [] + Rendered(es) == Rendered(es);
    }
  }

  // ----- reading fields -----

  lemma {:induction false} FieldAt(es: seq<Entry>, i: nat, k: string)
    requires DistinctKeys(es) && i < |es| && es[i].key == Text(k)
    ensures Field(es, k) == es[i].val
  {
    if i > 0 {
      assert !SameKey(es[0].key, es[i].key);
      FieldAt(es[1..], i - 1, k);
    }
  }

  lemma {:induction false} FieldAppend(es: seq<Entry>, fs: seq<Entry>, k: string)
    requires forall e | e in es :: e.key != Text(k)
    ensures Field(es + fs, k) == Field(fs, k)
  {
    if es == [] {
      assert es + fs == fs;
    } else {
      assert es[0] in es;
      assert (es + fs)[1..] == es[1..] + fs;
      FieldAppend(es[1..], fs, k);
    }
  }

  // ----- the mock document -----

  lemma OptionalFieldsRead(x: Extras)
    ensures var fs := OptionalFields(x);
            && Field(fs, "public_key") == (if x.publicKey.Some? then Bytes(x.publicKey.value) else Null)
            && Field(fs, "user_data") == (if x.userData.Some? then Bytes(x.userData.value) else Null)
            && Field(fs, "nonce") == (if x.nonce.Some? then Bytes(x.nonce.value) else Null)
  {
    var pk, ud, n := OptionalField("public_key", x.publicKey), OptionalField("user_data", x.userData),
        OptionalField("nonce", x.nonce);
    FieldAppend(pk, ud + n, "user_data");
    FieldAppend(pk, ud + n, "nonce");
    FieldAppend(ud, n, "nonce");
    if x.publicKey.None? {
      FieldAppend(pk, ud + n, "public_key");
      FieldAppend(ud, n, "public_key");
    }
    if x.userData.None? {
      FieldAppend(ud, n, "user_data");
    }
  }

  lemma OptionalFieldsKeys(x: Extras)
    ensures var fs := OptionalFields(x);
            && DistinctKeys(fs) && |fs| <= 3
            && forall f | f in fs ::
                   f.key == Text(FIELD_NAMES[6]) || f.key == Text(FIELD_NAMES[7])
                   || f.key == Text(FIELD_NAMES[8])
  {
    FieldNamesDistinct();
  }

  lemma JoinDistinct(es: seq<Entry>, fs: seq<Entry>)
    requires DistinctKeys(es) && DistinctKeys(fs)
    requires forall e, f | e in es && f in fs :: !SameKey(e.key, f.key)
    ensures DistinctKeys(es + fs)
  {
  }

  lemma NamedKeysDistinct(es: seq<Entry>)
    requires |es| <= 9 && forall i | 0 <= i < |es| :: es[i].key == Text(FIELD_NAMES[i])
    ensures DistinctKeys(es)
  {
    FieldNamesDistinct();
  }

  /** No optional field has the key of a mandatory one. */
  lemma OptionalKeysDiffer(nsm: MockNsm, now: int, x: Extras, f: Entry)
    requires f in OptionalFields(x)
    ensures forall e | e in MandatoryFields(nsm, now) :: !SameKey(e.key, f.key)
  {
    OptionalFieldsKeys(x);
    var i: nat :| 6 <= i < 9 && f.key == Text(FIELD_NAMES[i]);
    MandatoryKeys(nsm, now, i);
  }

  lemma PayloadKeys(nsm: MockNsm, now: int, x: Extras)
    ensures DistinctKeys(Payload(nsm, now, x).entries)
  {
    OptionalFieldsKeys(x);
    NamedKeysDistinct(MandatoryFields(nsm, now));
    forall f | f in OptionalFields(x) ensures forall e | e in MandatoryFields(nsm, now) :: !SameKey(e.key, f.key) {
      OptionalKeysDiffer(nsm, now, x, f);
    }
    JoinDistinct(MandatoryFields(nsm, now), OptionalFields(x));
  }

  lemma PcrEntriesAreADict(pcrs: Dict<int, seq<byte>>)
    requires Unique(pcrs)
    ensures DistinctKeys(PcrEntries(pcrs)) && AllPcrs(PcrEntries(pcrs))
  {
    var es := PcrEntries(pcrs);
    forall i, j | 0 <= i < j < |es| ensures !SameKey(es[i].key, es[j].key) {
      assert pcrs[i].0 != pcrs[j].0;
    }
  }

  lemma {:induction false} ShortTextFits(s: string)
    ensures |Utf8.Encode(s)| <= 4 * |s|
  {
    if s != "" {
      ShortTextFits(s[1..]);
    }
  }

  lemma FieldNamesEncodable()
    ensures forall i | 0 <= i < 9 :: Encodable(Text(FIELD_NAMES[i]))
  {
    forall i | 0 <= i < 9 ensures Encodable(Text(FIELD_NAMES[i])) {
      ShortTextFits(FIELD_NAMES[i]);
    }
  }

  lemma PcrMapEncodable(pcrs: Dict<int, seq<byte>>)
    requires Unique(pcrs) && |pcrs| < TWO_TO_64
    requires forall i | 0 <= i < |pcrs| :: Encodable(Int(pcrs[i].0)) && Encodable(Bytes(pcrs[i].1))
    ensures Encodable(Map(PcrEntries(pcrs)))
  {
    PcrEntriesAreADict(pcrs);
    var es := PcrEntries(pcrs);
    forall e | e in es ensures EncodableEntry(e) {
      var i :| 0 <= i < |es| && es[i] == e;
    }
  }

  lemma BundleEncodable(bundle: seq<seq<byte>>)
    requires |bundle| < TWO_TO_64 && forall bs | bs in bundle :: Encodable(Bytes(bs))
    ensures Encodable(List(ByteItems(bundle)))
  {
    var vs := ByteItems(bundle);
    forall v | v in vs ensures Encodable(v) {
      var i :| 0 <= i < |vs| && vs[i] == v;
      assert bundle[i] in bundle;
    }
  }

  lemma MandatoryValuesEncodable(nsm: MockNsm, now: int, x: Extras)
    requires Fits(nsm, now, x)
    ensures forall i | 0 <= i < 6 :: Encodable(MandatoryFields(nsm, now)[i].val)
  {
    PcrMapEncodable(nsm.pcrs);
    BundleEncodable(nsm.cabundle);
  }

  lemma MandatoryEncodable(nsm: MockNsm, now: int, x: Extras)
    requires Fits(nsm, now, x)
    ensures forall e | e in MandatoryFields(nsm, now) :: EncodableEntry(e)
  {
    FieldNamesEncodable();
    MandatoryValuesEncodable(nsm, now, x);
    var es := MandatoryFields(nsm, now);
    forall e | e in es ensures EncodableEntry(e) {
      var i :| 0 <= i < 6 && es[i] == e;
      KeyedEntryEncodable(e, i);
    }
  }

  lemma KeyedEntryEncodable(e: Entry, i: nat)
    requires i < 9 && e.key == Text(FIELD_NAMES[i]) && Encodable(e.val)
    ensures EncodableEntry(e)
  {
    FieldNamesEncodable();
    assert Encodable(Text(FIELD_NAMES[i]));
    assert e == Entry(Text(FIELD_NAMES[i]), e.val);
  }

  lemma OptionalEncodable(nsm: MockNsm, now: int, x: Extras)
    requires Fits(nsm, now, x)
    ensures forall e | e in OptionalFields(x) :: EncodableEntry(e)
  {
    forall e | e in OptionalFields(x) ensures EncodableEntry(e) {
      if e in OptionalField("public_key", x.publicKey) { KeyedEntryEncodable(e, 6); }
      else if e in OptionalField("user_data", x.userData) { KeyedEntryEncodable(e, 7); }
      else { KeyedEntryEncodable(e, 8); }
    }
  }

  lemma {:induction false} PayloadEncodable(nsm: MockNsm, now: int, x: Extras)
    requires Fits(nsm, now, x)
    ensures Encodable(Payload(nsm, now, x))
  {
    PayloadKeys(nsm, now, x);
    MandatoryEncodable(nsm, now, x);
    OptionalEncodable(nsm, now, x);
    OptionalFieldsKeys(x);
  }

  lemma {:induction false} WrapperEncodable(payload: seq<byte>)
    requires |payload| < TWO_TO_64
    ensures Encodable(Wrapper(payload))
  {
    ShortTextFits(MOCK_SIGNATURE);
    FourItems(payload, Utf8.Encode(MOCK_SIGNATURE));
  }

  lemma FourItems(payload: seq<byte>, signature: seq<byte>)
    requires |payload| < TWO_TO_64 && |signature| < TWO_TO_64
    ensures Encodable(List([Bytes([]), Map([]), Bytes(payload), Bytes(signature)]))
  {
    assert Encodable(Map([]));
  }

  lemma MandatoryFieldsRead(nsm: MockNsm, now: int, x: Extras)
    ensures var es := Payload(nsm, now, x).entries;
            && Field(es, "module_id") == Text(nsm.moduleId)
            && Field(es, "timestamp") == Int(Timestamp(nsm, now))
            && Field(es, "digest") == Text(nsm.digest)
            && Field(es, "pcrs") == Map(PcrEntries(nsm.pcrs))
  {
    PayloadKeys(nsm, now, x);
    var es := Payload(nsm, now, x).entries;
    FieldAt(es, 0, "module_id");
    FieldAt(es, 1, "timestamp");
    FieldAt(es, 2, "digest");
    FieldAt(es, 3, "pcrs");
  }

  lemma PayloadReadsOptional(nsm: MockNsm, now: int, x: Extras)
    ensures var es, fs := Payload(nsm, now, x).entries, OptionalFields(x);
            && Field(es, "public_key") == Field(fs, "public_key")
            && Field(es, "user_data") == Field(fs, "user_data")
            && Field(es, "nonce") == Field(fs, "nonce")
  {
    FieldNamesDistinct();
    var es := MandatoryFields(nsm, now);
    assert forall i | 0 <= i < 6 :: es[i].key == Text(FIELD_NAMES[i]);
    FieldAppend(es, OptionalFields(x), FIELD_NAMES[6]);
    FieldAppend(es, OptionalFields(x), FIELD_NAMES[7]);
    FieldAppend(es, OptionalFields(x), FIELD_NAMES[8]);
  }

  /** The field checks pass on a payload whose seven fields read like this. */
  lemma ParsePayloadFrom(es: seq<Entry>, pcrs: seq<Entry>, p: ParsedDocument)
    requires Field(es, "module_id") == Text(p.moduleId) && Field(es, "timestamp") == p.timestamp && IsInt(p.timestamp)
    requires Field(es, "digest") == Text(p.digest) && Field(es, "pcrs") == Map(pcrs)
    requires NormalizePcrMap(pcrs, []) == Success(p.pcrs)
    requires Field(es, "public_key") == (if p.publicKey.Some? then Bytes(p.publicKey.value) else Null)
    requires Field(es, "user_data") == (if p.userData.Some? then Bytes(p.userData.value) else Null)
    requires Field(es, "nonce") == (if p.nonce.Some? then Bytes(p.nonce.value) else Null)
    ensures ParsePayload(Map(es), p.isCoseSign1) == Success(p)
  {
  }

  lemma ParsePayloadOfMock(nsm: MockNsm, now: int, x: Extras, cose: bool)
    requires Unique(nsm.pcrs) && AllPcrs(PcrEntries(nsm.pcrs))
    ensures ParsePayload(Payload(nsm, now, x), cose) == Success(Expected(nsm, Timestamp(nsm, now), x, cose))
  {
    PcrEntriesAreADict(nsm.pcrs);
    PcrMapExact(PcrEntries(nsm.pcrs));
    MandatoryFieldsRead(nsm, now, x);
    OptionalFieldsRead(x);
    PayloadReadsOptional(nsm, now, x);
    ParsePayloadFrom(Payload(nsm, now, x).entries, PcrEntries(nsm.pcrs), Expected(nsm, Timestamp(nsm, now), x, cose));
  }

  /** What a reader of the document should learn: the configuration, with the PCRs rendered, and this timestamp. */
  function Expected(nsm: MockNsm, time: int, x: Extras, cose: bool): (p: ParsedDocument)
    requires AllPcrs(PcrEntries(nsm.pcrs))
  {
    ParsedDocument(nsm.moduleId, Int(time), nsm.digest, Rendered(PcrEntries(nsm.pcrs)),
                   x.publicKey, x.userData, x.nonce, cose)
  }

  /** A configured timestamp is written; one that is missing or zero gives way to the clock. */
  predicate WrittenTime(nsm: MockNsm, now: int, time: int) {
    (nsm.timestamp == Some(time) && time != 0) || (nsm.timestamp in {None, Some(0)} && time == now)
  }

  /** Parsing a mock document gives back the whole configuration: module, timestamp, digest, every PCR,
      and the three optional fields with absent and empty kept apart. */
  lemma {:induction false} DocumentRoundTrip(nsm: MockNsm, now: int, x: Extras, time: int)
    requires Fits(nsm, now, x) && WrittenTime(nsm, now, time)
    ensures AllPcrs(PcrEntries(nsm.pcrs)) && Unique(Rendered(PcrEntries(nsm.pcrs)))
    ensures Encodable(Payload(nsm, now, x))
    ensures |Encode(Payload(nsm, now, x))| < TWO_TO_64 ==>
              && Encodable(Wrapper(Encode(Payload(nsm, now, x))))
              && Parse(Document(nsm, now, x)) == Success(Expected(nsm, time, x, true))
  {
    PayloadEncodable(nsm, now, x);
    PcrEntriesAreADict(nsm.pcrs);
    PcrMapExact(PcrEntries(nsm.pcrs));
    var payload := Payload(nsm, now, x);
    if |Encode(payload)| < TWO_TO_64 {
      ParsePayloadOfMock(nsm, now, x, true);
      WrapperEncodable(Encode(payload));
      ParseWrapped(payload);
    }
  }

  /** The payload alone, without a wrapper, parses to the same, except that it is not taken for COSE_Sign1. */
  lemma {:induction false} BarePayload(nsm: MockNsm, now: int, x: Extras, time: int)
    requires Fits(nsm, now, x) && WrittenTime(nsm, now, time)
    ensures Encodable(Payload(nsm, now, x)) && AllPcrs(PcrEntries(nsm.pcrs))
    ensures Parse(Encode(Payload(nsm, now, x))) == Success(Expected(nsm, time, x, false))
  {
    PayloadEncodable(nsm, now, x);
    PcrEntriesAreADict(nsm.pcrs);
    ParsePayloadOfMock(nsm, now, x, false);
    RoundTrip(Payload(nsm, now, x));
  }

  /** The fields of a payload, in their order, the optional ones when they are given. */
  ghost predicate IsPayloadOf(es: seq<Entry>, nsm: MockNsm, time: int, x: Extras) {
    && |es| >= 6
    && es[0] == Entry(Text("module_id"), Text(nsm.moduleId))
    && es[1] == Entry(Text("timestamp"), Int(time))
    && es[2] == Entry(Text("digest"), Text(nsm.digest))
    && es[3].key == Text("pcrs") && IsPcrMap(es[3].val, nsm.pcrs)
    && es[4] == Entry(Text("certificate"), Bytes(nsm.certificate))
    && es[5].key == Text("cabundle") && IsByteList(es[5].val, nsm.cabundle)
    && es[6..] == (if x.publicKey.Some? then [Entry(Text("public_key"), Bytes(x.publicKey.value))] else [])
                  + (if x.userData.Some? then [Entry(Text("user_data"), Bytes(x.userData.value))] else [])
                  + (if x.nonce.Some? then [Entry(Text("nonce"), Bytes(x.nonce.value))] else [])
  }

  lemma PayloadIsInOrder(nsm: MockNsm, now: int, x: Extras, time: int)
    requires WrittenTime(nsm, now, time)
    ensures IsPayloadOf(Payload(nsm, now, x).entries, nsm, time, x)
  {
    var es := Payload(nsm, now, x).entries;
    OptionalsInOrder(x);
    assert es[6..] == OptionalFields(x);
  }

  lemma {:induction false} WrapperRead(payload: seq<byte>)
    requires Encodable(Wrapper(payload))
    ensures DecodeAll(Encode(Wrapper(payload)))
            == Success(List([Bytes([]), Map([]), Bytes(payload), Bytes(Utf8.Encode(MOCK_SIGNATURE))]))
  {
    RoundTrip(Wrapper(payload));
  }

  /** What is on the wire: a wrapper of four, whose third part is a payload with these fields. */
  lemma {:induction false} DocumentOnTheWire(nsm: MockNsm, now: int, x: Extras, time: int)
      returns (payload: seq<byte>, es: seq<Entry>)
    requires Fits(nsm, now, x) && WrittenTime(nsm, now, time) && Encodable(Payload(nsm, now, x))
    requires Encodable(Wrapper(Encode(Payload(nsm, now, x))))
    ensures DecodeAll(Document(nsm, now, x))
            == Success(List([Bytes([]), Map([]), Bytes(payload), Bytes(Utf8.Encode(MOCK_SIGNATURE))]))
    ensures DecodeAll(payload) == Success(Map(es)) && IsPayloadOf(es, nsm, time, x)
  {
    payload, es := Encode(Payload(nsm, now, x)), Payload(nsm, now, x).entries;
    WrapperRead(payload);
    RoundTrip(Payload(nsm, now, x));
    PayloadIsInOrder(nsm, now, x, time);
  }

  lemma OptionalsInOrder(x: Extras)
    ensures OptionalFields(x)
            == (if x.publicKey.Some? then [Entry(Text("public_key"), Bytes(x.publicKey.value))] else [])
               + (if x.userData.Some? then [Entry(Text("user_data"), Bytes(x.userData.value))] else [])
               + (if x.nonce.Some? then [Entry(Text("nonce"), Bytes(x.nonce.value))] else [])
  {
  }

  /** A map from these indexes to these bytes, in this order. */
  predicate IsPcrMap(v: Value, pcrs: Dict<int, seq<byte>>) {
    && v.Map? && |v.entries| == |pcrs|
    && forall i | 0 <= i < |pcrs| :: v.entries[i] == Entry(Int(pcrs[i].0), Bytes(pcrs[i].1))
  }

  predicate IsByteList(v: Value, bundle: seq<seq<byte>>) {
    v.List? && |v.items| == |bundle| && forall i | 0 <= i < |bundle| :: v.items[i] == Bytes(bundle[i])
  }

  /** The parser sees through the wrapper to the payload. */
  lemma {:induction false} ParseWrapped(payload: Value)
    requires Encodable(payload) && Encodable(Wrapper(Encode(payload)))
    ensures Parse(Encode(Wrapper(Encode(payload)))) == ParsePayload(payload, true)
  {
    RoundTrip(Wrapper(Encode(payload)));
    RoundTrip(payload);
  }

  /** From configuration to reader: of a mock built from this raw PCR map, the parsed document holds exactly the last
      value given for each index, under its decimal name and in lower-case hexadecimal. */
  lemma {:induction false} ConfiguredPcrsAreRead(lib: Library, raw: seq<(PcrIndex, PcrValue)>, nsm: MockNsm, now: int,
                                                 x: Extras)
    requires IsLastWins(lib, raw, nsm.pcrs) && Fits(nsm, now, x) && Encodable(Payload(nsm, now, x))
    requires |Encode(Payload(nsm, now, x))| < TWO_TO_64 && Encodable(Wrapper(Encode(Payload(nsm, now, x))))
    ensures Parse(Document(nsm, now, x)).Success? && PcrsAsConfigured(lib, raw, Parse(Document(nsm, now, x)).value.pcrs)
  {
    var time := if nsm.timestamp.Some? && nsm.timestamp.value != 0 then nsm.timestamp.value else now;
    DocumentRoundTrip(nsm, now, x, time);
    RenderedAsConfigured(lib, raw, nsm.pcrs);
  }

  ghost predicate PcrsAsConfigured(lib: Library, raw: seq<(PcrIndex, PcrValue)>, pcrs: Dict<string, string>) {
    && (forall k, index, value | 0 <= k < |raw| && IsLastFor(lib, raw, k, index, value) ::
          Get(pcrs, Decimal(index)) == Some(Hex(value)))
    && (forall i | 0 <= i < |pcrs| :: IsRendering(lib, raw, pcrs[i]))
  }

  /** The item renders the last value given for some index. */
  ghost predicate IsRendering(lib: Library, raw: seq<(PcrIndex, PcrValue)>, item: (string, string)) {
    exists index, value :: Occurs(lib, raw, index, value) && item == (Decimal(index), Hex(value))
  }

  lemma RenderedAsConfigured(lib: Library, raw: seq<(PcrIndex, PcrValue)>, pcrs: Dict<int, seq<byte>>)
    requires IsLastWins(lib, raw, pcrs) && AllPcrs(PcrEntries(pcrs)) && Unique(Rendered(PcrEntries(pcrs)))
    ensures PcrsAsConfigured(lib, raw, Rendered(PcrEntries(pcrs)))
  {
    var d := Rendered(PcrEntries(pcrs));
    forall k, index, value | 0 <= k < |raw| && IsLastFor(lib, raw, k, index, value)
      ensures Get(d, Decimal(index)) == Some(Hex(value))
    {
      assert Get(pcrs, index) == Some(value);
      var i :| 0 <= i < |pcrs| && pcrs[i] == (index, value);
      assert d[i] == (Decimal(index), Hex(value));
      GetAt(d, i);
    }
    forall i | 0 <= i < |d| ensures IsRendering(lib, raw, d[i]) {
      assert Occurs(lib, raw, pcrs[i].0, pcrs[i].1) && d[i] == (Decimal(pcrs[i].0), Hex(pcrs[i].1));
    }
  }

  /** The rendered PCR map determines the PCRs: equal maps come from equal measurements. */
  lemma {:induction false} RenderedIsFaithful(p: Dict<int, seq<byte>>, q: Dict<int, seq<byte>>)
    requires AllPcrs(PcrEntries(p)) && AllPcrs(PcrEntries(q))
    requires Rendered(PcrEntries(p)) == Rendered(PcrEntries(q))
    ensures p == q
  {
    var es, fs := PcrEntries(p), PcrEntries(q);
    assert |p| == |Rendered(es)| == |q|;
    forall i | 0 <= i < |p| ensures p[i] == q[i] {
      assert Rendered(es)[i] == Rendered(fs)[i];
      DecimalRoundTrip(p[i].0);
      DecimalRoundTrip(q[i].0);
      HexRoundTrip(p[i].1);
      HexRoundTrip(q[i].1);
    }
  }

  /** Re-encoding a document the decoder accepts, tags and long headers dropped, parses to the same result. */
  lemma ParseIgnoresEncodingChoices(document: seq<byte>)
    requires DecodeAll(document).Success?
    ensures Encodable(DecodeAll(document).value)
    ensures Parse(Encode(DecodeAll(document).value)) == Parse(document)
  {
    Canonicalisation(document);
  }
}
