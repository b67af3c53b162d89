/** Which documents the parser accepts, and what it reads from them, in terms of the decoded values alone. */
module AttestationParsing {
  import opened Bytes
  import opened Results
  import opened CborValue
  import opened CborDecoder
  import opened CborTheorems
  import opened OrderedDict
  import opened Rendering
  import opened Attestation
  import opened AttestationTheorems

  // ----- fields -----

  /** The dictionary maps this text to this value. */
  ghost predicate Reads(es: seq<Entry>, k: string, v: Value) {
    Entry(Text(k), v) in es
  }

  ghost predicate Lacks(es: seq<Entry>, k: string) {
    forall e | e in es :: e.key != Text(k)
  }

  /** A field that may be missing or null, and otherwise holds bytes. */
  ghost predicate ReadsOptional(es: seq<Entry>, k: string, field: Option<seq<byte>>) {
    if field.Some? then Reads(es, k, Bytes(field.value)) else Lacks(es, k) || Reads(es, k, Null)
  }

  lemma {:induction false} FieldReads(es: seq<Entry>, k: string, v: Value)
    requires DistinctKeys(es)
    ensures Field(es, k) == v && v != Null <==> Reads(es, k, v) && v != Null
    ensures Field(es, k) == Null <==> Lacks(es, k) || Reads(es, k, Null)
  {
    if es != [] {
      FieldReads(es[1..], k, v);
      assert forall e :: e in es <==> e == es[0] || e in es[1..];
      if es[0].key == Text(k) { OnlyHere(es, k); }
    }
  }

  lemma OnlyHere(es: seq<Entry>, k: string)
    requires DistinctKeys(es) && es != [] && es[0].key == Text(k)
    ensures Lacks(es[1..], k)
  {
    forall e | e in es[1..] ensures e.key != Text(k) {
      var i :| 0 <= i < |es[1..]| && es[1..][i] == e;
      assert !SameKey(es[0].key, es[i + 1].key);
    }
  }

  lemma OptionalReads(es: seq<Entry>, k: string, field: Option<seq<byte>>)
    requires DistinctKeys(es)
    ensures ReadsOptional(es, k, field)
            <==> OptionalBytes(Field(es, k)) && AsOption(Field(es, k)) == field
  {
    FieldReads(es, k, Null);
    FieldReads(es, k, if field.Some? then Bytes(field.value) else Null);
    FieldReads(es, k, Field(es, k));
  }

  // ----- PCRs -----

  /** The name and the text of one PCR: an integer in decimal, a boolean by its Python name, the bytes in
      hexadecimal. */
  predicate Renders(e: Entry, item: (string, string)) {
    && e.val.Bytes? && item.1 == Hex(e.val.bytes)
    && match e.key
       case Int(n) => item.0 == Decimal(n)
       case Bool(b) => item.0 == if b then "True" else "False"
       case _ => false
  }

  /** Every PCR of the map, in order. */
  predicate RendersAll(pcrs: seq<Entry>, d: Dict<string, string>) {
    |d| == |pcrs| && forall i | 0 <= i < |d| :: Renders(pcrs[i], d[i])
  }

  lemma PcrsExactly(pcrs: seq<Entry>, d: Dict<string, string>)
    requires DistinctKeys(pcrs)
    ensures NormalizePcrMap(pcrs, []) == Success(d) <==> RendersAll(pcrs, d)
  {
    PcrMapExact(pcrs);
    if RendersAll(pcrs, d) {
      forall e | e in pcrs ensures IsInt(e.key) && e.val.Bytes? {
        var i :| 0 <= i < |pcrs| && pcrs[i] == e;
        assert Renders(pcrs[i], d[i]);
      }
      assert d == Rendered(pcrs);
    }
    if AllPcrs(pcrs) { RenderedRenders(pcrs); }
  }

  lemma RenderedRenders(pcrs: seq<Entry>)
    requires AllPcrs(pcrs)
    ensures RendersAll(pcrs, Rendered(pcrs))
  {
    forall i | 0 <= i < |pcrs| ensures Renders(pcrs[i], Rendered(pcrs)[i]) {
      assert pcrs[i] in pcrs;
    }
  }

  // ----- documents -----

  /** A payload with these fields: texts, an integer or boolean timestamp, a map of PCRs, and the optional ones. */
  ghost predicate Describes(payload: Value, p: ParsedDocument) {
    && payload.Map?
    && var es := payload.entries;
       && Reads(es, "module_id", Text(p.moduleId))
       && Reads(es, "timestamp", p.timestamp) && (p.timestamp.Int? || p.timestamp.Bool?)
       && Reads(es, "digest", Text(p.digest))
       && (exists pcrs :: Reads(es, "pcrs", Map(pcrs)) && RendersAll(pcrs, p.pcrs))
       && ReadsOptional(es, "public_key", p.publicKey)
       && ReadsOptional(es, "user_data", p.userData)
       && ReadsOptional(es, "nonce", p.nonce)
  }

  lemma PcrMapIsADict(payload: Value)
    requires Encodable(payload) && payload.Map? && Field(payload.entries, "pcrs").Map?
    ensures DistinctKeys(Field(payload.entries, "pcrs").entries)
  {
    FieldReads(payload.entries, "pcrs", Field(payload.entries, "pcrs"));
    var e := Entry(Text("pcrs"), Field(payload.entries, "pcrs"));
    assert EncodableEntry(e) && Encodable(e.val);
  }

  lemma PcrsRead(payload: Value, d: Dict<string, string>)
    requires Encodable(payload) && payload.Map?
    ensures (exists pcrs :: Reads(payload.entries, "pcrs", Map(pcrs)) && RendersAll(pcrs, d))
            <==> Field(payload.entries, "pcrs").Map?
                 && NormalizePcrMap(Field(payload.entries, "pcrs").entries, []) == Success(d)
  {
    var es := payload.entries;
    FieldReads(es, "pcrs", Field(es, "pcrs"));
    if Field(es, "pcrs").Map? {
      PcrMapIsADict(payload);
      PcrsExactly(Field(es, "pcrs").entries, d);
    }
    forall pcrs | Reads(es, "pcrs", Map(pcrs)) ensures Field(es, "pcrs") == Map(pcrs) {
      FieldReads(es, "pcrs", Map(pcrs));
    }
  }

  lemma PayloadExactly(payload: Value, cose: bool, p: ParsedDocument)
    requires Encodable(payload)
    ensures ParsePayload(payload, cose) == Success(p) <==> Describes(payload, p) && p.isCoseSign1 == cose
  {
    if payload.Map? {
      var es := payload.entries;
      FieldReads(es, "module_id", Text(p.moduleId));
      FieldReads(es, "timestamp", p.timestamp);
      FieldReads(es, "digest", Text(p.digest));
      PcrsRead(payload, p.pcrs);
      OptionalReads(es, "public_key", p.publicKey);
      OptionalReads(es, "user_data", p.userData);
      OptionalReads(es, "nonce", p.nonce);
    }
  }

  /** A list of four whose third part is bytes is a wrapper. */
  predicate Wraps(v: Value, inner: seq<byte>) {
    v.List? && |v.items| == 4 && v.items[2] == Bytes(inner)
  }

  /** The payload of a document: what the wrapper holds, or the document itself if it is none. */
  ghost predicate Carries(document: seq<byte>, payload: Value, cose: bool) {
    if cose then
      exists v, inner :: DecodeAll(document) == Success(v) && Wraps(v, inner) && DecodeAll(inner) == Success(payload)
    else DecodeAll(document) == Success(payload) && forall inner :: !Wraps(payload, inner)
  }

  lemma CarriesExactly(document: seq<byte>, payload: Value, cose: bool)
    ensures Carries(document, payload, cose) <==>
              && DecodeAll(document).Success?
              && var v := DecodeAll(document).value;
                 if IsWrapper(v) then cose && DecodeAll(v.items[2].bytes) == Success(payload) else !cose && payload == v
  {
    if DecodeAll(document).Success? {
      var v := DecodeAll(document).value;
      if IsWrapper(v) { assert Wraps(v, v.items[2].bytes); }
    }
  }

  /** A document is parsed to `p` exactly if it carries a payload with these fields; whether a wrapper was around it is
      part of the result. */
  lemma {:induction false} ParsedExactly(document: seq<byte>, p: ParsedDocument)
    ensures Parse(document) == Success(p)
            <==> exists payload :: Carries(document, payload, p.isCoseSign1) && Describes(payload, p)
  {
    forall payload, cose | Carries(document, payload, cose)
      ensures Parse(document) == ParsePayload(payload, cose)
      ensures ParsePayload(payload, cose) == Success(p) <==> Describes(payload, p) && p.isCoseSign1 == cose
    {
      CarriesExactly(document, payload, cose);
      Shortest(document);
      if cose { Shortest(DecodeAll(document).value.items[2].bytes); }
      PayloadExactly(payload, cose, p);
    }
    if Parse(document) == Success(p) {
      var v := DecodeAll(document).value;
      var payload := if IsWrapper(v) then DecodeAll(v.items[2].bytes).value else v;
      CarriesExactly(document, payload, IsWrapper(v));
    }
  }

  /** A document that does not parse fails with AttestationError, unless it, or what its wrapper holds, fails to decode;
      then with the exception of the decoder. */
  lemma ParseFailsAs(document: seq<byte>)
    ensures DecodeAll(document).Failure? ==> Parse(document) == Failure(DecodeAll(document).error)
    ensures forall v, inner | DecodeAll(document) == Success(v) && Wraps(v, inner) && DecodeAll(inner).Failure? ::
              Parse(document) == Failure(DecodeAll(inner).error)
    ensures (exists payload, cose :: Carries(document, payload, cose)) && Parse(document).Failure? ==>
              Parse(document) == Failure(AttestationError)
  {
    forall payload, cose | Carries(document, payload, cose) && Parse(document).Failure?
      ensures Parse(document) == Failure(AttestationError)
    {
      CarriesExactly(document, payload, cose);
      PayloadFails(payload, cose);
    }
  }

  lemma PayloadFails(payload: Value, cose: bool)
    ensures ParsePayload(payload, cose).Failure? ==> ParsePayload(payload, cose) == Failure(AttestationError)
  {
    if payload.Map? && Field(payload.entries, "pcrs").Map? {
      PcrsFail(Field(payload.entries, "pcrs").entries, []);
    }
  }

  lemma {:induction false} PcrsFail(pcrs: seq<Entry>, acc: Dict<string, string>)
    ensures NormalizePcrMap(pcrs, acc).Failure? ==> NormalizePcrMap(pcrs, acc) == Failure(AttestationError)
  {
    if pcrs != [] && IsInt(pcrs[0].key) && pcrs[0].val.Bytes? {
      PcrsFail(pcrs[1..], Put(acc, IndexName(pcrs[0].key), Hex(pcrs[0].val.bytes)));
    }
  }
}
