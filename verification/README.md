# Verified model of the confidential ML feature store

A Dafny model of the parts of the feature store whose correctness is not obvious from one function:

- **CBOR and attestation documents** (`enclave/attestation.py`). The encoder with shortest-form headers, the
  offset-driven decoder with tags, nesting and claimed lengths up to 2^64 - 1, the UTF-8 of RFC 3629 underneath, and
  above them the mock NSM and the document parser. Files `Bytes`, `Utf8`, `CborValue`, `CborDecoder`, `CborTheorems`,
  `CborGrammar`, `Rendering`, `Attestation`, `AttestationTheorems`, `AttestationParsing`.
- **Framed RPC** (`feature_store/services/enclave_client.py`, `enclave/server.py`). Frames over a chunked byte stream,
  the server's connection loop, the client's pool and retry loop, and a transition system in which any number of
  threads, connections, faults and the server interleave. Files `Frames`, `ServerSession`, `EnclaveClient`,
  `RpcProtocol`, `RpcConnections`, `RpcTheorems`, `RpcProgress`, `RpcCalls`.
- **The key cache in front of KMS** (`enclave/kms_client.py`). The TTL + LRU cache as an object, and concurrent calls
  as a transition system in which clock readings and the proxy call happen outside the lock. Files `KmsCache`,
  `KmsProtocol`, `KmsCalls`, `KmsTheorems`, `KmsRetention`, `KmsClearing`.
- **The model cache and its two front ends** (`enclave/inference_engine.py`, `enclave/server.py`,
  `feature_store/services/enclave_client.py`). The LRU engine, interleaved loads, the dispatcher and the in-process
  mock that drive it, and the prediction handler among other threads. Files `InferenceEngine`, `BundleLoading`,
  `CacheInclusion`, `EngineRuns`, `Dispatch`, `HandlerRuns`.
- **The tenant-scoped feature store** (`feature_store/services/feature_service.py`,
  `feature_store/services/dynamo_service.py`). Partitions in sort-key order, conditional writes, paginated listings, and
  runs of interleaved tenants. Files `FeatureTable`, `FeatureRuns`, `FeatureListings`.

`OrderedDict` and `Recency` hold Python's insertion-ordered dictionary and its reading as a recency list, `PyStr` holds
`str.strip`, `Results` the option and result types. `dafny verify dfyconfig.toml` checks the whole project.

## How the model is built

- A method that updates an object's fields or runs a loop is a method here, proved against a function of the old state;
  the theorems are about those functions. A lock region is one such function, and concurrency is any interleaving of
  them: `RpcProtocol.Step`, `KmsProtocol.Step`, `EngineRuns.Action` and `FeatureRuns.Step` are the atomic steps.
- Library code is a parameter: the digest, base64, JSON parsing, AES-GCM, model deserialization and inference, Python's
  `int(str)` and `bytes.fromhex`, and `float(v)` are function-valued fields of a `Library`, `Environment` or `Config`.
  Nothing is assumed about them beyond what a lemma's `requires` says.
- What the network does is data: a `Socket` carries schedules that cut what it receives into chunks, inject timeouts and
  resets, and break off what it sends, an `Attempt` says what one try of a request meets, a `query` returns as many
  items as it likes.
- Bytes are integers below 256. A Dafny `char` is a Unicode scalar value, so a `string` is a Python `str` without lone
  surrogates. Clock values, features and predictions are reals and are only compared or passed through; TTL sums are
  exact.
- Where a function computes an answer, the theorems about it name the inputs and the answer, and not the helpers on the
  way: the decoder is compared with a grammar (`CborGrammar`), the parser with the decoded fields
  (`AttestationParsing`), a concurrent call with the sequential one (`RpcCalls`, `KmsCalls`, `HandlerRuns`), a load with
  what its bundle opens to (`BundleLoading`).

## What the code does and its documentation does not say

- The server's `_recv_exact` returns what it has when the peer closes early, so a request cut short after its first
  payload byte reaches the JSON parser as if it were complete (`ServerSession.CutPayloadReachesTheDispatcher`). Only the
  whole requests are served if and only if the dispatcher refuses what is left of the cut one
  (`ServerSession.CutStreamServed`). It need not refuse: `{"action":"health"}` followed by a space is a request whose
  first part is one too. What `_encode_frame` writes ends in its closing brace, and an object cut before that does not
  parse.
- The model cache is keyed by name alone: with two bundles under one name the capacity decides which one a client gets
  (`CacheInclusion.CapacityCanChangeTheModel`). The capacity is invisible exactly if no two loads conflict in this way
  or all of them load one name (`CacheInclusion.CapacityInvisibleExactly`).
- An evicted model is missing until it is loaded again. A cached one stays exactly as long as fewer than the maximum of
  other models have been used since it was (`EngineRuns.RetainedExactly`); look-ups that miss, loads that fail and
  unloads of other models do not count.
- `is_model_loaded` does not strip the name, unlike `load_model` and `predict`, so a loaded model asked for without a
  blob is answered MODEL_NOT_FOUND exactly if its name is padded (`Dispatch.PaddedNameIsNotFound`).
- The mock accepts a model name or tenant of white space only, which the server refuses; everywhere else the two agree
  (`Dispatch.Simulation`). With such a field they agree exactly under the conditions of `Dispatch.BlankNameAgreement` and
  `Dispatch.BlankTenantAgreement`; `Dispatch.BlankTenantDisagreement` is a request on which they do not.
- A bundle that comes with a prediction does not replace a model that is cached under the same name; the old model
  answers (`Dispatch.AnswersComeFromTheCache`). Among other threads it is the model that is cached when the prediction
  looks it up, whoever loaded it (`HandlerRuns.InterleavedAnswer`); a request that brings its own bundle can still be
  answered MODEL_NOT_FOUND, if the model is unloaded or crowded out in between (`HandlerRuns.NotFoundExactly`).
- A reply can break off in the middle of its frame, when `sendall` fails (`ServerSession.HandleConnection`).
- `clear_cache` does not end the use of the keys fetched before it: a call that the proxy has answered, or that is about
  to store, puts its key back. Every later hit stems from a later proxy call exactly if there is no such call in time
  for a look-up (`KmsClearing.ClearIsFinalExactly`).
- A cache entry can be past its deadline when it is stored; a look-up finds it exactly if it has read an earlier time
  (`KmsTheorems.StoredUntilItsDeadline`).
- Cache keys are digests of tenant, NUL and blob. Two queries that share a key get one answer
  (`KmsTheorems.SharedKeyLeaks`), and freshness and transparency hold exactly where that does no harm
  (`KmsTheorems.FreshExactly`, `KmsTheorems.TransparentExactly`). A tenant id with an inner NUL shares keys under any
  digest (`KmsCache.NulTenantsCollide`); without NUL only a digest collision can make two queries share one
  (`KmsTheorems.NulFreeKeysApart`).
- A listing that is interleaved with writes holds every set that was there throughout, and of the others only such as
  were there at some point (`FeatureListings.ListingsAreSound`). It is a snapshot if at most one write of the tenant
  falls between its pages; two can tear it (`FeatureListings.TwoWritesTear`), so one is exactly what it bears
  (`FeatureListings.SnapshotsExactly`).
- A timestamp of 0 in the mock NSM means "now", and a decoded `True` passes for an integer timestamp or PCR index.

## Model

| member | source | states |
|---|---|---|
| Bytes.FromToBytes | enclave/attestation.py:455-502 | Reading back the big-endian bytes of a number gives the number, for every width. |
| Bytes.ToFromBytes | enclave/attestation.py:455-461 | Every byte string is the big-endian form of exactly one number of its width. |
| Utf8.DecodeEncode | enclave/attestation.py:345-347 | Every string of Unicode scalars survives UTF-8 encoding and strict decoding. |
| Utf8.EncodeDecode | enclave/attestation.py:390-392 | The strict decoder accepts only what the encoder produces: no overlong forms, surrogates or truncated characters. |
| Utf8.Rfc3629Examples | enclave/attestation.py:346-346 | One known character for each of the four lengths, and five malformed sequences that are rejected. |
| CborValue.SetItemAppends | enclave/attestation.py:401-403 | A new key goes to the end of the dictionary. |
| CborValue.SetItemExactly | enclave/attestation.py:401-403 | A key that is there keeps its position and spelling and gets the new value, every other entry stays, and only a new key makes the dictionary longer. |
| CborValue.SameKeyExactly | enclave/attestation.py:401-403 | Keys are the same exactly if they are equal or a boolean and its number. |
| CborValue.SetItemKeys | enclave/attestation.py:401-403 | Assigning an item keeps keys pairwise different under Python equality (0 and False, 1 and True are one key). |
| CborDecoder.CborReader.ReadBytes | enclave/attestation.py:421-438 | Reads exactly the asked bytes and advances past them, or raises without passing the end. |
| CborDecoder.CborReader.ReadArgument | enclave/attestation.py:440-462 | Reads the argument of a header in any of its five widths and refuses indefinite lengths. |
| CborDecoder.CborReader.DecodeValue | enclave/attestation.py:366-419 | On every input the offset-driven decoder terminates, computes the decoding of the unread bytes, strictly advances on success and never passes the end. |
| CborDecoder.CborReader.DecodeList | enclave/attestation.py:394-396 | The list loop computes the item-wise decoding for any claimed length. |
| CborDecoder.CborReader.DecodeMap | enclave/attestation.py:398-404 | The map loop builds the dictionary pair by pair: first position and last value of a duplicate key, value decoded before the key is hashed. |
| CborDecoder.CborDecode | enclave/attestation.py:465-481 | Exactly one value and nothing behind it, or the exception the decoding meets first. |
| CborGrammar.ReadsWritten | enclave/attestation.py:366-462 | Every data item, in any of the five header forms and under any tags, is read as it is meant, with the decoder stopping at its end, or fails with the exception of its first part that has no value. |
| CborGrammar.Found | enclave/attestation.py:366-462 | Whatever the decoder accepts is such an item with that meaning. |
| CborGrammar.AcceptedExactly | enclave/attestation.py:465-481 | A document is accepted with a value if and only if it is one data item, written in some form, that means it. |
| CborGrammar.RefusedBehindItem | enclave/attestation.py:465-481 | Bytes behind an item are an AttestationError, unless the item itself fails. |
| CborGrammar.ReservedHeaders | enclave/attestation.py:383-462 | Nothing at all, reserved and indefinite lengths, and simple values other than false, true and null are AttestationErrors. |
| CborGrammar.AssignedExactly | enclave/attestation.py:398-404 | Assigning pairs one after the other gives every key once, at the place and in the spelling of the first pair that has it, with the value of the last one. |
| CborGrammar.DictionaryRead | enclave/attestation.py:398-404 | The dictionary the decoder makes of written pairs is that one. |
| CborGrammar.LastValueWins | enclave/attestation.py:398-404 | The bytes `A2 01 01 01 02` decode to a dictionary that maps 1 to 2. |
| CborGrammar.TagAndLongHeader | enclave/attestation.py:406-408 | The bytes `C1 18 01` decode to 1: tag and long header leave no trace. |
| CborTheorems.ReadHeader | enclave/attestation.py:484-502 | The decoder reads back major type and argument of every header the encoder writes. |
| CborTheorems.DecodeEncode | enclave/attestation.py:323-419 | For every encodable value and any bytes behind it, decoding returns the value and stops exactly at the end of its encoding. |
| CborTheorems.RoundTrip | enclave/attestation.py:323-481 | decode(encode(v)) == v for every encodable value of any nesting. |
| CborTheorems.PrefixFree | enclave/attestation.py:323-356 | The encoder is injective and prefix-free. |
| CborTheorems.HeaderIsShortest | enclave/attestation.py:440-502 | The header the encoder chooses is no longer than any header with the same argument. |
| CborTheorems.Shortest | enclave/attestation.py:366-462 | Whatever decodes is encodable again, in no more bytes than were consumed: tags, long headers and duplicate keys included. |
| CborTheorems.Canonicalisation | enclave/attestation.py:323-481 | Re-encoding an accepted document keeps its value, never lengthens it, and is a fixed point (preferred serialisation, section 4.1 of RFC 8949). |
| CborTheorems.SizeBound | enclave/attestation.py:366-462 | A decoded value has no more nodes than bytes were consumed, whatever lengths were claimed. |
| CborTheorems.Cut | enclave/attestation.py:366-462 | Cutting the input behind the consumed bytes changes nothing; cutting inside them always raises AttestationError. |
| CborTheorems.Extend | enclave/attestation.py:366-462 | Bytes appended to an input that decodes are left unread. |
| CborTheorems.Locality | enclave/attestation.py:366-462 | The answer depends only on the consumed bytes. |
| CborTheorems.Truncation | enclave/attestation.py:465-481 | Every strict prefix of an accepted document is rejected with AttestationError. |
| CborTheorems.Rfc8949Scalars | enclave/attestation.py:335-343 | Known encodings of integers from Appendix A of RFC 8949. |
| CborTheorems.Rfc8949Simple | enclave/attestation.py:335-344 | Known encodings of byte strings and simple values from Appendix A. |
| CborTheorems.Rfc8949Text | enclave/attestation.py:345-347 | Known encoding of a text string from Appendix A. |
| CborTheorems.Rfc8949Containers | enclave/attestation.py:348-355 | Known encodings of an array and a map from Appendix A. |
| Rendering.DecimalRoundTrip | enclave/attestation.py:298-298 | `str(index)` determines the integer. |
| Rendering.DecimalIsCanonical | enclave/attestation.py:298-298 | A minus sign for negative numbers only, then decimal digits without a leading zero. |
| Rendering.HexRoundTrip | enclave/attestation.py:298-298 | `value.hex()` determines the bytes. |
| Rendering.HexIsLowerCase | enclave/attestation.py:298-298 | Only digits and lower-case letters. |
| Attestation.NormalizePcrs | enclave/attestation.py:210-244 | The loop computes the normalized dictionary, in order of first occurrence, or raises AttestationError. |
| Attestation.NormalizedExact | enclave/attestation.py:210-244 | Normalization fails exactly if some item does not give an index a value: an integer, or a text that `int` takes, and 32, 48 or 64 bytes, raw or in hexadecimal. Otherwise there is one entry per index, with the value of the last item naming it. |
| Attestation.NormalizedInOrder | enclave/attestation.py:210-244 | The indexes come in the order in which they are first named. |
| Attestation.NewMockNsm | enclave/attestation.py:158-173 | Construction fails exactly if some PCR, or the default one when none is given, is refused; the object holds the last value given for each PCR index, or the default as PCR 0, and everything else as given, empty arguments replaced by their defaults. |
| AttestationTheorems.ConfiguredPcrsAreRead | enclave/attestation.py:158-320 | Parsing the document of a mock built from a raw PCR map yields exactly the last value given for each index, under its decimal name and in hexadecimal. |
| Attestation.AssemblePayload | enclave/attestation.py:191-204 | The payload dictionary, assembled field by field, with an optional field exactly when it is given. |
| Attestation.GetAttestationDocument | enclave/attestation.py:175-208 | The document is the encoded payload inside the encoded wrapper. |
| Attestation.ParseDocument | enclave/attestation.py:256-320 | The parser with its PCR loop computes the parse function on every byte string, errors included. |
| AttestationTheorems.IndexNamesDiffer | enclave/attestation.py:293-298 | Two PCR indexes rendered alike are the same dictionary key: no two collide. |
| AttestationTheorems.PcrMapExact | enclave/attestation.py:292-298 | A PCR map is accepted exactly if all indexes are integers and all values bytes, and then every PCR is kept, in order, under its own name. |
| AttestationTheorems.DocumentRoundTrip | enclave/attestation.py:175-320 | Parsing the mock document returns `is_cose_sign1` true and exactly the configured module id, digest, optional fields (absent and empty kept apart) and rendered PCRs; the timestamp is the configured one, or the clock's if that is missing or 0. |
| AttestationTheorems.BarePayload | enclave/attestation.py:269-320 | The payload without its wrapper parses to the same with `is_cose_sign1` false. |
| AttestationTheorems.DocumentOnTheWire | enclave/attestation.py:191-208 | The document decodes to a list of four with the payload third, and that to a dictionary with exactly these fields in this order, certificate and bundle included. |
| AttestationTheorems.RenderedIsFaithful | enclave/attestation.py:292-298 | The rendered PCR map determines the PCRs. |
| AttestationTheorems.ParseIgnoresEncodingChoices | enclave/attestation.py:256-320 | Parsing does not depend on tags or header lengths: the canonical form of a document parses alike. |
| AttestationParsing.ParsedExactly | enclave/attestation.py:256-320 | A document parses to a result if and only if it carries, in a wrapper or bare, a dictionary whose fields read like that: texts, an integer or boolean timestamp, PCRs with integer or boolean indexes and byte values, and bytes or nothing in the optional fields. |
| AttestationParsing.ParseFailsAs | enclave/attestation.py:256-320 | What does not parse fails with AttestationError, unless the document or the wrapped payload does not decode; then with the decoder's exception. |
| Frames.Socket.Recv | enclave/server.py:363-369 | A non-empty chunk of the stream, nothing exactly at its end, or a scheduled fault that consumes nothing. |
| Frames.Socket.SendAll | enclave/server.py:323-333 | Everything goes out, or, when the schedule says so, the first bytes and an exception. |
| Frames.ClientRecvExact | feature_store/services/enclave_client.py:611-630 | Exactly the next n bytes whatever the chunking; a timeout only after a timeout of the socket, a transport fault only after a reset or with fewer bytes left; on a faultless socket it fails exactly if fewer are left. |
| Frames.ReceiveReply | feature_store/services/enclave_client.py:633-650 | Reads the reply the stream starts with, independent of chunking, and rejects empty or unparsable frames as malformed. |
| Frames.ReplyReadBack | feature_store/services/enclave_client.py:598-650 | A framed payload is read back and the stream is left behind it. |
| Frames.CutReply | feature_store/services/enclave_client.py:611-650 | A reply frame cut at any byte is a transport fault, never a malformed reply. |
| Frames.EmptyReply | feature_store/services/enclave_client.py:645-646 | A frame that announces no payload is malformed, whatever follows. |
| Frames.ServerRecvExact | enclave/server.py:353-369 | All n bytes, `None` at a clean end, or the short rest when the stream ends in the middle. |
| ServerSession.ReadMessage | enclave/server.py:299-321 | The next message of the stream whatever the chunking: end of stream, a payload, or an exception. |
| ServerSession.HandleConnection | enclave/server.py:167-197 | Under any schedule of chunks, timeouts and resets of `recv` and `sendall`, what the loop has written is a byte prefix of the session's replies: whole frames for the first requests, one per request and in order, and at most the beginning of the next one. Without faults it is all of them, for any service and stop time. |
| ServerSession.StreamServed | enclave/server.py:184-189 | Any list of framed payloads is served completely and in order, then the session ends cleanly. |
| ServerSession.SessionGoesOn | enclave/server.py:184-189 | Behind requests that are answered a session goes on as if it began there, in the state they leave. |
| ServerSession.SessionIsStopped | enclave/server.py:184-185 | The stop event ends it cleanly behind the requests it has served, with the rest unread. |
| ServerSession.SessionEndsAtEmptyFrame | enclave/server.py:309-314 | A frame without payload ends it by an exception, behind whatever was served. |
| ServerSession.SessionEndsAtRefusal | enclave/server.py:318-332 | So do a payload that is no JSON object, and a reply too long for a frame, which leaves what the request has done. |
| ServerSession.CutStreamServed | enclave/server.py:299-321 | When the connection is lost at any byte, exactly the complete frames are served, with a clean end exactly between two frames, if and only if the service refuses the rest of the cut request in the state they leave; otherwise that rest is served too. |
| ServerSession.CutPayloadReachesTheDispatcher | enclave/server.py:315-318 | A payload cut after its first byte is served as a request if the service takes it, and the session ends cleanly. |
| EnclaveClient.Client.constructor | feature_store/services/enclave_client.py:114-144 | A new client has opened nothing and conserves connections. |
| EnclaveClient.Client.Acquire | feature_store/services/enclave_client.py:268-277 | Takes the most recently pooled connection, or opens a new one exactly when the pool is empty. |
| EnclaveClient.Client.Release | feature_store/services/enclave_client.py:279-289 | Pools the connection unless the pool is full, then closes it. |
| EnclaveClient.Client.Discard | feature_store/services/enclave_client.py:291-297 | Closes the connection and nothing else. |
| EnclaveClient.Client.TryOnce | feature_store/services/enclave_client.py:165-195 | One pass of the `try` block: the last pooled connection or a new one is used, goes back to the pool after a reply if there is room, and is closed otherwise; nothing else moves. |
| EnclaveClient.Client.SendRequest | feature_store/services/enclave_client.py:146-200 | The retry loop returns the verdict on the fault sequence, sleeps its backoff, leaves every opened connection in exactly one of pool and closed, and has taken from the pool exactly the connections of its failed attempts. |
| EnclaveClient.TotalBackoff | feature_store/services/enclave_client.py:197-198 | m attempts pause 2^(m-1) - 1 tenths of a second up to m = 5 and 15 + 10(m - 5) beyond. |
| EnclaveClient.FaultsPrecede | feature_store/services/enclave_client.py:166-200 | Every attempt before the last met a timeout or a connection error; the last one decides: a reply if and only if it has a connection and gets one, EnclaveTimeoutError if and only if it timed out, EnclaveCommunicationError if and only if its connection broke or there is no vsock, MalformedEnclaveResponseError if and only if its reply does not decode; and a fault only when the budget is spent. |
| EnclaveClient.VerdictIsLocal | feature_store/services/enclave_client.py:166-200 | The outcome depends on nothing but the attempts that are made. |
| RpcConnections.SendMore | feature_store/services/enclave_client.py:170-170 | A request frame may go out in any pieces; only the last one completes it. |
| RpcConnections.NothingToServe | enclave/server.py:184-189 | A connection at rest or in the middle of a send holds no complete request. |
| RpcConnections.ServeUnanswered | enclave/server.py:184-189 | The server reads exactly the request that is out, and its reply is the only thing outstanding. |
| RpcConnections.ReceiveMore | feature_store/services/enclave_client.py:624-650 | Chunk by chunk the client reads its own reply and stops exactly at its end. |
| RpcConnections.ServeReadsAsTheServerDoes | enclave/server.py:299-321 | The protocol's server step takes the payload the server's read loop takes. |
| RpcTheorems.StepKeepsInv | feature_store/services/enclave_client.py:146-297 | The protocol invariant survives every step: sends, chunks, replies, faults, retries, pooling and closing, in any interleaving. |
| RpcTheorems.RepliesMatchRequests | feature_store/services/enclave_client.py:146-200 | In every run, a returned reply is the one the server wrote for that very request on the connection used, and no reply is returned twice. |
| RpcProgress.ReplyArrives | feature_store/services/enclave_client.py:165-191 | When the server answers a request that waits, and the frame arrives in any chunks, the call ends: with this reply, as the answer to this request, and its connection pooled, if and only if it is a JSON object; otherwise as malformed, with the connection closed. |
| RpcProgress.OnlyBadRepliesAreRefused | feature_store/services/enclave_client.py:187-191 | In every run a call is refused as malformed only if the server has answered that request with an empty payload or one that does not parse, and no call returns such a reply. |
| RpcProgress.RequestGoesOut | feature_store/services/enclave_client.py:169-170 | A request goes out in pieces of any size, and then its thread waits on its own connection. |
| RpcCalls.CallAloneIsVerdict | feature_store/services/enclave_client.py:146-200 | A call that nothing interrupts has a run for every script of attempts, and it ends with the reply, the exception and the pool that the retry loop's verdict says. |
| RpcTheorems.PooledConnectionsAreAtRest | feature_store/services/enclave_client.py:268-289 | In every run, pooled connections sit at a frame boundary in both directions with no reply outstanding. |
| RpcTheorems.ConnectionsAreConserved | feature_store/services/enclave_client.py:268-297 | In every run, each opened connection is in exactly one of pool, closed and one thread's hands; the pool keeps its limit and attempts theirs. |
| KmsCache.KmsClient.PurgeExpired | enclave/kms_client.py:252-260 | Collecting the expired keys and popping them one by one leaves exactly the entries with a later deadline, in order. |
| KmsCache.KmsClient.GetCached | enclave/kms_client.py:216-232 | Purge with the time read before the lock, then look up; a hit becomes most recent. |
| KmsCache.KmsClient.StoreEntry | enclave/kms_client.py:234-250 | Purge, store with the deadline from the first clock reading, move to the end and trim to the limit. |
| KmsCache.KmsClient.CacheSize | enclave/kms_client.py:190-198 | The number of entries that are live at the clock reading. |
| KmsCache.KmsClient.ClearCache | enclave/kms_client.py:185-188 | The cache is empty afterwards. |
| KmsCalls.CallAloneIsDecrypt | enclave/kms_client.py:120-183 | A call that nothing interrupts returns, and leaves of the cache, what its clock readings, lock regions and proxy call do one after the other: hit, miss, refresh, failure. |
| KmsTheorems.DecryptExactly | enclave/kms_client.py:120-183 | A blank tenant or an empty blob is a ValueError that touches nothing; a live entry under the digest of tenant, NUL and blob answers unless a refresh is forced; failing that the proxy's result is returned, and a plaintext is stored last, with the TTL counted from the clock read for it. |
| KmsTheorems.RefreshAsksTheProxy | enclave/kms_client.py:150-183 | In every interleaved run, a call that is told to refresh returns the result of a proxy call for its own tenant and blob, never a cached one. |
| KmsCache.PurgeFacts | enclave/kms_client.py:252-260 | An entry survives a purge exactly if its deadline is later. |
| KmsCache.PurgeByKeys | enclave/kms_client.py:258-260 | Popping the expired keys one by one is filtering. |
| KmsCache.PreimageCollision | enclave/kms_client.py:200-214 | Exactly when two tenant and blob pairs have the same cache-key preimage. |
| KmsCache.PreimageInjective | enclave/kms_client.py:200-214 | For tenant ids without NUL the preimage identifies tenant and blob. |
| KmsCache.NulTenantsCollide | enclave/kms_client.py:200-214 | A tenant id with an inner NUL collides with another tenant under any digest. |
| KmsProtocol.StepKeepsInv | enclave/kms_client.py:150-260 | Size limit, last-use order and the provenance of every entry and return survive every interleaved step. |
| KmsTheorems.BoundedFreshness | enclave/kms_client.py:216-250 | In every interleaved run whose queries have cache keys of their own, a hit is the result of a logged successful proxy call for the same tenant and blob, over before the store read its deadline clock; the look-up's time is less than the TTL after that clock value, which no hit moves. |
| KmsTheorems.FreshExactly | enclave/kms_client.py:200-250 | For a set of queries, all runs are fresh in this sense if and only if no two of the queries share a cache key. |
| KmsTheorems.RefinesUncachedClient | enclave/kms_client.py:120-183 | With a proxy that is a function of tenant and blob, every call of every interleaved run returns what the client without a cache would, if queries that share a key have the same answer. |
| KmsTheorems.TransparentExactly | enclave/kms_client.py:120-214 | For a set of queries and a proxy, that holds in all runs if and only if the proxy's successful answers agree where cache keys do. |
| KmsTheorems.SharedKeyLeaks | enclave/kms_client.py:150-214 | Two queries with one cache key: a run in which the second call returns the first one's plaintext. |
| KmsTheorems.NulTenantLeaks | enclave/kms_client.py:200-214 | A concrete pair of tenants, told apart by an inner NUL, for which that happens under every digest. |
| KmsTheorems.NulFreeKeysApart | enclave/kms_client.py:200-214 | For tenant ids without NUL, cache keys are distinct exactly if the digest does not collide on the preimages. |
| KmsTheorems.AlwaysBoundedAndOrdered | enclave/kms_client.py:241-250 | The cache is within its limit and in last-use order at every point of every run. |
| KmsTheorems.EvictionIsLeastRecentlyUsed | enclave/kms_client.py:242-250 | An entry that survived the purge is evicted only by a full cache of others that survived it or were just stored, all used more recently. |
| KmsTheorems.StoredUntilItsDeadline | enclave/kms_client.py:216-250 | A stored entry is in the cache even when it is expired already; the next look-up returns its plaintext exactly if the time it has read is before the deadline. |
| KmsRetention.KeyRetainedExactly | enclave/kms_client.py:216-260 | Through any interleaving that ends before its deadline and neither clears the cache nor stores its key again, an entry stays cached throughout if and only if at every point fewer than max other keys have been used since it was and are still cached. |
| KmsRetention.KeyRetention | enclave/kms_client.py:216-260 | An entry just stored or hit is found until its deadline through any interleaving that does not clear the cache or store its key again and uses fewer than max other keys. |
| KmsClearing.ClearForgets | enclave/kms_client.py:185-188 | In whatever follows a `clear_cache`, every hit stems from a store made after it. |
| KmsClearing.ClearIsFinalExactly | enclave/kms_client.py:120-188 | In all runs that follow a `clear_cache` every hit stems from a proxy call made after it, if and only if at the clear no thread carries an older plaintext that it can still store in time for a look-up. |
| InferenceEngine.Engine.LoadModel | enclave/inference_engine.py:119-187 | The whole load: argument errors, hit, every decryption failure leaving the cache unchanged, and success leaving the model most recent. |
| InferenceEngine.Engine.StoreModel | enclave/inference_engine.py:183-187 | The insert-and-evict region with its loop. |
| InferenceEngine.Engine.PredictOne | enclave/inference_engine.py:189-234 | A hit becomes most recent even when the prediction fails afterwards. |
| InferenceEngine.Engine.UnloadModel | enclave/inference_engine.py:245-253 | Removes the stripped name and keeps the rest in order. |
| InferenceEngine.Engine.IsModelLoaded | enclave/inference_engine.py:107-117 | Compares the name as given. |
| PyStr.StripExactly | enclave/inference_engine.py:130-130 | `strip` removes white space at both ends, all of it and nothing else. |
| PyStr.KnownSpaces | enclave/inference_engine.py:130-130 | Which characters `strip` takes for white space, and some that it does not. |
| InferenceEngine.Engine.ListLoadedModels | enclave/inference_engine.py:236-243 | Every cached name exactly once and nothing else, from the least to the most recently used, no more than the limit. |
| InferenceEngine.FeatureDimension | enclave/inference_engine.py:349-374 | The model's own count decides when it has one, and is refused if not positive; otherwise the artifact's counts exactly if it is positive. |
| BundleLoading.LoadsExactly | enclave/inference_engine.py:137-181 | A bundle loads as a model if and only if it names this model, its key unwraps for the tenant it names, its AES-GCM artifact opens under that key with the given associated data (or tenant and name), and the model has a positive feature count, its own before the artifact's. |
| BundleLoading.BadBase64Exactly | enclave/inference_engine.py:144-163 | A load fails for bad base64, and not with ModelLoadError, exactly if the bundle's key or artifact is not base64, or they are, the key unwraps, and a field of the artifact is not. |
| InferenceEngine.LoadKeepsWellFormed | enclave/inference_engine.py:119-187 | A load keeps names unique, stripped and within the limit, changes nothing when it fails, and leaves the model most recent when it succeeds. |
| CacheInclusion.Inclusion | enclave/inference_engine.py:136-253 | For any run of loads, predictions and unloads on two engines, the smaller recency list stays a subsequence of the larger one. |
| CacheInclusion.BiggerNeverMissesMore | enclave/inference_engine.py:136-253 | From two empty engines on, the bigger cache never misses where the smaller one hits. |
| CacheInclusion.CapacityIsTransparent | enclave/inference_engine.py:136-187 | When no two loads of a run would put different models under one name, any two capacities serve the same model wherever both hold the name. |
| CacheInclusion.CapacityCanChangeTheModel | enclave/inference_engine.py:136-187 | Any two loads that conflict, with any other loadable model, give a run after which capacities 1 and 2 serve different models under one name. |
| CacheInclusion.RetrainedModelIsServedByTheSmallEngine | enclave/inference_engine.py:136-187 | A concrete library and run for which the engine of capacity 1 serves the new model and the one of capacity 2 the old one. |
| CacheInclusion.CapacityInvisibleExactly | enclave/inference_engine.py:136-187 | For any set of calls, the capacity is invisible in every run made of them if and only if no two of them conflict or all that load a model load one name. |
| EngineRuns.CallsAreActions | enclave/inference_engine.py:119-253 | A call run alone does what its lock regions do one after the other. |
| EngineRuns.Provenance | enclave/inference_engine.py:136-187 | Under any interleaving every entry under a name stems from a bundle of that name whose key was unwrapped for the bundle's tenant and whose sealed artifact opened, with a positive dimension; names unique, size within the limit. |
| EngineRuns.RetainedExactly | enclave/inference_engine.py:136-214 | Under any interleaving that does not unload it, a cached model stays cached throughout if and only if at every point fewer than max other models have been used since it was, unloaded ones aside. |
| EngineRuns.Retention | enclave/inference_engine.py:136-214 | A name just used stays cached under any interleaving that does not unload it and in which fewer than max other models are hit or successfully stored. |
| EngineRuns.PredictFindsLoadedModel | enclave/server.py:263-274 | From the lock region in which its load ended, in whatever state other threads had made by then, the handler's prediction cannot miss under the same condition. |
| EngineRuns.EvictedAfterMaxOthers | enclave/inference_engine.py:183-187 | The bound is exact: max other models stored in a row push the name out. |
| Dispatch.RpcServer.HandlePredict | enclave/server.py:227-297 | The handler leaves the engine and answers as the server function says, for every request and every exception. |
| Dispatch.RpcServer.DispatchRequest | enclave/server.py:199-225 | The same for every action. |
| Dispatch.MockClient.SendRequest | feature_store/services/enclave_client.py:399-504 | The mock leaves the engine and answers as the mock function says. |
| Dispatch.ToFloatsExactly | enclave/server.py:274-281 | The features are the numbers of the items, one for one and in order; the conversion fails as the first item does that is no number. |
| Dispatch.OtherActions | enclave/server.py:199-225 | `health` echoes and counts, `list_models` lists from the least to the most recently used, anything else is INVALID_ACTION, and nothing changes. |
| Dispatch.AnswersComeFromTheCache | enclave/server.py:249-277 | An answer is what the newest cached model, under the stripped name, infers from the request's numbers in their order; that is the model cached before, whatever bundle came along, and otherwise the one decrypted from the request's bundle; `served_from_cache` is true exactly if no blob came. |
| Dispatch.RefusalsChangeNothing | enclave/server.py:269-288 | A request answered MODEL_NOT_FOUND or DECRYPTION_FAILED leaves the cache and its order as they were. |
| Dispatch.Simulation | feature_store/services/enclave_client.py:399-504 | From equal states mock and server leave the same engine state and order and give the same answer, the two internal codes aside, for every action and every request without a blank name or tenant. |
| Dispatch.SimulationOverRuns | feature_store/services/enclave_client.py:399-504 | The same over whole request sequences. |
| Dispatch.BlankNameAgreement | enclave/server.py:242-243 | With a blank model name they agree exactly if a blob comes without a usable key. |
| Dispatch.BlankTenantAgreement | enclave/server.py:244-245 | With a blank tenant the server refuses, and the two agree exactly if the mock refuses too without touching the cache: no usable key, a bundle field that is not base64, a feature that is no number, or a newest model that fails. |
| Dispatch.BlankTenantDisagreement | enclave/server.py:244-245 | A request with a blank tenant that the server refuses and the mock answers. |
| Dispatch.PaddedNameIsNotFound | enclave/server.py:250-272 | A loaded model asked for without a blob is answered MODEL_NOT_FOUND exactly if the name is padded, and then nothing changes. |
| Dispatch.PredictCallersAgree | feature_store/services/enclave_client.py:299-341 | Callers of `predict` see the same result or exception from both clients exactly if the enclave does not fail internally. |
| Dispatch.NormalizeExactly | feature_store/services/enclave_client.py:300-341 | What a caller of `predict` sees of each response: an answer as it is, its own exception for MODEL_NOT_FOUND, FEATURE_DIMENSION_MISMATCH and INVALID_REQUEST, a communication error for every other code, and a malformed response for anything else. |
| HandlerRuns.AloneIsServerPredict | enclave/server.py:227-297 | The handler whose lock regions may each find another cache answers, when nothing interrupts it, as the server function says. |
| HandlerRuns.InterleavedAnswer | enclave/server.py:249-277 | Among any other threads an answer is what the model infers that is cached under the stripped name when the prediction looks it up, from the request's numbers in their order; `served_from_cache` is true exactly if no blob came, and then the name was cached at the check. |
| HandlerRuns.PredictionEnds | enclave/server.py:274-297 | For a request that reaches its prediction, the response exactly: items that are no numbers come first (INVALID_REQUEST, or INTERNAL_ERROR for an overflow), then a missing model, then a wrong number of features, then what inference gives. |
| HandlerRuns.TurnedAway | enclave/server.py:242-272 | For one that does not, the response exactly: INVALID_REQUEST, MODEL_NOT_FOUND or DECRYPTION_FAILED, by what is missing or does not load. |
| HandlerRuns.NotFoundExactly | enclave/server.py:242-289 | Among any other threads a well-formed request is answered MODEL_NOT_FOUND exactly if it has no blob and the name as given is not cached at the check, or it gets as far as its prediction with numeric features and the stripped name is not cached there. |
| HandlerRuns.LoadedModelIsFound | enclave/server.py:263-289 | A request that brings its bundle is not answered MODEL_NOT_FOUND when nobody unloads the model and fewer than max others are used between the end of its load and its prediction. |
| FeatureTable.DynamoTable.PutFeatureSet | feature_store/services/dynamo_service.py:91-135 | Create if absent, other tenants untouched, including errors that arrive before or after the effect. |
| FeatureTable.DynamoTable.DeleteFeatureSet | feature_store/services/dynamo_service.py:205-236 | Remove if present, other tenants untouched, including errors. |
| FeatureTable.DynamoTable.ListFeatureSets | feature_store/services/dynamo_service.py:169-203 | Following the pages yields the whole listing, however the table cuts it, or DataStoreError exactly if one of the pages it fetches fails. |
| FeatureTable.PageSplits | feature_store/services/dynamo_service.py:184-198 | A page and what the next query finds make up what this query was to find, empty pages included. |
| FeatureTable.ListingIsExact | feature_store/services/dynamo_service.py:186-203 | The listing holds every feature set of the tenant exactly once and no other record. |
| FeatureTable.GetExactly | feature_store/services/dynamo_service.py:137-167 | Whatever is stored under a set's key is returned exactly if its entity type is that of a feature set. |
| FeatureTable.BeforeExactly | feature_store/services/dynamo_service.py:181-191 | Sort keys are ordered by the first character in which they differ, a prefix first. |
| FeatureRuns.RefinesCreateIfAbsent | feature_store/services/dynamo_service.py:91-236 | Put, get and delete act as create-if-absent, read and remove on a map from names to feature sets, also when an error comes back before or after the effect. |
| FeatureRuns.ForbiddenExactly | feature_store/services/feature_service.py:30-110 | A request is forbidden if and only if it names another tenant, whatever is stored, and then nothing changes; an empty tenant id is none. |
| FeatureRuns.OwnRequests | feature_store/services/feature_service.py:30-110 | Every other request acts on the caller's own data and nobody else's: create if absent, read, remove if present, start a listing, and pages that take the next items of it. |
| FeatureRuns.TenantRecordsAreNoFeatures | feature_store/services/dynamo_service.py:342-364 | No feature-set key is a tenant-record key. |
| FeatureRuns.RecordsAreNeverAltered | feature_store/services/dynamo_service.py:91-236 | Tenant records survive every run of feature operations. |
| FeatureRuns.NonInterference | feature_store/services/feature_service.py:30-110 | In every interleaved run a tenant gets the answers, and ends with the data, of the run in which all other tenants' requests are deleted. |
| FeatureRuns.PagedListing | feature_store/services/dynamo_service.py:181-203 | The pages of a listing with no step in between: when it is answered it has returned every feature set exactly once for any page split. |
| FeatureListings.ListingsAreSound | feature_store/services/dynamo_service.py:169-203 | In every run, with any writes between the pages, an answered listing is strictly increasing in the sort key, holds every set that was there throughout, and only sets that were there at some point. |
| FeatureListings.OneWriteSnapshot | feature_store/services/dynamo_service.py:169-203 | With at most one effective write of the tenant between its start and its last page, an answered listing is the whole listing at some point in between. |
| FeatureListings.TwoWritesTear | feature_store/services/dynamo_service.py:181-203 | For any three names in order, a run in which two writes between the pages give a listing of sets that were never there together. |
| FeatureListings.SnapshotsExactly | feature_store/services/dynamo_service.py:169-203 | Every answered listing with at most n writes in between is a snapshot if and only if n is at most one. |

## Left out

- NSM device access, sockets, vsock, signals, the thread pool, environment variables and logging: foreign calls or plumbing.
- Certificate-chain and COSE signature validation: the code does not perform it.
- Python's recursion limit, integers and lengths beyond 64 bits, and lone surrogates: the encoder raises for them; they
  are preconditions here. Frames of 2^32 bytes and more, for which `struct.pack` raises before anything is sent, likewise.
- An `n_features_in_` that `int()` refuses, and a bundle whose JSON nesting exceeds the parser's limit: the library
  parameters answer instead.
- `ParsedAttestationDocument.as_dict`, `EnclaveKMSClient._extract_plaintext`, `health_check`, `list_models` of the
  clients: thin conversions.
- `batch_get_feature_sets`, the decimal conversion and `prepare_feature_vector`: they rest on boto3 and float printing
  or are one sorted comprehension.
- The routers, authentication, configuration, the host-side `KMSService`, the scripts and artifact loading: plumbing that
  would only add easy members.
- RpcProtocol.Step: a connection error of kind "vsock not available" is modelled in `EnclaveClient` only; it ends the
  call before a connection exists. So `RpcCalls.CallAloneIsVerdict` speaks of scripts without it.
- InferenceEngine.Engine: the object's methods run without interference; interleaving is the subject of `EngineRuns`
  and `HandlerRuns`, on values. The same holds for `KmsCache.KmsClient` and `KmsProtocol`, and for `EnclaveClient.Client`
  and `RpcProtocol`.
- Dispatch.Response: message texts and latencies are not modelled; they differ between server and mock.
