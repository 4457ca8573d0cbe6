/** When each operation of a COSE_Sign1 message succeeds, what it leaves behind, and the exact bytes that
    signers and verifiers are given (src/sign1.rs, src/util.rs). */
module Sign1Outcomes {
  import opened Values
  import opened Heads
  import opened Encoding
  import opened Deterministic
  import opened Structures
  import opened Headers
  import opened HeaderLaws
  import opened Sign1
  import opened CoseMaps
  import opened MapForms
  import P = StrictParser

  // ---- preparing --------------------------------------------------------------------------------

  /** The headers can be prepared for this algorithm and key identifier. */
  ghost predicate Preparable(m: Message, alg: Option<Label>, kid: Option<Bytes>, w: World) {
    var q, u := WithAlg(m.protected, alg), WithoutAlg(m.protected, m.unprotected, alg);
    && AlgFits(m.protected, m.unprotected, alg) && KidReadable(q, kid)
    && BucketsValid(q, WithKid(q, u, kid), w.codec.mediaType) && HasBytes(q, w.codec.mediaType)
  }

  /** The bytes of the protected header with the algorithm filled in. */
  function PreparedRaw(m: Message, alg: Option<Label>, w: World): Bytes {
    var r := EncodeProtected(WithAlg(m.protected, alg), w.codec);
    if r.Ok? then r.value else []
  }

  function PreparedMessage(m: Message, alg: Option<Label>, kid: Option<Bytes>, w: World): Message {
    var q, u := WithAlg(m.protected, alg), WithoutAlg(m.protected, m.unprotected, alg);
    Message(q, WithKid(q, u, kid), m.payload, [], PreparedRaw(m, alg, w), Prepared)
  }

  /** What a preparation that failed leaves: the algorithm, and then the identifier, as far as it came. */
  function LeftUnprepared(m: Message, alg: Option<Label>, kid: Option<Bytes>): Message {
    var q, u := WithAlg(m.protected, alg), WithoutAlg(m.protected, m.unprotected, alg);
    if !AlgFits(m.protected, m.unprotected, alg) then m
    else m.(protected := q, unprotected := if KidReadable(q, kid) then WithKid(q, u, kid) else u)
  }

  lemma PreparedIs(m: Message, alg: Option<Label>, kid: Option<Bytes>, w: World)
    ensures var p := PrepareHeadersOf(m, alg, kid, w);
            && (p.outcome.Ok? <==> Preparable(m, alg, kid, w))
            && p.message == if p.outcome.Ok? then PreparedMessage(m, alg, kid, w) else LeftUnprepared(m, alg, kid)
  {
    hide BucketsValid, HasBytes, AlgFits, PrepareHeaders, EncodeProtected;
    PreparingExact(m.protected, m.unprotected, alg, kid, w.codec);
    BytesExact(WithAlg(m.protected, alg), w.codec);
  }

  /** The bytes a signer of the message is given after preparing it for `alg`. */
  function SignedBytes(m: Message, alg: Option<Label>, payload: Bytes, aad: Bytes, w: World): Bytes {
    SigStructure(PreparedRaw(m, alg, w), aad, payload)
  }

  // ---- signing ----------------------------------------------------------------------------------

  /** Signing an embedded payload: when it succeeds, over which bytes, and the message it leaves. */
  lemma SignExact(m: Message, signer: Signer, aad: Bytes, w: World)
    ensures var s := Sign(m, signer, aad, w);
            && (s.outcome.Ok? <==> Preparable(m, signer.alg, signer.kid, w) && m.payload.Some?
                                   && signer.sign(SignedBytes(m, signer.alg, m.payload.value, aad, w)).Ok?)
            && (s.outcome.Ok? ==>
                  s.message == PreparedMessage(m, signer.alg, signer.kid, w).(
                    signature := signer.sign(SignedBytes(m, signer.alg, m.payload.value, aad, w)).value, state := Complete))
            && (s.outcome.Err? ==>
                  s.message == if Preparable(m, signer.alg, signer.kid, w) then PreparedMessage(m, signer.alg, signer.kid, w) else LeftUnprepared(m, signer.alg, signer.kid))
  {
    hide Preparable, PrepareHeadersOf, ToBeSigned, SigStructure;
    PreparedIs(m, signer.alg, signer.kid, w);
    if m.payload.Some? {
      ToBeSignedIs(PreparedRaw(m, signer.alg, w), aad, m.payload.value);
    }
  }

  /** The same for a detached payload, which the message does not keep. */
  lemma SignDetachedExact(m: Message, signer: Signer, payload: Bytes, aad: Bytes, w: World)
    ensures var s := SignDetached(m, signer, payload, aad, w);
            && (s.outcome.Ok? <==> Preparable(m, signer.alg, signer.kid, w) && signer.sign(SignedBytes(m, signer.alg, payload, aad, w)).Ok?)
            && (s.outcome.Ok? ==>
                  s.message == PreparedMessage(m, signer.alg, signer.kid, w).(
                    payload := None, signature := signer.sign(SignedBytes(m, signer.alg, payload, aad, w)).value, state := Complete))
            && (s.outcome.Err? ==>
                  s.message == if Preparable(m, signer.alg, signer.kid, w) then PreparedMessage(m, signer.alg, signer.kid, w) else LeftUnprepared(m, signer.alg, signer.kid))
  {
    hide Preparable, PrepareHeadersOf, ToBeSigned, SigStructure;
    PreparedIs(m, signer.alg, signer.kid, w);
    ToBeSignedIs(PreparedRaw(m, signer.alg, w), aad, payload);
  }

  /** Preparing for an external signer: the bytes returned and the message left. */
  lemma PrepareExact(m: Message, alg: Option<Label>, kid: Option<Bytes>, aad: Bytes, w: World)
    ensures var s := PrepareSignature(m, alg, kid, aad, w);
            && (s.outcome.Ok? <==> Preparable(m, alg, kid, w) && m.payload.Some?)
            && (s.outcome.Ok? ==> s == Step(PreparedMessage(m, alg, kid, w), Ok(SignedBytes(m, alg, m.payload.value, aad, w))))
            && (s.outcome.Err? ==>
                  s.message == if Preparable(m, alg, kid, w) then PreparedMessage(m, alg, kid, w) else LeftUnprepared(m, alg, kid))
  {
    hide Preparable, PrepareHeadersOf, ToBeSigned, SigStructure;
    PreparedIs(m, alg, kid, w);
    if m.payload.Some? {
      ToBeSignedIs(PreparedRaw(m, alg, w), aad, m.payload.value);
    }
  }

  lemma PrepareDetachedExact(m: Message, alg: Option<Label>, kid: Option<Bytes>, payload: Bytes, aad: Bytes, w: World)
    ensures var s := PrepareDetached(m, alg, kid, payload, aad, w);
            && (s.outcome.Ok? <==> Preparable(m, alg, kid, w))
            && (s.outcome.Ok? ==>
                  s == Step(PreparedMessage(m, alg, kid, w).(payload := None), Ok(SignedBytes(m, alg, payload, aad, w))))
            && (s.outcome.Err? ==> s.message == LeftUnprepared(m, alg, kid))
  {
    hide Preparable, PrepareHeadersOf, ToBeSigned, SigStructure;
    PreparedIs(m, alg, kid, w);
    ToBeSignedIs(PreparedRaw(m, alg, w), aad, payload);
  }

  // ---- storing a signature ----------------------------------------------------------------------

  /** The stored bytes still authenticate the public header. */
  ghost predicate StillAuthentic(m: Message, w: World) {
    && BucketsValid(m.protected, m.unprotected, w.codec.mediaType)
    && HasBytes(m.protected, w.codec.mediaType) && Authenticates(m.raw, m.protected, w.codec)
  }

  lemma LayerExact(m: Message, w: World)
    requires Sane(w.codec.norm)
    ensures ValidateLayer(m.protected, m.unprotected, m.raw, w.codec).Ok? <==> StillAuthentic(m, w)
  {
    hide ValidateBuckets, ValidateProtectedState, BucketsValid, HasBytes, Authenticates, EncodeProtected;
    BucketsExact(m.protected, m.unprotected, w.codec.mediaType);
    BytesExact(m.protected, w.codec);
    StateExact(m.protected, m.raw, w.codec);
  }

  /** A signature is stored with the bytes of the header of a new message, or with the bytes stored
      before if they still authenticate the header. */
  lemma SetSignatureExact(m: Message, signature: Bytes, w: World)
    requires Sane(w.codec.norm)
    ensures var s := SetSignature(m, signature, w);
            && (s.outcome.Ok? <==>
                  if m.state == New then BucketsValid(m.protected, m.unprotected, w.codec.mediaType) && HasBytes(m.protected, w.codec.mediaType)
                  else StillAuthentic(m, w))
            && (s.outcome.Ok? ==>
                  s.message == m.(raw := if m.state == New then PreparedRaw(m, None, w) else m.raw, signature := signature, state := Complete))
            && (s.outcome.Err? ==> s.message == m)
  {
    hide ValidateBuckets, ValidateLayer, BucketsValid, HasBytes, StillAuthentic, EncodeProtected;
    BucketsExact(m.protected, m.unprotected, w.codec.mediaType);
    BytesExact(m.protected, w.codec);
    LayerExact(m, w);
  }

  // ---- verifying --------------------------------------------------------------------------------

  /** A verifier may look at the signature: the stored bytes authenticate a valid header, whose critical
      labels are known and whose algorithm is the verifier's. */
  ghost predicate Verifiable(m: Message, verifier: Verifier, w: World) {
    && StillAuthentic(m, w)
    && CritKnown(m.protected, verifier.understood, w.counterSignatures(m.protected))
    && AlgFits(m.protected, m.unprotected, verifier.alg)
  }

  lemma HandedExact(m: Message, verifier: Verifier, payload: Bytes, aad: Bytes, w: World)
    requires Sane(w.codec.norm)
    ensures var r := Handed(m, verifier, payload, aad, w);
            && (r.Ok? <==> Verifiable(m, verifier, w))
            && (r.Ok? ==> r.value == (SigStructure(m.raw, aad, payload), m.signature))
  {
    hide ValidateLayer, EnsureCritUnderstood, CheckProtectedAlg, CritKnown, AlgFits, ToBeSigned, SigStructure, CommonValid;
    LayerExact(m, w);
    CritExact(m.protected, verifier.understood, w.codec, w.counterSignatures);
    AlgCheckExact(m.protected, m.unprotected, verifier.alg);
    ToBeSignedIs(m.raw, aad, payload);
  }

  /** Verifying an embedded payload succeeds exactly on a complete message that holds one, is
      verifiable, and whose signature the verifier accepts over the Sig_structure. */
  lemma VerifyExact(m: Message, verifier: Verifier, aad: Bytes, w: World)
    requires Sane(w.codec.norm)
    ensures VerifyEmbedded(m, verifier, aad, w).Ok? <==>
            && m.state == Complete && m.payload.Some? && Verifiable(m, verifier, w)
            && verifier.verify(SigStructure(m.raw, aad, m.payload.value), m.signature).Ok?
  {
    hide Handed, Verifiable, SigStructure;
    if m.payload.Some? {
      HandedExact(m, verifier, m.payload.value, aad, w);
    }
  }

  /** Verifying a detached payload succeeds exactly on a complete message that holds none. */
  lemma VerifyDetachedExact(m: Message, verifier: Verifier, payload: Bytes, aad: Bytes, w: World)
    requires Sane(w.codec.norm)
    ensures VerifyDetached(m, verifier, payload, aad, w).Ok? <==>
            && m.state == Complete && m.payload.None? && Verifiable(m, verifier, w)
            && verifier.verify(SigStructure(m.raw, aad, payload), m.signature).Ok?
  {
    hide Handed, Verifiable, SigStructure;
    HandedExact(m, verifier, payload, aad, w);
  }

  // ---- the wire ---------------------------------------------------------------------------------

  /** The bytes behind the tags: an array of four, the payload null if it is detached. */
  predicate WireBytes(m: Message, unprotected: Bytes, bytes: Bytes)
    requires |m.raw| < TWO_64 && |m.signature| < TWO_64 && (m.payload.Some? ==> |m.payload.value| < TWO_64)
  {
    bytes == [0x84] + ByteItem(m.raw) + unprotected + (if m.payload.Some? then ByteItem(m.payload.value) else [0xf6]) + ByteItem(m.signature)
  }

  /** A message is written exactly when it is complete, its stored bytes authenticate a valid header,
      and the unprotected header can be counted; and it is written behind the prefix. */
  lemma EncodingExact(m: Message, prefix: Bytes, w: World)
    requires Sane(w.codec.norm)
    requires |m.raw| < TWO_64 && |m.signature| < TWO_64 && (m.payload.Some? ==> |m.payload.value| < TWO_64)
    ensures var r := EncodeMessage(m, prefix, w);
            && (r.Ok? <==> m.state == Complete && StillAuthentic(m, w) && MapFits(m.unprotected))
            && (r.Ok? ==> EncodeMap(m.unprotected, w.codec.norm).Ok? && prefix <= r.value
                          && WireBytes(m, EncodeMap(m.unprotected, w.codec.norm).value, r.value[|prefix|..]))
  {
    hide ValidateLayer, ValidateCommon, CommonValid, Authenticates, HasBytes;
    LayerExact(m, w);
    CommonExact(m.unprotected, w.codec.mediaType);
    FourLead();
    EncodedBytes(m.raw);
    EncodedBytes(m.signature);
    if m.payload.Some? {
      EncodedBytes(m.payload.value);
    }
  }

  lemma FourLead()
    ensures ShortHead(4, 4) == [0x84] && Encode(Simple(22)) == [0xf6]
  {
    HeadIs(4, 4);
    EncodeExact(Simple(22));
  }

  lemma EncodedBytes(b: Bytes)
    requires |b| < TWO_64
    ensures EncodeBytes(b) == ByteItem(b)
  {
    EncodeExact(ByteString(b));
  }

  /** An unprotected header is read exactly when the library reads it as a valid bucket. */
  lemma ReadHeaderExact(raw: Bytes, codec: Codec)
    ensures ReadHeader(raw, codec).Ok? <==> codec.read(raw).Ok? && CommonValid(codec.read(raw).value, codec.mediaType)
    ensures ReadHeader(raw, codec).Ok? ==> ReadHeader(raw, codec) == codec.read(raw)
  {
    if codec.read(raw).Ok? {
      CommonExact(codec.read(raw).value, codec.mediaType);
    }
  }

  /** Input becomes a message exactly when its members are read, the protected bytes decode and the two
      buckets are valid; the message is then complete and holds the members. */
  lemma FromSliceExact(data: Bytes, limits: P.CborLimits, w: World)
    ensures var r, wire := FromSlice(data, limits, w), ReadWire(data, limits, w.codec);
            && (r.Ok? <==> wire.Ok? && DecodeProtected(wire.value.protected, w.codec).Ok?
                           && BucketsValid(DecodeProtected(wire.value.protected, w.codec).value, wire.value.unprotected, w.codec.mediaType))
            && (r.Ok? ==> r.value == Message(DecodeProtected(wire.value.protected, w.codec).value, wire.value.unprotected,
                                             wire.value.payload, wire.value.signature, wire.value.protected, Complete))
  {
    hide ReadWire, DecodeProtected, ValidateBuckets, BucketsValid;
    var wire := ReadWire(data, limits, w.codec);
    if wire.Ok? && DecodeProtected(wire.value.protected, w.codec).Ok? {
      BucketsExact(DecodeProtected(wire.value.protected, w.codec).value, wire.value.unprotected, w.codec.mediaType);
    }
  }
}
