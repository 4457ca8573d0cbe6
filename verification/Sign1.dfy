/** COSE_Sign1 messages (RFC 9052, section 4.2): a message object whose headers and payload are public
    and may be edited at any time, next to the authenticated bytes and the signature it caches
    (src/sign1.rs, src/util.rs). Signers and verifiers are arbitrary functions. */
module Sign1 {
  import opened Values
  import opened Heads
  import opened Encoding
  import opened Headers
  import S = Structures
  import P = StrictParser
  import B = MessageBodies
  import Tags

  datatype OperationState = New | Prepared | Complete

  datatype Signer = Signer(alg: Option<Label>, kid: Option<Bytes>, sign: Bytes -> Result<Bytes>)

  datatype Verifier = Verifier(alg: Option<Label>, understood: seq<Label>, verify: (Bytes, Bytes) -> Result<()>)

  datatype Wire = Wire(protected: Bytes, unprotected: Header, payload: Option<Bytes>, signature: Bytes)

  /** The header codec and the countersignature decoder. */
  datatype World = World(codec: Codec, counterSignatures: Header -> Result<()>)

  const TAG: nat := 18

  datatype Message = Message(
    protected: Header,
    unprotected: Header,
    payload: Option<Bytes>,
    signature: Bytes,
    raw: Bytes,
    state: OperationState)

  function NewMessage(payload: Option<Bytes>): Message {
    Message(map[], map[], payload, [], [], New)
  }

  /** The bytes to be signed. No byte string in memory reaches the 2^64 bytes a head cannot count. */
  function ToBeSigned(raw: Bytes, aad: Bytes, payload: Bytes): Bytes {
    var v := S.ValueOf(S.Signature1(raw, aad, payload));
    if Encodable(v) then Encode(v) else []
  }

  /** They are the Sig_structure of RFC 9052, section 4.4. */
  lemma ToBeSignedIs(raw: Bytes, aad: Bytes, payload: Bytes)
    ensures ToBeSigned(raw, aad, payload) == S.SigStructure(raw, aad, payload)
  {
    S.SigStructureWritten(raw, aad, payload);
  }

  /** What an operation leaves behind and returns. */
  datatype Step<+T> = Step(message: Message, outcome: Result<T>)

  function PrepareHeadersOf(m: Message, alg: Option<Label>, kid: Option<Bytes>, w: World): Step<()> {
    var p := PrepareHeaders(m.protected, m.unprotected, alg, kid, w.codec);
    var m1 := m.(protected := p.protected, unprotected := p.unprotected);
    match p.outcome
    case Err(e) => Step(m1, Err(e))
    case Ok(raw) => Step(m1.(raw := raw, state := Prepared, signature := []), Ok(()))
  }

  function PrepareSignature(m: Message, alg: Option<Label>, kid: Option<Bytes>, aad: Bytes, w: World): Step<Bytes> {
    var p := PrepareHeadersOf(m, alg, kid, w);
    match p.outcome
    case Err(e) => Step(p.message, Err(e))
    case Ok(_) =>
      match p.message.payload
      case None => Step(p.message, Err(Custom))
      case Some(payload) => Step(p.message, Ok(ToBeSigned(p.message.raw, aad, payload)))
  }

  function PrepareDetached(m: Message, alg: Option<Label>, kid: Option<Bytes>, payload: Bytes, aad: Bytes, w: World): Step<Bytes> {
    var p := PrepareHeadersOf(m, alg, kid, w);
    match p.outcome
    case Err(e) => Step(p.message, Err(e))
    case Ok(_) => Step(p.message.(payload := None), Ok(ToBeSigned(p.message.raw, aad, payload)))
  }

  /** Rechecks prepared bytes, or encodes the protected header of a new message. */
  function SyncRaw(m: Message, w: World): Result<Bytes> {
    if m.state != New then
      var _ :- ValidateLayer(m.protected, m.unprotected, m.raw, w.codec);
      Ok(m.raw)
    else
      var _ :- ValidateBuckets(m.protected, m.unprotected, w.codec.mediaType);
      EncodeProtected(m.protected, w.codec)
  }

  function SetSignature(m: Message, signature: Bytes, w: World): Step<()> {
    match SyncRaw(m, w)
    case Err(e) => Step(m, Err(e))
    case Ok(raw) => Step(m.(raw := raw, signature := signature, state := Complete), Ok(()))
  }

  function Completed(m: Message, signature: Result<Bytes>): Step<()> {
    match signature
    case Err(e) => Step(m, Err(e))
    case Ok(bytes) => Step(m.(signature := bytes, state := Complete), Ok(()))
  }

  function Sign(m: Message, signer: Signer, aad: Bytes, w: World): Step<()> {
    var p := PrepareHeadersOf(m, signer.alg, signer.kid, w);
    if p.outcome.Err? then p else
    match p.message.payload
    case None => Step(p.message, Err(Custom))
    case Some(payload) => Completed(p.message, signer.sign(ToBeSigned(p.message.raw, aad, payload)))
  }

  function SignDetached(m: Message, signer: Signer, payload: Bytes, aad: Bytes, w: World): Step<()> {
    var p := PrepareHeadersOf(m, signer.alg, signer.kid, w);
    if p.outcome.Err? then p else
    var done := Completed(p.message, signer.sign(ToBeSigned(p.message.raw, aad, payload)));
    if done.outcome.Err? then done else done.(message := done.message.(payload := None))
  }

  /** Reads a header map inside a body whose map keys the strict pass has already told apart. */
  function ReadHeader(raw: Bytes, codec: Codec): Result<Header> {
    match codec.read(raw)
    case Err(_) => Err(Cbor)
    case Ok(h) => if ValidateCommon(h, codec.mediaType).Ok? then Ok(h) else Err(Cbor)
  }

  function ReadPayload(data: Bytes, item: P.Item): Result<Option<Bytes>> {
    if item.kind == P.SimpleKind(22) then Ok(None) else
    var bytes :- B.BytesOf(data, item);
    Ok(Some(bytes))
  }

  /** The four members of the body inside the wrapper tags. */
  function ReadWire(data: Bytes, limits: P.CborLimits, codec: Codec): Result<Wire> {
    var item :- P.Root(data, B.Strict(limits, codec.reencode));
    var body :- B.BodyItem(item, TAG);
    ReadMembers(data, body.children, codec)
  }

  function ReadMembers(data: Bytes, members: seq<P.Item>, codec: Codec): Result<Wire> {
    if |members| != 4 then Err(UnexpectedType) else
    var protected :- B.BytesOf(data, members[0]);
    var raw :- B.Slice(data, members[1]);
    var unprotected :- ReadHeader(raw, codec);
    var payload :- ReadPayload(data, members[2]);
    var signature :- B.BytesOf(data, members[3]);
    Ok(Wire(protected, unprotected, payload, signature))
  }

  function FromSlice(data: Bytes, limits: P.CborLimits, w: World): Result<Message> {
    var wire :- ReadWire(data, limits, w.codec);
    FromWire(wire, w)
  }

  function FromWire(wire: Wire, w: World): Result<Message> {
    var protected :- DecodeProtected(wire.protected, w.codec);
    var _ :- ValidateBuckets(protected, wire.unprotected, w.codec.mediaType);
    Ok(Message(protected, wire.unprotected, wire.payload, wire.signature, wire.protected, Complete))
  }

  /** What the verifier is handed: the bytes and the signature. */
  function Handed(m: Message, verifier: Verifier, payload: Bytes, aad: Bytes, w: World): Result<(Bytes, Bytes)> {
    var _ :- ValidateLayer(m.protected, m.unprotected, m.raw, w.codec);
    var _ :- EnsureCritUnderstood(m.protected, verifier.understood, w.codec, w.counterSignatures);
    var _ :- CheckProtectedAlg(m.protected, m.unprotected, verifier.alg);
    Ok((ToBeSigned(m.raw, aad, payload), m.signature))
  }

  function VerifyPayload(m: Message, verifier: Verifier, payload: Bytes, aad: Bytes, w: World): Result<()> {
    var handed :- Handed(m, verifier, payload, aad, w);
    verifier.verify(handed.0, handed.1)
  }

  function VerifyEmbedded(m: Message, verifier: Verifier, aad: Bytes, w: World): Result<()> {
    if m.state != Complete then Err(InvalidState) else
    match m.payload
    case None => Err(Custom)
    case Some(payload) => VerifyPayload(m, verifier, payload, aad, w)
  }

  function VerifyDetached(m: Message, verifier: Verifier, payload: Bytes, aad: Bytes, w: World): Result<()> {
    if m.state != Complete then Err(InvalidState)
    else if m.payload.Some? then Err(Custom)
    else VerifyPayload(m, verifier, payload, aad, w)
  }

  function EncodeBytes(b: Bytes): Bytes {
    if Encodable(ByteString(b)) then Encode(ByteString(b)) else []
  }

  function EncodePayload(payload: Option<Bytes>): Bytes {
    match payload
    case None => Encode(NULL)
    case Some(b) => EncodeBytes(b)
  }

  /** The prefix of a tagged message, or of a tagged message inside a CWT tag. */
  function TagPrefix(cwt: bool): Bytes {
    if cwt then Tags.CWT_SIGN1_PREFIX else Tags.SIGN1_PREFIX
  }

  /** The message on the wire behind `prefix`: an array of four. */
  function EncodeMessage(m: Message, prefix: Bytes, w: World): Result<Bytes> {
    if m.state != Complete then Err(InvalidState) else
    var _ :- ValidateLayer(m.protected, m.unprotected, m.raw, w.codec);
    var unprotected :- EncodeHeader(m.unprotected, w.codec);
    Ok(Tags.WithTag(prefix, ShortHead(4, 4) + EncodeBytes(m.raw) + unprotected + EncodePayload(m.payload) + EncodeBytes(m.signature)))
  }

  // ---- the message object -----------------------------------------------------------------------

  class Sign1Message {
    var protected: Header
    var unprotected: Header
    var payload: Option<Bytes>
    var signature: Bytes
    var raw: Bytes
    var state: OperationState
    const world: World

    ghost function Now(): Message
      reads this
    {
      Message(protected, unprotected, payload, signature, raw, state)
    }

    constructor (payload: Option<Bytes>, world: World)
      ensures Now() == NewMessage(payload) && this.world == world
    {
      this.protected := map[];
      this.unprotected := map[];
      this.payload := payload;
      this.signature := [];
      this.raw := [];
      this.state := New;
      this.world := world;
    }

    method EnsureProtectedAlg(alg: Option<Label>) returns (r: Result<()>)
      modifies this`protected, this`unprotected
      ensures Filled(protected, unprotected, r) == Headers.EnsureProtectedAlg(old(protected), old(unprotected), alg)
    {
      if alg.None? {
        return Ok(());
      }
      var own :- Alg(protected);
      if own.Some? {
        return if own.value != alg.value then Err(AlgorithmMismatch) else Ok(());
      }
      var other :- Alg(unprotected);
      if other.Some? {
        if other.value != alg.value {
          return Err(AlgorithmMismatch);
        }
        unprotected := unprotected - {ALG};
      }
      protected := protected[ALG := ValueOfAlg(alg.value)];
      r := Ok(());
    }

    method EnsureUnprotectedKid(kid: Option<Bytes>) returns (r: Result<()>)
      modifies this`unprotected
      ensures Filled(protected, unprotected, r) == Headers.EnsureUnprotectedKid(protected, old(unprotected), kid)
    {
      if kid.Some? {
        var existing :- Kid(protected);
        if existing.None? && KID !in unprotected {
          unprotected := unprotected[KID := ByteString(kid.value)];
        }
      }
      r := Ok(());
    }

    method PrepareSignatureHeaders(alg: Option<Label>, kid: Option<Bytes>) returns (r: Result<()>)
      modifies this
      ensures Step(Now(), r) == PrepareHeadersOf(old(Now()), alg, kid, world)
    {
      var _ :- EnsureProtectedAlg(alg);
      var _ :- EnsureUnprotectedKid(kid);
      var _ :- ValidateBuckets(protected, unprotected, world.codec.mediaType);
      raw :- EncodeProtected(protected, world.codec);
      state := Prepared;
      signature := [];
      r := Ok(());
    }

    method Prepare(alg: Option<Label>, kid: Option<Bytes>, aad: Bytes) returns (r: Result<Bytes>)
      modifies this
      ensures Step(Now(), r) == PrepareSignature(old(Now()), alg, kid, aad, world)
      ensures r.Ok? ==> old(payload).Some? && r.value == S.SigStructure(raw, aad, old(payload).value)
    {
      hide ToBeSigned, S.SigStructure;
      var _ :- PrepareSignatureHeaders(alg, kid);
      if payload.None? {
        return Err(Custom);
      }
      ToBeSignedIs(raw, aad, payload.value);
      r := Ok(ToBeSigned(raw, aad, payload.value));
    }

    method PrepareDetachedSignature(alg: Option<Label>, kid: Option<Bytes>, detached: Bytes, aad: Bytes) returns (r: Result<Bytes>)
      modifies this
      ensures Step(Now(), r) == PrepareDetached(old(Now()), alg, kid, detached, aad, world)
      ensures r.Ok? ==> r.value == S.SigStructure(raw, aad, detached)
    {
      hide ToBeSigned, S.SigStructure;
      var _ :- PrepareSignatureHeaders(alg, kid);
      var tbs := ToBeSigned(raw, aad, detached);
      ToBeSignedIs(raw, aad, detached);
      payload := None;
      r := Ok(tbs);
    }

    method StoreSignature(bytes: Bytes) returns (r: Result<()>)
      modifies this
      ensures Step(Now(), r) == SetSignature(old(Now()), bytes, world)
    {
      if state != New {
        var _ :- ValidateLayer(protected, unprotected, raw, world.codec);
      } else {
        var _ :- ValidateBuckets(protected, unprotected, world.codec.mediaType);
        raw :- EncodeProtected(protected, world.codec);
      }
      signature := bytes;
      state := Complete;
      r := Ok(());
    }

    method SignWith(signer: Signer, aad: Bytes) returns (r: Result<()>)
      modifies this
      ensures Step(Now(), r) == Sign(old(Now()), signer, aad, world)
      ensures r.Ok? ==> old(payload).Some? && signer.sign(S.SigStructure(raw, aad, old(payload).value)) == Ok(signature)
    {
      hide ToBeSigned, S.SigStructure;
      var _ :- PrepareSignatureHeaders(signer.alg, signer.kid);
      if payload.None? {
        return Err(Custom);
      }
      ToBeSignedIs(raw, aad, payload.value);
      signature :- signer.sign(ToBeSigned(raw, aad, payload.value));
      state := Complete;
      r := Ok(());
    }

    method SignDetachedWith(signer: Signer, detached: Bytes, aad: Bytes) returns (r: Result<()>)
      modifies this
      ensures Step(Now(), r) == SignDetached(old(Now()), signer, detached, aad, world)
      ensures r.Ok? ==> signer.sign(S.SigStructure(raw, aad, detached)) == Ok(signature)
    {
      hide ToBeSigned, S.SigStructure;
      var _ :- PrepareSignatureHeaders(signer.alg, signer.kid);
      ToBeSignedIs(raw, aad, detached);
      signature :- signer.sign(ToBeSigned(raw, aad, detached));
      state := Complete;
      payload := None;
      r := Ok(());
    }
  }
}
