/** The lifecycle of a COSE_Sign1 message over every run of its operations, interleaved with arbitrary
    edits of its public headers and payload. */
module Sign1Laws {
  import opened Values
  import opened Deterministic
  import opened Structures
  import opened Headers
  import opened HeaderLaws
  import opened Sign1
  import opened Sign1Outcomes
  import opened Sign1Wire
  import opened StrictParser

  datatype Operation =
    | EditProtected(h: Header)
    | EditUnprotected(h: Header)
    | EditPayload(p: Option<Bytes>)
    | DoPrepare(alg: Option<Label>, kid: Option<Bytes>, aad: Bytes)
    | DoPrepareDetached(alg: Option<Label>, kid: Option<Bytes>, detached: Bytes, aad: Bytes)
    | DoSetSignature(bytes: Bytes)
    | DoSign(signer: Signer, aad: Bytes)
    | DoSignDetached(signer: Signer, detached: Bytes, aad: Bytes)
    | DoDecode(data: Bytes, limits: CborLimits)

  function Drop<T>(s: Step<T>): Step<()> {
    Step(s.message, match s.outcome case Ok(_) => Ok(()) case Err(e) => Err(e))
  }

  function Perform(m: Message, op: Operation, w: World): Step<()> {
    match op
    case EditProtected(h) => Step(m.(protected := h), Ok(()))
    case EditUnprotected(h) => Step(m.(unprotected := h), Ok(()))
    case EditPayload(p) => Step(m.(payload := p), Ok(()))
    case DoPrepare(alg, kid, aad) => Drop(PrepareSignature(m, alg, kid, aad, w))
    case DoPrepareDetached(alg, kid, detached, aad) => Drop(PrepareDetached(m, alg, kid, detached, aad, w))
    case DoSetSignature(bytes) => SetSignature(m, bytes, w)
    case DoSign(signer, aad) => Sign(m, signer, aad, w)
    case DoSignDetached(signer, detached, aad) => SignDetached(m, signer, detached, aad, w)
    case DoDecode(data, limits) =>
      match FromSlice(data, limits, w)
      case Ok(decoded) => Step(decoded, Ok(()))
      case Err(e) => Step(m, Err(e))
  }

  /** The message after a run of operations; a failed one leaves behind what it already changed. */
  function Run(m: Message, ops: seq<Operation>, w: World): Message
    decreases |ops|
  {
    if ops == [] then m else Perform(Run(m, ops[..|ops| - 1], w), ops[|ops| - 1], w).message
  }

  // ---- the invariant ----------------------------------------------------------------------------

  /** Nothing is signed before the message is complete, and nothing is authenticated before it is
      prepared. */
  predicate Consistent(m: Message) {
    && (m.state == New ==> m.raw == [])
    && (m.state != Complete ==> m.signature == [])
  }

  lemma PerformConsistent(m: Message, op: Operation, w: World)
    requires Consistent(m)
    ensures Consistent(Perform(m, op, w).message)
  {
    hide ValidateLayer, ValidateProtectedState, ValidateBuckets, EncodeProtected, DecodeProtected, ToBeSigned;
  }

  lemma {:induction false} RunsConsistent(payload: Option<Bytes>, ops: seq<Operation>, w: World)
    ensures Consistent(Run(NewMessage(payload), ops, w))
    decreases |ops|
  {
    if ops != [] {
      RunsConsistent(payload, ops[..|ops| - 1], w);
      PerformConsistent(Run(NewMessage(payload), ops[..|ops| - 1], w), ops[|ops| - 1], w);
    }
  }

  /** The operations that store a signature. */
  predicate Signs(op: Operation) {
    op.DoSetSignature? || op.DoSign? || op.DoSignDetached? || op.DoDecode?
  }

  /** Operation `i` of the run stored the signature and the authenticated bytes the message now has,
      and the two belong together. */
  ghost predicate PairedBy(start: Message, ops: seq<Operation>, w: World, i: nat, now: Message)
    requires i < |ops|
  {
    var before, after := Run(start, ops[..i], w), Run(start, ops[..i + 1], w);
    && Signs(ops[i]) && Perform(before, ops[i], w) == Step(after, Ok(()))
    && after.state == Complete && after.signature == now.signature && after.raw == now.raw
    && Belongs(before, ops[i], after, w)
  }

  /** The signature an operation stores is over, or came with, the bytes it stores. */
  ghost predicate Belongs(before: Message, op: Operation, after: Message, w: World) {
    match op
    case DoSetSignature(bytes) =>
      && after.signature == bytes
      && (before.state == New ==> EncodeProtected(before.protected, w.codec) == Ok(after.raw))
      && (before.state != New ==> after.raw == before.raw && ValidateLayer(before.protected, before.unprotected, before.raw, w.codec).Ok?)
    case DoSign(signer, aad) =>
      before.payload.Some? && signer.sign(SigStructure(after.raw, aad, before.payload.value)) == Ok(after.signature)
    case DoSignDetached(signer, detached, aad) =>
      signer.sign(SigStructure(after.raw, aad, detached)) == Ok(after.signature)
    case DoDecode(data, limits) => CameWith(data, limits, after, w.codec)
    case _ => false
  }

  lemma SigningBelongs(m: Message, op: Operation, w: World)
    requires Signs(op) && Perform(m, op, w).outcome.Ok?
    ensures Perform(m, op, w).message.state == Complete && Belongs(m, op, Perform(m, op, w).message, w)
  {
    hide Sign, SignDetached, SigStructure, FromSlice, CameWith, EncodeProtected, ValidateLayer;
    match op
    case DoSign(signer, aad) => SignExact(m, signer, aad, w);
    case DoSignDetached(signer, detached, aad) => SignDetachedExact(m, signer, detached, aad, w);
    case DoDecode(data, limits) => DecodedCameWith(data, limits, w);
    case _ =>
  }

  /** An operation that leaves a message complete stored its signature just now, or kept the old
      signature with the old bytes. */
  lemma CompleteOrKept(m: Message, op: Operation, w: World)
    requires Perform(m, op, w).message.state == Complete
    ensures (Signs(op) && Perform(m, op, w).outcome.Ok?)
            || (m.state == Complete && Perform(m, op, w).message.raw == m.raw && Perform(m, op, w).message.signature == m.signature)
  {
  }

  lemma StepDone(s: Step<()>)
    requires s.outcome.Ok?
    ensures s == Step(s.message, Ok(()))
  {
    assert s.outcome.value == ();
  }

  /** Over every run, a complete message has a signature that belongs to its authenticated bytes. */
  lemma {:induction false} CompleteIsPaired(payload: Option<Bytes>, ops: seq<Operation>, w: World) returns (i: nat)
    requires Run(NewMessage(payload), ops, w).state == Complete
    ensures i < |ops| && PairedBy(NewMessage(payload), ops, w, i, Run(NewMessage(payload), ops, w))
    decreases |ops|
  {
    hide Perform;
    var start, n := NewMessage(payload), |ops| - 1;
    var before := Run(start, ops[..n], w);
    assert ops[..n + 1] == ops;
    CompleteOrKept(before, ops[n], w);
    if Signs(ops[n]) && Perform(before, ops[n], w).outcome.Ok? {
      SigningBelongs(before, ops[n], w);
      StepDone(Perform(before, ops[n], w));
      i := n;
    } else {
      i := CompleteIsPaired(payload, ops[..n], w);
      assert ops[..n][..i] == ops[..i] && ops[..n][..i + 1] == ops[..i + 1];
    }
  }

  // ---- verifying what was signed ----------------------------------------------------------------

  /** The operation stores new authenticated bytes: it prepares the headers, or decodes. */
  predicate Reprepares(m: Message, op: Operation, w: World) {
    match op
    case DoPrepare(alg, kid, _) => PrepareHeadersOf(m, alg, kid, w).outcome.Ok?
    case DoPrepareDetached(alg, kid, _, _) => PrepareHeadersOf(m, alg, kid, w).outcome.Ok?
    case DoSign(signer, _) => PrepareHeadersOf(m, signer.alg, signer.kid, w).outcome.Ok?
    case DoSignDetached(signer, _, _) => PrepareHeadersOf(m, signer.alg, signer.kid, w).outcome.Ok?
    case DoDecode(data, limits) => FromSlice(data, limits, w).Ok?
    case _ => false
  }

  /** Edits, failed operations and stored signatures in any order; nothing prepares anew. */
  ghost predicate Undisturbed(m: Message, ops: seq<Operation>, w: World) {
    forall i :: 0 <= i < |ops| ==> !Reprepares(Run(m, ops[..i], w), ops[i], w)
  }

  /** No signature was stored from outside. */
  ghost predicate NoneStored(ops: seq<Operation>) {
    forall i :: 0 <= i < |ops| ==> !ops[i].DoSetSignature?
  }

  lemma StepKeepsRaw(m: Message, op: Operation, w: World)
    requires m.state != New && !Reprepares(m, op, w)
    ensures var m1 := Perform(m, op, w).message;
            && m1.raw == m.raw && m1.state != New && (m.state == Complete ==> m1.state == Complete)
            && (!op.DoSetSignature? ==> m1.signature == m.signature)
  {
  }

  lemma {:induction false} UndisturbedKeepsRaw(m: Message, ops: seq<Operation>, w: World)
    requires m.state != New && Undisturbed(m, ops, w)
    ensures var m1 := Run(m, ops, w);
            && m1.raw == m.raw && m1.state != New && (m.state == Complete ==> m1.state == Complete)
            && (NoneStored(ops) ==> m1.signature == m.signature)
    decreases |ops|
  {
    if ops != [] {
      var init := ops[..|ops| - 1];
      forall i | 0 <= i < |init| ensures !Reprepares(Run(m, init[..i], w), init[i], w) {
        assert init[..i] == ops[..i] && init[i] == ops[i];
      }
      UndisturbedKeepsRaw(m, init, w);
      StepKeepsRaw(Run(m, init, w), ops[|ops| - 1], w);
      assert NoneStored(ops) ==> NoneStored(init);
    }
  }

  /** The verifier is handed `signed` and the message's signature, or is not reached. */
  ghost predicate Hands(now: Message, verifier: Verifier, payload: Bytes, aad: Bytes, w: World, signed: Bytes) {
    var r := Handed(now, verifier, payload, aad, w);
    && (r.Ok? ==> r.value == (signed, now.signature) && VerifyPayload(now, verifier, payload, aad, w) == verifier.verify(signed, now.signature))
    && (r.Err? ==> VerifyPayload(now, verifier, payload, aad, w) == Err(r.error))
  }

  /** Once a message was prepared, whatever is edited, fails or is stored afterwards, verifying hands
      over the bytes that were to be signed then. */
  lemma HandsPreparedBytes(m: Message, alg: Option<Label>, start: Message, ops: seq<Operation>, verifier: Verifier, payload: Bytes, aad: Bytes, w: World)
    requires start.state != New && start.raw == PreparedRaw(m, alg, w) && Undisturbed(start, ops, w)
    ensures Hands(Run(start, ops, w), verifier, payload, aad, w, SignedBytes(m, alg, payload, aad, w))
  {
    hide Run, Perform, Undisturbed, PreparedRaw, ToBeSigned, SigStructure;
    UndisturbedKeepsRaw(start, ops, w);
    ToBeSignedIs(start.raw, aad, payload);
  }

  /** Whatever happens after a signature was made, short of preparing or decoding anew, verifying the
      same payload with the same additional data hands the verifier exactly the bytes the signer was
      given, with the signature it returned unless another one was stored, or fails before it. */
  lemma VerifyHandsSignedBytes(m: Message, signer: Signer, aad: Bytes, ops: seq<Operation>, verifier: Verifier, w: World)
    requires Sign(m, signer, aad, w).outcome.Ok? && Undisturbed(Sign(m, signer, aad, w).message, ops, w)
    ensures m.payload.Some?
    ensures var now := Run(Sign(m, signer, aad, w).message, ops, w);
            var signed := SignedBytes(m, signer.alg, m.payload.value, aad, w);
            && signer.sign(signed).Ok? && (NoneStored(ops) ==> signer.sign(signed) == Ok(now.signature))
            && Hands(now, verifier, m.payload.value, aad, w, signed)
            && (now.payload == m.payload ==> VerifyEmbedded(now, verifier, aad, w) == VerifyPayload(now, verifier, m.payload.value, aad, w))
  {
    hide Sign, Run, Undisturbed, Hands, VerifyPayload, SignedBytes;
    SignExact(m, signer, aad, w);
    var start := Sign(m, signer, aad, w).message;
    UndisturbedKeepsRaw(start, ops, w);
    HandsPreparedBytes(m, signer.alg, start, ops, verifier, m.payload.value, aad, w);
  }

  /** The same for a detached payload. */
  lemma VerifyDetachedHandsSignedBytes(m: Message, signer: Signer, payload: Bytes, aad: Bytes, ops: seq<Operation>, verifier: Verifier, w: World)
    requires SignDetached(m, signer, payload, aad, w).outcome.Ok? && Undisturbed(SignDetached(m, signer, payload, aad, w).message, ops, w)
    ensures var now := Run(SignDetached(m, signer, payload, aad, w).message, ops, w);
            var signed := SignedBytes(m, signer.alg, payload, aad, w);
            && signer.sign(signed).Ok? && (NoneStored(ops) ==> signer.sign(signed) == Ok(now.signature))
            && Hands(now, verifier, payload, aad, w, signed)
            && (now.payload.None? ==> VerifyDetached(now, verifier, payload, aad, w) == VerifyPayload(now, verifier, payload, aad, w))
  {
    hide SignDetached, Run, Undisturbed, Hands, VerifyPayload, SignedBytes;
    SignDetachedExact(m, signer, payload, aad, w);
    var start := SignDetached(m, signer, payload, aad, w).message;
    UndisturbedKeepsRaw(start, ops, w);
    HandsPreparedBytes(m, signer.alg, start, ops, verifier, payload, aad, w);
  }

  /** The same for a signature made outside: the bytes returned for signing are the bytes verified. */
  lemma VerifyHandsReturnedBytes(m: Message, alg: Option<Label>, kid: Option<Bytes>, aad: Bytes, ops: seq<Operation>, verifier: Verifier, w: World)
    requires PrepareSignature(m, alg, kid, aad, w).outcome.Ok? && Undisturbed(PrepareSignature(m, alg, kid, aad, w).message, ops, w)
    ensures m.payload.Some?
    ensures var p := PrepareSignature(m, alg, kid, aad, w);
            && p.outcome.value == SignedBytes(m, alg, m.payload.value, aad, w)
            && Hands(Run(p.message, ops, w), verifier, m.payload.value, aad, w, p.outcome.value)
  {
    hide PrepareSignature, Run, Undisturbed, Hands, SignedBytes;
    PrepareExact(m, alg, kid, aad, w);
    var start := PrepareSignature(m, alg, kid, aad, w).message;
    HandsPreparedBytes(m, alg, start, ops, verifier, m.payload.value, aad, w);
  }

  /** A freshly signed message verifies for a verifier of its algorithm that accepts the signature
      and understands its critical headers. */
  lemma SignedVerifies(m: Message, signer: Signer, aad: Bytes, verifier: Verifier, w: World)
    requires Sign(m, signer, aad, w).outcome.Ok? && Sane(w.codec.norm)
    requires signer.alg.Some? ==> LabelValue(AlgValue(signer.alg.value))
    requires verifier.alg.None? || (signer.alg.Some? && verifier.alg == signer.alg)
    requires var now := Sign(m, signer, aad, w).message;
             CritKnown(now.protected, verifier.understood, w.counterSignatures(now.protected))
    ensures var now := Sign(m, signer, aad, w).message;
            && m.payload.Some? && Verifiable(now, verifier, w)
            && signer.sign(SignedBytes(m, signer.alg, m.payload.value, aad, w)) == Ok(now.signature)
            && (VerifyEmbedded(now, verifier, aad, w).Ok? <==>
                  verifier.verify(SignedBytes(m, signer.alg, m.payload.value, aad, w), now.signature).Ok?)
  {
    hide Sign, SigStructure, CritKnown, BucketsValid, HasBytes, VerifyEmbedded;
    SignExact(m, signer, aad, w);
    var now := Sign(m, signer, aad, w).message;
    BytesExact(now.protected, w.codec);
    VerifyExact(now, verifier, aad, w);
  }

  /** A verifier is reached exactly with valid buckets, known critical headers, the verifier's algorithm,
      and a protected view that the authenticated bytes authenticate; and it is given the Sig_structure
      over these bytes. */
  lemma VerifiedHeadersAreAuthentic(m: Message, verifier: Verifier, payload: Bytes, aad: Bytes, w: World)
    requires Sane(w.codec.norm)
    ensures Handed(m, verifier, payload, aad, w).Ok? <==> Verifiable(m, verifier, w)
    ensures Verifiable(m, verifier, w) ==>
              VerifyPayload(m, verifier, payload, aad, w) == verifier.verify(SigStructure(m.raw, aad, payload), m.signature)
  {
    hide Handed, Verifiable, SigStructure;
    HandedExact(m, verifier, payload, aad, w);
  }
}
