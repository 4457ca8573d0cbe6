/** The rules for one recipient, class by class (RFC 9052, section 8.5; RFC 9053, sections 6.1 to 6.4), and
    that the checks of src/recipient.rs accept exactly the recipients that follow them. */
module RecipientRules {
  import opened Values
  import opened Deterministic
  import opened Headers
  import opened HeaderLaws
  import opened Recipients

  // ---- the rules --------------------------------------------------------------------------------

  /** The value under a label, the protected one first. */
  function At(r: Recipient, n: int): Option<Value> {
    if IntLabel(n) in r.protected then Some(r.protected[IntLabel(n)])
    else if IntLabel(n) in r.unprotected then Some(r.unprotected[IntLabel(n)])
    else None
  }

  /** A recipient without nested ones and with an empty, present ciphertext. */
  predicate BareDirect(r: Recipient) {
    r.ciphertext == Some([]) && r.recipients == []
  }

  predicate HoldsKey(r: Recipient) {
    r.ciphertext.Some? && r.ciphertext.value != []
  }

  /** Salt (-20) and PartyU nonce (-22) have their types, and one of them is there and not empty. */
  predicate SaltOrNonce(r: Recipient) {
    && (At(r, -20).Some? ==> At(r, -20).value.ByteString?)
    && (At(r, -22).Some? ==> At(r, -22).value.ByteString? || At(r, -22).value.Integer?)
    && ((At(r, -20).Some? && At(r, -20).value.bytes != [])
        || (At(r, -22).Some? && (At(r, -22).value.Integer? || At(r, -22).value.bytes != [])))
  }

  /** The ephemeral key (-1) of the sender is there and good for the algorithm. */
  ghost predicate EphemeralKey(r: Recipient, alg: int, env: Environment) {
    At(r, -1).Some? && env.senderKey(At(r, -1).value, alg).Ok?
  }

  /** The static key (-2) of the sender, good for the algorithm, or its identifier (-3), a byte string,
      or both; and then a salt or nonce. */
  ghost predicate StaticKey(r: Recipient, alg: int, env: Environment) {
    && (At(r, -2).Some? || At(r, -3).Some?)
    && (At(r, -2).Some? ==> env.senderKey(At(r, -2).value, alg).Ok?)
    && (At(r, -3).Some? ==> At(r, -3).value.ByteString?)
    && SaltOrNonce(r)
  }

  /** What the class of algorithm number `n` asks for. */
  ghost predicate ClassRules(r: Recipient, n: int, env: Environment) {
    && (n == -6 ==> r.protected == map[] && BareDirect(r))
    && (-13 <= n <= -10 ==> BareDirect(r) && SaltOrNonce(r))
    && (-5 <= n <= -3 ==> r.protected == map[] && IntLabel(1) in r.unprotected && HoldsKey(r))
    && (-42 <= n <= -40 ==> r.protected == map[] && IntLabel(1) in r.unprotected && HoldsKey(r) && r.recipients == [])
    && (-26 <= n <= -25 ==> BareDirect(r) && EphemeralKey(r, n, env))
    && (-28 <= n <= -27 ==> BareDirect(r) && StaticKey(r, n, env))
    && (-31 <= n <= -29 ==> HoldsKey(r) && EphemeralKey(r, n, env))
    && (-34 <= n <= -32 ==> HoldsKey(r) && StaticKey(r, n, env))
  }

  /** A recipient that may stand beside others: not a direct one. */
  predicate MayShare(r: Recipient) {
    At(r, 1).Some? ==>
      && LabelValue(At(r, 1).value)
      && (At(r, 1).value.Integer? ==> var n := At(r, 1).value.n; n != -6 && !(-13 <= n <= -10) && !(-28 <= n <= -25))
  }

  predicate Layer(recipients: seq<Recipient>) {
    |recipients| > 1 ==> forall i :: 0 <= i < |recipients| ==> MayShare(recipients[i])
  }

  /** Valid headers that match the bytes received, an algorithm, the rules of its class, and a layer of
      nested recipients in which direct ones are alone. */
  ghost predicate LocalRules(r: Recipient, env: Environment) {
    && BucketsValid(r.protected, r.unprotected, env.codec.mediaType)
    && (r.raw.Some? ==> HasBytes(r.protected, env.codec.mediaType) && Authenticates(r.raw.value, r.protected, env.codec))
    && At(r, 1).Some?
    && (At(r, 1).value.Integer? ==> ClassRules(r, At(r, 1).value.n, env))
    && Layer(r.recipients)
  }

  // ---- the local check --------------------------------------------------------------------------

  lemma AlgExact(r: Recipient)
    ensures AlgOf(r).Ok? <==> At(r, 1).None? || LabelValue(At(r, 1).value)
    ensures AlgOf(r).Ok? ==> AlgOf(r).value == if At(r, 1).None? then None else Some(AsLabel(At(r, 1).value))
  {
  }

  lemma SaltExact(r: Recipient)
    ensures RequireSaltOrNonce(r).Ok? <==> SaltOrNonce(r)
  {
  }

  lemma SenderKeyExact(r: Recipient, ephemeral: bool, alg: int, env: Environment)
    ensures RequireSenderKey(r, ephemeral, alg, env).Ok? <==> if ephemeral then EphemeralKey(r, alg, env) else StaticKey(r, alg, env)
  {
    hide RequireSaltOrNonce, SaltOrNonce;
    SaltExact(r);
  }

  lemma UnprotectedAlg(r: Recipient)
    requires IntLabel(1) in r.unprotected ==> LabelValue(r.unprotected[IntLabel(1)])
    ensures Alg(r.unprotected).Ok? && (Alg(r.unprotected).value.Some? <==> IntLabel(1) in r.unprotected)
  {
  }

  lemma ClassExact(r: Recipient, alg: Label, env: Environment)
    requires IntLabel(1) in r.unprotected ==> LabelValue(r.unprotected[IntLabel(1)])
    ensures CheckClass(r, alg, env).Ok? <==> (alg.IntLabel? ==> ClassRules(r, alg.n, env))
  {
    hide RequireSaltOrNonce, SaltOrNonce, RequireSenderKey, EphemeralKey, StaticKey, Alg;
    SaltExact(r);
    UnprotectedAlg(r);
    if alg.IntLabel? {
      SenderKeyExact(r, true, alg.n, env);
      SenderKeyExact(r, false, alg.n, env);
    }
  }

  lemma ShareExact(r: Recipient)
    ensures (ClassOf(r).Ok? && !Alone(ClassOf(r).value)) <==> MayShare(r)
  {
    hide AlgOf, At;
    AlgExact(r);
  }

  lemma {:induction false} EachShareExact(recipients: seq<Recipient>)
    ensures EachMayShare(recipients).Ok? <==> forall i :: 0 <= i < |recipients| ==> MayShare(recipients[i])
  {
    hide ClassOf, MayShare, Alone;
    if recipients != [] {
      ShareExact(recipients[0]);
      EachShareExact(recipients[1..]);
      assert forall i :: 0 < i < |recipients| ==> recipients[i] == recipients[1..][i - 1];
      assert forall i :: 0 <= i < |recipients[1..]| ==> recipients[1..][i] == recipients[i + 1];
    }
  }

  lemma LayerExact(recipients: seq<Recipient>)
    ensures LayerRules(recipients).Ok? <==> Layer(recipients)
  {
    hide EachMayShare, MayShare;
    EachShareExact(recipients);
  }

  /** The local check accepts exactly the recipients that follow the rules. */
  lemma LocalExact(r: Recipient, env: Environment)
    requires Sane(env.codec.norm)
    ensures ValidateLocal(r, env).Ok? <==> LocalRules(r, env)
  {
    hide ValidateBuckets, ValidateProtectedState, CheckClass, ClassRules, LayerRules, Layer, HasBytes, Authenticates, AlgOf, EncodeProtected;
    BucketsExact(r.protected, r.unprotected, env.codec.mediaType);
    BytesExact(r.protected, env.codec);
    if r.raw.Some? {
      StateExact(r.protected, r.raw.value, env.codec);
    }
    AlgExact(r);
    if BucketsValid(r.protected, r.unprotected, env.codec.mediaType) && At(r, 1).Some? {
      ClassExact(r, AsLabel(At(r, 1).value), env);
    }
    LayerExact(r.recipients);
  }

  // ---- whole trees ------------------------------------------------------------------------------

  /** Every recipient of the tree follows the rules. */
  ghost predicate AllRules(r: Recipient, env: Environment)
    decreases r, 1
  {
    LocalRules(r, env) && AllRulesOf(r.recipients, env)
  }

  ghost predicate AllRulesOf(recipients: seq<Recipient>, env: Environment)
    decreases recipients, 0
  {
    recipients == [] || (AllRules(recipients[0], env) && AllRulesOf(recipients[1..], env))
  }

  lemma {:induction false} EveryExact(r: Recipient, env: Environment)
    requires Sane(env.codec.norm)
    ensures EveryLocal(r, env) <==> AllRules(r, env)
    decreases r, 1
  {
    hide ValidateLocal, LocalRules;
    LocalExact(r, env);
    EveryExactOf(r.recipients, env);
  }

  lemma {:induction false} EveryExactOf(recipients: seq<Recipient>, env: Environment)
    requires Sane(env.codec.norm)
    ensures EveryLocalOf(recipients, env) <==> AllRulesOf(recipients, env)
    decreases recipients, 0
  {
    if recipients != [] {
      EveryExact(recipients[0], env);
      EveryExactOf(recipients[1..], env);
    }
  }

  /** A recipient passes exactly when all of its tree follows the rules, at most 128 layers deep. */
  lemma RecipientExact(r: Recipient, env: Environment)
    requires Sane(env.codec.norm)
    ensures ValidateAtDepth(r, 0, env).Ok? <==> AllRules(r, env) && Layers(r) <= 128
  {
    DepthCheckExact(r, 0, env);
    EveryExact(r, env);
  }

  /** The recipients of a message pass exactly when there are some, all follow the rules, at most 129
      layers deep with the outermost, and direct ones are alone. */
  lemma MessageRecipientsExact(recipients: seq<Recipient>, env: Environment)
    requires Sane(env.codec.norm)
    ensures ValidateMessageRecipients(recipients, env).Ok? <==>
            recipients != [] && AllRulesOf(recipients, env) && LayersOf(recipients) <= 129 && Layer(recipients)
  {
    hide LayerRules, Layer, AllRulesOf, EveryLocalOf, ValidateAllAtDepth;
    EveryExactOf(recipients, env);
    LayerExact(recipients);
    AllPass(recipients, env);
    if EveryLocalOf(recipients, env) {
      TopCheckExact(recipients, env);
    }
  }

  lemma {:induction false} AllPass(recipients: seq<Recipient>, env: Environment)
    ensures ValidateAllAtDepth(recipients, 0, env).Ok? ==> EveryLocalOf(recipients, env)
  {
    hide ValidateAtDepth, EveryLocal;
    if recipients != [] {
      DepthCheckExact(recipients[0], 0, env);
      AllPass(recipients[1..], env);
    }
  }

  // ---- the deserializer -------------------------------------------------------------------------

  /** `v` is the array form of recipient `r`, which follows the rules with all it contains. */
  ghost predicate Encodes(v: Value, r: Recipient, env: Environment)
    decreases v, 1
  {
    && v.Array? && 3 <= |v.items| <= 4
    && v.items[0].ByteString? && r.raw == Some(v.items[0].bytes) && DecodeProtected(v.items[0].bytes, env.codec) == Ok(r.protected)
    && env.readHeader(v.items[1]) == Ok(r.unprotected)
    && (v.items[2] == NULL || v.items[2].ByteString?)
    && r.ciphertext == (if v.items[2] == NULL then None else Some(v.items[2].bytes))
    && (if |v.items| == 3 then r.recipients == []
        else v.items[3].Array? && v.items[3].items != [] && EncodesAll(v.items[3].items, r.recipients, env))
    && LocalRules(r, env)
  }

  ghost predicate EncodesAll(items: seq<Value>, recipients: seq<Recipient>, env: Environment)
    decreases items, 0
  {
    if items == [] then recipients == []
    else recipients != [] && Encodes(items[0], recipients[0], env) && EncodesAll(items[1..], recipients[1..], env)
  }

  /** What is read is such a recipient, ... */
  lemma {:induction false} DeserializedEncodes(v: Value, env: Environment)
    requires Sane(env.codec.norm) && Deserialize(v, env).Ok?
    ensures Encodes(v, Deserialize(v, env).value, env)
    decreases v, 1
  {
    hide ValidateLocal, LocalRules, ValidateBuckets, DecodeProtected;
    var r := Deserialize(v, env).value;
    LocalExact(r, env);
    if |v.items| == 4 {
      DeserializedEncodesAll(v.items[3].items, env);
    }
  }

  lemma {:induction false} DeserializedEncodesAll(items: seq<Value>, env: Environment)
    requires Sane(env.codec.norm) && DeserializeAll(items, env).Ok?
    ensures EncodesAll(items, DeserializeAll(items, env).value, env)
    decreases items, 0
  {
    hide Deserialize, Encodes;
    if items != [] {
      DeserializedEncodes(items[0], env);
      DeserializedEncodesAll(items[1..], env);
      var all := DeserializeAll(items, env).value;
      assert all[1..] == DeserializeAll(items[1..], env).value;
    }
  }

  /** ... and every such recipient is read from its array form. */
  lemma {:induction false} EncodedDeserializes(v: Value, r: Recipient, env: Environment)
    requires Sane(env.codec.norm) && Encodes(v, r, env)
    ensures Deserialize(v, env) == Ok(r)
    decreases v, 1
  {
    hide ValidateLocal, ValidateBuckets, DecodeProtected, ClassRules, HasBytes, Authenticates, Layer;
    LocalExact(r, env);
    BucketsExact(r.protected, r.unprotected, env.codec.mediaType);
    if |v.items| == 4 {
      EncodedDeserializesAll(v.items[3].items, r.recipients, env);
    }
    assert ValidateLocal(r, env).value == ();
  }

  lemma {:induction false} EncodedDeserializesAll(items: seq<Value>, recipients: seq<Recipient>, env: Environment)
    requires Sane(env.codec.norm) && EncodesAll(items, recipients, env)
    ensures DeserializeAll(items, env) == Ok(recipients)
    decreases items, 0
  {
    hide Deserialize, Encodes;
    if items != [] {
      EncodedDeserializes(items[0], recipients[0], env);
      EncodedDeserializesAll(items[1..], recipients[1..], env);
      assert recipients == [recipients[0]] + recipients[1..];
    }
  }
}
