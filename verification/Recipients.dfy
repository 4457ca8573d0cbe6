/** COSE_recipient trees (RFC 9052, section 5.1): the full recursive check, and the split check of a
    decoded message that leaves nested layers to the deserializer (src/recipient.rs). Reading a header
    map from a value and checking an ECDH sender key are functions of the environment. */
module Recipients {
  import opened Values
  import opened Headers

  datatype Recipient = Recipient(
    protected: Header,
    unprotected: Header,
    ciphertext: Option<Bytes>,
    recipients: seq<Recipient>,
    raw: Option<Bytes>)

  datatype Environment = Environment(
    codec: Codec,
    readHeader: Value -> Result<Header>,
    senderKey: (Value, int) -> Result<()>)

  datatype Class = Direct | DirectKdf | KeyWrap | KeyTransport | DirectAgreement | AgreementWithWrap

  const SALT: Label := IntLabel(-20)
  const PARTY_U_NONCE: Label := IntLabel(-22)
  const EPHEMERAL_KEY: Label := IntLabel(-1)
  const STATIC_KEY: Label := IntLabel(-2)
  const STATIC_KEY_ID: Label := IntLabel(-3)

  function Classify(alg: Label): Option<Class> {
    match alg
    case TextLabel(_) => None
    case IntLabel(n) =>
      if n == -6 then Some(Direct)
      else if -13 <= n <= -10 then Some(DirectKdf)
      else if -5 <= n <= -3 then Some(KeyWrap)
      else if -42 <= n <= -40 then Some(KeyTransport)
      else if -28 <= n <= -25 then Some(DirectAgreement)
      else if -34 <= n <= -29 then Some(AgreementWithWrap)
      else None
  }

  function AlgOf(r: Recipient): Result<Option<Label>> {
    var own :- Alg(r.protected);
    if own.Some? then Ok(own) else Alg(r.unprotected)
  }

  function ClassOf(r: Recipient): Result<Option<Class>> {
    var alg :- AlgOf(r);
    Ok(match alg case None => None case Some(a) => Classify(a))
  }

  function HeaderValue(r: Recipient, l: Label): Option<Value> {
    if l in r.protected then Some(r.protected[l])
    else if l in r.unprotected then Some(r.unprotected[l])
    else None
  }

  predicate NoCiphertext(r: Recipient) {
    r.ciphertext == None || r.ciphertext == Some([])
  }

  function RequireSaltOrNonce(r: Recipient): Result<()> {
    var salt, nonce := HeaderValue(r, SALT), HeaderValue(r, PARTY_U_NONCE);
    if salt.Some? && !salt.value.ByteString? then Err(UnexpectedType)
    else if nonce.Some? && !(nonce.value.ByteString? || nonce.value.Integer?) then Err(UnexpectedType)
    else if (salt.Some? && salt.value.bytes != []) || (nonce.Some? && (nonce.value.Integer? || nonce.value.bytes != [])) then Ok(())
    else Err(Custom)
  }

  function RequireSenderKey(r: Recipient, ephemeral: bool, alg: int, env: Environment): Result<()> {
    if ephemeral then
      match HeaderValue(r, EPHEMERAL_KEY)
      case None => Err(Custom)
      case Some(key) => env.senderKey(key, alg)
    else
      var key, id := HeaderValue(r, STATIC_KEY), HeaderValue(r, STATIC_KEY_ID);
      if key.None? && id.None? then Err(Custom) else
      var _ :- if key.Some? then env.senderKey(key.value, alg) else Ok(());
      if id.Some? && !id.value.ByteString? then Err(UnexpectedType) else
      RequireSaltOrNonce(r)
  }

  /** The rules of a recipient's algorithm class. */
  function CheckClass(r: Recipient, alg: Label, env: Environment): Result<()> {
    match Classify(alg)
    case None => Ok(())
    case Some(Direct) =>
      if r.protected != map[] || r.ciphertext != Some([]) || r.recipients != [] then Err(Custom) else Ok(())
    case Some(DirectKdf) =>
      if r.ciphertext != Some([]) || r.recipients != [] then Err(Custom) else RequireSaltOrNonce(r)
    case Some(KeyWrap) =>
      if r.protected != map[] then Err(Custom) else
      var own :- Alg(r.unprotected);
      if own.None? || NoCiphertext(r) then Err(Custom) else Ok(())
    case Some(KeyTransport) =>
      if r.protected != map[] then Err(Custom) else
      var own :- Alg(r.unprotected);
      if own.None? || NoCiphertext(r) || r.recipients != [] then Err(Custom) else Ok(())
    case Some(DirectAgreement) =>
      if r.ciphertext != Some([]) || r.recipients != [] then Err(Custom)
      else RequireSenderKey(r, alg == IntLabel(-25) || alg == IntLabel(-26), (match alg case IntLabel(n) => n case TextLabel(_) => 0), env)
    case Some(AgreementWithWrap) =>
      if NoCiphertext(r) then Err(Custom)
      else RequireSenderKey(r, alg == IntLabel(-29) || alg == IntLabel(-30) || alg == IntLabel(-31),
                            (match alg case IntLabel(n) => n case TextLabel(_) => 0), env)
  }

  predicate Alone(c: Option<Class>) {
    c == Some(Direct) || c == Some(DirectKdf) || c == Some(DirectAgreement)
  }

  function EachMayShare(recipients: seq<Recipient>): Result<()> {
    if recipients == [] then Ok(()) else
    var c :- ClassOf(recipients[0]);
    if Alone(c) then Err(Custom) else EachMayShare(recipients[1..])
  }

  /** A direct recipient must be the only one in its layer. */
  function LayerRules(recipients: seq<Recipient>): Result<()> {
    if |recipients| <= 1 then Ok(()) else EachMayShare(recipients)
  }

  function ValidateLocal(r: Recipient, env: Environment): Result<()> {
    var _ :- ValidateBuckets(r.protected, r.unprotected, env.codec.mediaType);
    var _ :- if r.raw.Some? then ValidateProtectedState(r.protected, r.raw.value, env.codec) else Ok(());
    var alg :- AlgOf(r);
    if alg.None? then Err(Custom) else
    var _ :- CheckClass(r, alg.value, env);
    LayerRules(r.recipients)
  }

  const MAX_RECIPIENT_DEPTH: nat := 128

  function ValidateAtDepth(r: Recipient, depth: nat, env: Environment): Result<()>
    decreases r, 1
  {
    if depth > MAX_RECIPIENT_DEPTH then Err(Limit) else
    var _ :- ValidateLocal(r, env);
    ValidateAllAtDepth(r.recipients, depth + 1, env)
  }

  function ValidateAllAtDepth(recipients: seq<Recipient>, depth: nat, env: Environment): Result<()>
    decreases recipients, 0
  {
    if recipients == [] then Ok(()) else
    var _ :- ValidateAtDepth(recipients[0], depth, env);
    ValidateAllAtDepth(recipients[1..], depth, env)
  }

  function ValidateMessageRecipients(recipients: seq<Recipient>, env: Environment): Result<()> {
    if recipients == [] then Err(Custom) else
    var _ :- ValidateAllAtDepth(recipients, 0, env);
    LayerRules(recipients)
  }

  function ValidateDecodedRecipients(recipients: seq<Recipient>): Result<()> {
    if recipients == [] then Err(Custom) else LayerRules(recipients)
  }

  // ---- the deserializer -------------------------------------------------------------------------

  function OptionalBytes(v: Value): Result<Option<Bytes>> {
    if v == NULL then Ok(None) else if v.ByteString? then Ok(Some(v.bytes)) else Err(UnexpectedType)
  }

  function Deserialize(v: Value, env: Environment): Result<Recipient>
    decreases v, 2
  {
    if !v.Array? || !(3 <= |v.items| <= 4) then Err(UnexpectedType) else
    if !v.items[0].ByteString? then Err(UnexpectedType) else
    var unprotected :- env.readHeader(v.items[1]);
    var ciphertext :- OptionalBytes(v.items[2]);
    var nested :- if |v.items| == 4 then DeserializeNested(v.items[3], env) else Ok([]);
    var raw := v.items[0].bytes;
    var protected :- DecodeProtected(raw, env.codec);
    var _ :- ValidateBuckets(protected, unprotected, env.codec.mediaType);
    var r := Recipient(protected, unprotected, ciphertext, nested, Some(raw));
    var _ :- ValidateLocal(r, env);
    Ok(r)
  }

  /** Nested recipients must not be empty when present. */
  function DeserializeNested(v: Value, env: Environment): Result<seq<Recipient>>
    decreases v, 1
  {
    if !v.Array? then Err(UnexpectedType) else
    if v.items == [] then Err(Custom) else DeserializeAll(v.items, env)
  }

  function DeserializeAll(items: seq<Value>, env: Environment): Result<seq<Recipient>>
    decreases items, 0
  {
    if items == [] then Ok([]) else
    var first :- Deserialize(items[0], env);
    var rest :- DeserializeAll(items[1..], env);
    Ok([first] + rest)
  }

  // ---- the split check is the full check --------------------------------------------------------

  /** How many layers of recipients nest below a recipient. */
  function Layers(r: Recipient): nat
    decreases r, 1
  {
    LayersOf(r.recipients)
  }

  function LayersOf(recipients: seq<Recipient>): nat
    decreases recipients, 0
  {
    if recipients == [] then 0 else Max(1 + Layers(recipients[0]), LayersOf(recipients[1..]))
  }

  /** Every recipient of the tree passes its own check. */
  ghost predicate EveryLocal(r: Recipient, env: Environment)
    decreases r, 1
  {
    ValidateLocal(r, env).Ok? && EveryLocalOf(r.recipients, env)
  }

  ghost predicate EveryLocalOf(recipients: seq<Recipient>, env: Environment)
    decreases recipients, 0
  {
    recipients == [] || (EveryLocal(recipients[0], env) && EveryLocalOf(recipients[1..], env))
  }

  /** The recursive check is the local check everywhere, and a bound on the layers. */
  lemma {:induction false} DepthCheckExact(r: Recipient, depth: nat, env: Environment)
    ensures ValidateAtDepth(r, depth, env).Ok? <==> EveryLocal(r, env) && depth + Layers(r) <= 128
    decreases r, 1
  {
    DepthCheckAllExact(r.recipients, depth + 1, env);
    if r.recipients == [] {
      assert Layers(r) == 0;
    }
  }

  lemma {:induction false} DepthCheckAllExact(recipients: seq<Recipient>, depth: nat, env: Environment)
    requires depth >= 1
    ensures ValidateAllAtDepth(recipients, depth, env).Ok? <==>
            EveryLocalOf(recipients, env) && (recipients == [] || depth - 1 + LayersOf(recipients) <= 128)
    decreases recipients, 0
  {
    if recipients != [] {
      DepthCheckExact(recipients[0], depth, env);
      DepthCheckAllExact(recipients[1..], depth, env);
    }
  }

  /** What the deserializer returns passed every local check, and takes two levels of nesting of the
      value for every layer. */
  lemma {:induction false} DeserializedChecked(v: Value, env: Environment)
    requires Deserialize(v, env).Ok?
    ensures EveryLocal(Deserialize(v, env).value, env)
    ensures 1 + 2 * Layers(Deserialize(v, env).value) <= Height(v)
    decreases v, 2
  {
    var r := Deserialize(v, env).value;
    if |v.items| == 4 {
      var nested := v.items[3];
      DeserializedAllChecked(nested.items, env);
      MemberHeight(v.items, 3);
    } else {
      MemberHeight(v.items, 0);
    }
  }

  lemma {:induction false} DeserializedAllChecked(items: seq<Value>, env: Environment)
    requires DeserializeAll(items, env).Ok?
    ensures EveryLocalOf(DeserializeAll(items, env).value, env)
    ensures 2 * LayersOf(DeserializeAll(items, env).value) <= HeightOfItems(items)
    ensures |DeserializeAll(items, env).value| == |items|
    decreases items, 0
  {
    if items != [] {
      DeserializedChecked(items[0], env);
      DeserializedAllChecked(items[1..], env);
      var all := DeserializeAll(items, env).value;
      assert all[1..] == DeserializeAll(items[1..], env).value;
    }
  }

  lemma {:induction false} MemberHeight(items: seq<Value>, i: nat)
    requires i < |items|
    ensures 1 + Height(items[i]) <= HeightOfItems(items)
  {
    if i != 0 {
      MemberHeight(items[1..], i - 1);
    }
  }

  /** For any decoded recipients the full check accepts exactly what the split check accepts, provided
      no recipient nests deeper than the recursive check allows. */
  lemma SplitCheckExact(items: seq<Value>, env: Environment)
    requires DeserializeAll(items, env).Ok?
    ensures var decoded := DeserializeAll(items, env).value;
            ValidateMessageRecipients(decoded, env).Ok? <==>
            ValidateDecodedRecipients(decoded).Ok? && LayersOf(decoded) <= 129
  {
    DeserializedAllChecked(items, env);
    TopCheckExact(DeserializeAll(items, env).value, env);
  }

  lemma {:induction false} TopCheckExact(recipients: seq<Recipient>, env: Environment)
    requires EveryLocalOf(recipients, env)
    ensures ValidateAllAtDepth(recipients, 0, env).Ok? <==> LayersOf(recipients) <= 129
  {
    if recipients != [] {
      DepthCheckExact(recipients[0], 0, env);
      TopCheckExact(recipients[1..], env);
    }
  }

  /** Under a nesting limit of 128 for the whole message the two checks agree: the recipients, which
      stand one level below the message array, nest at most 63 layers. */
  lemma SplitCheckEquivalent(message: seq<Value>, at: nat, env: Environment)
    requires at < |message| && message[at].Array? && HeightOfItems(message) <= 128
    requires DeserializeAll(message[at].items, env).Ok?
    ensures var decoded := DeserializeAll(message[at].items, env).value;
            && LayersOf(decoded) <= 63
            && ValidateMessageRecipients(decoded, env) == ValidateDecodedRecipients(decoded)
  {
    var items := message[at].items;
    var decoded := DeserializeAll(items, env).value;
    MemberHeight(message, at);
    DeserializedAllChecked(items, env);
    TopCheckExact(decoded, env);
  }
}
