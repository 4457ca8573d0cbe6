/** COSE header buckets (RFC 9052, section 3): the checks on one bucket, on both buckets of a layer,
    and on a public protected header against the bytes that were authenticated (src/header.rs,
    src/util.rs). Headers are encoded by the deterministic map encoder of `CoseMaps`. */
module Headers {
  import opened Values
  import opened Deterministic
  import opened CoseMaps
  import opened MapForms
  import P = StrictParser
  import B = MessageBodies

  type Header = map<Label, Value>

  /** The library's part: the normal form of bignums and NaNs, reading a map that passed the strict
      pass, decoding and encoding a map key again, and the media-type check. */
  datatype Codec = Codec(
    norm: Norm,
    read: Bytes -> Result<Header>,
    reencode: Bytes -> Result<Bytes>,
    mediaType: Bytes -> bool)

  const ALG: Label := IntLabel(1)
  const CRIT: Label := IntLabel(2)
  const CONTENT_TYPE: Label := IntLabel(3)
  const KID: Label := IntLabel(4)
  const IV: Label := IntLabel(5)
  const PARTIAL_IV: Label := IntLabel(6)
  const COUNTER_SIGNATURE: Label := IntLabel(7)

  /** The label an `int / tstr` value denotes, of any text length. */
  function AnyLabelOf(v: Value): Result<Label> {
    match v
    case Integer(n) => if I64_MIN <= n <= I64_MAX then Ok(IntLabel(n)) else Err(UnexpectedType)
    case TextString(t) => Ok(TextLabel(t))
    case _ => Err(UnexpectedType)
  }

  function GetLabel(h: Header, key: Label): Result<Option<Label>> {
    if key !in h then Ok(None) else
    var l :- AnyLabelOf(h[key]);
    Ok(Some(l))
  }

  function GetBytes(h: Header, key: Label): Result<Option<Bytes>> {
    if key !in h then Ok(None)
    else if h[key].ByteString? then Ok(Some(h[key].bytes))
    else Err(UnexpectedType)
  }

  function Alg(h: Header): Result<Option<Label>> {
    GetLabel(h, ALG)
  }

  function Kid(h: Header): Result<Option<Bytes>> {
    GetBytes(h, KID)
  }

  function CheckContentType(h: Header, mediaType: Bytes -> bool): Result<()> {
    if CONTENT_TYPE !in h then Ok(()) else
    match h[CONTENT_TYPE]
    case Integer(n) => if 0 <= n <= 0xffff then Ok(()) else Err(UnexpectedType)
    case TextString(t) => if mediaType(t) then Ok(()) else Err(UnexpectedType)
    case _ => Err(UnexpectedType)
  }

  function LabelsOf(items: seq<Value>): Result<seq<Label>> {
    if items == [] then Ok([]) else
    var first :- AnyLabelOf(items[0]);
    var rest :- LabelsOf(items[1..]);
    Ok([first] + rest)
  }

  function Crit(h: Header): Result<Option<seq<Label>>> {
    if CRIT !in h then Ok(None)
    else if !h[CRIT].Array? then Err(UnexpectedType)
    else
      var labels :- LabelsOf(h[CRIT].items);
      Ok(Some(labels))
  }

  /** The labels of `crit` one by one: each new, each present. */
  function CheckCrit(labels: seq<Label>, unique: set<Label>, h: Header): Result<()> {
    if labels == [] then Ok(())
    else if labels[0] in unique then Err(Custom)
    else if labels[0] !in h then Err(Custom)
    else CheckCrit(labels[1..], unique + {labels[0]}, h)
  }

  function ValidateCommon(h: Header, mediaType: Bytes -> bool): Result<()> {
    var _ :- Alg(h);
    var _ :- CheckContentType(h, mediaType);
    var _ :- Kid(h);
    var iv :- GetBytes(h, IV);
    var partialIv :- GetBytes(h, PARTIAL_IV);
    if iv.Some? && partialIv.Some? then Err(Custom) else
    var crit :- Crit(h);
    match crit
    case None => Ok(())
    case Some(labels) => if labels == [] then Err(Custom) else CheckCrit(labels, {}, h)
  }

  /** The `unique` loop of the source. */
  method RunCheckCrit(labels: seq<Label>, h: Header) returns (r: Result<()>)
    ensures r == CheckCrit(labels, {}, h)
  {
    var unique: set<Label> := {};
    var i := 0;
    assert labels[0..] == labels;
    while i < |labels|
      invariant 0 <= i <= |labels|
      invariant CheckCrit(labels, {}, h) == CheckCrit(labels[i..], unique, h)
    {
      assert labels[i..][1..] == labels[i + 1..];
      if labels[i] in unique {
        return Err(Custom);
      }
      unique := unique + {labels[i]};
      if labels[i] !in h {
        return Err(Custom);
      }
      i := i + 1;
    }
    r := Ok(());
  }

  function ValidateBuckets(protected: Header, unprotected: Header, mediaType: Bytes -> bool): Result<()> {
    var _ :- ValidateCommon(protected, mediaType);
    if CRIT in unprotected then Err(Custom) else
    var _ :- ValidateCommon(unprotected, mediaType);
    if protected.Keys * unprotected.Keys != {} then Err(Custom) else
    if (IV in protected || IV in unprotected) && (PARTIAL_IV in protected || PARTIAL_IV in unprotected) then Err(Custom)
    else Ok(())
  }

  /** The deterministic bytes of one bucket. */
  function EncodeHeader(h: Header, codec: Codec): Result<Bytes> {
    var _ :- ValidateCommon(h, codec.mediaType);
    EncodeMap(h, codec.norm)
  }

  /** The strict pass over an encoded map, and then the map. */
  function DecodeMap(raw: Bytes, codec: Codec): Result<Header> {
    var item :- P.Root(raw, B.Strict(P.DEFAULT_LIMITS, codec.reencode));
    if item.kind != P.MapKind then Err(UnexpectedType) else codec.read(raw)
  }

  /** An empty protected header is the empty byte string. */
  function EncodeProtected(h: Header, codec: Codec): Result<Bytes> {
    if h == map[] then Ok([]) else EncodeHeader(h, codec)
  }

  function DecodeProtected(raw: Bytes, codec: Codec): Result<Header> {
    if raw == [] then Ok(map[]) else
    var h :- DecodeMap(raw, codec);
    var _ :- ValidateCommon(h, codec.mediaType);
    Ok(h)
  }

  function ValidateProtectedState(h: Header, raw: Bytes, codec: Codec): Result<()> {
    var current :- EncodeProtected(h, codec);
    if current == raw then Ok(()) else
    var decoded :- DecodeProtected(raw, codec);
    var again :- EncodeProtected(decoded, codec);
    if again != current then Err(InvalidState) else Ok(())
  }

  function ValidateLayer(protected: Header, unprotected: Header, raw: Bytes, codec: Codec): Result<()> {
    var _ :- ValidateBuckets(protected, unprotected, codec.mediaType);
    ValidateProtectedState(protected, raw, codec)
  }

  // ---- preparing --------------------------------------------------------------------------------

  /** Both buckets after filling them in, and the outcome; a failure keeps what was filled in. */
  datatype Filled<+T> = Filled(protected: Header, unprotected: Header, outcome: Result<T>)

  function ValueOfAlg(l: Label): Value {
    ValueOfLabel(l)
  }

  function EnsureProtectedAlg(protected: Header, unprotected: Header, alg: Option<Label>): Filled<()> {
    match alg
    case None => Filled(protected, unprotected, Ok(()))
    case Some(a) =>
      match Alg(protected)
      case Err(e) => Filled(protected, unprotected, Err(e))
      case Ok(Some(existing)) => Filled(protected, unprotected, if existing != a then Err(AlgorithmMismatch) else Ok(()))
      case Ok(None) =>
        match Alg(unprotected)
        case Err(e) => Filled(protected, unprotected, Err(e))
        case Ok(Some(existing)) =>
          if existing != a then Filled(protected, unprotected, Err(AlgorithmMismatch))
          else Filled(protected[ALG := ValueOfAlg(a)], unprotected - {ALG}, Ok(()))
        case Ok(None) => Filled(protected[ALG := ValueOfAlg(a)], unprotected, Ok(()))
  }

  function EnsureUnprotectedKid(protected: Header, unprotected: Header, kid: Option<Bytes>): Filled<()> {
    match kid
    case None => Filled(protected, unprotected, Ok(()))
    case Some(k) =>
      match Kid(protected)
      case Err(e) => Filled(protected, unprotected, Err(e))
      case Ok(existing) =>
        if existing.None? && KID !in unprotected then Filled(protected, unprotected[KID := ByteString(k)], Ok(()))
        else Filled(protected, unprotected, Ok(()))
  }

  function PrepareHeaders(protected: Header, unprotected: Header, alg: Option<Label>, kid: Option<Bytes>, codec: Codec): Filled<Bytes> {
    var a := EnsureProtectedAlg(protected, unprotected, alg);
    match a.outcome
    case Err(e) => Filled(a.protected, a.unprotected, Err(e))
    case Ok(_) =>
      var k := EnsureUnprotectedKid(a.protected, a.unprotected, kid);
      match k.outcome
      case Err(e) => Filled(k.protected, k.unprotected, Err(e))
      case Ok(_) =>
        match ValidateBuckets(k.protected, k.unprotected, codec.mediaType)
        case Err(e) => Filled(k.protected, k.unprotected, Err(e))
        case Ok(_) => Filled(k.protected, k.unprotected, EncodeProtected(k.protected, codec))
  }

  function CheckProtectedAlg(protected: Header, unprotected: Header, alg: Option<Label>): Result<()> {
    match alg
    case None => Ok(())
    case Some(expected) =>
      var own :- Alg(protected);
      var existing :- if own.Some? then Ok(own) else Alg(unprotected);
      if existing.Some? && existing.value != expected then Err(AlgorithmMismatch) else Ok(())
  }

  predicate UnderstoodHeader(l: Label) {
    l in {ALG, CRIT, CONTENT_TYPE, KID, IV, PARTIAL_IV, COUNTER_SIGNATURE}
  }

  /** Every critical label is known to the library or to the caller. The content of a critical
      countersignature parameter is checked by `counterSignatures`. */
  function CritUnderstood(labels: seq<Label>, understood: seq<Label>, counterSignatures: Result<()>): Result<()> {
    if labels == [] then Ok(()) else
    if labels[0] == COUNTER_SIGNATURE then
      var _ :- counterSignatures;
      CritUnderstood(labels[1..], understood, counterSignatures)
    else if UnderstoodHeader(labels[0]) || labels[0] in understood then
      CritUnderstood(labels[1..], understood, counterSignatures)
    else Err(Custom)
  }

  function EnsureCritUnderstood(h: Header, understood: seq<Label>, codec: Codec, counterSignatures: Header -> Result<()>): Result<()> {
    var _ :- ValidateCommon(h, codec.mediaType);
    var crit :- Crit(h);
    match crit
    case None => Ok(())
    case Some(labels) => CritUnderstood(labels, understood, counterSignatures(h))
  }

  // ---- what the checks establish ----------------------------------------------------------------

  /** `int / tstr`, the integer in 64 bits. */
  predicate LabelValue(v: Value) {
    (v.Integer? && -0x8000_0000_0000_0000 <= v.n <= 0x7fff_ffff_ffff_ffff) || v.TextString?
  }

  function AsLabel(v: Value): Label
    requires LabelValue(v)
  {
    if v.Integer? then IntLabel(v.n) else TextLabel(v.text)
  }

  /** A content format number, or a media type. */
  predicate ContentTypeValue(v: Value, mediaType: Bytes -> bool) {
    (v.Integer? && 0 <= v.n <= 65535) || (v.TextString? && mediaType(v.text))
  }

  /** Every common parameter has its type, at most one kind of IV is present, and `crit`, when there,
      lists present labels, each once. The labels are those of RFC 9052, section 3.1: 1 alg, 2 crit,
      3 content type, 4 kid, 5 IV, 6 Partial IV. */
  ghost predicate CommonValid(h: Header, mediaType: Bytes -> bool) {
    && (IntLabel(1) in h ==> LabelValue(h[IntLabel(1)]))
    && (IntLabel(3) in h ==> ContentTypeValue(h[IntLabel(3)], mediaType))
    && (IntLabel(4) in h ==> h[IntLabel(4)].ByteString?)
    && (IntLabel(5) in h ==> h[IntLabel(5)].ByteString?)
    && (IntLabel(6) in h ==> h[IntLabel(6)].ByteString?)
    && !(IntLabel(5) in h && IntLabel(6) in h)
    && (IntLabel(2) in h ==> CritValid(h[IntLabel(2)], h))
  }

  ghost predicate CritValid(crit: Value, h: Header) {
    && crit.Array? && crit.items != []
    && (forall i :: 0 <= i < |crit.items| ==> LabelValue(crit.items[i]) && AsLabel(crit.items[i]) in h)
    && (forall i, j :: 0 <= i < j < |crit.items| ==> crit.items[i] != crit.items[j])
  }

  lemma LabelsAreValues(v: Value)
    ensures AnyLabelOf(v).Ok? <==> LabelValue(v)
    ensures LabelValue(v) ==> AnyLabelOf(v) == Ok(AsLabel(v))
  {
  }

  lemma AnyLabelInjective(a: Value, b: Value)
    requires AnyLabelOf(a).Ok? && AnyLabelOf(b).Ok? && AnyLabelOf(a) == AnyLabelOf(b)
    ensures a == b
  {
  }

  lemma {:induction false} LabelsOfAre(items: seq<Value>)
    ensures LabelsOf(items).Ok? <==> forall i :: 0 <= i < |items| ==> AnyLabelOf(items[i]).Ok?
    ensures LabelsOf(items).Ok? ==>
              && |LabelsOf(items).value| == |items|
              && forall i :: 0 <= i < |items| ==> AnyLabelOf(items[i]) == Ok(LabelsOf(items).value[i])
  {
    if items != [] {
      LabelsOfAre(items[1..]);
      assert forall i :: 0 < i < |items| ==> items[i] == items[1..][i - 1];
      if forall i :: 0 <= i < |items| ==> AnyLabelOf(items[i]).Ok? {
        assert AnyLabelOf(items[0]).Ok?;
        assert forall i :: 0 <= i < |items[1..]| ==> items[1..][i] == items[i + 1];
      }
    }
  }

  lemma {:induction false} CheckCritIs(labels: seq<Label>, unique: set<Label>, h: Header)
    ensures CheckCrit(labels, unique, h).Ok? <==>
            && (forall i :: 0 <= i < |labels| ==> labels[i] in h && labels[i] !in unique)
            && (forall i, j :: 0 <= i < j < |labels| ==> labels[i] != labels[j])
  {
    if labels != [] && labels[0] !in unique && labels[0] in h {
      var rest := labels[1..];
      CheckCritIs(rest, unique + {labels[0]}, h);
      assert forall i :: 0 < i < |labels| ==> labels[i] == rest[i - 1];
      assert forall i :: 0 <= i < |rest| ==> rest[i] == labels[i + 1];
    }
  }

  /** The check on one bucket accepts exactly the buckets whose common parameters are valid. */
  lemma {:induction false} CommonExact(h: Header, mediaType: Bytes -> bool)
    ensures ValidateCommon(h, mediaType).Ok? <==> CommonValid(h, mediaType)
  {
    if CRIT in h && h[CRIT].Array? {
      var items := h[CRIT].items;
      LabelsOfAre(items);
      if LabelsOf(items).Ok? {
        var labels := LabelsOf(items).value;
        CheckCritIs(labels, {}, h);
        forall i, j | 0 <= i < j < |items| ensures items[i] != items[j] <==> labels[i] != labels[j] {
          if labels[i] == labels[j] {
            AnyLabelInjective(items[i], items[j]);
          }
        }
      }
    }
  }

  /** Valid buckets with disjoint labels, a protected `crit` only, and one kind of IV in both together. */
  ghost predicate BucketsValid(protected: Header, unprotected: Header, mediaType: Bytes -> bool) {
    && CommonValid(protected, mediaType) && CommonValid(unprotected, mediaType)
    && IntLabel(2) !in unprotected
    && (forall l :: l in protected ==> l !in unprotected)
    && !((IntLabel(5) in protected || IntLabel(5) in unprotected) && (IntLabel(6) in protected || IntLabel(6) in unprotected))
  }

  /** The check on a layer accepts exactly valid buckets. */
  lemma BucketsExact(protected: Header, unprotected: Header, mediaType: Bytes -> bool)
    ensures ValidateBuckets(protected, unprotected, mediaType).Ok? <==> BucketsValid(protected, unprotected, mediaType)
  {
    CommonExact(protected, mediaType);
    CommonExact(unprotected, mediaType);
    if protected.Keys * unprotected.Keys != {} {
      var l :| l in protected.Keys * unprotected.Keys;
      assert l in protected && l in unprotected;
    } else {
      forall l | l in protected ensures l !in unprotected {
        assert l in unprotected ==> l in protected.Keys * unprotected.Keys;
      }
    }
  }

  // ---- the protected view against the authenticated bytes ---------------------------------------

  lemma NoBytes(h: Header, codec: Codec)
    requires Sane(codec.norm) && EncodeProtected(h, codec).Ok?
    ensures EncodeProtected(h, codec).value == [] <==> h == map[]
  {
    if h != map[] {
      BytesOfSorted(h, codec.norm);
    }
  }

  lemma EmptyForm(h: Header, norm: Norm)
    ensures CanonicalMap(h, norm) == map[] <==> h == map[]
  {
    assert CanonicalMap(h, norm).Keys == h.Keys;
    assert h.Keys == {} <==> h == map[];
  }

  /** Two headers have the same protected bytes exactly when they have the same form. */
  lemma SameProtected(a: Header, b: Header, codec: Codec)
    requires Sane(codec.norm) && EncodeProtected(a, codec).Ok? && EncodeProtected(b, codec).Ok?
    ensures EncodeProtected(a, codec) == EncodeProtected(b, codec) <==> CanonicalMap(a, codec.norm) == CanonicalMap(b, codec.norm)
  {
    NoBytes(a, codec);
    NoBytes(b, codec);
    EmptyForm(a, codec.norm);
    EmptyForm(b, codec.norm);
    if a != map[] && b != map[] {
      SameBytesSameForm(a, b, codec.norm);
    }
  }

  /** The authenticated bytes are the view's own deterministic bytes, or decode to a header whose
      values have the same canonical forms. */
  ghost predicate Authenticates(raw: Bytes, h: Header, codec: Codec) {
    || EncodeProtected(h, codec) == Ok(raw)
    || (DecodeProtected(raw, codec).Ok? && MapFits(DecodeProtected(raw, codec).value)
        && CanonicalMap(DecodeProtected(raw, codec).value, codec.norm) == CanonicalMap(h, codec.norm))
  }

  lemma DecodedIsCommon(raw: Bytes, codec: Codec)
    requires DecodeProtected(raw, codec).Ok?
    ensures ValidateCommon(DecodeProtected(raw, codec).value, codec.mediaType).Ok?
  {
  }

  /** A protected view passes against authenticated bytes exactly when it can be encoded and they
      authenticate it. */
  lemma StateExact(h: Header, raw: Bytes, codec: Codec)
    requires Sane(codec.norm)
    ensures ValidateProtectedState(h, raw, codec).Ok? <==> EncodeProtected(h, codec).Ok? && Authenticates(raw, h, codec)
  {
    if EncodeProtected(h, codec).Ok? && DecodeProtected(raw, codec).Ok? {
      var decoded := DecodeProtected(raw, codec).value;
      DecodedIsCommon(raw, codec);
      if MapFits(decoded) {
        SameProtected(decoded, h, codec);
      }
    }
  }

  /** What the state check cannot see: exchanging entries of a map inside a protected value after
      the bytes were stored. The view then differs from the header it was prepared from. */
  lemma NestedOrderPasses(codec: Codec)
    requires Sane(codec.norm)
    ensures var before, after := map[IntLabel(100) := ONE_TWO], map[IntLabel(100) := TWO_ONE];
            before != after && EncodeProtected(before, codec).Ok?
            && ValidateProtectedState(after, EncodeProtected(before, codec).value, codec) == Ok(())
  {
    DifferentMapsSameBytes(codec.norm);
  }

  // ---- the forms of common parameters -----------------------------------------------------------

  lemma LabelValueStays(v: Value, norm: Norm)
    requires AnyLabelOf(v).Ok?
    ensures Canonical(v, norm) == v
  {
  }

  lemma {:induction false} LabelValuesStay(items: seq<Value>, norm: Norm)
    requires forall i :: 0 <= i < |items| ==> AnyLabelOf(items[i]).Ok?
    ensures CanonicalItems(items, norm) == items
  {
    if items != [] {
      LabelValueStays(items[0], norm);
      LabelValuesStay(items[1..], norm);
    }
  }

  /** The parameters the checks look at are their own canonical forms. */
  lemma {:induction false} CommonStays(h: Header, norm: Norm, mediaType: Bytes -> bool)
    requires CommonValid(h, mediaType)
    ensures forall l :: l in h && l in {ALG, CRIT, CONTENT_TYPE, KID, IV, PARTIAL_IV} ==> Canonical(h[l], norm) == h[l]
  {
    if ALG in h {
      LabelValueStays(h[ALG], norm);
    }
    if CRIT in h {
      LabelValuesStay(h[CRIT].items, norm);
    }
  }

  /** A valid bucket stays valid in its canonical form. */
  lemma {:induction false} FormIsCommon(h: Header, norm: Norm, mediaType: Bytes -> bool)
    requires ValidateCommon(h, mediaType).Ok?
    ensures ValidateCommon(CanonicalMap(h, norm), mediaType).Ok?
  {
    CommonExact(h, mediaType);
    CommonExact(CanonicalMap(h, norm), mediaType);
    CommonStays(h, norm, mediaType);
    if CRIT in h {
      assert CanonicalMap(h, norm)[CRIT] == h[CRIT];
    }
  }

  /** Valid buckets of one form agree on what the checks look at. */
  lemma {:induction false} CommonAgrees(a: Header, b: Header, norm: Norm, mediaType: Bytes -> bool)
    requires ValidateCommon(a, mediaType).Ok? && ValidateCommon(b, mediaType).Ok? && CanonicalMap(a, norm) == CanonicalMap(b, norm)
    ensures a.Keys == b.Keys && Alg(a) == Alg(b) && Crit(a) == Crit(b)
  {
    CommonExact(a, mediaType);
    CommonExact(b, mediaType);
    CommonStays(a, norm, mediaType);
    CommonStays(b, norm, mediaType);
    assert a.Keys == CanonicalMap(a, norm).Keys == CanonicalMap(b, norm).Keys == b.Keys;
    assert ALG in a ==> CanonicalMap(a, norm)[ALG] == CanonicalMap(b, norm)[ALG];
    assert CRIT in a ==> CanonicalMap(a, norm)[CRIT] == CanonicalMap(b, norm)[CRIT];
  }
}
