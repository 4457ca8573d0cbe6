/** What the header checks and preparation decide, stated over the entries of the buckets: critical
    headers, the verifier's algorithm, what preparing fills in and when it succeeds (src/header.rs,
    src/util.rs). */
module HeaderLaws {
  import opened Values
  import opened CoseMaps
  import opened MapForms
  import opened Headers
  import P = StrictParser
  import B = MessageBodies

  // ---- critical headers -------------------------------------------------------------------------

  /** Every label `crit` lists is one of the registered 1 to 7 or known to the caller, and a critical
      countersignature parameter, label 7, can be read. */
  ghost predicate CritKnown(h: Header, understood: seq<Label>, counterSignatures: Result<()>) {
    IntLabel(2) in h && h[IntLabel(2)].Array? ==>
      forall i :: 0 <= i < |h[IntLabel(2)].items| ==> Known(h[IntLabel(2)].items[i], understood, counterSignatures)
  }

  ghost predicate Known(v: Value, understood: seq<Label>, counterSignatures: Result<()>) {
    && LabelValue(v)
    && ((v.Integer? && 1 <= v.n <= 7) || AsLabel(v) in understood)
    && (v == Integer(7) ==> counterSignatures.Ok?)
  }

  lemma {:induction false} UnderstoodEach(labels: seq<Label>, items: seq<Value>, understood: seq<Label>, counterSignatures: Result<()>)
    requires |labels| == |items| && forall i :: 0 <= i < |items| ==> LabelValue(items[i]) && AsLabel(items[i]) == labels[i]
    ensures CritUnderstood(labels, understood, counterSignatures).Ok? <==>
            forall i :: 0 <= i < |items| ==> Known(items[i], understood, counterSignatures)
  {
    if labels != [] {
      UnderstoodEach(labels[1..], items[1..], understood, counterSignatures);
      assert forall i :: 0 < i < |items| ==> items[i] == items[1..][i - 1];
      assert forall i :: 0 <= i < |items[1..]| ==> items[1..][i] == items[i + 1];
      assert Known(items[0], understood, counterSignatures) <==>
             if labels[0] == IntLabel(7) then counterSignatures.Ok? else UnderstoodHeader(labels[0]) || labels[0] in understood;
    }
  }

  /** The check passes exactly on a valid bucket whose critical labels are all known. */
  lemma CritExact(h: Header, understood: seq<Label>, codec: Codec, counterSignatures: Header -> Result<()>)
    ensures EnsureCritUnderstood(h, understood, codec, counterSignatures).Ok? <==>
            CommonValid(h, codec.mediaType) && CritKnown(h, understood, counterSignatures(h))
  {
    CommonExact(h, codec.mediaType);
    if CommonValid(h, codec.mediaType) && CRIT in h {
      var items := h[CRIT].items;
      LabelsOfAre(items);
      forall i | 0 <= i < |items| ensures AnyLabelOf(items[i]) == Ok(AsLabel(items[i])) {
        LabelsAreValues(items[i]);
      }
      UnderstoodEach(LabelsOf(items).value, items, understood, counterSignatures(h));
    }
  }

  // ---- the algorithm ----------------------------------------------------------------------------

  /** The value names this algorithm. */
  predicate Names(v: Value, alg: Label) {
    LabelValue(v) && AsLabel(v) == alg
  }

  /** The algorithm that counts, the protected one if there is one, is the expected one. */
  predicate AlgFits(protected: Header, unprotected: Header, alg: Option<Label>) {
    alg.Some? ==>
      if IntLabel(1) in protected then Names(protected[IntLabel(1)], alg.value)
      else IntLabel(1) in unprotected ==> Names(unprotected[IntLabel(1)], alg.value)
  }

  lemma AlgCheckExact(protected: Header, unprotected: Header, alg: Option<Label>)
    ensures CheckProtectedAlg(protected, unprotected, alg).Ok? <==> AlgFits(protected, unprotected, alg)
  {
  }

  // ---- preparing --------------------------------------------------------------------------------

  /** The algorithm as a header value. */
  function AlgValue(alg: Label): Value {
    match alg
    case IntLabel(n) => Integer(n)
    case TextLabel(t) => TextString(t)
  }

  /** The protected bucket with the algorithm, unless it names one already. */
  function WithAlg(protected: Header, alg: Option<Label>): Header {
    if alg.Some? && IntLabel(1) !in protected then protected[IntLabel(1) := AlgValue(alg.value)] else protected
  }

  /** The unprotected bucket, from which the algorithm moved away. */
  function WithoutAlg(protected: Header, unprotected: Header, alg: Option<Label>): Header {
    if alg.Some? && IntLabel(1) !in protected then unprotected - {IntLabel(1)} else unprotected
  }

  /** The key identifier, unless one of the buckets has one already. */
  function WithKid(protected: Header, unprotected: Header, kid: Option<Bytes>): Header {
    if kid.Some? && IntLabel(4) !in protected && IntLabel(4) !in unprotected then unprotected[IntLabel(4) := ByteString(kid.value)]
    else unprotected
  }

  /** The identifier in the way, if there is one, is a byte string. */
  predicate KidReadable(protected: Header, kid: Option<Bytes>) {
    kid.Some? && IntLabel(4) in protected ==> protected[IntLabel(4)].ByteString?
  }

  lemma AlgFilled(protected: Header, unprotected: Header, alg: Option<Label>)
    ensures var f := EnsureProtectedAlg(protected, unprotected, alg);
            if AlgFits(protected, unprotected, alg) then f == Filled(WithAlg(protected, alg), WithoutAlg(protected, unprotected, alg), Ok(()))
            else f.outcome.Err? && f.protected == protected && f.unprotected == unprotected
  {
    if alg.Some? && ALG !in unprotected {
      assert unprotected - {ALG} == unprotected;
    }
  }

  lemma KidFilled(protected: Header, unprotected: Header, kid: Option<Bytes>)
    ensures var f := EnsureUnprotectedKid(protected, unprotected, kid);
            if KidReadable(protected, kid) then f == Filled(protected, WithKid(protected, unprotected, kid), Ok(()))
            else f.outcome.Err? && f.protected == protected && f.unprotected == unprotected
  {
  }

  /** A protected bucket has bytes exactly when it is empty, or valid and countable. */
  ghost predicate HasBytes(h: Header, mediaType: Bytes -> bool) {
    h == map[] || (CommonValid(h, mediaType) && MapFits(h))
  }

  lemma BytesExact(h: Header, codec: Codec)
    ensures EncodeProtected(h, codec).Ok? <==> HasBytes(h, codec.mediaType)
    ensures h == map[] ==> EncodeProtected(h, codec) == Ok([])
    ensures h != map[] && HasBytes(h, codec.mediaType) ==> EncodeProtected(h, codec) == EncodeMap(h, codec.norm)
  {
    CommonExact(h, codec.mediaType);
  }

  /** Preparing succeeds exactly when an algorithm already named is the signer's, a protected key
      identifier is readable, and the buckets with what was missing filled in are valid; then they are
      these buckets, and the bytes are the protected one's. A failure keeps what was filled in by then. */
  lemma PreparingExact(protected: Header, unprotected: Header, alg: Option<Label>, kid: Option<Bytes>, codec: Codec)
    ensures var p := PrepareHeaders(protected, unprotected, alg, kid, codec);
            var q, u := WithAlg(protected, alg), WithoutAlg(protected, unprotected, alg);
            var v := WithKid(q, u, kid);
            && (p.outcome.Ok? <==> AlgFits(protected, unprotected, alg) && KidReadable(q, kid)
                                   && BucketsValid(q, v, codec.mediaType) && HasBytes(q, codec.mediaType))
            && (p.outcome.Ok? ==> p == Filled(q, v, EncodeProtected(q, codec)))
            && (p.outcome.Err? && !AlgFits(protected, unprotected, alg) ==> p.protected == protected && p.unprotected == unprotected)
            && (p.outcome.Err? && AlgFits(protected, unprotected, alg) ==>
                  p.protected == q && p.unprotected == if KidReadable(q, kid) then v else u)
  {
    hide ValidateBuckets, EncodeProtected, AlgFits, BucketsValid, HasBytes, EnsureProtectedAlg, EnsureUnprotectedKid;
    AlgFilled(protected, unprotected, alg);
    var q, u := WithAlg(protected, alg), WithoutAlg(protected, unprotected, alg);
    KidFilled(q, u, kid);
    BucketsExact(q, WithKid(q, u, kid), codec.mediaType);
    BytesExact(q, codec);
  }

  /** What preparing puts into the buckets: the algorithm is protected and only there, a key
      identifier is in one of them, the given one unless there was one already, which stays, and nothing
      else changes. */
  lemma PreparedContent(protected: Header, unprotected: Header, alg: Option<Label>, kid: Option<Bytes>, codec: Codec)
    requires PrepareHeaders(protected, unprotected, alg, kid, codec).outcome.Ok?
    requires alg.Some? ==> LabelValue(AlgValue(alg.value))
    ensures var p := PrepareHeaders(protected, unprotected, alg, kid, codec);
            && BucketsValid(p.protected, p.unprotected, codec.mediaType)
            && EncodeProtected(p.protected, codec) == p.outcome
            && (alg.Some? ==> AlgProtected(p.protected, p.unprotected, alg.value))
            && (kid.Some? ==> KidPlaced(protected, unprotected, p.protected, p.unprotected, kid.value))
            && OtherwiseSame(protected, p.protected) && OtherwiseSame(unprotected, p.unprotected)
  {
    hide BucketsValid, EncodeProtected, HasBytes, PrepareHeaders;
    PreparingExact(protected, unprotected, alg, kid, codec);
    var q, v := WithAlg(protected, alg), WithKid(WithAlg(protected, alg), WithoutAlg(protected, unprotected, alg), kid);
    BucketsApart(q, v, codec.mediaType);
  }

  lemma BucketsApart(protected: Header, unprotected: Header, mediaType: Bytes -> bool)
    requires BucketsValid(protected, unprotected, mediaType)
    ensures IntLabel(1) in protected ==> IntLabel(1) !in unprotected
  {
  }

  /** Only the algorithm and the key identifier may differ. */
  ghost predicate OtherwiseSame(before: Header, after: Header) {
    forall l :: l != IntLabel(1) && l != IntLabel(4) ==> (l in before <==> l in after) && (l in before ==> before[l] == after[l])
  }

  ghost predicate AlgProtected(protected: Header, unprotected: Header, alg: Label) {
    IntLabel(1) in protected && Names(protected[IntLabel(1)], alg) && IntLabel(1) !in unprotected
  }

  /** The identifier stands in one bucket: where one stood before, or the given one. */
  ghost predicate KidPlaced(protected: Header, unprotected: Header, after: Header, afterUnprotected: Header, kid: Bytes) {
    if IntLabel(4) in protected then IntLabel(4) in after && after[IntLabel(4)] == protected[IntLabel(4)]
    else IntLabel(4) in afterUnprotected && IntLabel(4) !in after
         && afterUnprotected[IntLabel(4)] == if IntLabel(4) in unprotected then unprotected[IntLabel(4)] else ByteString(kid)
  }

  /** Preparing again with the same algorithm and key identifier changes nothing and encodes the same
      bytes. */
  lemma PreparingIsStable(protected: Header, unprotected: Header, alg: Option<Label>, kid: Option<Bytes>, codec: Codec)
    requires PrepareHeaders(protected, unprotected, alg, kid, codec).outcome.Ok?
    requires alg.Some? ==> LabelValue(AlgValue(alg.value))
    ensures var p := PrepareHeaders(protected, unprotected, alg, kid, codec);
            PrepareHeaders(p.protected, p.unprotected, alg, kid, codec) == p
  {
    hide BucketsValid, EncodeProtected, HasBytes, PrepareHeaders;
    PreparingExact(protected, unprotected, alg, kid, codec);
    PreparedContent(protected, unprotected, alg, kid, codec);
    var p := PrepareHeaders(protected, unprotected, alg, kid, codec);
    PreparingExact(p.protected, p.unprotected, alg, kid, codec);
  }

  // ---- decoding a protected bucket --------------------------------------------------------------

  /** Protected bytes decode exactly when they are empty, or a map the strict pass accepts and the
      library reads as a valid bucket. */
  lemma DecodingExact(raw: Bytes, codec: Codec)
    ensures var r := DecodeProtected(raw, codec);
            && (r.Ok? <==>
                || raw == []
                || (&& P.Root(raw, B.Strict(P.CborLimits(128, 100_000, false), codec.reencode)).Ok?
                    && P.Root(raw, B.Strict(P.CborLimits(128, 100_000, false), codec.reencode)).value.kind == P.MapKind
                    && codec.read(raw).Ok? && CommonValid(codec.read(raw).value, codec.mediaType)))
            && (r.Ok? ==> r.value == if raw == [] then map[] else codec.read(raw).value)
  {
    hide P.Root, CommonValid;
    if codec.read(raw).Ok? {
      CommonExact(codec.read(raw).value, codec.mediaType);
    }
  }
}
