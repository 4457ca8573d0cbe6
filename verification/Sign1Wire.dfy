/** COSE_Sign1 messages on the wire: what is read from any accepted input, and that a written message
    is read back (src/sign1.rs). */
module Sign1Wire {
  import opened Values
  import opened Heads
  import opened Syntax
  import opened Readings
  import opened Encoding
  import opened MapForms
  import opened Headers
  import opened Sign1
  import opened StrictParser
  import G = ParserGrammar
  import P = ParserLaws
  import B = MessageBodies
  import L = MessageLaws
  import Tags
  import C = CoseMaps
  import D = Deterministic

  // ---- reading ----------------------------------------------------------------------------------

  predicate PayloadDenoted(payload: Option<Bytes>, v: Value) {
    match payload
    case None => v == NULL
    case Some(b) => v == ByteString(b)
  }

  /** What the serialization of a message body is read as. */
  function BodyWire(body: Syn, codec: Codec): Result<Wire>
    requires WellFormed(body) && L.Message(Den(body), TAG)
  {
    var members := Den(body).items;
    L.MemberDenotes(body.items, 1);
    var unprotected :- ReadHeader(Ser(body.items[1]), codec);
    Ok(Wire(members[0].bytes, unprotected, if members[2] == NULL then None else Some(members[2].bytes), members[3].bytes))
  }

  lemma BytesMember(data: Bytes, items: seq<Syn>, at: nat, i: nat)
    requires WellFormedItems(items) && i < |items| && At(data, at, SerItems(items)) && DenItems(items)[i].ByteString?
    ensures B.BytesOf(data, G.ItemsAt(items, at)[i]) == Ok(DenItems(items)[i].bytes)
  {
    L.MemberStands(data, items, at, i);
    L.MemberIs(items, at, i);
    L.ByteStringContent(data, items[i], L.Position(items, at, i));
  }

  lemma SliceMember(data: Bytes, items: seq<Syn>, at: nat, i: nat)
    requires WellFormedItems(items) && i < |items| && At(data, at, SerItems(items))
    ensures WellFormed(items[i]) && B.Slice(data, G.ItemsAt(items, at)[i]) == Ok(Ser(items[i]))
  {
    L.MemberStands(data, items, at, i);
    L.MemberIs(items, at, i);
    AtIsSlice(data, L.Position(items, at, i), Ser(items[i]));
  }

  lemma PayloadMember(data: Bytes, items: seq<Syn>, at: nat)
    requires WellFormedItems(items) && |items| == 4 && At(data, at, SerItems(items)) && L.BytesOrNull(DenItems(items)[2])
    ensures ReadPayload(data, G.ItemsAt(items, at)[2])
         == Ok(if DenItems(items)[2] == NULL then None else Some(DenItems(items)[2].bytes))
  {
    L.MemberKind(items, at, 2);
    if DenItems(items)[2] != NULL {
      BytesMember(data, items, at, 2);
    }
  }

  lemma MembersRead(data: Bytes, body: Syn, at: nat, codec: Codec)
    requires WellFormed(body) && L.Message(Den(body), TAG) && At(data, at, Ser(body))
    ensures body.List? && ReadMembers(data, G.ItemOf(body, at).children, codec) == BodyWire(body, codec)
  {
    hide At, Ser, SerItems, WellFormedItems, ReadHeader, ReadPayload, B.BytesOf, G.ItemsAt;
    L.KindsAgree(body);
    var items, from := body.items, at + G.HeadLength(body);
    assert body == List(body.form, items);
    AtBody(data, body.form, items, at);
    BytesMember(data, items, from, 0);
    SliceMember(data, items, from, 1);
    PayloadMember(data, items, from);
    BytesMember(data, items, from, 3);
  }

  lemma AtBody(data: Bytes, form: Form, items: seq<Syn>, at: nat)
    requires WellFormed(List(form, items)) && At(data, at, Ser(List(form, items)))
    ensures At(data, at + G.FormLength(form), SerItems(items))
  {
    G.AtSplit(data, at, Opening(4, form, |items|) + SerItems(items), Closing(form));
    G.AtSplit(data, at, Opening(4, form, |items|), SerItems(items));
  }

  /** A message body is read, whatever wrapper it travels in. */
  lemma WrittenIsRead(self: Option<Width>, cwt: Option<Width>, own: Option<Width>, body: Syn, limits: CborLimits, codec: Codec)
    requires WellFormed(L.Wrapped(self, cwt, own, TAG, body)) && WellFormed(body) && (cwt.Some? ==> own.Some?)
    requires L.Message(Den(body), TAG)
    requires Root(Ser(L.Wrapped(self, cwt, own, TAG, body)), B.Strict(limits, codec.reencode)).Ok?
    ensures ReadWire(Ser(L.Wrapped(self, cwt, own, TAG, body)), limits, codec) == BodyWire(body, codec)
  {
    hide At, Root, ReadWire, BodyWire, Encodable, Ser, WellFormed, Den, L.Message, L.Wrapped, G.ItemOf;
    var s := L.Wrapped(self, cwt, own, TAG, body);
    RootIsItem(s, B.Strict(limits, codec.reencode));
    L.BodyStands(self, cwt, own, TAG, body);
    var head := L.WrappedHead(self, cwt, own, TAG);
    BodyFound(self, cwt, own, body);
    StandsBehind(head, Ser(body));
    MembersRead(Ser(s), body, |head|, codec);
    WireOfBody(Ser(s), limits, codec, G.ItemOf(s, 0), G.ItemOf(body, |head|));
  }

  lemma RootIsItem(s: Syn, rules: Rules)
    requires WellFormed(s) && Root(Ser(s), rules).Ok?
    ensures Root(Ser(s), rules) == Ok(G.ItemOf(s, 0))
  {
    var t := P.RootWritten(Ser(s), rules);
    SerInjective(t, s);
  }

  lemma BodyFound(self: Option<Width>, cwt: Option<Width>, own: Option<Width>, body: Syn)
    requires WellFormed(L.Wrapped(self, cwt, own, TAG, body)) && WellFormed(body) && (cwt.Some? ==> own.Some?)
    requires L.Message(Den(body), TAG)
    ensures B.BodyItem(G.ItemOf(L.Wrapped(self, cwt, own, TAG, body), 0), TAG)
         == Ok(G.ItemOf(body, L.WrapLength(self) + L.WrapLength(cwt) + L.WrapLength(own)))
  {
    hide At, Root, Encodable, Ser, B.MessageShape;
    var at := L.WrapLength(self) + L.WrapLength(cwt) + L.WrapLength(own);
    L.KindsAgree(body);
    L.BodyOutcome(self, cwt, own, TAG, body);
    L.MessageShaped(body, at, TAG);
    OutcomeFound(B.BodyItem(G.ItemOf(L.Wrapped(self, cwt, own, TAG, body), 0), TAG), G.ItemOf(body, at));
  }

  lemma OutcomeFound(r: Result<Item>, body: Item)
    requires L.Outcome(r, false, body, TAG) && body.kind == ArrayKind && B.MessageShape(body, TAG).Ok?
    ensures r == Ok(body)
  {
  }

  lemma WireOfBody(data: Bytes, limits: CborLimits, codec: Codec, item: Item, body: Item)
    requires Root(data, B.Strict(limits, codec.reencode)) == Ok(item) && B.BodyItem(item, TAG) == Ok(body)
    ensures ReadWire(data, limits, codec) == ReadMembers(data, body.children, codec)
  {
  }

  lemma StandsBehind(head: Bytes, part: Bytes)
    ensures At(head + part, |head|, part)
  {
    AtIsSlice(head + part, |head|, part);
    assert (head + part)[|head|..|head| + |part|] == part;
  }

  /** Whatever is read, the input was a valid wrapper around a COSE_Sign1 body, and the members are
      what the body denotes. */
  lemma ReadIsWritten(data: Bytes, limits: CborLimits, codec: Codec)
    returns (self: Option<Width>, cwt: Option<Width>, own: Option<Width>, body: Syn)
    requires ReadWire(data, limits, codec).Ok?
    ensures WellFormed(L.Wrapped(self, cwt, own, TAG, body)) && Ser(L.Wrapped(self, cwt, own, TAG, body)) == data
    ensures (cwt.Some? ==> own.Some?) && WellFormed(body) && L.Message(Den(body), TAG)
    ensures B.MessageBody(data, TAG, limits, codec.reencode) == Ok(Ser(body))
    ensures ReadWire(data, limits, codec) == BodyWire(body, codec)
  {
    BodyReads(data, limits, codec);
    self, cwt, own, body := L.BodyIsWrapped(data, TAG, limits, codec.reencode);
    WrittenIsRead(self, cwt, own, body, limits, codec);
  }

  lemma BodyReads(data: Bytes, limits: CborLimits, codec: Codec)
    requires ReadWire(data, limits, codec).Ok?
    ensures B.MessageBody(data, TAG, limits, codec.reencode).Ok?
  {
    var rules := B.Strict(limits, codec.reencode);
    var s := P.RootWritten(data, rules);
    var self, cwt, own, body := L.PeelAll(s, TAG);
    L.BodyOutcome(self, cwt, own, TAG, body);
    L.BodyStands(self, cwt, own, TAG, body);
  }

  /** The data holds a message body whose protected bytes and signature the message has. */
  ghost predicate CameWith(data: Bytes, limits: CborLimits, m: Message, codec: Codec) {
    exists body :: HoldsMembers(body, data, limits, m, codec)
  }

  ghost predicate HoldsMembers(body: Syn, data: Bytes, limits: CborLimits, m: Message, codec: Codec) {
    && WellFormed(body) && B.MessageBody(data, TAG, limits, codec.reencode) == Ok(Ser(body))
    && L.Message(Den(body), TAG)
    && Den(body).items[0] == ByteString(m.raw) && Den(body).items[3] == ByteString(m.signature)
    && PayloadDenoted(m.payload, Den(body).items[2])
  }

  /** A decoded message is complete, with the members of the body it was read from. */
  lemma DecodedCameWith(data: Bytes, limits: CborLimits, w: World)
    requires FromSlice(data, limits, w).Ok?
    ensures var m := FromSlice(data, limits, w).value;
            m.state == Complete && CameWith(data, limits, m, w.codec) && DecodeProtected(m.raw, w.codec) == Ok(m.protected)
  {
    var self, cwt, own, body := ReadIsWritten(data, limits, w.codec);
    assert HoldsMembers(body, data, limits, FromSlice(data, limits, w).value, w.codec);
  }

  // ---- writing ----------------------------------------------------------------------------------

  ghost predicate MessageFits(m: Message) {
    |m.raw| < TWO_64 && |m.signature| < TWO_64 && (m.payload.Some? ==> |m.payload.value| < TWO_64)
  }

  /** How the header encoder writes a bucket. */
  ghost function HeaderSyn(h: Header, codec: Codec): Syn
    requires EncodeHeader(h, codec).Ok? && D.Sane(codec.norm)
  {
    BytesOfSorted(h, codec.norm);
    Plain(Map(Sorted(h, codec.norm)))
  }

  lemma HeaderWritten(h: Header, codec: Codec)
    requires EncodeHeader(h, codec).Ok? && D.Sane(codec.norm)
    ensures WellFormed(HeaderSyn(h, codec)) && HeaderSyn(h, codec).Table?
    ensures EncodeHeader(h, codec) == Ok(Ser(HeaderSyn(h, codec)))
  {
    BytesOfSorted(h, codec.norm);
  }

  function PayloadSyn(payload: Option<Bytes>): Syn
    requires payload.Some? ==> |payload.value| < TWO_64
  {
    match payload
    case None => SimpleCode(Direct, 22)
    case Some(b) => Plain(ByteString(b))
  }

  /** The four members of the array. */
  ghost function BodySyn(m: Message, codec: Codec): Syn
    requires MessageFits(m) && EncodeHeader(m.unprotected, codec).Ok? && D.Sane(codec.norm)
  {
    List(Definite(Direct), [Plain(ByteString(m.raw)), HeaderSyn(m.unprotected, codec), PayloadSyn(m.payload), Plain(ByteString(m.signature))])
  }

  lemma OneMore(x: Syn, rest: seq<Syn>)
    requires WellFormed(x) && WellFormedItems(rest)
    ensures WellFormedItems([x] + rest) && SerItems([x] + rest) == Ser(x) + SerItems(rest)
  {
    assert ([x] + rest)[1..] == rest;
  }

  lemma FourSer(a: Syn, b: Syn, c: Syn, d: Syn)
    requires WellFormed(a) && WellFormed(b) && WellFormed(c) && WellFormed(d)
    ensures WellFormedItems([a, b, c, d]) && SerItems([a, b, c, d]) == Ser(a) + (Ser(b) + (Ser(c) + (Ser(d) + [])))
  {
    OneMore(d, []);
    OneMore(c, [d]);
    OneMore(b, [c, d]);
    OneMore(a, [b, c, d]);
    assert [d] + [] == [d] && [c] + [d] == [c, d] && [b] + [c, d] == [b, c, d] && [a] + [b, c, d] == [a, b, c, d];
  }

  lemma Regrouped(h: Bytes, a: Bytes, b: Bytes, c: Bytes, d: Bytes)
    ensures h + a + b + c + d == h + (a + (b + (c + (d + [])))) + []
  {
  }

  lemma BodyWritten(m: Message, w: World)
    requires MessageFits(m) && D.Sane(w.codec.norm) && EncodeMessage(m, [], w).Ok?
    ensures WellFormed(BodySyn(m, w.codec)) && L.Message(Den(BodySyn(m, w.codec)), TAG)
    ensures ShortHead(4, 4) + EncodeBytes(m.raw) + EncodeHeader(m.unprotected, w.codec).value + EncodePayload(m.payload) + EncodeBytes(m.signature)
         == Ser(BodySyn(m, w.codec))
  {
    var a, b, c, d := Plain(ByteString(m.raw)), HeaderSyn(m.unprotected, w.codec), PayloadSyn(m.payload), Plain(ByteString(m.signature));
    HeaderWritten(m.unprotected, w.codec);
    FourSer(a, b, c, d);
    ListWritten(a, b, c, d);
    BodyIsMessage(a, b, c, d);
    StringWritten(m.raw);
    StringWritten(m.signature);
    PayloadWritten(m.payload);
  }

  lemma ListWritten(a: Syn, b: Syn, c: Syn, d: Syn)
    requires WellFormed(a) && WellFormed(b) && WellFormed(c) && WellFormed(d) && WellFormedItems([a, b, c, d])
    requires SerItems([a, b, c, d]) == Ser(a) + (Ser(b) + (Ser(c) + (Ser(d) + [])))
    ensures WellFormed(List(Definite(Direct), [a, b, c, d]))
    ensures Ser(List(Definite(Direct), [a, b, c, d])) == ShortHead(4, 4) + Ser(a) + Ser(b) + Ser(c) + Ser(d)
  {
    Regrouped(ShortHead(4, 4), Ser(a), Ser(b), Ser(c), Ser(d));
  }

  lemma StringWritten(b: Bytes)
    requires |b| < TWO_64
    ensures EncodeBytes(b) == Ser(Plain(ByteString(b))) && Den(Plain(ByteString(b))) == ByteString(b)
  {
  }

  lemma PayloadWritten(payload: Option<Bytes>)
    requires payload.Some? ==> |payload.value| < TWO_64
    ensures EncodePayload(payload) == Ser(PayloadSyn(payload)) && PayloadDenoted(payload, Den(PayloadSyn(payload)))
  {
    if payload.Some? {
      StringWritten(payload.value);
    }
  }

  lemma BodyIsMessage(a: Syn, b: Syn, c: Syn, d: Syn)
    requires WellFormed(List(Definite(Direct), [a, b, c, d]))
    requires WellFormed(a) && WellFormed(b) && WellFormed(c) && WellFormed(d)
    requires Den(a).ByteString? && Den(b).Map? && L.BytesOrNull(Den(c)) && Den(d).ByteString?
    ensures L.Message(Den(List(Definite(Direct), [a, b, c, d])), TAG)
    ensures Den(List(Definite(Direct), [a, b, c, d])) == Array([Den(a), Den(b), Den(c), Den(d)])
  {
    var items := [a, b, c, d];
    L.MemberDenotes(items, 0);
    L.MemberDenotes(items, 1);
    L.MemberDenotes(items, 2);
    L.MemberDenotes(items, 3);
  }

  /** The tags of a written message, as head widths. */
  function CwtWidth(cwt: bool): Option<Width> {
    if cwt then Some(One) else None
  }

  ghost function WholeSyn(cwt: bool, body: Syn): Syn {
    L.Wrapped(None, CwtWidth(cwt), Some(Direct), TAG, body)
  }

  lemma WholeWritten(cwt: bool, body: Syn)
    requires WellFormed(body)
    ensures WellFormed(WholeSyn(cwt, body)) && Ser(WholeSyn(cwt, body)) == Tags.WithTag(TagPrefix(cwt), Ser(body))
  {
    Tags.PrefixesAreHeads();
    TagWritten(Direct, TAG, body);
    if cwt {
      TagWritten(One, 61, Tagged(Direct, TAG, body));
      Associates(Tags.CWT_PREFIX, Tags.SIGN1_PREFIX, Ser(body));
    }
  }

  lemma TagWritten(w: Width, tag: nat, s: Syn)
    requires WellFormed(s) && Fits(tag, w)
    ensures WellFormed(Tagged(w, tag, s)) && Ser(Tagged(w, tag, s)) == Head(6, tag, w) + Ser(s)
  {
  }

  /** A complete message is written as its untagged body behind the prefix of its tags, and taking
      the prefix off gives the untagged encoding. */
  lemma EncodedIs(m: Message, cwt: bool, w: World)
    requires MessageFits(m) && D.Sane(w.codec.norm) && EncodeMessage(m, [], w).Ok?
    ensures WellFormed(BodySyn(m, w.codec)) && L.Message(Den(BodySyn(m, w.codec)), TAG) && WellFormed(WholeSyn(cwt, BodySyn(m, w.codec)))
    ensures EncodeMessage(m, [], w) == Ok(Ser(BodySyn(m, w.codec)))
    ensures EncodeMessage(m, TagPrefix(cwt), w) == Ok(Ser(WholeSyn(cwt, BodySyn(m, w.codec))))
    ensures Tags.SkipTag(TagPrefix(cwt), EncodeMessage(m, TagPrefix(cwt), w).value) == EncodeMessage(m, [], w).value
  {
    BodyWritten(m, w);
    WholeWritten(cwt, BodySyn(m, w.codec));
    assert Tags.WithTag([], Ser(BodySyn(m, w.codec))) == Ser(BodySyn(m, w.codec));
    Tags.SkipUndoesWith(TagPrefix(cwt), Ser(BodySyn(m, w.codec)));
  }

  /** Encoding a complete message and reading the body back gives exactly its untagged array, unless
      the strict pass rejects the message. */
  lemma EncodedReadsBack(m: Message, cwt: bool, w: World, limits: CborLimits)
    requires MessageFits(m) && D.Sane(w.codec.norm) && EncodeMessage(m, [], w).Ok?
    requires EncodeMessage(m, TagPrefix(cwt), w).Ok? && Root(EncodeMessage(m, TagPrefix(cwt), w).value, B.Strict(limits, w.codec.reencode)).Ok?
    ensures B.MessageBody(EncodeMessage(m, TagPrefix(cwt), w).value, TAG, limits, w.codec.reencode) == EncodeMessage(m, [], w)
  {
    EncodedIs(m, cwt, w);
    var body := BodySyn(m, w.codec);
    var whole := WholeSyn(cwt, body);
    var s := P.RootWritten(Ser(whole), B.Strict(limits, w.codec.reencode));
    SerInjective(s, whole);
    L.WrapperRoundTrip(None, CwtWidth(cwt), Some(Direct), TAG, body, limits, w.codec.reencode);
  }

  // ---- reading what was written -----------------------------------------------------------------

  /** Where the library reads a deterministically encoded map at all, it reads the values as they
      were written. */
  ghost predicate ReadsBack(codec: Codec) {
    forall h {:trigger EncodeMap(h, codec.norm)} :: EncodeMap(h, codec.norm).Ok? && codec.read(EncodeMap(h, codec.norm).value).Ok? ==>
      codec.read(EncodeMap(h, codec.norm).value).value == CanonicalMap(h, codec.norm)
  }

  /** The decoded view is the signed one, up to canonical forms. */
  ghost predicate SameView(decoded: Header, h: Header, norm: D.Norm) {
    decoded == CanonicalMap(h, norm) || CanonicalMap(decoded, norm) == CanonicalMap(h, norm)
  }

  lemma OwnBytesDecode(h: Header, raw: Bytes, codec: Codec)
    requires D.Sane(codec.norm) && ReadsBack(codec) && EncodeProtected(h, codec) == Ok(raw) && DecodeProtected(raw, codec).Ok?
    ensures C.MapFits(h) || h == map[]
    ensures DecodeProtected(raw, codec).value == CanonicalMap(h, codec.norm)
  {
    NoBytes(h, codec);
    EmptyForm(h, codec.norm);
    DecodedIsRead(raw, codec);
    if h != map[] {
      ProtectedIsMap(h, codec);
    }
  }

  lemma DecodedIsRead(raw: Bytes, codec: Codec)
    requires DecodeProtected(raw, codec).Ok?
    ensures if raw == [] then DecodeProtected(raw, codec).value == map[] else codec.read(raw) == DecodeProtected(raw, codec)
  {
  }

  lemma ProtectedIsMap(h: Header, codec: Codec)
    requires EncodeProtected(h, codec).Ok? && h != map[]
    ensures EncodeMap(h, codec.norm) == EncodeProtected(h, codec) && C.MapFits(h)
  {
  }

  lemma ProtectedAgain(m: Message, codec: Codec)
    requires D.Sane(codec.norm) && ReadsBack(codec) && ValidateProtectedState(m.protected, m.raw, codec).Ok?
    requires DecodeProtected(m.raw, codec).Ok?
    ensures var d := DecodeProtected(m.raw, codec).value;
            SameView(d, m.protected, codec.norm) && ValidateCommon(d, codec.mediaType).Ok? && C.MapFits(d)
  {
    StateExact(m.protected, m.raw, codec);
    DecodedIsCommon(m.raw, codec);
    if EncodeProtected(m.protected, codec) == Ok(m.raw) {
      OwnBytesDecode(m.protected, m.raw, codec);
      if m.protected == map[] {
        EmptyForm(m.protected, codec.norm);
      } else {
        FormFits(m.protected, codec.norm);
      }
    }
  }

  lemma FormFits(h: Header, norm: D.Norm)
    requires C.MapFits(h) && D.Sane(norm)
    ensures C.MapFits(CanonicalMap(h, norm))
  {
    var f := CanonicalMap(h, norm);
    assert f.Keys == h.Keys;
    assert |f| == |f.Keys| == |h.Keys| == |h|;
    forall l | l in f ensures C.LabelFits(l) && Encodable(f[l]) {
      D.CanonicalEncodable(h[l], norm);
    }
  }

  /** What the checks look at is the same in both views. */
  lemma ViewsAgree(d: Header, h: Header, norm: D.Norm, mediaType: Bytes -> bool)
    requires SameView(d, h, norm) && ValidateCommon(d, mediaType).Ok? && ValidateCommon(h, mediaType).Ok?
    ensures d.Keys == h.Keys && Alg(d) == Alg(h) && Crit(d) == Crit(h)
  {
    if d == CanonicalMap(h, norm) {
      CommonExact(h, mediaType);
      CommonStays(h, norm, mediaType);
      assert d.Keys == h.Keys;
    } else {
      CommonAgrees(d, h, norm, mediaType);
    }
  }

  lemma BucketsAgain(d: Header, m: Message, codec: Codec)
    requires ValidateBuckets(m.protected, m.unprotected, codec.mediaType).Ok?
    requires SameView(d, m.protected, codec.norm) && ValidateCommon(d, codec.mediaType).Ok?
    ensures ValidateBuckets(d, CanonicalMap(m.unprotected, codec.norm), codec.mediaType) == Ok(())
  {
    var u := CanonicalMap(m.unprotected, codec.norm);
    BucketsExact(m.protected, m.unprotected, codec.mediaType);
    BucketsExact(d, u, codec.mediaType);
    CommonExact(m.protected, codec.mediaType);
    CommonExact(m.unprotected, codec.mediaType);
    CommonExact(d, codec.mediaType);
    FormIsCommon(m.unprotected, codec.norm, codec.mediaType);
    CommonExact(u, codec.mediaType);
    ViewsAgree(d, m.protected, codec.norm, codec.mediaType);
    assert u.Keys == m.unprotected.Keys;
    forall l | l in d ensures l !in u {
      assert l in m.protected;
    }
  }

  lemma EncodedParts(m: Message, w: World)
    requires EncodeMessage(m, [], w).Ok?
    ensures m.state == Complete && ValidateLayer(m.protected, m.unprotected, m.raw, w.codec).Ok?
    ensures ValidateLayer(m.protected, m.unprotected, m.raw, w.codec) == Ok(()) && ValidateProtectedState(m.protected, m.raw, w.codec).Ok?
    ensures ValidateBuckets(m.protected, m.unprotected, w.codec.mediaType).Ok? && ValidateCommon(m.protected, w.codec.mediaType).Ok?
    ensures ValidateCommon(m.unprotected, w.codec.mediaType).Ok? && EncodeHeader(m.unprotected, w.codec) == EncodeMap(m.unprotected, w.codec.norm)
    ensures EncodeMap(m.unprotected, w.codec.norm).Ok?
  {
    hide EncodeMap, DecodeMap, DecodeProtected, CanonicalMap, ValidateCommon;
  }

  lemma WrittenBody(m: Message, w: World)
    requires MessageFits(m) && D.Sane(w.codec.norm) && ReadsBack(w.codec) && EncodeMessage(m, [], w).Ok?
    requires WellFormed(BodySyn(m, w.codec)) && L.Message(Den(BodySyn(m, w.codec)), TAG)
    ensures var read := w.codec.read(EncodeMap(m.unprotected, w.codec.norm).value);
            BodyWire(BodySyn(m, w.codec), w.codec)
              == if read.Ok? then Ok(Wire(m.raw, CanonicalMap(m.unprotected, w.codec.norm), m.payload, m.signature)) else Err(Cbor)
  {
    EncodedParts(m, w);
    HeaderWritten(m.unprotected, w.codec);
    FormIsCommon(m.unprotected, w.codec.norm, w.codec.mediaType);
    BodyIsMessage(Plain(ByteString(m.raw)), HeaderSyn(m.unprotected, w.codec), PayloadSyn(m.payload), Plain(ByteString(m.signature)));
  }

  /** The message a written one decodes to. */
  function Decoded(m: Message, codec: Codec): Message
    requires DecodeProtected(m.raw, codec).Ok?
  {
    Message(DecodeProtected(m.raw, codec).value, CanonicalMap(m.unprotected, codec.norm), m.payload, m.signature, m.raw, Complete)
  }

  /** A written message decodes exactly when the strict pass accepts it and its protected bytes and
      the library reads both maps; it then has the same authenticated bytes, payload and signature. */
  lemma EncodedDecodes(m: Message, cwt: bool, limits: CborLimits, w: World)
    requires MessageFits(m) && D.Sane(w.codec.norm) && ReadsBack(w.codec)
    requires EncodeMessage(m, TagPrefix(cwt), w).Ok? && EncodeMessage(m, [], w).Ok? && EncodeMap(m.unprotected, w.codec.norm).Ok?
    ensures var bytes := EncodeMessage(m, TagPrefix(cwt), w).value;
            && (FromSlice(bytes, limits, w).Ok? <==>
                && Root(bytes, B.Strict(limits, w.codec.reencode)).Ok? && DecodeProtected(m.raw, w.codec).Ok?
                && w.codec.read(EncodeMap(m.unprotected, w.codec.norm).value).Ok?)
            && (FromSlice(bytes, limits, w).Ok? ==> FromSlice(bytes, limits, w).value == Decoded(m, w.codec))
  {
    EncodedIs(m, cwt, w);
    var bytes := EncodeMessage(m, TagPrefix(cwt), w).value;
    if Root(bytes, B.Strict(limits, w.codec.reencode)).Ok? {
      WrittenIsRead(None, CwtWidth(cwt), Some(Direct), BodySyn(m, w.codec), limits, w.codec);
      WrittenBody(m, w);
      WireDecodes(m, w);
    }
  }

  lemma WireDecodes(m: Message, w: World)
    requires D.Sane(w.codec.norm) && ReadsBack(w.codec) && EncodeMessage(m, [], w).Ok?
    ensures var r := FromWire(Wire(m.raw, CanonicalMap(m.unprotected, w.codec.norm), m.payload, m.signature), w);
            && (r.Ok? <==> DecodeProtected(m.raw, w.codec).Ok?)
            && (r.Ok? ==> r.value == Decoded(m, w.codec))
  {
    EncodedParts(m, w);
    if DecodeProtected(m.raw, w.codec).Ok? {
      ProtectedAgain(m, w.codec);
      BucketsAgain(DecodeProtected(m.raw, w.codec).value, m, w.codec);
    }
  }

  /** The decoded message verifies exactly as the written one does: the verifier is handed the same
      bytes and signature, or both report the same error. */
  lemma DecodedVerifiesAlike(m: Message, verifier: Verifier, payload: Bytes, aad: Bytes, w: World)
    requires D.Sane(w.codec.norm) && ReadsBack(w.codec) && EncodeMessage(m, [], w).Ok? && DecodeProtected(m.raw, w.codec).Ok?
    requires w.counterSignatures(DecodeProtected(m.raw, w.codec).value) == w.counterSignatures(m.protected)
    ensures var d := Decoded(m, w.codec);
            && Handed(d, verifier, payload, aad, w) == Handed(m, verifier, payload, aad, w)
            && VerifyEmbedded(d, verifier, aad, w) == VerifyEmbedded(m, verifier, aad, w)
            && VerifyDetached(d, verifier, payload, aad, w) == VerifyDetached(m, verifier, payload, aad, w)
  {
    var d := Decoded(m, w.codec);
    HandedAlike(m, verifier, payload, aad, w);
    if m.payload.Some? {
      HandedAlike(m, verifier, m.payload.value, aad, w);
    }
    EncodedParts(m, w);
  }

  lemma HandedAlike(m: Message, verifier: Verifier, payload: Bytes, aad: Bytes, w: World)
    requires D.Sane(w.codec.norm) && ReadsBack(w.codec) && EncodeMessage(m, [], w).Ok? && DecodeProtected(m.raw, w.codec).Ok?
    requires w.counterSignatures(DecodeProtected(m.raw, w.codec).value) == w.counterSignatures(m.protected)
    ensures Handed(Decoded(m, w.codec), verifier, payload, aad, w) == Handed(m, verifier, payload, aad, w)
  {
    var d := Decoded(m, w.codec);
    EncodedParts(m, w);
    LayerAgain(m, w);
    ProtectedAgain(m, w.codec);
    ViewsAgree(d.protected, m.protected, w.codec.norm, w.codec.mediaType);
    FormIsCommon(m.unprotected, w.codec.norm, w.codec.mediaType);
    ViewsAgree(d.unprotected, m.unprotected, w.codec.norm, w.codec.mediaType);
    SameCritVerdict(d.protected, m.protected, verifier.understood, w);
    SameHanded(d, m, verifier, payload, aad, w);
  }

  lemma LayerAgain(m: Message, w: World)
    requires D.Sane(w.codec.norm) && ReadsBack(w.codec) && EncodeMessage(m, [], w).Ok? && DecodeProtected(m.raw, w.codec).Ok?
    ensures var d := Decoded(m, w.codec);
            ValidateLayer(d.protected, d.unprotected, d.raw, w.codec) == Ok(())
  {
    var d := DecodeProtected(m.raw, w.codec).value;
    EncodedParts(m, w);
    ProtectedAgain(m, w.codec);
    BucketsAgain(d, m, w.codec);
    StateExact(d, m.raw, w.codec);
  }

  lemma SameHanded(d: Message, m: Message, verifier: Verifier, payload: Bytes, aad: Bytes, w: World)
    requires ValidateLayer(d.protected, d.unprotected, d.raw, w.codec) == Ok(()) && ValidateLayer(m.protected, m.unprotected, m.raw, w.codec) == Ok(())
    requires EnsureCritUnderstood(d.protected, verifier.understood, w.codec, w.counterSignatures)
          == EnsureCritUnderstood(m.protected, verifier.understood, w.codec, w.counterSignatures)
    requires Alg(d.protected) == Alg(m.protected) && Alg(d.unprotected) == Alg(m.unprotected)
    requires d.raw == m.raw && d.signature == m.signature
    ensures Handed(d, verifier, payload, aad, w) == Handed(m, verifier, payload, aad, w)
  {
  }

  lemma SameCritVerdict(a: Header, b: Header, understood: seq<Label>, w: World)
    requires ValidateCommon(a, w.codec.mediaType).Ok? && ValidateCommon(b, w.codec.mediaType).Ok?
    requires Crit(a) == Crit(b) && w.counterSignatures(a) == w.counterSignatures(b)
    ensures EnsureCritUnderstood(a, understood, w.codec, w.counterSignatures) == EnsureCritUnderstood(b, understood, w.codec, w.counterSignatures)
  {
  }
}
