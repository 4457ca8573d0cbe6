/** Which bytes a message body is read from, and what decoded byte strings are. */
module MessageLaws {
  import opened Values
  import opened Heads
  import opened Syntax
  import opened StrictParser
  import opened ParserGrammar
  import opened ParserLaws
  import opened MessageBodies

  // ---- shapes, as RFC 9052 gives them -----------------------------------------------------------

  predicate BytesOrNull(v: Value) {
    v.ByteString? || v == Simple(22)
  }

  /** COSE_recipient of RFC 9052, section 5.1. */
  predicate Recipient(v: Value)
    decreases v, 0
  {
    && v.Array? && 3 <= |v.items| <= 4
    && v.items[0].ByteString? && v.items[1].Map? && BytesOrNull(v.items[2])
    && (|v.items| == 4 ==> Recipients(v.items[3]))
  }

  predicate Recipients(v: Value)
    decreases v, 0
  {
    v.Array? && v.items != [] && EveryRecipient(v.items)
  }

  predicate EveryRecipient(items: seq<Value>)
    decreases items, 0
  {
    items == [] || (Recipient(items[0]) && EveryRecipient(items[1..]))
  }

  /** COSE_Signature of RFC 9052, section 4.1. */
  predicate SignatureValue(v: Value) {
    v.Array? && |v.items| == 3 && v.items[0].ByteString? && v.items[1].Map? && v.items[2].ByteString?
  }

  predicate Signatures(v: Value) {
    v.Array? && v.items != [] && EverySignature(v.items)
  }

  predicate EverySignature(items: seq<Value>) {
    items == [] || (SignatureValue(items[0]) && EverySignature(items[1..]))
  }

  /** The untagged messages of RFC 9052, sections 4 to 6, by their tag. */
  predicate Message(v: Value, tag: nat) {
    && v.Array?
    && (if tag == 16 then |v.items| == 3 else if tag == 97 then |v.items| == 5 else tag in {17, 18, 96, 98} && |v.items| == 4)
    && v.items[0].ByteString? && v.items[1].Map? && BytesOrNull(v.items[2])
    && (tag == 17 || tag == 18 || tag == 97 ==> v.items[3].ByteString?)
    && (tag == 96 ==> Recipients(v.items[3]))
    && (tag == 97 ==> Recipients(v.items[4]))
    && (tag == 98 ==> Signatures(v.items[3]))
  }

  lemma KindsAgree(s: Syn)
    requires WellFormed(s)
    ensures KindOf(s) == BytesKind <==> Den(s).ByteString?
    ensures KindOf(s) == MapKind <==> Den(s).Map?
    ensures KindOf(s) == ArrayKind <==> Den(s).Array?
    ensures KindOf(s) == SimpleKind(22) <==> Den(s) == NULL
    ensures KindOf(s) == ArrayKind <==> s.List?
  {
  }

  /** Where member `i` of an array starts when the first one starts at `at`. */
  function Position(items: seq<Syn>, at: nat, i: nat): nat
    requires WellFormedItems(items) && i < |items|
  {
    if i == 0 then at else Position(items[1..], at + |Ser(items[0])|, i - 1)
  }

  lemma {:induction false} MemberDenotes(items: seq<Syn>, i: nat)
    requires WellFormedItems(items) && i < |items|
    ensures WellFormed(items[i]) && DenItems(items)[i] == Den(items[i])
  {
    if i != 0 {
      MemberDenotes(items[1..], i - 1);
    }
  }

  lemma {:induction false} MemberIs(items: seq<Syn>, at: nat, i: nat)
    requires WellFormedItems(items) && i < |items|
    ensures WellFormed(items[i]) && DenItems(items)[i] == Den(items[i])
    ensures ItemsAt(items, at)[i] == ItemOf(items[i], Position(items, at, i))
  {
    MemberDenotes(items, i);
    MemberItem(items, at, i);
  }

  lemma {:induction false} MemberItem(items: seq<Syn>, at: nat, i: nat)
    requires WellFormedItems(items) && i < |items| && WellFormed(items[i])
    ensures ItemsAt(items, at)[i] == ItemOf(items[i], Position(items, at, i))
    decreases i
  {
    if i != 0 {
      var next := at + |Ser(items[0])|;
      MemberItem(items[1..], next, i - 1);
      AfterFirst(ItemOf(items[0], at), ItemsAt(items[1..], next), i);
    }
  }

  lemma AfterFirst(first: Item, rest: seq<Item>, i: nat)
    requires 0 < i <= |rest|
    ensures ([first] + rest)[i] == rest[i - 1]
  {
  }

  /** The kind of a member tells what it denotes. */
  lemma MemberKind(items: seq<Syn>, at: nat, i: nat)
    requires WellFormedItems(items) && i < |items|
    ensures ItemsAt(items, at)[i].kind == BytesKind <==> DenItems(items)[i].ByteString?
    ensures ItemsAt(items, at)[i].kind == MapKind <==> DenItems(items)[i].Map?
    ensures ItemsAt(items, at)[i].kind == SimpleKind(22) <==> DenItems(items)[i] == NULL
  {
    MemberIs(items, at, i);
    KindsAgree(items[i]);
  }

  /** The members every layer begins with. */
  lemma LayerKinds(items: seq<Syn>, at: nat)
    requires WellFormedItems(items) && |items| >= 3
    ensures ItemsAt(items, at)[0].kind == BytesKind <==> DenItems(items)[0].ByteString?
    ensures ItemsAt(items, at)[1].kind == MapKind <==> DenItems(items)[1].Map?
    ensures ItemsAt(items, at)[2].kind == BytesKind <==> DenItems(items)[2].ByteString?
    ensures RequireBytesOrNull(ItemsAt(items, at)[2]).Ok? <==> BytesOrNull(DenItems(items)[2])
  {
    MemberKind(items, at, 0);
    MemberKind(items, at, 1);
    MemberKind(items, at, 2);
  }

  lemma {:induction false} RecipientShaped(s: Syn, at: nat)
    requires WellFormed(s)
    ensures RecipientShape(ItemOf(s, at)).Ok? <==> Recipient(Den(s))
    decreases s, 1
  {
    KindsAgree(s);
    if s.List? && 3 <= |s.items| <= 4 {
      var from := at + HeadLength(s);
      LayerKinds(s.items, from);
      if |s.items| == 4 {
        MemberIs(s.items, from, 3);
        RecipientsShaped(s.items[3], Position(s.items, from, 3));
      }
    }
  }

  lemma {:induction false} RecipientsShaped(s: Syn, at: nat)
    requires WellFormed(s)
    ensures RecipientsShape(ItemOf(s, at)).Ok? <==> Recipients(Den(s))
    decreases s, 1
  {
    KindsAgree(s);
    if s.List? {
      EveryRecipientShaped(s.items, at + HeadLength(s));
    }
  }

  lemma {:induction false} EveryRecipientShaped(items: seq<Syn>, at: nat)
    requires WellFormedItems(items)
    ensures EveryRecipientShape(ItemsAt(items, at)).Ok? <==> EveryRecipient(DenItems(items))
    decreases items, 0
  {
    if items != [] {
      RecipientShaped(items[0], at);
      EveryRecipientShaped(items[1..], at + |Ser(items[0])|);
    }
  }

  lemma {:induction false} SignatureShaped(s: Syn, at: nat)
    requires WellFormed(s)
    ensures SignatureShape(ItemOf(s, at)).Ok? <==> SignatureValue(Den(s))
  {
    KindsAgree(s);
    if s.List? && |s.items| == 3 {
      LayerKinds(s.items, at + HeadLength(s));
    }
  }

  lemma {:induction false} EverySignatureShaped(items: seq<Syn>, at: nat)
    requires WellFormedItems(items)
    ensures EverySignatureShape(ItemsAt(items, at)).Ok? <==> EverySignature(DenItems(items))
    decreases |items|
  {
    if items != [] {
      SignatureShaped(items[0], at);
      EverySignatureShaped(items[1..], at + |Ser(items[0])|);
    }
  }

  /** The shape check accepts exactly the messages of the tag. */
  lemma {:induction false} MessageShaped(s: Syn, at: nat, tag: nat)
    requires WellFormed(s) && s.List?
    ensures MessageShape(ItemOf(s, at), tag).Ok? <==> Message(Den(s), tag)
  {
    var from := at + HeadLength(s);
    if MemberCount(tag) == Some(|s.items|) {
      LayerKinds(s.items, from);
      if tag != 16 {
        MemberShaped(s.items, from, 3);
      }
      if tag == 97 {
        MemberShaped(s.items, from, 4);
      }
    }
  }

  lemma {:induction false} MemberShaped(items: seq<Syn>, from: nat, i: nat)
    requires WellFormedItems(items) && i < |items|
    ensures ItemsAt(items, from)[i].kind == BytesKind <==> DenItems(items)[i].ByteString?
    ensures RecipientsShape(ItemsAt(items, from)[i]).Ok? <==> Recipients(DenItems(items)[i])
    ensures SignaturesShape(ItemsAt(items, from)[i]).Ok? <==> Signatures(DenItems(items)[i])
  {
    hide Ser, SerItems, RecipientsShape, Recipients;
    MemberIs(items, from, i);
    var s, p := items[i], Position(items, from, i);
    KindsAgree(s);
    RecipientsShaped(s, p);
    if s.List? {
      EverySignatureShaped(s.items, p + HeadLength(s));
    }
  }

  // ---- wrappers ---------------------------------------------------------------------------------

  /** A tag written with some head width, or no tag. */
  function Wrap(width: Option<Width>, tag: nat, s: Syn): Syn {
    match width
    case Some(w) => Tagged(w, tag, s)
    case None => s
  }

  /** The wrapper tags of a message from the outside in, each with the head width it is written in:
      self-described CBOR, CWT, and the message's own tag. */
  function Wrapped(self: Option<Width>, cwt: Option<Width>, own: Option<Width>, tag: nat, body: Syn): Syn {
    Wrap(self, 55799, Wrap(cwt, 61, Wrap(own, tag, body)))
  }

  function WrapLength(width: Option<Width>): nat {
    match width
    case Some(w) => 1 + Extra(w)
    case None => 0
  }

  /** Inside the outer tags: a lost message tag is an error, and otherwise the shape decides. */
  ghost predicate Outcome(r: Result<Item>, lost: bool, body: Item, tag: nat) {
    if lost then r == Err(Custom)
    else if body.kind != ArrayKind then r == Err(UnexpectedType)
    else match MessageShape(body, tag)
         case Ok(_) => r == Ok(body)
         case Err(e) => r == Err(e)
  }

  lemma OwnOfWrapped(own: Option<Width>, wrapped: bool, tag: nat, body: Syn, at: nat)
    requires WellFormed(Wrap(own, tag, body)) && WellFormed(body) && !body.Tagged?
    ensures Outcome(OwnItem(ItemOf(Wrap(own, tag, body), at), wrapped, tag), wrapped && own.None?, ItemOf(body, at + WrapLength(own)), tag)
  {
    UntagWrap(own, tag, body, at);
    KindsAgree(body);
  }

  lemma OwnWellFormed(self: Option<Width>, cwt: Option<Width>, own: Option<Width>, tag: nat, body: Syn)
    requires WellFormed(Wrapped(self, cwt, own, tag, body))
    ensures WellFormed(Wrap(cwt, 61, Wrap(own, tag, body))) && WellFormed(Wrap(own, tag, body)) && WellFormed(body)
  {
  }

  /** Around an untagged body the wrapper never changes what stands inside. */
  lemma BodyOfWrapped(self: Option<Width>, cwt: Option<Width>, own: Option<Width>, tag: nat, body: Syn)
    requires WellFormed(Wrapped(self, cwt, own, tag, body)) && !body.Tagged?
    requires tag != 55799 && tag != 61
    ensures WellFormed(Wrap(own, tag, body))
    ensures BodyItem(ItemOf(Wrapped(self, cwt, own, tag, body), 0), tag)
         == OwnItem(ItemOf(Wrap(own, tag, body), WrapLength(self) + WrapLength(cwt)), cwt.Some?, tag)
  {
    hide Ser, Den, OwnItem;
    OwnWellFormed(self, cwt, own, tag, body);
    var own1 := Wrap(own, tag, body);
    UntagWrap(self, 55799, Wrap(cwt, 61, own1), 0);
    UntagWrap(cwt, 61, own1, WrapLength(self));
  }

  lemma UntagWrap(width: Option<Width>, tag: nat, s: Syn, at: nat)
    requires WellFormed(Wrap(width, tag, s)) && (width.None? ==> KindOf(s) != TagKind(tag))
    ensures WellFormed(s)
    ensures Untag(ItemOf(Wrap(width, tag, s), at), tag) == ItemOf(s, at + WrapLength(width))
    ensures KindOf(Wrap(width, tag, s)) == TagKind(tag) <==> width.Some?
  {
  }

  /** The bytes a wrapper tag puts in front. */
  function WrapHead(width: Option<Width>, tag: nat): (r: Bytes)
    requires width.Some? ==> Fits(tag, width.value)
    ensures |r| == WrapLength(width)
  {
    match width
    case Some(w) => Head(6, tag, w)
    case None => []
  }

  lemma WrapWritten(width: Option<Width>, tag: nat, s: Syn)
    requires WellFormed(Wrap(width, tag, s))
    ensures WellFormed(s) && (width.Some? ==> Fits(tag, width.value))
    ensures Ser(Wrap(width, tag, s)) == WrapHead(width, tag) + Ser(s)
  {
  }

  /** All the bytes in front of a wrapped body. */
  function WrappedHead(self: Option<Width>, cwt: Option<Width>, own: Option<Width>, tag: nat): (r: Bytes)
    requires (self.Some? ==> Fits(55799, self.value)) && (cwt.Some? ==> Fits(61, cwt.value)) && (own.Some? ==> Fits(tag, own.value))
    ensures |r| == WrapLength(self) + WrapLength(cwt) + WrapLength(own)
  {
    WrapHead(self, 55799) + WrapHead(cwt, 61) + WrapHead(own, tag)
  }

  lemma BodyStands(self: Option<Width>, cwt: Option<Width>, own: Option<Width>, tag: nat, body: Syn)
    requires WellFormed(Wrapped(self, cwt, own, tag, body))
    ensures WellFormed(body)
    ensures (self.Some? ==> Fits(55799, self.value)) && (cwt.Some? ==> Fits(61, cwt.value)) && (own.Some? ==> Fits(tag, own.value))
    ensures Ser(Wrapped(self, cwt, own, tag, body)) == WrappedHead(self, cwt, own, tag) + Ser(body)
  {
    var own1 := Wrap(own, tag, body);
    var cwt1 := Wrap(cwt, 61, own1);
    WrapWritten(self, 55799, cwt1);
    WrapWritten(cwt, 61, own1);
    WrapWritten(own, tag, body);
    ThreeHeads(WrapHead(self, 55799), WrapHead(cwt, 61), WrapHead(own, tag), Ser(body));
  }

  lemma ThreeHeads(a: Bytes, b: Bytes, c: Bytes, part: Bytes)
    ensures a + (b + (c + part)) == a + b + c + part
  {
  }

  /** The tags of the six messages. */
  predicate MessageTag(tag: nat) {
    tag in {16, 17, 18, 96, 97, 98}
  }

  lemma OwnTag(tag: nat)
    requires MessageTag(tag)
    ensures tag != 55799 && tag != 61
  {
  }

  /** For each message kind, whatever valid wrapper it travels in and whatever widths the tags are
      written with, the body read back is exactly the untagged array; a CWT tag directly over an
      untagged array is always rejected. */
  lemma WrapperRoundTrip(self: Option<Width>, cwt: Option<Width>, own: Option<Width>, tag: nat, body: Syn,
                         limits: CborLimits, reencode: Bytes -> Result<Bytes>)
    requires WellFormed(Wrapped(self, cwt, own, tag, body)) && body.List? && WellFormed(body) && MessageTag(tag)
    requires Admitted(Wrapped(self, cwt, own, tag, body), 0, 0, Strict(limits, reencode))
    ensures ReadsAs(MessageBody(Ser(Wrapped(self, cwt, own, tag, body)), tag, limits, reencode),
                    cwt.Some? && own.None?, Message(Den(body), tag), Ser(body))
  {
    hide *;
    OwnTag(tag);
    BodyOutcome(self, cwt, own, tag, body);
    BodyStands(self, cwt, own, tag, body);
    ReadsBody(Wrapped(self, cwt, own, tag, body), WrappedHead(self, cwt, own, tag), body, cwt.Some? && own.None?, tag, limits, reencode);
  }

  lemma BodyOutcome(self: Option<Width>, cwt: Option<Width>, own: Option<Width>, tag: nat, body: Syn)
    requires WellFormed(Wrapped(self, cwt, own, tag, body)) && WellFormed(body) && !body.Tagged?
    requires tag != 55799 && tag != 61
    ensures Outcome(BodyItem(ItemOf(Wrapped(self, cwt, own, tag, body), 0), tag), cwt.Some? && own.None?,
                    ItemOf(body, WrapLength(self) + WrapLength(cwt) + WrapLength(own)), tag)
  {
    hide Ser, ItemOf, WellFormed, Wrapped, Wrap, Outcome, OwnItem, BodyItem;
    BodyOfWrapped(self, cwt, own, tag, body);
    OwnOfWrapped(own, cwt.Some?, tag, body, WrapLength(self) + WrapLength(cwt));
  }

  lemma ReadsBody(s: Syn, prefix: Bytes, body: Syn, lost: bool, tag: nat, limits: CborLimits, reencode: Bytes -> Result<Bytes>)
    requires WellFormed(s) && WellFormed(body) && body.List? && Admitted(s, 0, 0, Strict(limits, reencode))
    requires Outcome(BodyItem(ItemOf(s, 0), tag), lost, ItemOf(body, |prefix|), tag) && Ser(s) == prefix + Ser(body)
    ensures ReadsAs(MessageBody(Ser(s), tag, limits, reencode), lost, Message(Den(body), tag), Ser(body))
  {
    WrittenParses(s, Ser(s), Strict(limits, reencode));
    MessageShaped(body, |prefix|, tag);
    BodyRead(Ser(s), tag, limits, reencode, ItemOf(s, 0), ItemOf(body, |prefix|), prefix, Ser(body));
    Conclusion(MessageBody(Ser(s), tag, limits, reencode), BodyItem(ItemOf(s, 0), tag), tag, lost, Message(Den(body), tag),
               ItemOf(body, |prefix|), Ser(body));
  }

  /** A message is read as `part`; a bare array directly under a CWT tag (`lost`) and anything that is
      no message are rejected. */
  ghost predicate ReadsAs(r: Result<Bytes>, lost: bool, message: bool, part: Bytes) {
    && (r.Ok? <==> !lost && message)
    && (r.Ok? ==> r.value == part)
    && (lost ==> r == Err(Custom))
  }

  lemma Conclusion(r: Result<Bytes>, item: Result<Item>, tag: nat, lost: bool, message: bool, body: Item, part: Bytes)
    requires Outcome(item, lost, body, tag) && body.kind == ArrayKind
    requires MessageShape(body, tag).Ok? <==> message
    requires item == Ok(body) ==> r == Ok(part)
    requires item.Err? ==> r == Err(item.error)
    ensures ReadsAs(r, lost, message, part)
  {
  }

  lemma BodyRead(data: Bytes, tag: nat, limits: CborLimits, reencode: Bytes -> Result<Bytes>, item: Item, body: Item, prefix: Bytes, part: Bytes)
    requires Root(data, Strict(limits, reencode)) == Ok(item)
    requires data == prefix + part && body.start == |prefix| && body.end == |prefix| + |part|
    ensures BodyItem(item, tag) == Ok(body) ==> MessageBody(data, tag, limits, reencode) == Ok(part)
    ensures BodyItem(item, tag).Err? ==> MessageBody(data, tag, limits, reencode) == Err(BodyItem(item, tag).error)
  {
    assert data[|prefix|..|prefix| + |part|] == part;
  }

  /** Whenever a body is returned, the data is that body inside a valid wrapper, and the body is a
      message of the tag. */
  lemma BodyIsWrapped(data: Bytes, tag: nat, limits: CborLimits, reencode: Bytes -> Result<Bytes>)
    returns (self: Option<Width>, cwt: Option<Width>, own: Option<Width>, body: Syn)
    requires MessageBody(data, tag, limits, reencode).Ok?
    ensures WellFormed(Wrapped(self, cwt, own, tag, body)) && Ser(Wrapped(self, cwt, own, tag, body)) == data
    ensures cwt.Some? ==> own.Some?
    ensures WellFormed(body) && Message(Den(body), tag) && MessageBody(data, tag, limits, reencode) == Ok(Ser(body))
    ensures Nesting(body) <= limits.maxDepth
  {
    var s := RootWritten(data, Strict(limits, reencode));
    self, cwt, own, body := PeelAll(s, tag);
    BodyNests(self, cwt, own, tag, body);
    PeeledReads(s, self, cwt, own, tag, body, limits, reencode);
  }

  lemma PeeledReads(s: Syn, self: Option<Width>, cwt: Option<Width>, own: Option<Width>, tag: nat, body: Syn,
                    limits: CborLimits, reencode: Bytes -> Result<Bytes>)
    requires WellFormed(s) && s == Wrapped(self, cwt, own, tag, body) && WellFormed(body) && body.List? && (cwt.Some? ==> own.Some?)
    requires MessageTag(tag) && Admitted(s, 0, 0, Strict(limits, reencode))
    requires MessageBody(Ser(s), tag, limits, reencode).Ok?
    ensures Message(Den(body), tag) && MessageBody(Ser(s), tag, limits, reencode) == Ok(Ser(body))
  {
    WrapperRoundTrip(self, cwt, own, tag, body, limits, reencode);
  }

  lemma BodyNests(self: Option<Width>, cwt: Option<Width>, own: Option<Width>, tag: nat, body: Syn)
    ensures Nesting(body) <= Nesting(Wrapped(self, cwt, own, tag, body))
  {
    var own1 := Wrap(own, tag, body);
    assert Nesting(body) <= Nesting(own1) <= Nesting(Wrap(cwt, 61, own1));
  }

  /** Taking the wrapper off a message whose body is found. */
  lemma PeelAll(s: Syn, tag: nat) returns (self: Option<Width>, cwt: Option<Width>, own: Option<Width>, body: Syn)
    requires WellFormed(s) && BodyItem(ItemOf(s, 0), tag).Ok?
    ensures s == Wrapped(self, cwt, own, tag, body) && WellFormed(body) && body.List? && (cwt.Some? ==> own.Some?)
    ensures MessageTag(tag)
  {
    hide Ser, Den, WellFormed, OwnItem;
    var inner, inner1;
    self, inner := Peel(s, 55799);
    cwt, inner1 := Peel(inner, 61);
    own, body := Peel(inner1, tag);
    UntagWrap(self, 55799, inner, 0);
    UntagWrap(cwt, 61, inner1, WrapLength(self));
    var at := WrapLength(self) + WrapLength(cwt);
    FoundBody(own, cwt.Some?, tag, body, at);
  }

  lemma FoundBody(own: Option<Width>, wrapped: bool, tag: nat, body: Syn, at: nat)
    requires WellFormed(Wrap(own, tag, body)) && WellFormed(body) && (own.None? ==> KindOf(body) != TagKind(tag))
    requires OwnItem(ItemOf(Wrap(own, tag, body), at), wrapped, tag).Ok?
    ensures body.List? && (wrapped ==> own.Some?) && MessageTag(tag)
  {
    UntagWrap(own, tag, body, at);
    KindsAgree(body);
  }

  lemma Peel(s: Syn, tag: nat) returns (width: Option<Width>, inner: Syn)
    requires WellFormed(s)
    ensures s == Wrap(width, tag, inner) && WellFormed(inner) && (width.None? ==> KindOf(inner) != TagKind(tag))
  {
    if s.Tagged? && s.tag == tag {
      width, inner := Some(s.width), s.inner;
    } else {
      width, inner := None, s;
    }
  }

  // ---- byte strings -----------------------------------------------------------------------------

  lemma {:induction false} ChunksContent(data: Bytes, text: bool, chunks: seq<Chunk>, at: nat)
    requires !text && forall i :: 0 <= i < |chunks| ==> ChunkFits(chunks[i])
    requires At(data, at, SerChunks(text, chunks))
    ensures BytesOfChunks(data, ChunkItems(text, chunks, at)) == Ok(Content(chunks))
    decreases |chunks|
  {
    hide At, SerChunk, BytesOf, ChunkItem;
    if chunks != [] {
      AtSplit(data, at, SerChunk(text, chunks[0]), SerChunks(text, chunks[1..]));
      ChunkContent(data, text, chunks[0], at);
      ChunksContent(data, text, chunks[1..], at + |SerChunk(text, chunks[0])|);
      assert ChunkItems(text, chunks, at)[1..] == ChunkItems(text, chunks[1..], at + |SerChunk(text, chunks[0])|);
    }
  }

  lemma ChunkContent(data: Bytes, text: bool, c: Chunk, at: nat)
    requires !text && ChunkFits(c) && At(data, at, SerChunk(text, c))
    ensures BytesOf(data, ChunkItem(text, c, at)) == Ok(c.content)
  {
    AtSplit(data, at, Head(StringMajor(text), |c.content|, c.width), c.content);
    AtIsSlice(data, at + 1 + Extra(c.width), c.content);
  }

  /** A byte string decodes to the bytes its serialization denotes, definite or in chunks; nothing
      else decodes. */
  lemma DecodedBytes(s: Syn, reencode: Bytes -> Result<Bytes>)
    requires WellFormed(s) && Admitted(s, 0, 0, Strict(CborLimits(128, 100_000, false), reencode))
    ensures DecodeBytes(Ser(s), reencode) == if Den(s).ByteString? then Ok(Den(s).bytes) else Err(UnexpectedType)
    ensures DecodeOptionalBytes(Ser(s), reencode)
         == if Den(s) == NULL then Ok(None) else if Den(s).ByteString? then Ok(Some(Den(s).bytes)) else Err(UnexpectedType)
  {
    WrittenParses(s, Ser(s), Strict(DEFAULT_LIMITS, reencode));
    KindsAgree(s);
    if Den(s).ByteString? {
      AtIsSlice(Ser(s), 0, Ser(s));
      assert Ser(s)[0..|Ser(s)|] == Ser(s);
      ByteStringContent(Ser(s), s, 0);
    }
  }

  /** The content of a byte string, wherever it stands. */
  lemma ByteStringContent(data: Bytes, s: Syn, at: nat)
    requires WellFormed(s) && Den(s).ByteString? && At(data, at, Ser(s))
    ensures BytesOf(data, ItemOf(s, at)) == Ok(Den(s).bytes)
  {
    if s.Str? {
      ChunkContent(data, false, s.chunk, at);
    } else {
      var opening := [Initial(2, 31)];
      AtSplit(data, at, opening + SerChunks(false, s.chunks), [BREAK]);
      AtSplit(data, at, opening, SerChunks(false, s.chunks));
      ChunksContent(data, false, s.chunks, at + 1);
    }
  }

  /** Member `i` of an array stands at its position. */
  lemma {:induction false} MemberStands(data: Bytes, items: seq<Syn>, at: nat, i: nat)
    requires WellFormedItems(items) && i < |items| && At(data, at, SerItems(items))
    ensures WellFormed(items[i]) && At(data, Position(items, at, i), Ser(items[i]))
    decreases i
  {
    AtSplit(data, at, Ser(items[0]), SerItems(items[1..]));
    if i != 0 {
      MemberStands(data, items[1..], at + |Ser(items[0])|, i - 1);
    }
  }
}
