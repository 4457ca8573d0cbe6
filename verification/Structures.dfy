/** The byte strings COSE authenticates (RFC 9052, sections 4.4, 5.3 and 6.3, and RFC 8152, section
    4.5): fixed arrays that begin with a context string. */
module Structures {
  import opened Values
  import opened Heads
  import opened Syntax
  import opened Encoding

  datatype Structure =
    | Signature1(protected: Bytes, aad: Bytes, payload: Bytes)
    | Signature(protected: Bytes, signProtected: Bytes, aad: Bytes, payload: Bytes)
    | Mac(protected: Bytes, aad: Bytes, payload: Bytes)
    | Mac0(protected: Bytes, aad: Bytes, payload: Bytes)
    | Encrypt(protected: Bytes, aad: Bytes)
    | Encrypt0(protected: Bytes, aad: Bytes)
    | CounterSignature(protected: Bytes, signProtected: Bytes, aad: Bytes, payload: Bytes)

  function Ascii(s: string): (r: Bytes)
    requires forall i :: 0 <= i < |s| ==> s[i] < 128 as char
    ensures |r| == |s|
  {
    seq(|s|, i requires 0 <= i < |s| => s[i] as int)
  }

  function Context(s: Structure): (r: Bytes)
    ensures |r| <= 16
  {
    match s
    case Signature1(_, _, _) => Ascii("Signature1")
    case Signature(_, _, _, _) => Ascii("Signature")
    case Mac(_, _, _) => Ascii("MAC")
    case Mac0(_, _, _) => Ascii("MAC0")
    case Encrypt(_, _) => Ascii("Encrypt")
    case Encrypt0(_, _) => Ascii("Encrypt0")
    case CounterSignature(_, _, _, _) => Ascii("CounterSignature")
  }

  function Fields(s: Structure): seq<Bytes> {
    match s
    case Signature1(protected, aad, payload) => [protected, aad, payload]
    case Signature(protected, signProtected, aad, payload) => [protected, signProtected, aad, payload]
    case Mac(protected, aad, payload) => [protected, aad, payload]
    case Mac0(protected, aad, payload) => [protected, aad, payload]
    case Encrypt(protected, aad) => [protected, aad]
    case Encrypt0(protected, aad) => [protected, aad]
    case CounterSignature(protected, signProtected, aad, payload) => [protected, signProtected, aad, payload]
  }

  function ByteStrings(fields: seq<Bytes>): (r: seq<Value>)
    ensures |r| == |fields|
    ensures forall i :: 0 <= i < |r| ==> r[i] == ByteString(fields[i])
  {
    if fields == [] then [] else [ByteString(fields[0])] + ByteStrings(fields[1..])
  }

  function ValueOf(s: Structure): Value {
    Array([TextString(Context(s))] + ByteStrings(Fields(s)))
  }

  ghost predicate Fit(s: Structure) {
    forall i :: 0 <= i < |Fields(s)| ==> |Fields(s)[i]| < TWO_64
  }

  lemma {:induction false} ByteStringsEncodable(fields: seq<Bytes>)
    requires forall i :: 0 <= i < |fields| ==> |fields[i]| < TWO_64
    ensures EncodableItems(ByteStrings(fields))
  {
    if fields != [] {
      ByteStringsEncodable(fields[1..]);
    }
  }

  lemma ValueEncodable(s: Structure)
    requires Fit(s)
    ensures Encodable(ValueOf(s))
  {
    ByteStringsEncodable(Fields(s));
    var items := [TextString(Context(s))] + ByteStrings(Fields(s));
    assert items[1..] == ByteStrings(Fields(s));
  }

  /** The bytes a signer, MAC or AEAD is given. */
  function EncodeStructure(s: Structure): Bytes
    requires Fit(s)
  {
    ValueEncodable(s);
    Encode(ValueOf(s))
  }

  /** A context string and the number of fields tell the kind of the structure. */
  lemma ContextsTell(a: Structure, b: Structure)
    requires Context(a) == Context(b) && Fields(a) == Fields(b)
    ensures a == b
  {
    assert |Context(a)| == |Context(b)|;
    var x, y := Fields(a), Fields(b);
    assert x[0] == y[0] && x[1] == y[1] && (|x| > 2 ==> x[2] == y[2]) && (|x| > 3 ==> x[3] == y[3]);
  }

  lemma ByteStringsInjective(a: seq<Bytes>, b: seq<Bytes>)
    requires ByteStrings(a) == ByteStrings(b)
    ensures a == b
  {
    assert |a| == |ByteStrings(a)| == |b|;
    forall i | 0 <= i < |a| ensures a[i] == b[i] {
      assert ByteStrings(a)[i] == ByteStrings(b)[i];
    }
  }

  /** Authenticated bytes determine the structure: its kind and every field. Bytes authenticated for
      one purpose never stand for another, even when more bytes follow. */
  lemma StructuresInjective(a: Structure, b: Structure, resta: Bytes, restb: Bytes)
    requires Fit(a) && Fit(b) && EncodeStructure(a) + resta == EncodeStructure(b) + restb
    ensures a == b && resta == restb
  {
    ValueEncodable(a);
    ValueEncodable(b);
    EncodeInjective(ValueOf(a), ValueOf(b), resta, restb);
    var x, y := ValueOf(a).items, ValueOf(b).items;
    assert x[0] == y[0] && x[1..] == y[1..];
    assert x[1..] == ByteStrings(Fields(a)) && y[1..] == ByteStrings(Fields(b));
    ByteStringsInjective(Fields(a), Fields(b));
    ContextsTell(a, b);
  }

  // ---- the bytes, written out -------------------------------------------------------------------

  /** A byte string with its head. */
  function ByteItem(b: Bytes): Bytes
    requires |b| < TWO_64
  {
    ShortHead(2, |b|) + b
  }

  /** The context string in ASCII. */
  function Name(s: Structure): Bytes {
    match s
    case Signature1(_, _, _) => [0x53, 0x69, 0x67, 0x6e, 0x61, 0x74, 0x75, 0x72, 0x65, 0x31]
    case Signature(_, _, _, _) => [0x53, 0x69, 0x67, 0x6e, 0x61, 0x74, 0x75, 0x72, 0x65]
    case Mac(_, _, _) => [0x4d, 0x41, 0x43]
    case Mac0(_, _, _) => [0x4d, 0x41, 0x43, 0x30]
    case Encrypt(_, _) => [0x45, 0x6e, 0x63, 0x72, 0x79, 0x70, 0x74]
    case Encrypt0(_, _) => [0x45, 0x6e, 0x63, 0x72, 0x79, 0x70, 0x74, 0x30]
    case CounterSignature(_, _, _, _) =>
      [0x43, 0x6f, 0x75, 0x6e, 0x74, 0x65, 0x72, 0x53, 0x69, 0x67, 0x6e, 0x61, 0x74, 0x75, 0x72, 0x65]
  }

  /** The head of the array and the head of the context string. */
  function LeadBytes(s: Structure): Bytes {
    match s
    case Signature1(_, _, _) => [0x84, 0x6a]
    case Signature(_, _, _, _) => [0x85, 0x69]
    case Mac(_, _, _) => [0x84, 0x63]
    case Mac0(_, _, _) => [0x84, 0x64]
    case Encrypt(_, _) => [0x83, 0x67]
    case Encrypt0(_, _) => [0x83, 0x68]
    case CounterSignature(_, _, _, _) => [0x85, 0x70]
  }

  /** The authenticated bytes spelled out: the fields follow as byte strings, in the order of the
      standard. */
  function Written(s: Structure): Bytes
    requires Fit(s)
  {
    FieldsFit(s);
    LeadBytes(s) + Name(s) +
    match s
    case Signature1(protected, aad, payload) => ByteItem(protected) + ByteItem(aad) + ByteItem(payload)
    case Signature(protected, signProtected, aad, payload) =>
      ByteItem(protected) + ByteItem(signProtected) + ByteItem(aad) + ByteItem(payload)
    case Mac(protected, aad, payload) => ByteItem(protected) + ByteItem(aad) + ByteItem(payload)
    case Mac0(protected, aad, payload) => ByteItem(protected) + ByteItem(aad) + ByteItem(payload)
    case Encrypt(protected, aad) => ByteItem(protected) + ByteItem(aad)
    case Encrypt0(protected, aad) => ByteItem(protected) + ByteItem(aad)
    case CounterSignature(protected, signProtected, aad, payload) =>
      ByteItem(protected) + ByteItem(signProtected) + ByteItem(aad) + ByteItem(payload)
  }

  lemma FieldsFit(s: Structure)
    requires Fit(s)
    ensures |s.protected| < TWO_64 && |s.aad| < TWO_64
    ensures s.Signature? || s.CounterSignature? ==> |s.signProtected| < TWO_64
    ensures !s.Encrypt? && !s.Encrypt0? ==> |s.payload| < TWO_64
  {
    var f := Fields(s);
    assert |f[0]| < TWO_64 && |f[1]| < TWO_64 && (|f| > 2 ==> |f[2]| < TWO_64) && (|f| > 3 ==> |f[3]| < TWO_64);
  }

  function ByteItems(fields: seq<Bytes>): Bytes
    requires forall i :: 0 <= i < |fields| ==> |fields[i]| < TWO_64
  {
    if fields == [] then [] else ByteItem(fields[0]) + ByteItems(fields[1..])
  }

  lemma {:induction false} ByteStringsWritten(fields: seq<Bytes>)
    requires forall i :: 0 <= i < |fields| ==> |fields[i]| < TWO_64
    ensures EncodableItems(ByteStrings(fields)) && SerItems(PlainItems(ByteStrings(fields))) == ByteItems(fields)
  {
    ByteStringsEncodable(fields);
    if fields != [] {
      ByteStringsWritten(fields[1..]);
      assert ByteStrings(fields)[1..] == ByteStrings(fields[1..]);
      assert Ser(Plain(ByteString(fields[0]))) == ByteItem(fields[0]);
    }
  }

  lemma TextWritten(t: Bytes)
    requires |t| < TWO_64
    ensures Ser(Plain(TextString(t))) == ShortHead(3, |t|) + t
  {
  }

  lemma {:induction false} FirstWritten(first: Value, rest: seq<Value>)
    requires Encodable(first) && EncodableItems(rest) && 1 + |rest| < TWO_64
    ensures Encodable(Array([first] + rest))
    ensures Encode(Array([first] + rest)) == ShortHead(4, 1 + |rest|) + (Encode(first) + SerItems(PlainItems(rest)))
  {
    hide Ser, Plain;
    var items := [first] + rest;
    assert items[1..] == rest;
    ListWritten(items);
    assert PlainItems(items)[1..] == PlainItems(rest);
  }

  lemma ArrayWritten(s: Structure)
    requires Fit(s)
    ensures EncodeStructure(s) == ShortHead(4, 1 + |Fields(s)|) + ((ShortHead(3, |Context(s)|) + Context(s)) + ByteItems(Fields(s)))
  {
    hide Ser, Plain, PlainItems, SerItems, ShortHead, ByteItems, Encodable;
    ValueEncodable(s);
    ByteStringsWritten(Fields(s));
    TextWritten(Context(s));
    ShortTextFits(Context(s));
    FirstWritten(TextString(Context(s)), ByteStrings(Fields(s)));
  }

  lemma ShortTextFits(t: Bytes)
    requires |t| < TWO_64
    ensures Encodable(TextString(t))
  {
  }

  lemma HeadByte(major: nat, n: nat)
    requires major < 8 && n < 24
    ensures ShortHead(major, n) == [32 * major + n]
  {
  }

  lemma NameWritten(s: Structure)
    ensures Context(s) == Name(s)
  {
    SignatureNames();
    match s
    case Mac(_, _, _) => assert Ascii("MAC") == Name(s);
    case Mac0(_, _, _) => assert Ascii("MAC0") == Name(s);
    case Encrypt(_, _) => assert Ascii("Encrypt") == Name(s);
    case Encrypt0(_, _) => assert Ascii("Encrypt0") == Name(s);
    case _ =>
  }

  lemma SignatureNames()
    ensures Ascii("Signature") == [0x53, 0x69, 0x67, 0x6e, 0x61, 0x74, 0x75, 0x72, 0x65]
    ensures Ascii("Signature1") == [0x53, 0x69, 0x67, 0x6e, 0x61, 0x74, 0x75, 0x72, 0x65, 0x31]
    ensures Ascii("CounterSignature")
            == [0x43, 0x6f, 0x75, 0x6e, 0x74, 0x65, 0x72, 0x53, 0x69, 0x67, 0x6e, 0x61, 0x74, 0x75, 0x72, 0x65]
  {
  }

  lemma LeadWritten(s: Structure)
    ensures ShortHead(4, 1 + |Fields(s)|) + ShortHead(3, |Name(s)|) == LeadBytes(s)
  {
    hide ShortHead;
    HeadByte(4, 1 + |Fields(s)|);
    HeadByte(3, |Name(s)|);
  }

  /** The fields one after another, two, three or four of them. */
  lemma {:induction false} ItemsWritten(fields: seq<Bytes>)
    requires 2 <= |fields| <= 4 && forall i :: 0 <= i < |fields| ==> |fields[i]| < TWO_64
    ensures |fields| == 2 ==> ByteItems(fields) == ByteItem(fields[0]) + ByteItem(fields[1])
    ensures |fields| == 3 ==> ByteItems(fields) == ByteItem(fields[0]) + ByteItem(fields[1]) + ByteItem(fields[2])
    ensures |fields| == 4 ==> ByteItems(fields) == ByteItem(fields[0]) + ByteItem(fields[1]) + ByteItem(fields[2]) + ByteItem(fields[3])
  {
    hide ByteItem;
    if |fields| == 2 {
      assert fields[1..][1..] == [];
      assert ByteItems(fields[1..]) == ByteItem(fields[1]) + [];
    } else {
      ItemsWritten(fields[1..]);
    }
  }

  /** What every signer, MAC and AEAD is given, byte for byte. */
  lemma StructureBytes(s: Structure)
    requires Fit(s)
    ensures EncodeStructure(s) == Written(s)
  {
    hide EncodeStructure, ByteItem, ByteItems, ShortHead, Name, Context, LeadBytes;
    ArrayWritten(s);
    NameWritten(s);
    LeadWritten(s);
    ItemsWritten(Fields(s));
  }

  /** The Sig_structure of a COSE_Sign1 message, byte for byte: protected header, external data, payload.
      No byte string in memory is too long for its head. */
  function SigStructure(protected: Bytes, aad: Bytes, payload: Bytes): Bytes {
    if |protected| < TWO_64 && |aad| < TWO_64 && |payload| < TWO_64 then
      [0x84, 0x6a, 0x53, 0x69, 0x67, 0x6e, 0x61, 0x74, 0x75, 0x72, 0x65, 0x31]
      + ByteItem(protected) + ByteItem(aad) + ByteItem(payload)
    else []
  }

  lemma SigStructureWritten(protected: Bytes, aad: Bytes, payload: Bytes)
    ensures var s := Signature1(protected, aad, payload);
            if Encodable(ValueOf(s)) then Encode(ValueOf(s)) == SigStructure(protected, aad, payload)
            else SigStructure(protected, aad, payload) == []
  {
    hide Encode, ByteItem;
    var s := Signature1(protected, aad, payload);
    FitExactly(s);
    if Fit(s) {
      StructureBytes(s);
      FieldsFit(s);
      var lead := LeadBytes(s) + Name(s);
      assert lead == [0x84, 0x6a, 0x53, 0x69, 0x67, 0x6e, 0x61, 0x74, 0x75, 0x72, 0x65, 0x31];
      assert lead + (ByteItem(protected) + ByteItem(aad) + ByteItem(payload)) == lead + ByteItem(protected) + ByteItem(aad) + ByteItem(payload);
    } else {
      NotFit(s);
    }
  }

  lemma {:induction false} FitsEach(fields: seq<Bytes>)
    requires EncodableItems(ByteStrings(fields))
    ensures forall i :: 0 <= i < |fields| ==> |fields[i]| < TWO_64
  {
    if fields != [] {
      assert ByteStrings(fields)[1..] == ByteStrings(fields[1..]);
      FitsEach(fields[1..]);
      assert forall i :: 0 < i < |fields| ==> fields[i] == fields[1..][i - 1];
    }
  }

  lemma FitExactly(s: Structure)
    ensures Encodable(ValueOf(s)) <==> Fit(s)
  {
    if Fit(s) {
      ValueEncodable(s);
    }
    if Encodable(ValueOf(s)) {
      var items := [TextString(Context(s))] + ByteStrings(Fields(s));
      assert ValueOf(s) == Array(items) && EncodableItems(items) && EncodableItems(items[1..]);
      assert items[1..] == ByteStrings(Fields(s));
      FitsEach(Fields(s));
    }
  }

  lemma NotFit(s: Structure)
    requires !Fit(s) && s.Signature1?
    ensures !(|s.protected| < TWO_64 && |s.aad| < TWO_64 && |s.payload| < TWO_64)
  {
  }
}
