/** The DER subset used for RSA keys (RFC 8017, appendix A.1): tags, definite lengths and unsigned
    integers, written and read back (src/crypto.rs). A length is a 64-bit `usize`. */
module Der {
  import opened Values
  import opened Heads

  const INTEGER: byte := 0x02
  const SEQUENCE: byte := 0x30

  /** Leading zero bytes dropped, keeping one byte. */
  function Stripped(value: Bytes): (r: Bytes)
    ensures |r| <= |value|
  {
    if |value| > 1 && value[0] == 0 then Stripped(value[1..]) else value
  }

  /** All leading zero bytes dropped. */
  function WithoutZeros(bytes: Bytes): (r: Bytes)
    ensures |r| <= |bytes| && (r != [] ==> r[0] != 0)
  {
    if bytes != [] && bytes[0] == 0 then WithoutZeros(bytes[1..]) else bytes
  }

  /** Definite-form length octets. */
  function LengthOctets(n: nat): Bytes
    requires n < TWO_64
  {
    Pow256Values();
    if n < 0x80 then [n] else
    var bytes := WithoutZeros(BigEndian(n, 8));
    [0x80 + |bytes|] + bytes
  }

  function IntegerContent(value: Bytes): Bytes {
    var magnitude := Stripped(value);
    if magnitude != [] && magnitude[0] >= 0x80 then [0] + magnitude else magnitude
  }

  function Tlv(tag: byte, content: Bytes): Bytes
    requires |content| < TWO_64
  {
    [tag] + LengthOctets(|content|) + content
  }

  function UnsignedInteger(value: Bytes): Bytes
    requires |value| + 1 < TWO_64
  {
    Tlv(INTEGER, IntegerContent(value))
  }

  // ---- reading ----------------------------------------------------------------------------------

  function ReadLength(input: Bytes): (r: Option<(nat, Bytes)>)
    ensures r.Some? ==> |r.value.1| < |input|
  {
    if input == [] then None
    else if input[0] < 0x80 then Some((input[0], input[1..]))
    else
      var count := input[0] % 0x80;
      if count == 0 || count > 8 || |input| - 1 < count then None
      else Some((Unsigned(input[1..1 + count]), input[1 + count..]))
  }

  function TakeTlv(input: Bytes, tag: byte): Option<(Bytes, Bytes)> {
    if input == [] || input[0] != tag then None else
    match ReadLength(input[1..])
    case None => None
    case Some((n, rest)) => if |rest| < n then None else Some((rest[..n], rest[n..]))
  }

  /** The sign byte of a DER integer removed. */
  function Magnitude(content: Bytes): Bytes {
    if |content| > 1 && content[0] == 0 then content[1..] else content
  }

  function RsaPublicKeyFromDer(der: Bytes): Result<(Bytes, Bytes)> {
    match TakeTlv(der, SEQUENCE)
    case None => Err(Custom)
    case Some((sequence, trailing)) =>
      if trailing != [] then Err(Custom) else
      match TakeTlv(sequence, INTEGER)
      case None => Err(Custom)
      case Some((n, rest)) =>
        match TakeTlv(rest, INTEGER)
        case None => Err(Custom)
        case Some((e, rest1)) => if rest1 != [] then Err(Custom) else Ok((Magnitude(n), Magnitude(e)))
  }

  // ---- writing ----------------------------------------------------------------------------------

  predicate Sized(values: seq<Bytes>) {
    forall i :: 0 <= i < |values| ==> |values[i]| + 1 < TWO_64
  }

  /** Integers one after another. */
  function Integers(values: seq<Bytes>): Bytes
    requires Sized(values)
  {
    if values == [] then [] else UnsignedInteger(values[0]) + Integers(values[1..])
  }

  /** A sequence of integers; RSAPrivateKey is the version 0 and the eight components. */
  function IntegerSequence(values: seq<Bytes>): Bytes
    requires Sized(values)
    requires |Integers(values)| < TWO_64
  {
    Tlv(SEQUENCE, Integers(values))
  }

  class Writer {
    var out: Bytes

    constructor ()
      ensures out == []
    {
      out := [];
    }

    /** Appends definite-form length octets. */
    method AppendLength(n: nat)
      requires n < TWO_64
      modifies this
      ensures out == old(out) + LengthOctets(n)
    {
      Pow256Values();
      if n < 0x80 {
        out := out + [n];
        return;
      }
      var be := BigEndian(n, 8);
      var first := 0;
      while first < |be| && be[first] == 0
        invariant 0 <= first <= |be| && WithoutZeros(be[first..]) == WithoutZeros(be)
      {
        assert be[first..][1..] == be[first + 1..];
        first := first + 1;
      }
      var bytes := be[first..];
      ghost var before := out;
      out := out + [0x80 + |bytes|];
      out := out + bytes;
      assert before + [0x80 + |bytes|] + bytes == before + ([0x80 + |bytes|] + bytes);
    }

    /** Appends an INTEGER holding an unsigned magnitude. */
    method AppendUnsignedInteger(value: Bytes)
      requires |value| + 1 < TWO_64
      modifies this
      ensures out == old(out) + UnsignedInteger(value)
      ensures UnsignedInteger(value) == [0x02] + LengthOctets(|IntegerContent(value)|) + IntegerContent(value)
      ensures value != [] ==> DenotesShortest(IntegerContent(value), Unsigned(value))
    {
      hide DenotesShortest, LengthOctets, Unsigned, Tlv;
      var magnitude := value;
      while |magnitude| > 1 && magnitude[0] == 0
        invariant Stripped(magnitude) == Stripped(value) && |magnitude| <= |value|
        decreases |magnitude|
      {
        magnitude := magnitude[1..];
      }
      ghost var before := out;
      out := out + [INTEGER];
      if magnitude != [] && magnitude[0] >= 0x80 {
        AppendLength(|magnitude| + 1);
        out := out + [0];
        out := out + magnitude;
        IntegerWritten(before, |magnitude| + 1, [0] + magnitude);
        assert before + [INTEGER] + LengthOctets(|magnitude| + 1) + [0] + magnitude
            == before + [INTEGER] + LengthOctets(|magnitude| + 1) + ([0] + magnitude);
      } else {
        AppendLength(|magnitude|);
        out := out + magnitude;
        IntegerWritten(before, |magnitude|, magnitude);
      }
      TlvIs(INTEGER, IntegerContent(value));
      ContentExact(value);
    }
  }

  lemma TlvIs(tag: byte, content: Bytes)
    requires |content| < TWO_64
    ensures Tlv(tag, content) == [tag] + LengthOctets(|content|) + content
  {
  }

  lemma IntegerWritten(before: Bytes, n: nat, content: Bytes)
    requires n == |content| && n < TWO_64
    ensures before + [INTEGER] + LengthOctets(n) + content == before + Tlv(INTEGER, content)
  {
  }

  /** The body of the document: every integer in turn. */
  lemma NoIntegers()
    ensures Integers([]) == []
  {
  }

  method AppendIntegers(body: Writer, values: seq<Bytes>)
    requires Sized(values) && body.out == []
    modifies body
    ensures body.out == Integers(values)
  {
    hide UnsignedInteger, Integers, DenotesShortest, IntegerContent, LengthOctets;
    var i := 0;
    NoIntegers();
    assert values[..0] == [];
    while i < |values|
      invariant 0 <= i <= |values| && Sized(values[..i]) && body.out == Integers(values[..i])
    {
      body.AppendUnsignedInteger(values[i]);
      IntegersAppend(values[..i], values[i]);
      assert values[..i + 1] == values[..i] + [values[i]];
      i := i + 1;
    }
    assert values[..|values|] == values;
  }

  /** The PKCS#1 document of the eight components, behind version 0. */
  method RsaPrivateKeyDer(fields: seq<Bytes>) returns (der: Bytes)
    requires Sized([[0]] + fields) && |Integers([[0]] + fields)| < TWO_64
    ensures der == IntegerSequence([[0]] + fields)
    ensures TakeTlv(der, 0x30) == Some(([0x02, 0x01, 0x00] + Integers(fields), []))
    ensures ReadContents(Integers(fields)).Some? && Denote(ReadContents(Integers(fields)).value, fields)
  {
    hide Integers, IntegerSequence, Denote, ReadContents;
    DocumentIs(fields);
    var body := new Writer();
    AppendIntegers(body, [[0]] + fields);
    var whole := new Writer();
    whole.out := [SEQUENCE];
    whole.AppendLength(|body.out|);
    whole.out := whole.out + body.out;
    der := whole.out;
  }

  lemma DocumentIs(fields: seq<Bytes>)
    requires Sized([[0]] + fields) && |Integers([[0]] + fields)| < TWO_64
    ensures IntegerSequence([[0]] + fields) == [SEQUENCE] + LengthOctets(|Integers([[0]] + fields)|) + Integers([[0]] + fields)
    ensures Sized(fields)
    ensures TakeTlv(IntegerSequence([[0]] + fields), 0x30) == Some(([0x02, 0x01, 0x00] + Integers(fields), []))
    ensures ReadContents(Integers(fields)).Some? && Denote(ReadContents(Integers(fields)).value, fields)
  {
    assert forall i :: 0 <= i < |fields| ==> fields[i] == ([[0]] + fields)[i + 1];
    PrivateKeyReads(fields);
  }

  lemma {:induction false} IntegersAppend(values: seq<Bytes>, value: Bytes)
    requires Sized(values)
    requires |value| + 1 < TWO_64
    ensures Sized(values + [value])
    ensures Integers(values + [value]) == Integers(values) + UnsignedInteger(value)
  {
    if values == [] {
      assert [] + [value] == [value] && [value][1..] == [];
      assert Integers([value]) == UnsignedInteger(value) + [];
    } else {
      assert (values + [value])[1..] == values[1..] + [value];
      IntegersAppend(values[1..], value);
      assert UnsignedInteger(values[0]) + (Integers(values[1..]) + UnsignedInteger(value))
          == UnsignedInteger(values[0]) + Integers(values[1..]) + UnsignedInteger(value);
    }
  }

  // ---- what is written reads back ---------------------------------------------------------------

  lemma {:induction false} ZerosDoNotCount(bytes: Bytes)
    ensures Unsigned(WithoutZeros(bytes)) == Unsigned(bytes)
  {
    if bytes != [] && bytes[0] == 0 {
      LeadingZero(bytes);
      ZerosDoNotCount(bytes[1..]);
    }
  }

  lemma {:induction false} LeadingZero(bytes: Bytes)
    requires bytes != [] && bytes[0] == 0
    ensures Unsigned(bytes) == Unsigned(bytes[1..])
  {
    if |bytes| > 1 {
      var init := bytes[..|bytes| - 1];
      LeadingZero(init);
      assert init[1..] == bytes[1..][..|bytes[1..]| - 1];
    }
  }

  /** Written length octets read as the length, whatever follows them. */
  lemma LengthReads(n: nat, rest: Bytes)
    requires n < TWO_64
    ensures ReadLength(LengthOctets(n) + rest) == Some((n, rest))
  {
    hide Unsigned, WithoutZeros;
    Pow256Values();
    var input := LengthOctets(n) + rest;
    if n < 0x80 {
      assert input[1..] == rest;
    } else {
      var be := BigEndian(n, 8);
      var bytes := WithoutZeros(be);
      BigEndianReads(n, 8);
      ZerosDoNotCount(be);
      assert bytes != [];
      assert input[1..1 + |bytes|] == bytes && input[1 + |bytes|..] == rest;
    }
  }

  lemma {:induction false} LeadingByteCounts(bytes: Bytes)
    requires bytes != [] && bytes[0] != 0
    ensures Unsigned(bytes) >= Pow256(|bytes| - 1)
  {
    if |bytes| > 1 {
      LeadingByteCounts(bytes[..|bytes| - 1]);
    }
  }

  /** No length octets that read as `n` are shorter than the written ones. */
  lemma LengthIsMinimal(input: Bytes)
    requires ReadLength(input).Some?
    ensures var (n, rest) := ReadLength(input).value;
            n < TWO_64 && |LengthOctets(n)| <= |input| - |rest|
  {
    Pow256Values();
    var (n, rest) := ReadLength(input).value;
    if input[0] >= 0x80 {
      var count := input[0] % 0x80;
      Pow256Grows(count, 8);
      var bytes := WithoutZeros(BigEndian(n, 8));
      BigEndianReads(n, 8);
      ZerosDoNotCount(BigEndian(n, 8));
      if |bytes| > count {
        LeadingByteCounts(bytes);
        Pow256Grows(count, |bytes| - 1);
      }
    }
  }

  /** A written element is taken whole, and what follows is left. */
  lemma TlvReads(tag: byte, content: Bytes, rest: Bytes)
    requires |content| < TWO_64
    ensures TakeTlv(Tlv(tag, content) + rest, tag) == Some((content, rest))
  {
    var input := Tlv(tag, content) + rest;
    assert input[1..] == LengthOctets(|content|) + (content + rest);
    LengthReads(|content|, content + rest);
    assert (content + rest)[..|content|] == content && (content + rest)[|content|..] == rest;
  }

  lemma {:induction false} StrippedStarts(value: Bytes)
    ensures |Stripped(value)| <= 1 || Stripped(value)[0] != 0
  {
    if |value| > 1 && value[0] == 0 {
      StrippedStarts(value[1..]);
    }
  }

  /** The sign byte comes off again. */
  lemma ContentReads(value: Bytes)
    ensures Magnitude(IntegerContent(value)) == Stripped(value)
  {
    StrippedStarts(value);
    assert ([0] + Stripped(value))[1..] == Stripped(value);
  }

  /** Reads integers until the input is used up. */
  function ReadIntegers(input: Bytes): Option<seq<Bytes>>
    decreases |input|
  {
    if input == [] then Some([]) else
    match TakeTlv(input, INTEGER)
    case None => None
    case Some((content, rest)) =>
      if |rest| >= |input| then None else
      match ReadIntegers(rest)
      case None => None
      case Some(more) => Some([Magnitude(content)] + more)
  }

  function AllStripped(values: seq<Bytes>): seq<Bytes> {
    if values == [] then [] else [Stripped(values[0])] + AllStripped(values[1..])
  }

  lemma {:induction false} IntegersRead(values: seq<Bytes>)
    requires Sized(values)
    ensures ReadIntegers(Integers(values)) == Some(AllStripped(values))
  {
    if values != [] {
      TlvReads(INTEGER, IntegerContent(values[0]), Integers(values[1..]));
      ContentReads(values[0]);
      IntegersRead(values[1..]);
    }
  }

  /** The content octets of integers one after another. */
  function ReadContents(input: Bytes): Option<seq<Bytes>>
    decreases |input|
  {
    if input == [] then Some([]) else
    match TakeTlv(input, 0x02)
    case None => None
    case Some((content, rest)) =>
      if |rest| >= |input| then None else
      match ReadContents(rest)
      case None => None
      case Some(more) => Some([content] + more)
  }

  function Contents(values: seq<Bytes>): (c: seq<Bytes>)
    ensures |c| == |values| && forall i :: 0 <= i < |values| ==> c[i] == IntegerContent(values[i])
  {
    if values == [] then [] else [IntegerContent(values[0])] + Contents(values[1..])
  }

  lemma {:induction false} ContentsRead(values: seq<Bytes>)
    requires Sized(values)
    ensures ReadContents(Integers(values)) == Some(Contents(values))
  {
    if values != [] {
      TlvReads(INTEGER, IntegerContent(values[0]), Integers(values[1..]));
      ContentsRead(values[1..]);
    }
  }

  /** Contents that denote these numbers as two's complement, none of which can be shorter. */
  ghost predicate Denote(contents: seq<Bytes>, values: seq<Bytes>) {
    && |contents| == |values|
    && forall i :: 0 <= i < |values| && values[i] != [] ==> DenotesShortest(contents[i], Unsigned(values[i]))
  }

  /** The written private key is one sequence that is consumed whole: version 0, and then for every
      component, in order, the shortest INTEGER that denotes its number. Without the sign bytes they are
      the components without redundant leading zeros. */
  lemma PrivateKeyReads(fields: seq<Bytes>)
    requires Sized(fields)
    requires |Integers([[0]] + fields)| < TWO_64
    ensures TakeTlv(IntegerSequence([[0]] + fields), 0x30) == Some((Integers([[0]] + fields), []))
    ensures Integers([[0]] + fields) == [0x02, 0x01, 0x00] + Integers(fields)
    ensures ReadContents(Integers(fields)).Some? && Denote(ReadContents(Integers(fields)).value, fields)
    ensures ReadIntegers(Integers(fields)) == Some(AllStripped(fields))
  {
    var values: seq<Bytes> := [[0]] + fields;
    TlvReads(SEQUENCE, Integers(values), []);
    assert IntegerSequence(values) + [] == IntegerSequence(values);
    assert values[1..] == fields;
    assert UnsignedInteger([0]) == [0x02, 0x01, 0x00];
    ContentsRead(fields);
    IntegersRead(fields);
    forall i | 0 <= i < |fields| && fields[i] != [] ensures DenotesShortest(Contents(fields)[i], Unsigned(fields[i])) {
      ContentExact(fields[i]);
    }
  }

  // ---- the number an INTEGER denotes ------------------------------------------------------------

  /** The number content octets denote in two's complement (X.690, section 8.3). */
  function TwosComplement(content: Bytes): int
    requires content != []
  {
    Unsigned(content) - if content[0] >= 0x80 then Pow256(|content|) else 0
  }

  ghost predicate DenotesShortest(content: Bytes, n: nat) {
    && content != [] && TwosComplement(content) == n
    && forall c: Bytes :: c != [] && TwosComplement(c) == n ==> |content| <= |c|
  }

  lemma {:induction false} LeadingByteBounds(bytes: Bytes)
    requires bytes != []
    ensures bytes[0] * Pow256(|bytes| - 1) <= Unsigned(bytes) < (bytes[0] + 1) * Pow256(|bytes| - 1)
  {
    var init, last := bytes[..|bytes| - 1], bytes[|bytes| - 1];
    if |bytes| > 1 {
      LeadingByteBounds(init);
      Scaled(bytes[0], Pow256(|bytes| - 2), Unsigned(init), last);
    } else {
      assert init == [];
    }
  }

  lemma Scaled(first: byte, power: nat, init: nat, last: byte)
    requires first * power <= init < (first + 1) * power
    ensures first * (256 * power) <= init * 256 + last < (first + 1) * (256 * power)
  {
    assert init + 1 <= (first + 1) * power;
  }

  /** A number content octets denote is less than half their range. */
  lemma DenotedBelow(content: Bytes)
    requires content != []
    ensures TwosComplement(content) < 128 * Pow256(|content| - 1)
  {
    LeadingByteBounds(content);
    if content[0] < 0x80 {
      Times(content[0] + 1, 128, Pow256(|content| - 1));
    } else {
      assert Pow256(|content|) == 256 * Pow256(|content| - 1);
    }
  }

  lemma Times(a: nat, b: nat, c: nat)
    requires a <= b
    ensures a * c <= b * c
  {
  }

  /** Written content octets denote the number of the value, and no shorter ones do. An empty value has
      no content octets and denotes nothing. */
  lemma ContentExact(value: Bytes)
    ensures value != [] <==> IntegerContent(value) != []
    ensures value != [] ==> IntegerContent(value)[0] < 0x80 && DenotesShortest(IntegerContent(value), Unsigned(value))
  {
    var content, m := IntegerContent(value), Stripped(value);
    StrippedKeepsNumber(value);
    StrippedStarts(value);
    StrippedNonempty(value);
    if value != [] {
      if m[0] >= 0x80 {
        LeadingZero(content);
        assert content[1..] == m;
      }
      forall c: Bytes | c != [] && TwosComplement(c) == Unsigned(value) ensures |content| <= |c| {
        NoneShorter(m, content, c);
      }
    }
  }

  lemma {:induction false} StrippedNonempty(value: Bytes)
    ensures Stripped(value) == [] <==> value == []
  {
    if |value| > 1 && value[0] == 0 {
      StrippedNonempty(value[1..]);
    }
  }

  lemma NoneShorter(m: Bytes, content: Bytes, c: Bytes)
    requires m != [] && (|m| == 1 || m[0] != 0) && content == if m[0] >= 0x80 then [0] + m else m
    requires c != [] && TwosComplement(c) == Unsigned(m)
    ensures |content| <= |c|
  {
    DenotedBelow(c);
    LeadingByteBounds(m);
    if |c| < |content| {
      if m[0] >= 0x80 {
        Times(128, m[0], Pow256(|m| - 1));
        Pow256Grows(|c| - 1, |m| - 1);
      } else if |m| > 1 {
        Times(1, m[0], Pow256(|m| - 1));
        Pow256Grows(|c| - 1, |m| - 2);
      }
    }
  }

  /** An empty component is written as an INTEGER without content octets, which DER does not allow. */
  lemma EmptyIntegerIsInvalid()
    ensures UnsignedInteger([]) == [0x02, 0x00]
  {
  }

  // ---- what the reader accepts ------------------------------------------------------------------

  /** Length octets for `n`, in short form or in long form of up to eight bytes, redundant ones too. */
  predicate LengthForm(l: Bytes, n: nat) {
    || (n < 0x80 && l == [n])
    || (2 <= |l| <= 9 && l[0] == 0x80 + |l| - 1 && Unsigned(l[1..]) == n)
  }

  lemma ReadLengthOf(l: Bytes, n: nat, rest: Bytes)
    requires LengthForm(l, n)
    ensures ReadLength(l + rest) == Some((n, rest))
  {
    var input := l + rest;
    if n < 0x80 && l == [n] {
      assert input[1..] == rest;
    } else {
      assert input[1..|l|] == l[1..] && input[|l|..] == rest;
    }
  }

  lemma ReadLengthOnly(input: Bytes) returns (l: Bytes)
    requires ReadLength(input).Some?
    ensures LengthForm(l, ReadLength(input).value.0) && input == l + ReadLength(input).value.1
  {
    l := if input[0] < 0x80 then input[..1] else input[..1 + input[0] % 0x80];
    if input[0] >= 0x80 {
      assert l[1..] == input[1..1 + input[0] % 0x80];
    }
  }

  /** An element with its length written as `l`. */
  function Element(tag: byte, l: Bytes, content: Bytes): Bytes {
    [tag] + l + content
  }

  lemma TakeTlvOf(tag: byte, l: Bytes, content: Bytes, rest: Bytes)
    requires LengthForm(l, |content|)
    ensures TakeTlv(Element(tag, l, content) + rest, tag) == Some((content, rest))
  {
    var input := Element(tag, l, content) + rest;
    assert input[1..] == l + (content + rest);
    ReadLengthOf(l, |content|, content + rest);
    assert (content + rest)[..|content|] == content && (content + rest)[|content|..] == rest;
  }

  lemma TakeTlvOnly(input: Bytes, tag: byte) returns (l: Bytes)
    requires TakeTlv(input, tag).Some?
    ensures var (content, rest) := TakeTlv(input, tag).value;
            LengthForm(l, |content|) && input == Element(tag, l, content) + rest
  {
    l := ReadLengthOnly(input[1..]);
    var (content, rest) := TakeTlv(input, tag).value;
    assert input == [input[0]] + input[1..];
    assert ReadLength(input[1..]).value.1 == content + rest;
  }

  /** A public key document: a sequence of two integers, with these length octets. */
  function PublicKey(l: Bytes, n: Bytes, ln: Bytes, e: Bytes, le: Bytes): Bytes {
    Element(0x30, l, Element(0x02, ln, n) + Element(0x02, le, e))
  }

  /** Every such document is read, ... */
  lemma PublicKeyAccepted(l: Bytes, n: Bytes, ln: Bytes, e: Bytes, le: Bytes)
    requires LengthForm(ln, |n|) && LengthForm(le, |e|) && LengthForm(l, |Element(0x02, ln, n) + Element(0x02, le, e)|)
    ensures RsaPublicKeyFromDer(PublicKey(l, n, ln, e, le))
         == Ok((if |n| > 1 && n[0] == 0 then n[1..] else n, if |e| > 1 && e[0] == 0 then e[1..] else e))
  {
    hide LengthForm, TakeTlv, Element;
    var body := Element(0x02, ln, n) + Element(0x02, le, e);
    TakeTlvOf(0x30, l, body, []);
    assert PublicKey(l, n, ln, e, le) + [] == PublicKey(l, n, ln, e, le);
    TakeTlvOf(0x02, ln, n, Element(0x02, le, e));
    TakeTlvOf(0x02, le, e, []);
    assert Element(0x02, le, e) + [] == Element(0x02, le, e);
  }

  /** ... and nothing else is. */
  lemma PublicKeyOnly(der: Bytes) returns (l: Bytes, n: Bytes, ln: Bytes, e: Bytes, le: Bytes)
    requires RsaPublicKeyFromDer(der).Ok?
    ensures LengthForm(ln, |n|) && LengthForm(le, |e|) && LengthForm(l, |Element(0x02, ln, n) + Element(0x02, le, e)|)
    ensures der == PublicKey(l, n, ln, e, le)
  {
    hide LengthForm, TakeTlv, Element;
    var body := TakeTlv(der, SEQUENCE).value.0;
    l := TakeTlvOnly(der, SEQUENCE);
    assert Element(SEQUENCE, l, body) + [] == Element(SEQUENCE, l, body);
    var rest;
    n, rest := TakeTlv(body, INTEGER).value.0, TakeTlv(body, INTEGER).value.1;
    ln := TakeTlvOnly(body, INTEGER);
    e := TakeTlv(rest, INTEGER).value.0;
    le := TakeTlvOnly(rest, INTEGER);
    assert Element(INTEGER, le, e) + [] == Element(INTEGER, le, e);
  }

  /** A written public key reads back as its modulus and exponent. */
  lemma PublicKeyReads(n: Bytes, e: Bytes)
    requires |n| + 1 < TWO_64 && |e| + 1 < TWO_64 && |Integers([n, e])| < TWO_64
    ensures RsaPublicKeyFromDer(IntegerSequence([n, e])) == Ok((Stripped(n), Stripped(e)))
  {
    var body := Integers([n, e]);
    assert [n, e][1..] == [e] && [e][1..] == [];
    assert Integers([e]) == UnsignedInteger(e) + [];
    assert body == UnsignedInteger(n) + (UnsignedInteger(e) + []);
    TlvReads(SEQUENCE, body, []);
    assert IntegerSequence([n, e]) + [] == IntegerSequence([n, e]);
    TlvReads(INTEGER, IntegerContent(n), UnsignedInteger(e) + []);
    TlvReads(INTEGER, IntegerContent(e), []);
    ContentReads(n);
    ContentReads(e);
  }

  /** Stripping keeps the number. */
  lemma {:induction false} StrippedKeepsNumber(value: Bytes)
    ensures Unsigned(Stripped(value)) == Unsigned(value)
  {
    if |value| > 1 && value[0] == 0 {
      LeadingZero(value);
      StrippedKeepsNumber(value[1..]);
    }
  }
}
