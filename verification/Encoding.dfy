/** The ordinary CBOR encoder: definite lengths and preferred heads (RFC 8949, section 4.1). */
module Encoding {
  import opened Values
  import opened Heads
  import opened Syntax
  import opened Readings

  /** A float's wire form: the head of its width and its bits. */
  predicate FloatWire(wire: Bytes) {
    || (|wire| == 3 && wire[0] == Initial(7, 25))
    || (|wire| == 5 && wire[0] == Initial(7, 26))
    || (|wire| == 9 && wire[0] == Initial(7, 27))
  }

  function FloatWidth(wire: Bytes): Width {
    if |wire| == 3 then Two else if |wire| == 5 then Four else Eight
  }

  /** Values CBOR can carry: integers and lengths fit a head. */
  predicate Encodable(v: Value)
    decreases v, 1
  {
    match v
    case Integer(n) => -TWO_64 <= n < TWO_64
    case ByteString(b) => |b| < TWO_64
    case TextString(t) => |t| < TWO_64
    case Array(items) => |items| < TWO_64 && EncodableItems(items)
    case Map(entries) => |entries| < TWO_64 && EncodableEntries(entries)
    case Tag(tag, inner) => tag < TWO_64 && Encodable(inner)
    case Simple(_) => true
    case Float(wire) => FloatWire(wire)
  }

  predicate EncodableItems(items: seq<Value>)
    decreases items, 0
  {
    items == [] || (Encodable(items[0]) && EncodableItems(items[1..]))
  }

  predicate EncodableEntries(entries: seq<Entry>)
    decreases entries, 0
  {
    entries == [] || (EncodableEntry(entries[0]) && EncodableEntries(entries[1..]))
  }

  predicate EncodableEntry(e: Entry)
    decreases e, 2
  {
    Encodable(e.key) && Encodable(e.val)
  }

  function ShortWidth(code: byte): Width {
    if code < 24 then Direct else One
  }

  /** How the ordinary encoder writes a value. */
  function Plain(v: Value): (s: Syn)
    requires Encodable(v)
    ensures WellFormed(s)
    decreases v, 1
  {
    match v
    case Integer(n) => if n < 0 then Number(true, Preferred(-1 - n), -1 - n) else Number(false, Preferred(n), n)
    case ByteString(b) => Str(false, Chunk(Preferred(|b|), b))
    case TextString(t) => Str(true, Chunk(Preferred(|t|), t))
    case Array(items) => List(Definite(Preferred(|items|)), PlainItems(items))
    case Map(entries) => Table(Definite(Preferred(|entries|)), PlainEntries(entries))
    case Tag(tag, inner) => Tagged(Preferred(tag), tag, Plain(inner))
    case Simple(code) => SimpleCode(ShortWidth(code), code)
    case Float(wire) => FloatBits(FloatWidth(wire), Unsigned(wire[1..]))
  }

  function PlainItems(items: seq<Value>): (s: seq<Syn>)
    requires EncodableItems(items)
    ensures |s| == |items| && WellFormedItems(s)
    decreases items, 0
  {
    if items == [] then [] else [Plain(items[0])] + PlainItems(items[1..])
  }

  function PlainEntries(entries: seq<Entry>): (s: seq<Pair>)
    requires EncodableEntries(entries)
    ensures |s| == |entries| && WellFormedPairs(s)
    decreases entries, 0
  {
    if entries == [] then [] else [PlainEntry(entries[0])] + PlainEntries(entries[1..])
  }

  function PlainEntry(e: Entry): (p: Pair)
    requires EncodableEntry(e)
    ensures WellFormedPair(p)
    decreases e, 2
  {
    Pair(Plain(e.key), Plain(e.val))
  }

  function Encode(v: Value): Bytes
    requires Encodable(v)
  {
    Ser(Plain(v))
  }

  /** What the encoder writes denotes the value, in definite form. */
  lemma {:induction false} PlainDenotes(v: Value)
    requires Encodable(v)
    ensures Den(Plain(v)) == v && AllDefinite(Plain(v)) && Nesting(Plain(v)) == Height(v)
    decreases v, 1
  {
    match v
    case Array(items) => PlainItemsDenote(items);
    case Map(entries) => PlainEntriesDenote(entries);
    case Tag(_, inner) => PlainDenotes(inner);
    case Float(wire) =>
      BigEndianWrites(wire[1..]);
      assert wire == [wire[0]] + wire[1..];
    case _ =>
  }

  lemma {:induction false} PlainItemsDenote(items: seq<Value>)
    requires EncodableItems(items)
    ensures DenItems(PlainItems(items)) == items && AllDefiniteItems(PlainItems(items))
    ensures NestingOf(PlainItems(items)) == HeightOfItems(items)
    decreases items, 0
  {
    if items != [] {
      PlainDenotes(items[0]);
      PlainItemsDenote(items[1..]);
      assert PlainItems(items)[1..] == PlainItems(items[1..]);
    }
  }

  lemma {:induction false} PlainEntriesDenote(entries: seq<Entry>)
    requires EncodableEntries(entries)
    ensures DenPairs(PlainEntries(entries)) == entries && AllDefinitePairs(PlainEntries(entries))
    ensures NestingOfPairs(PlainEntries(entries)) == HeightOfEntries(entries)
    decreases entries, 0
  {
    if entries != [] {
      PlainEntryDenotes(entries[0]);
      PlainEntriesDenote(entries[1..]);
      assert PlainEntries(entries)[1..] == PlainEntries(entries[1..]);
    }
  }

  lemma {:induction false} PlainEntryDenotes(e: Entry)
    requires EncodableEntry(e)
    ensures DenPair(PlainEntry(e)) == e && AllDefinitePair(PlainEntry(e)) && NestingOfPair(PlainEntry(e)) == HeightOfEntry(e)
    decreases e, 2
  {
    PlainDenotes(e.key);
    PlainDenotes(e.val);
  }

  /** Different values are written differently, even with more bytes behind them. */
  lemma EncodeInjective(a: Value, b: Value, resta: Bytes, restb: Bytes)
    requires Encodable(a) && Encodable(b) && Encode(a) + resta == Encode(b) + restb
    ensures a == b && resta == restb
  {
    SameReading(Plain(a), Plain(b), resta, restb);
    PlainDenotes(a);
    PlainDenotes(b);
  }

  /** The ordinary encoder's output has one item for every node of the value. */
  lemma EncodedItems(v: Value)
    requires Encodable(v)
    ensures Items(Plain(v)) == Nodes(v)
  {
    PlainDenotes(v);
    DefiniteItemsAreNodes(Plain(v));
  }

  // ---- byte for byte ----------------------------------------------------------------------------

  /** The head of a major type, by the size of its argument. */
  lemma HeadIs(major: nat, arg: nat)
    requires major < 8 && arg < TWO_64
    ensures arg < 24 ==> ShortHead(major, arg) == [32 * major + arg]
    ensures 24 <= arg < 0x100 ==> ShortHead(major, arg) == [32 * major + 24, arg]
    ensures 0x100 <= arg < 0x1_0000 ==> ShortHead(major, arg) == [32 * major + 25, arg / 0x100, arg % 0x100]
    ensures 0x1_0000 <= arg < 0x1_0000_0000 ==>
              ShortHead(major, arg)
              == [32 * major + 26, arg / 0x100_0000, arg / 0x1_0000 % 0x100, arg / 0x100 % 0x100, arg % 0x100]
    ensures 0x1_0000_0000 <= arg ==>
              |ShortHead(major, arg)| == 9 && ShortHead(major, arg)[0] == 32 * major + 27
              && Unsigned(ShortHead(major, arg)[1..]) == arg
  {
    Pow256Values();
    if arg < 0x100 {
      assert BigEndian(arg, 1) == [] + [arg];
    } else if arg < 0x1_0000 {
      TwoBytes(arg);
    } else if arg < 0x1_0000_0000 {
      FourBytes(arg);
    } else {
      BigEndianReads(arg, 8);
      assert ShortHead(major, arg)[1..] == BigEndian(arg, 8);
    }
  }

  lemma TwoBytes(n: nat)
    requires n < 0x1_0000
    ensures n < Pow256(2) && BigEndian(n, 2) == [n / 0x100, n % 0x100]
  {
    Pow256Values();
    assert BigEndian(n / 256, 1) == [] + [n / 256];
  }

  lemma FourBytes(n: nat)
    requires n < 0x1_0000_0000
    ensures n < Pow256(4) && BigEndian(n, 4) == [n / 0x100_0000, n / 0x1_0000 % 0x100, n / 0x100 % 0x100, n % 0x100]
  {
    Pow256Values();
    TwoBytes(n / 0x1_0000);
    assert n / 256 / 256 == n / 0x1_0000;
    assert BigEndian(n / 256, 3) == BigEndian(n / 0x1_0000, 2) + [n / 256 % 256];
  }

  function EncodeEach(items: seq<Value>): Bytes
    requires EncodableItems(items)
  {
    if items == [] then [] else Encode(items[0]) + EncodeEach(items[1..])
  }

  function EncodeEachEntry(entries: seq<Entry>): Bytes
    requires EncodableEntries(entries)
  {
    if entries == [] then [] else EncodeEntry(entries[0]) + EncodeEachEntry(entries[1..])
  }

  function EncodeEntry(e: Entry): Bytes
    requires EncodableEntry(e)
  {
    Encode(e.key) + Encode(e.val)
  }

  /** Every value is a head of its major type, followed by its content (RFC 8949, section 3.1). */
  lemma EncodeExact(v: Value)
    requires Encodable(v)
    ensures match v
            case Integer(n) => Encode(v) == if n < 0 then ShortHead(1, -1 - n) else ShortHead(0, n)
            case ByteString(b) => Encode(v) == ShortHead(2, |b|) + b
            case TextString(t) => Encode(v) == ShortHead(3, |t|) + t
            case Array(items) => Encode(v) == ShortHead(4, |items|) + EncodeEach(items)
            case Map(entries) => Encode(v) == ShortHead(5, |entries|) + EncodeEachEntry(entries)
            case Tag(tag, inner) => Encode(v) == ShortHead(6, tag) + Encode(inner)
            case Simple(code) => Encode(v) == if code < 24 then [0xe0 + code] else [0xf8, code]
            case Float(wire) => Encode(v) == wire
  {
    hide Encode, EncodeEach, EncodeEachEntry, ShortHead;
    match v
    case Integer(_) => ScalarExact(v);
    case ByteString(_) => ScalarExact(v);
    case TextString(_) => ScalarExact(v);
    case Array(items) => ArrayExact(items);
    case Map(entries) => MapExact(entries);
    case Tag(tag, inner) => TagExact(tag, inner);
    case Simple(code) => SimpleExact(code);
    case Float(wire) => FloatExact(wire);
  }

  lemma ScalarExact(v: Value)
    requires Encodable(v) && (v.Integer? || v.ByteString? || v.TextString?)
    ensures match v
            case Integer(n) => Encode(v) == if n < 0 then ShortHead(1, -1 - n) else ShortHead(0, n)
            case ByteString(b) => Encode(v) == ShortHead(2, |b|) + b
            case TextString(t) => Encode(v) == ShortHead(3, |t|) + t
            case _ => true
  {
  }

  lemma ListWritten(items: seq<Value>)
    requires EncodableItems(items) && |items| < TWO_64
    ensures Encode(Array(items)) == ShortHead(4, |items|) + SerItems(PlainItems(items))
  {
    hide Ser, Plain, SerItems, PlainItems, Head, EncodableItems, Encodable, Preferred, WellFormed, WellFormedItems;
    PlainOfArray(items);
    SerOfList(Preferred(|items|), PlainItems(items));
  }

  lemma PlainOfArray(items: seq<Value>)
    requires EncodableItems(items) && |items| < TWO_64
    ensures Plain(Array(items)) == List(Definite(Preferred(|items|)), PlainItems(items))
  {
    hide PlainItems, Preferred, WellFormed, EncodableItems;
  }

  lemma SerOfList(w: Width, items: seq<Syn>)
    requires WellFormed(List(Definite(w), items))
    ensures Ser(List(Definite(w), items)) == Head(4, |items|, w) + SerItems(items)
  {
    hide SerItems, Head;
    assert Head(4, |items|, w) + SerItems(items) + [] == Head(4, |items|, w) + SerItems(items);
  }

  lemma ArrayExact(items: seq<Value>)
    requires EncodableItems(items) && |items| < TWO_64
    ensures Encode(Array(items)) == ShortHead(4, |items|) + EncodeEach(items)
  {
    hide Encode, SerItems, PlainItems, EncodeEach, ShortHead;
    ListWritten(items);
    EncodeEachIs(items);
  }

  lemma TableWritten(entries: seq<Entry>)
    requires EncodableEntries(entries) && |entries| < TWO_64
    ensures Encode(Map(entries)) == ShortHead(5, |entries|) + SerPairs(PlainEntries(entries))
  {
    hide Ser, Plain, SerPairs, PlainEntries, Head, EncodableEntries, Encodable, Preferred, WellFormed, WellFormedPairs;
    PlainOfMap(entries);
    SerOfTable(Preferred(|entries|), PlainEntries(entries));
  }

  lemma PlainOfMap(entries: seq<Entry>)
    requires EncodableEntries(entries) && |entries| < TWO_64
    ensures Plain(Map(entries)) == Table(Definite(Preferred(|entries|)), PlainEntries(entries))
  {
    hide PlainEntries, Preferred, WellFormed, EncodableEntries;
  }

  lemma SerOfTable(w: Width, pairs: seq<Pair>)
    requires WellFormed(Table(Definite(w), pairs))
    ensures Ser(Table(Definite(w), pairs)) == Head(5, |pairs|, w) + SerPairs(pairs)
  {
    hide SerPairs, Head;
    assert Head(5, |pairs|, w) + SerPairs(pairs) + [] == Head(5, |pairs|, w) + SerPairs(pairs);
  }

  lemma MapExact(entries: seq<Entry>)
    requires EncodableEntries(entries) && |entries| < TWO_64
    ensures Encode(Map(entries)) == ShortHead(5, |entries|) + EncodeEachEntry(entries)
  {
    hide Encode, SerPairs, PlainEntries, EncodeEachEntry, ShortHead;
    TableWritten(entries);
    EncodeEachEntryIs(entries);
  }

  lemma TagExact(tag: nat, inner: Value)
    requires Encodable(Tag(tag, inner))
    ensures Encode(Tag(tag, inner)) == ShortHead(6, tag) + Encode(inner)
  {
  }

  lemma SimpleExact(code: byte)
    ensures Encode(Simple(code)) == if code < 24 then [0xe0 + code] else [0xf8, code]
  {
    HeadIs(7, code);
    Pow256Values();
  }

  lemma FloatExact(wire: Bytes)
    requires FloatWire(wire)
    ensures Encode(Float(wire)) == wire
  {
    BigEndianWrites(wire[1..]);
    assert wire == [wire[0]] + wire[1..];
  }

  lemma {:induction false} EncodeEachIs(items: seq<Value>)
    requires EncodableItems(items)
    ensures EncodeEach(items) == SerItems(PlainItems(items))
  {
    if items != [] {
      EncodeEachIs(items[1..]);
      assert PlainItems(items)[1..] == PlainItems(items[1..]);
    }
  }

  lemma {:induction false} EncodeEachEntryIs(entries: seq<Entry>)
    requires EncodableEntries(entries)
    ensures EncodeEachEntry(entries) == SerPairs(PlainEntries(entries))
  {
    if entries != [] {
      EncodeEachEntryIs(entries[1..]);
      assert PlainEntries(entries)[1..] == PlainEntries(entries[1..]);
    }
  }
}
