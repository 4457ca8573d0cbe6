/** The ways of writing CBOR the strict parser knows, as trees: one constructor per way of writing an
    item, with the head widths and the definite or indefinite choice left free. They are those of
    RFC 8949, section 3, but for one: a simple value below 32 may stand in two bytes. */
module Syntax {
  import opened Values
  import opened Heads

  datatype Form = Definite(width: Width) | Indefinite

  datatype Chunk = Chunk(width: Width, content: Bytes)

  datatype Syn =
    | Number(negative: bool, width: Width, arg: nat)
    | Str(text: bool, chunk: Chunk)
    | Chunked(text: bool, chunks: seq<Chunk>)
    | List(form: Form, items: seq<Syn>)
    | Table(form: Form, pairs: seq<Pair>)
    | Tagged(width: Width, tag: nat, inner: Syn)
    | SimpleCode(width: Width, code: byte)
    | FloatBits(width: Width, bits: nat)

  datatype Pair = Pair(key: Syn, val: Syn)

  const BREAK: byte := 0xff

  function StringMajor(text: bool): nat {
    if text then 3 else 2
  }

  predicate ChunkFits(c: Chunk) {
    |c.content| < TWO_64 && Fits(|c.content|, c.width)
  }

  predicate FormFits(form: Form, n: nat) {
    form.Definite? ==> Fits(n, form.width)
  }

  /** Every head argument fits the width chosen for it. */
  predicate WellFormed(s: Syn)
    decreases s, 1
  {
    match s
    case Number(_, w, arg) => Fits(arg, w)
    case Str(_, c) => ChunkFits(c)
    case Chunked(_, chunks) => forall i :: 0 <= i < |chunks| ==> ChunkFits(chunks[i])
    case List(form, items) => FormFits(form, |items|) && WellFormedItems(items)
    case Table(form, pairs) => FormFits(form, |pairs|) && WellFormedPairs(pairs)
    case Tagged(w, tag, inner) => Fits(tag, w) && WellFormed(inner)
    case SimpleCode(w, code) => (w == Direct || w == One) && Fits(code, w)
    case FloatBits(w, bits) => (w == Two || w == Four || w == Eight) && Fits(bits, w)
  }

  predicate WellFormedItems(items: seq<Syn>)
    decreases items, 0
  {
    items == [] || (WellFormed(items[0]) && WellFormedItems(items[1..]))
  }

  predicate WellFormedPairs(pairs: seq<Pair>)
    decreases pairs, 0
  {
    pairs == [] || (WellFormedPair(pairs[0]) && WellFormedPairs(pairs[1..]))
  }

  predicate WellFormedPair(p: Pair)
    decreases p, 2
  {
    WellFormed(p.key) && WellFormed(p.val)
  }

  function Opening(major: nat, form: Form, n: nat): Bytes
    requires major < 8 && FormFits(form, n)
  {
    match form
    case Definite(w) => Head(major, n, w)
    case Indefinite => [Initial(major, 31)]
  }

  function Closing(form: Form): Bytes {
    if form.Definite? then [] else [BREAK]
  }

  function SerChunk(text: bool, c: Chunk): Bytes
    requires ChunkFits(c)
  {
    Head(StringMajor(text), |c.content|, c.width) + c.content
  }

  function SerChunks(text: bool, chunks: seq<Chunk>): Bytes
    requires forall i :: 0 <= i < |chunks| ==> ChunkFits(chunks[i])
  {
    if chunks == [] then [] else SerChunk(text, chunks[0]) + SerChunks(text, chunks[1..])
  }

  function Ser(s: Syn): (bytes: Bytes)
    requires WellFormed(s)
    ensures bytes != [] && bytes[0] != BREAK
    decreases s, 1
  {
    match s
    case Number(negative, w, arg) => Head(if negative then 1 else 0, arg, w)
    case Str(text, c) => SerChunk(text, c)
    case Chunked(text, chunks) => [Initial(StringMajor(text), 31)] + SerChunks(text, chunks) + [BREAK]
    case List(form, items) => Opening(4, form, |items|) + SerItems(items) + Closing(form)
    case Table(form, pairs) => Opening(5, form, |pairs|) + SerPairs(pairs) + Closing(form)
    case Tagged(w, tag, inner) => Head(6, tag, w) + Ser(inner)
    case SimpleCode(w, code) => Head(7, code, w)
    case FloatBits(w, bits) => Head(7, bits, w)
  }

  function SerItems(items: seq<Syn>): Bytes
    requires WellFormedItems(items)
    decreases items, 0
  {
    if items == [] then [] else Ser(items[0]) + SerItems(items[1..])
  }

  function SerPairs(pairs: seq<Pair>): Bytes
    requires WellFormedPairs(pairs)
    decreases pairs, 0
  {
    if pairs == [] then [] else SerPair(pairs[0]) + SerPairs(pairs[1..])
  }

  function SerPair(p: Pair): Bytes
    requires WellFormedPair(p)
    decreases p, 2
  {
    Ser(p.key) + Ser(p.val)
  }

  /** One pair more at the end. */
  lemma {:induction false} SerPairsAppend(pairs: seq<Pair>, p: Pair)
    requires WellFormedPairs(pairs) && WellFormedPair(p)
    ensures WellFormedPairs(pairs + [p]) && SerPairs(pairs + [p]) == SerPairs(pairs) + SerPair(p)
    decreases |pairs|
  {
    if pairs == [] {
      assert [] + [p] == [p] && [p][1..] == [];
      assert SerPairs([p]) == SerPair(p) + [];
    } else {
      assert (pairs + [p])[1..] == pairs[1..] + [p];
      SerPairsAppend(pairs[1..], p);
      Associates(SerPair(pairs[0]), SerPairs(pairs[1..]), SerPair(p));
    }
  }

  lemma Associates(a: Bytes, b: Bytes, c: Bytes)
    ensures a + (b + c) == a + b + c
  {
  }

  // ---- what a limit can ask of a serialization --------------------------------------------------

  /** Every item, key, value, tag content and string chunk counts. */
  function Items(s: Syn): (n: nat)
    ensures n >= 1
    decreases s, 1
  {
    match s
    case Chunked(_, chunks) => 1 + |chunks|
    case List(_, items) => 1 + ItemsOf(items)
    case Table(_, pairs) => 1 + ItemsOfPairs(pairs)
    case Tagged(_, _, inner) => 1 + Items(inner)
    case _ => 1
  }

  function ItemsOf(items: seq<Syn>): nat
    decreases items, 0
  {
    if items == [] then 0 else Items(items[0]) + ItemsOf(items[1..])
  }

  function ItemsOfPairs(pairs: seq<Pair>): nat
    decreases pairs, 0
  {
    if pairs == [] then 0 else ItemsOfPair(pairs[0]) + ItemsOfPairs(pairs[1..])
  }

  function ItemsOfPair(p: Pair): nat
    decreases p, 2
  {
    Items(p.key) + Items(p.val)
  }

  /** How deep items nest below this one. */
  function Nesting(s: Syn): nat
    decreases s, 1
  {
    match s
    case Chunked(_, chunks) => if chunks == [] then 0 else 1
    case List(_, items) => NestingOf(items)
    case Table(_, pairs) => NestingOfPairs(pairs)
    case Tagged(_, _, inner) => 1 + Nesting(inner)
    case _ => 0
  }

  function NestingOf(items: seq<Syn>): nat
    decreases items, 0
  {
    if items == [] then 0 else Max(1 + Nesting(items[0]), NestingOf(items[1..]))
  }

  function NestingOfPairs(pairs: seq<Pair>): nat
    decreases pairs, 0
  {
    if pairs == [] then 0 else Max(1 + NestingOfPair(pairs[0]), NestingOfPairs(pairs[1..]))
  }

  function NestingOfPair(p: Pair): nat
    decreases p, 2
  {
    Max(Nesting(p.key), Nesting(p.val))
  }

  predicate AllDefinite(s: Syn)
    decreases s, 1
  {
    match s
    case Chunked(_, _) => false
    case List(form, items) => form.Definite? && AllDefiniteItems(items)
    case Table(form, pairs) => form.Definite? && AllDefinitePairs(pairs)
    case Tagged(_, _, inner) => AllDefinite(inner)
    case _ => true
  }

  predicate AllDefiniteItems(items: seq<Syn>)
    decreases items, 0
  {
    items == [] || (AllDefinite(items[0]) && AllDefiniteItems(items[1..]))
  }

  predicate AllDefinitePairs(pairs: seq<Pair>)
    decreases pairs, 0
  {
    pairs == [] || (AllDefinitePair(pairs[0]) && AllDefinitePairs(pairs[1..]))
  }

  predicate AllDefinitePair(p: Pair)
    decreases p, 2
  {
    AllDefinite(p.key) && AllDefinite(p.val)
  }

  // ---- what a serialization denotes -------------------------------------------------------------

  function Content(chunks: seq<Chunk>): Bytes {
    if chunks == [] then [] else chunks[0].content + Content(chunks[1..])
  }

  function StringValue(text: bool, content: Bytes): Value {
    if text then TextString(content) else ByteString(content)
  }

  /** The value a serialization denotes. Floats keep the width they are written in. */
  function Den(s: Syn): Value
    requires WellFormed(s)
    decreases s, 1
  {
    match s
    case Number(negative, _, arg) => Integer(if negative then -1 - arg else arg)
    case Str(text, c) => StringValue(text, c.content)
    case Chunked(text, chunks) => StringValue(text, Content(chunks))
    case List(_, items) => Array(DenItems(items))
    case Table(_, pairs) => Map(DenPairs(pairs))
    case Tagged(_, tag, inner) => Tag(tag, Den(inner))
    case SimpleCode(_, code) => Simple(code)
    case FloatBits(w, bits) => Float(Head(7, bits, w))
  }

  function DenItems(items: seq<Syn>): (values: seq<Value>)
    requires WellFormedItems(items)
    ensures |values| == |items|
    decreases items, 0
  {
    if items == [] then [] else [Den(items[0])] + DenItems(items[1..])
  }

  function DenPairs(pairs: seq<Pair>): (entries: seq<Entry>)
    requires WellFormedPairs(pairs)
    ensures |entries| == |pairs|
    decreases pairs, 0
  {
    if pairs == [] then [] else [DenPair(pairs[0])] + DenPairs(pairs[1..])
  }

  function DenPair(p: Pair): Entry
    requires WellFormedPair(p)
    decreases p, 2
  {
    Entry(Den(p.key), Den(p.val))
  }

  /** A serialization without string chunks has as many items as its value has nodes. */
  lemma {:induction false} DefiniteItemsAreNodes(s: Syn)
    requires WellFormed(s) && AllDefinite(s)
    ensures Items(s) == Nodes(Den(s))
    decreases s, 1
  {
    match s
    case List(_, items) => DefiniteItemsOfAreNodes(items);
    case Table(_, pairs) => DefinitePairsAreNodes(pairs);
    case Tagged(_, _, inner) => DefiniteItemsAreNodes(inner);
    case _ =>
  }

  lemma {:induction false} DefiniteItemsOfAreNodes(items: seq<Syn>)
    requires WellFormedItems(items) && AllDefiniteItems(items)
    ensures ItemsOf(items) == NodesOfItems(DenItems(items))
    decreases items, 0
  {
    if items != [] {
      DefiniteItemsAreNodes(items[0]);
      DefiniteItemsOfAreNodes(items[1..]);
      assert DenItems(items)[1..] == DenItems(items[1..]);
    }
  }

  lemma {:induction false} DefinitePairsAreNodes(pairs: seq<Pair>)
    requires WellFormedPairs(pairs) && AllDefinitePairs(pairs)
    ensures ItemsOfPairs(pairs) == NodesOfEntries(DenPairs(pairs))
    decreases pairs, 0
  {
    if pairs != [] {
      DefinitePairIsNodes(pairs[0]);
      DefinitePairsAreNodes(pairs[1..]);
      assert DenPairs(pairs)[1..] == DenPairs(pairs[1..]);
    }
  }

  lemma {:induction false} DefinitePairIsNodes(p: Pair)
    requires WellFormedPair(p) && AllDefinitePair(p)
    ensures ItemsOfPair(p) == NodesOfEntry(DenPair(p))
    decreases p, 2
  {
    DefiniteItemsAreNodes(p.key);
    DefiniteItemsAreNodes(p.val);
  }

  /** A value is no deeper than the items it is written as. */
  lemma {:induction false} HeightWithinNesting(s: Syn)
    requires WellFormed(s)
    ensures Height(Den(s)) <= Nesting(s)
    decreases s, 1
  {
    match s
    case List(_, items) => HeightsWithinNesting(items);
    case Table(_, pairs) => PairHeightsWithinNesting(pairs);
    case Tagged(_, _, inner) => HeightWithinNesting(inner);
    case _ =>
  }

  lemma {:induction false} HeightsWithinNesting(items: seq<Syn>)
    requires WellFormedItems(items)
    ensures HeightOfItems(DenItems(items)) <= NestingOf(items)
    decreases items, 0
  {
    if items != [] {
      HeightWithinNesting(items[0]);
      HeightsWithinNesting(items[1..]);
      assert DenItems(items)[1..] == DenItems(items[1..]);
    }
  }

  lemma {:induction false} PairHeightsWithinNesting(pairs: seq<Pair>)
    requires WellFormedPairs(pairs)
    ensures HeightOfEntries(DenPairs(pairs)) <= NestingOfPairs(pairs)
    decreases pairs, 0
  {
    if pairs != [] {
      PairHeightWithinNesting(pairs[0]);
      PairHeightsWithinNesting(pairs[1..]);
      assert DenPairs(pairs)[1..] == DenPairs(pairs[1..]);
    }
  }

  lemma {:induction false} PairHeightWithinNesting(p: Pair)
    requires WellFormedPair(p)
    ensures HeightOfEntry(DenPair(p)) <= NestingOfPair(p)
    decreases p, 2
  {
    HeightWithinNesting(p.key);
    HeightWithinNesting(p.val);
  }
}
