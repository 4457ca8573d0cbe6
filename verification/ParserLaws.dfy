/** The laws of the strict parser: what it accepts, the spans it returns, and that a serialization
    can be read in one way only. */
module ParserLaws {
  import opened Values
  import opened Heads
  import opened Syntax
  import opened StrictParser
  import opened ParserGrammar
  import opened ParserSoundness

  // ---- exactly the grammar ----------------------------------------------------------------------

  /** `data` is one complete item, written as `s` says, within the limits. */
  ghost predicate Writes(s: Syn, data: Bytes, rules: Rules) {
    WellFormed(s) && Ser(s) == data && Admitted(s, 0, 0, rules)
  }

  /** The strict parser accepts exactly the serializations of one item within its limits. */
  lemma AcceptsExactly(data: Bytes, rules: Rules)
    ensures Root(data, rules).Ok? <==> exists s :: Writes(s, data, rules)
  {
    if Root(data, rules).Ok? {
      var s := RootWritten(data, rules);
    }
    if exists s :: Writes(s, data, rules) {
      var s :| Writes(s, data, rules);
      WrittenParses(s, data, rules);
    }
  }

  lemma RootWritten(data: Bytes, rules: Rules) returns (s: Syn)
    requires Root(data, rules).Ok?
    ensures Writes(s, data, rules) && Root(data, rules).value == ItemOf(s, 0)
  {
    s := ParsedStands(data, Cursor(0, 0), 0, rules);
    AtIsSlice(data, 0, Ser(s));
    assert data[0..|data|] == data;
  }

  /** Parsing the serialization of any tree, whatever its head widths and its definite or indefinite
      choices, gives the tree's own item. */
  lemma WrittenParses(s: Syn, data: Bytes, rules: Rules)
    requires Writes(s, data, rules)
    ensures Root(data, rules) == Ok(ItemOf(s, 0))
  {
    WrittenParsesAt(s, data, rules);
  }

  lemma WrittenParsesAt(s: Syn, data: Bytes, rules: Rules)
    requires Writes(s, data, rules)
    ensures Accepts(Parse(data, Cursor(0, 0), 0, rules), s, Cursor(0, 0))
  {
    AtIsSlice(data, 0, Ser(s));
    assert data[0..|data|] == data;
    AdmittedParses(s, data, Cursor(0, 0), 0, rules);
  }

  // ---- spans ------------------------------------------------------------------------------------

  /** Spans follow one another without gap from `from` to `to`. */
  predicate Chain(children: seq<Item>, from: nat, to: nat) {
    if children == [] then from == to
    else children[0].start == from && from < children[0].end && Chain(children[1..], children[0].end, to)
  }

  predicate Retains(item: Item) {
    item.kind == ArrayKind || item.kind.TagKind? || ((item.kind == BytesKind || item.kind == TextKind) && item.indefinite)
  }

  /** The children of an item tile it from its head to its end, or to its break, and so in turn do
      theirs; items whose content is not kept have no children. */
  predicate Tiles(item: Item) {
    && item.start < item.contentStart <= item.end
    && (if Retains(item) then Chain(item.children, item.contentStart, item.end - if item.indefinite then 1 else 0)
        else item.children == [])
    && forall i :: 0 <= i < |item.children| ==> Tiles(item.children[i])
  }

  lemma {:induction false} ItemTiles(s: Syn, at: nat)
    requires WellFormed(s)
    ensures Tiles(ItemOf(s, at))
    decreases s, 1
  {
    match s {
      case Chunked(text, chunks) => ChunksTile(text, chunks, at + 1);
      case List(form, items) => ListTiles(form, items, at);
      case Tagged(w, tag, inner) => TaggedTiles(w, tag, inner, at);
      case _ =>
    }
  }

  lemma {:induction false} ListTiles(form: Form, items: seq<Syn>, at: nat)
    requires WellFormed(List(form, items))
    ensures Tiles(ItemOf(List(form, items), at))
    decreases items, 1
  {
    ItemsTile(items, at + FormLength(form));
    assert |Ser(List(form, items))| == FormLength(form) + |SerItems(items)| + |Closing(form)|;
  }

  lemma {:induction false} TaggedTiles(w: Width, tag: nat, inner: Syn, at: nat)
    requires WellFormed(Tagged(w, tag, inner))
    ensures Tiles(ItemOf(Tagged(w, tag, inner), at))
    decreases inner, 2
  {
    var s := Tagged(w, tag, inner);
    var child := ItemOf(inner, at + HeadLength(s));
    ItemTiles(inner, at + HeadLength(s));
    assert Children(s, at + HeadLength(s)) == [child];
    OneChild(ItemOf(s, at), child);
  }

  lemma OneChild(item: Item, child: Item)
    requires item.kind.TagKind? && !item.indefinite && item.children == [child] && Tiles(child)
    requires item.start < item.contentStart == child.start && child.end == item.end
    ensures Tiles(item)
  {
    assert [child][1..] == [];
  }

  lemma {:induction false} ChunksTile(text: bool, chunks: seq<Chunk>, at: nat)
    requires forall i :: 0 <= i < |chunks| ==> ChunkFits(chunks[i])
    ensures Chain(ChunkItems(text, chunks, at), at, at + |SerChunks(text, chunks)|)
    ensures forall i :: 0 <= i < |ChunkItems(text, chunks, at)| ==> Tiles(ChunkItems(text, chunks, at)[i])
    decreases |chunks|
  {
    if chunks != [] {
      ChunksTile(text, chunks[1..], at + |SerChunk(text, chunks[0])|);
    }
  }

  lemma {:induction false} ItemsTile(items: seq<Syn>, at: nat)
    requires WellFormedItems(items)
    ensures Chain(ItemsAt(items, at), at, at + |SerItems(items)|)
    ensures forall i :: 0 <= i < |items| ==> Tiles(ItemsAt(items, at)[i])
    decreases items, 0
  {
    if items != [] {
      ItemTiles(items[0], at);
      ItemsTile(items[1..], at + |Ser(items[0])|);
    }
  }

  /** The spans of a parsed item are nested, ordered and without gap, and end where the data ends. */
  lemma RootTiles(data: Bytes, rules: Rules)
    requires Root(data, rules).Ok?
    ensures Tiles(Root(data, rules).value)
    ensures Root(data, rules).value.start == 0 && Root(data, rules).value.end == |data|
  {
    var s := RootWritten(data, rules);
    ItemTiles(s, 0);
  }

  function Slices(data: Bytes, children: seq<Item>): Bytes
    requires forall i :: 0 <= i < |children| ==> children[i].start <= children[i].end <= |data|
  {
    if children == [] then [] else data[children[0].start..children[0].end] + Slices(data, children[1..])
  }

  /** Chained spans cut `data` into pieces that put it together again. */
  lemma {:induction false} ChainRebuilds(data: Bytes, children: seq<Item>, from: nat, to: nat)
    requires Chain(children, from, to) && to <= |data|
    ensures from <= to
    ensures forall i :: 0 <= i < |children| ==> from <= children[i].start <= children[i].end <= to
    ensures Slices(data, children) == data[from..to]
  {
    if children != [] {
      ChainRebuilds(data, children[1..], children[0].end, to);
      assert data[from..to] == data[from..children[0].end] + data[children[0].end..to];
      forall i | 0 <= i < |children| ensures from <= children[i].start <= children[i].end <= to {
        assert i == 0 || children[i] == children[1..][i - 1];
      }
    }
  }

  /** The exact member encodings handed out for an array are its content, piece by piece. */
  lemma MembersRebuild(data: Bytes, rules: Rules)
    requires Root(data, rules).Ok? && Root(data, rules).value.kind == ArrayKind
    ensures var item := Root(data, rules).value;
            && (forall i :: 0 <= i < |item.children| ==> item.children[i].start <= item.children[i].end <= |data|)
            && data == data[..item.contentStart] + Slices(data, item.children) + (if item.indefinite then [BREAK] else [])
  {
    hide Root, Chain, Slices, At;
    var item := Root(data, rules).value;
    RootTiles(data, rules);
    var s := RootWritten(data, rules);
    var to := item.end - if item.indefinite then 1 else 0;
    ChainRebuilds(data, item.children, item.contentStart, to);
    assert item.indefinite ==> data[|data| - 1] == BREAK;
    assert data == data[..item.contentStart] + data[item.contentStart..to] + data[to..];
    assert data[to..] == if item.indefinite then [BREAK] else [];
  }

  // ---- one reading only -------------------------------------------------------------------------

  /** Rules that admit both serializations. */
  function Lenient(s: Syn, t: Syn): Rules {
    Rules(CborLimits(Nesting(s) + Nesting(t), Items(s) + Items(t), false), false, (b: Bytes) => Err(Cbor))
  }

  /** No serialization is the beginning of another one. */
  lemma PrefixFree(s: Syn, t: Syn, data: Bytes)
    requires WellFormed(s) && WellFormed(t) && At(data, 0, Ser(s)) && At(data, 0, Ser(t))
    ensures Ser(s) == Ser(t) && Items(s) == Items(t)
  {
    AdmittedParses(s, data, Cursor(0, 0), 0, Lenient(s, t));
    AdmittedParses(t, data, Cursor(0, 0), 0, Lenient(s, t));
    AtIsSlice(data, 0, Ser(s));
    AtIsSlice(data, 0, Ser(t));
  }
}
