/** The strict parser accepts exactly the serializations of `Syntax` that stay within its limits, and the
    item it returns is the serialization's own shape, span by span. These are the well-formed items of
    RFC 8949 and, besides, those with a simple value below 32 in two bytes (`WellFormedness`). */
module ParserGrammar {
  import opened Values
  import opened Heads
  import opened Syntax
  import opened StrictParser

  // ---- the item a serialization has -------------------------------------------------------------

  function KindOf(s: Syn): Kind {
    match s
    case Number(negative, _, _) => if negative then NegativeKind else UnsignedKind
    case Str(text, _) => if text then TextKind else BytesKind
    case Chunked(text, _) => if text then TextKind else BytesKind
    case List(_, _) => ArrayKind
    case Table(_, _) => MapKind
    case Tagged(_, tag, _) => TagKind(tag)
    case SimpleCode(_, code) => SimpleKind(code)
    case FloatBits(_, _) => FloatKind
  }

  predicate IndefiniteSyn(s: Syn) {
    match s
    case Chunked(_, _) => true
    case List(form, _) => form.Indefinite?
    case Table(form, _) => form.Indefinite?
    case _ => false
  }

  function FormLength(form: Form): nat {
    if form.Definite? then 1 + Extra(form.width) else 1
  }

  function HeadLength(s: Syn): nat {
    match s
    case Number(_, w, _) => 1 + Extra(w)
    case Str(_, c) => 1 + Extra(c.width)
    case Chunked(_, _) => 1
    case List(form, _) => FormLength(form)
    case Table(form, _) => FormLength(form)
    case Tagged(w, _, _) => 1 + Extra(w)
    case SimpleCode(w, _) => 1 + Extra(w)
    case FloatBits(w, _) => 1 + Extra(w)
  }

  function ItemOf(s: Syn, at: nat): Item
    requires WellFormed(s)
    decreases s, 2
  {
    Item(KindOf(s), at, at + HeadLength(s), at + |Ser(s)|, IndefiniteSyn(s), Children(s, at + HeadLength(s)))
  }

  function Children(s: Syn, at: nat): seq<Item>
    requires WellFormed(s)
    decreases s, 1
  {
    match s
    case Chunked(text, chunks) => ChunkItems(text, chunks, at)
    case List(_, items) => ItemsAt(items, at)
    case Tagged(_, _, inner) => [ItemOf(inner, at)]
    case _ => []
  }

  function ItemsAt(items: seq<Syn>, at: nat): (r: seq<Item>)
    requires WellFormedItems(items)
    ensures |r| == |items|
    decreases items, 0
  {
    if items == [] then [] else [ItemOf(items[0], at)] + ItemsAt(items[1..], at + |Ser(items[0])|)
  }

  function ChunkItem(text: bool, c: Chunk, at: nat): Item
    requires ChunkFits(c)
  {
    Item(if text then TextKind else BytesKind, at, at + 1 + Extra(c.width), at + |SerChunk(text, c)|, false, [])
  }

  function ChunkItems(text: bool, chunks: seq<Chunk>, at: nat): seq<Item>
    requires forall i :: 0 <= i < |chunks| ==> ChunkFits(chunks[i])
  {
    if chunks == [] then [] else [ChunkItem(text, chunks[0], at)] + ChunkItems(text, chunks[1..], at + |SerChunk(text, chunks[0])|)
  }

  // ---- the limits -------------------------------------------------------------------------------

  lemma FitsBelow(arg: nat, w: Width)
    requires Fits(arg, w)
    ensures arg < TWO_64
  {
    Pow256Values();
  }

  /** Integers and definite-length strings whose head is in preferred form. */
  predicate InPlaceKey(s: Syn)
    requires WellFormed(s)
  {
    match s
    case Number(_, w, arg) => FitsBelow(arg, w); w == Preferred(arg)
    case Str(_, c) => c.width == Preferred(|c.content|)
    case _ => false
  }

  /** The bytes a key is compared by. */
  function KeyCode(s: Syn, reencode: Bytes -> Result<Bytes>): Result<Bytes>
    requires WellFormed(s)
  {
    if InPlaceKey(s) then Ok(Ser(s)) else reencode(Ser(s))
  }

  /** Every map in `s` has keys that can be compared and are told apart. */
  ghost predicate DistinctKeys(s: Syn, reencode: Bytes -> Result<Bytes>)
    requires WellFormed(s)
    decreases s, 1
  {
    match s
    case List(_, items) => DistinctKeysIn(items, reencode)
    case Table(_, pairs) => DistinctPairs(pairs, {}, reencode)
    case Tagged(_, _, inner) => DistinctKeys(inner, reencode)
    case _ => true
  }

  ghost predicate DistinctKeysIn(items: seq<Syn>, reencode: Bytes -> Result<Bytes>)
    requires WellFormedItems(items)
    decreases items, 0
  {
    items == [] || (DistinctKeys(items[0], reencode) && DistinctKeysIn(items[1..], reencode))
  }

  ghost predicate DistinctPairs(pairs: seq<Pair>, keys: set<Bytes>, reencode: Bytes -> Result<Bytes>)
    requires WellFormedPairs(pairs)
    decreases pairs, 0
  {
    pairs == [] ||
    (&& DistinctPair(pairs[0], reencode)
     && KeyCode(pairs[0].key, reencode).Ok?
     && KeyCode(pairs[0].key, reencode).value !in keys
     && DistinctPairs(pairs[1..], keys + {KeyCode(pairs[0].key, reencode).value}, reencode))
  }

  ghost predicate DistinctPair(p: Pair, reencode: Bytes -> Result<Bytes>)
    requires WellFormedPair(p)
    decreases p, 2
  {
    DistinctKeys(p.key, reencode) && DistinctKeys(p.val, reencode)
  }

  /** The serialization respects the parser's limits when it stands at `depth` after `count` items. */
  ghost predicate Admitted(s: Syn, count: nat, depth: nat, rules: Rules)
    requires WellFormed(s)
  {
    && depth + Nesting(s) <= rules.limits.maxDepth
    && count + Items(s) <= rules.limits.maxItems
    && (rules.limits.requireDefinite ==> AllDefinite(s))
    && (rules.rejectDuplicates ==> DistinctKeys(s, rules.reencode))
  }

  // ---- positions --------------------------------------------------------------------------------

  lemma {:induction false} AtSplit(data: Bytes, pos: nat, a: Bytes, b: Bytes)
    ensures At(data, pos, a + b) <==> At(data, pos, a) && At(data, pos + |a|, b)
  {
    AtIsSlice(data, pos, a + b);
    AtIsSlice(data, pos, a);
    AtIsSlice(data, pos + |a|, b);
    if At(data, pos, a + b) {
      assert data[pos..pos + |a|] == (a + b)[..|a|];
      assert data[pos + |a|..pos + |a| + |b|] == (a + b)[|a|..];
    }
    if At(data, pos, a) && At(data, pos + |a|, b) {
      assert data[pos..pos + |a + b|] == data[pos..pos + |a|] + data[pos + |a|..pos + |a| + |b|];
    }
  }

  lemma NotBreak(data: Bytes, pos: nat, s: Syn)
    requires WellFormed(s) && At(data, pos, Ser(s))
    ensures pos < |data| && !AtBreak(data, pos)
  {
    assert data[pos] == Ser(s)[0];
  }

  lemma IsBreak(data: Bytes, pos: nat)
    requires At(data, pos, [BREAK])
    ensures AtBreak(data, pos)
  {
    assert data[pos] == [BREAK][0];
  }

  lemma StartsDefinite(data: Bytes, pos: nat, major: nat, arg: nat, w: Width, limits: CborLimits)
    requires major < 8 && Fits(arg, w) && At(data, pos, Head(major, arg, w))
    requires major != 7 || w != Direct || arg < 24
    ensures ReadStart(data, pos, limits) == Ok(Start(major, Additional(w, arg), Some(arg), pos + 1 + Extra(w)))
  {
    HeadReads(data, pos, major, arg, w);
  }

  lemma StartsIndefinite(data: Bytes, pos: nat, major: nat, limits: CborLimits)
    requires 2 <= major <= 5 && At(data, pos, [Initial(major, 31)]) && !limits.requireDefinite
    ensures ReadStart(data, pos, limits) == Ok(Start(major, 31, None, pos + 1))
  {
    assert data[pos] == [Initial(major, 31)][0];
  }

  // ---- one step of each loop --------------------------------------------------------------------

  /** One more item in front of what the loop returns for the rest. */
  ghost predicate Prepends(r: Result<(seq<Item>, Cursor)>, item: Item, rest: Result<(seq<Item>, Cursor)>) {
    rest.Ok? ==> r.Ok? && r.value.0 == [item] + rest.value.0 && r.value.1 == rest.value.1
  }

  lemma ItemsStep(data: Bytes, c: Cursor, depth: nat, rules: Rules, left: Option<nat>)
    requires c.pos <= |data| && left != Some(0) && !(left.None? && AtBreak(data, c.pos))
    requires Parse(data, c, depth + 1, rules).Ok?
    ensures var (item, next) := Parse(data, c, depth + 1, rules).value;
            Prepends(ParseItems(data, c, depth, rules, left), item, ParseItems(data, next, depth, rules, OneFewer(left)))
  {
  }

  lemma ChunksStep(data: Bytes, c: Cursor, depth: nat, rules: Rules, kind: Kind)
    requires c.pos <= |data| && !AtBreak(data, c.pos)
    requires Parse(data, c, depth + 1, rules).Ok?
    requires Parse(data, c, depth + 1, rules).value.0.kind == kind && !Parse(data, c, depth + 1, rules).value.0.indefinite
    ensures var (item, next) := Parse(data, c, depth + 1, rules).value;
            Prepends(ParseChunks(data, c, depth, rules, kind), item, ParseChunks(data, next, depth, rules, kind))
  {
  }

  lemma PairsStep(data: Bytes, c: Cursor, depth: nat, rules: Rules, left: Option<nat>, keys: set<Bytes>,
                  key: Item, next: Cursor, keys1: set<Bytes>)
    requires c.pos <= |data| && left != Some(0) && !(left.None? && AtBreak(data, c.pos))
    requires Parse(data, c, depth + 1, rules) == Ok((key, next)) && AddKey(data, key, rules, keys) == Ok(keys1)
    requires !(left.None? && AtBreak(data, next.pos)) && Parse(data, next, depth + 1, rules).Ok?
    ensures ParsePairs(data, c, depth, rules, left, keys)
         == ParsePairs(data, Parse(data, next, depth + 1, rules).value.1, depth, rules, OneFewer(left), keys1)
  {
  }

  // ---- everything admitted is accepted ----------------------------------------------------------

  ghost predicate Yields(r: Result<(seq<Item>, Cursor)>, items: seq<Item>, pos: nat, count: nat) {
    r.Ok? && r.value.0 == items && r.value.1.pos == pos && r.value.1.items == count
  }

  /** The parse result `s` calls for when it starts at `c`. */
  ghost predicate Accepts(r: Result<(Item, Cursor)>, s: Syn, c: Cursor)
    requires WellFormed(s)
  {
    r.Ok? && r.value.0 == ItemOf(s, c.pos) && r.value.1.pos == c.pos + |Ser(s)| && r.value.1.items == c.items + Items(s)
  }

  /** The same for what follows the head. */
  ghost predicate Contains(r: Result<(Kind, seq<Item>, Cursor)>, s: Syn, c: Cursor)
    requires WellFormed(s)
  {
    && r.Ok? && r.value.0 == KindOf(s) && r.value.1 == Children(s, c.pos + HeadLength(s))
    && r.value.2.pos == c.pos + |Ser(s)| && r.value.2.items == c.items + Items(s)
  }

  function Behind(s: Syn, c: Cursor): Cursor {
    Cursor(c.pos + HeadLength(s), c.items + 1)
  }

  lemma ParseStep(data: Bytes, c: Cursor, depth: nat, rules: Rules, start: Start, counted: Cursor)
    requires c.pos <= |data| && depth <= rules.limits.maxDepth && c.items + 1 <= rules.limits.maxItems
    requires ReadStart(data, c.pos, rules.limits) == Ok(start) && counted == Cursor(start.pos, c.items + 1)
    requires ParseContent(data, start, counted, depth, rules).Ok?
    ensures var (kind, children, end) := ParseContent(data, start, counted, depth, rules).value;
            var r := Parse(data, c, depth, rules);
            && r.Ok? && r.value.1 == end
            && r.value.0 == Item(kind, c.pos, start.pos, end.pos, start.argument.None?, children)
  {
    assert CountItem(c, rules.limits).value.(pos := start.pos) == counted;
  }

  lemma Concludes(s: Syn, data: Bytes, c: Cursor, depth: nat, rules: Rules, start: Start)
    requires WellFormed(s) && c.pos <= |data|
    requires depth <= rules.limits.maxDepth && c.items + 1 <= rules.limits.maxItems
    requires ReadStart(data, c.pos, rules.limits) == Ok(start)
    requires start.pos == c.pos + HeadLength(s) && (start.argument.None? <==> IndefiniteSyn(s))
    requires Contains(ParseContent(data, start, Behind(s, c), depth, rules), s, c)
    ensures Accepts(Parse(data, c, depth, rules), s, c)
  {
    hide Ser, WellFormed, ParseContent, ReadStart, ItemOf, Items, HeadLength;
    ParseStep(data, c, depth, rules, start, Behind(s, c));
    ItemIs(s, c.pos, Parse(data, c, depth, rules).value.0);
  }

  lemma ItemIs(s: Syn, at: nat, item: Item)
    requires WellFormed(s)
    requires item.kind == KindOf(s) && item.start == at && item.contentStart == at + HeadLength(s) && item.end == at + |Ser(s)|
    requires (item.indefinite <==> IndefiniteSyn(s)) && item.children == Children(s, at + HeadLength(s))
    ensures item == ItemOf(s, at)
  {
  }

  /** A serialization within the limits parses, wherever it stands, to its own item. */
  lemma {:induction false} AdmittedParses(s: Syn, data: Bytes, c: Cursor, depth: nat, rules: Rules)
    requires WellFormed(s) && At(data, c.pos, Ser(s)) && Admitted(s, c.items, depth, rules)
    ensures Accepts(Parse(data, c, depth, rules), s, c)
    decreases s, 3
  {
    var start := SynStarts(s, data, c.pos, rules.limits);
    match s {
      case Chunked(text, chunks) => ChunkedParses(text, chunks, data, c, depth, rules, start);
      case List(form, items) => ListParses(form, items, data, c, depth, rules, start);
      case Table(form, pairs) => TableParses(form, pairs, data, c, depth, rules, start);
      case Tagged(w, tag, inner) => TaggedParses(w, tag, inner, data, c, depth, rules, start);
      case _ => LeafParses(s, data, c, depth, rules, start);
    }
    Concludes(s, data, c, depth, rules, start);
  }

  predicate IsLeaf(s: Syn) {
    s.Number? || s.Str? || s.SimpleCode? || s.FloatBits?
  }

  /** The start a serialization reads as. */
  ghost predicate StartsAs(start: Start, s: Syn, pos: nat)
    requires WellFormed(s)
  {
    && start.pos == pos + HeadLength(s) && start.major < 8 && (start.argument.None? <==> IndefiniteSyn(s))
    && match s
       case Number(negative, _, arg) => start.major == if negative then 1 else 0
       case Str(text, c) => start.major == StringMajor(text) && start.argument == Some(|c.content|)
       case Chunked(text, _) => start.major == StringMajor(text)
       case List(form, items) => start.major == 4 && start.argument == Announced(form, |items|)
       case Table(form, pairs) => start.major == 5 && start.argument == Announced(form, |pairs|)
       case Tagged(_, tag, _) => start.major == 6 && start.argument == Some(tag)
       case SimpleCode(w, code) => start.major == 7 && start.argument == Some(code) && start.additional <= 24
       case FloatBits(w, _) => start.major == 7 && start.argument.Some? && start.additional > 24
  }

  lemma {:induction false} SynStarts(s: Syn, data: Bytes, pos: nat, limits: CborLimits) returns (start: Start)
    requires WellFormed(s) && At(data, pos, Ser(s)) && (limits.requireDefinite ==> AllDefinite(s))
    ensures ReadStart(data, pos, limits) == Ok(start) && StartsAs(start, s, pos)
  {
    match s {
      case Number(negative, w, arg) => StartsDefinite(data, pos, if negative then 1 else 0, arg, w, limits);
      case Str(text, c) =>
        AtSplit(data, pos, Head(StringMajor(text), |c.content|, c.width), c.content);
        StartsDefinite(data, pos, StringMajor(text), |c.content|, c.width, limits);
      case Chunked(text, chunks) =>
        var opening := [Initial(StringMajor(text), 31)];
        AtSplit(data, pos, opening + SerChunks(text, chunks), [BREAK]);
        AtSplit(data, pos, opening, SerChunks(text, chunks));
        StartsIndefinite(data, pos, StringMajor(text), limits);
      case List(form, items) => OpeningStarts(data, pos, 4, form, |items|, SerItems(items), limits);
      case Table(form, pairs) => OpeningStarts(data, pos, 5, form, |pairs|, SerPairs(pairs), limits);
      case Tagged(w, tag, inner) =>
        AtSplit(data, pos, Head(6, tag, w), Ser(inner));
        StartsDefinite(data, pos, 6, tag, w, limits);
      case SimpleCode(w, code) => StartsDefinite(data, pos, 7, code, w, limits);
      case FloatBits(w, bits) => StartsDefinite(data, pos, 7, bits, w, limits);
    }
    start := ReadStart(data, pos, limits).value;
  }

  lemma {:induction false} LeafParses(s: Syn, data: Bytes, c: Cursor, depth: nat, rules: Rules, start: Start)
    requires WellFormed(s) && IsLeaf(s) && At(data, c.pos, Ser(s)) && StartsAs(start, s, c.pos)
    ensures Contains(ParseContent(data, start, Behind(s, c), depth, rules), s, c)
  {
    if s.Str? {
      AtSplit(data, c.pos, Head(StringMajor(s.text), |s.chunk.content|, s.chunk.width), s.chunk.content);
    }
  }

  lemma {:induction false} TaggedParses(w: Width, tag: nat, inner: Syn, data: Bytes, c: Cursor, depth: nat, rules: Rules, start: Start)
    requires var s := Tagged(w, tag, inner);
             WellFormed(s) && At(data, c.pos, Ser(s)) && Admitted(s, c.items, depth, rules) && StartsAs(start, s, c.pos)
    ensures Contains(ParseContent(data, start, Behind(Tagged(w, tag, inner), c), depth, rules), Tagged(w, tag, inner), c)
    decreases inner, 4
  {
    AtSplit(data, c.pos, Head(6, tag, w), Ser(inner));
    AdmittedParses(inner, data, Behind(Tagged(w, tag, inner), c), depth + 1, rules);
  }

  lemma {:induction false} ChunkParses(text: bool, chunk: Chunk, data: Bytes, c: Cursor, depth: nat, rules: Rules)
    requires ChunkFits(chunk) && At(data, c.pos, SerChunk(text, chunk))
    requires depth <= rules.limits.maxDepth && c.items + 1 <= rules.limits.maxItems
    ensures var r := Parse(data, c, depth, rules);
            && r.Ok? && r.value.0 == ChunkItem(text, chunk, c.pos)
            && r.value.1.pos == c.pos + |SerChunk(text, chunk)| && r.value.1.items == c.items + 1
  {
    AtSplit(data, c.pos, Head(StringMajor(text), |chunk.content|, chunk.width), chunk.content);
    StartsDefinite(data, c.pos, StringMajor(text), |chunk.content|, chunk.width, rules.limits);
  }

  lemma {:induction false} ChunkedParses(text: bool, chunks: seq<Chunk>, data: Bytes, c: Cursor, depth: nat, rules: Rules, start: Start)
    requires var s := Chunked(text, chunks);
             WellFormed(s) && At(data, c.pos, Ser(s)) && Admitted(s, c.items, depth, rules) && StartsAs(start, s, c.pos)
    ensures Contains(ParseContent(data, start, Behind(Chunked(text, chunks), c), depth, rules), Chunked(text, chunks), c)
  {
    hide At, ParseChunks, ChunkItems;
    var opening := [Initial(StringMajor(text), 31)];
    AtSplit(data, c.pos, opening + SerChunks(text, chunks), [BREAK]);
    AtSplit(data, c.pos, opening, SerChunks(text, chunks));
    var c1 := Behind(Chunked(text, chunks), c);
    ChunksParse(text, chunks, data, c1, depth, rules);
  }

  lemma ChunksUnfold(text: bool, chunks: seq<Chunk>, at: nat)
    requires chunks != [] && forall i :: 0 <= i < |chunks| ==> ChunkFits(chunks[i])
    ensures ChunkItems(text, chunks, at) == [ChunkItem(text, chunks[0], at)] + ChunkItems(text, chunks[1..], at + |SerChunk(text, chunks[0])|)
    ensures |SerChunks(text, chunks)| == |SerChunk(text, chunks[0])| + |SerChunks(text, chunks[1..])|
  {
  }

  lemma {:induction false} ChunksParse(text: bool, chunks: seq<Chunk>, data: Bytes, c: Cursor, depth: nat, rules: Rules)
    requires forall i :: 0 <= i < |chunks| ==> ChunkFits(chunks[i])
    requires At(data, c.pos, SerChunks(text, chunks)) && At(data, c.pos + |SerChunks(text, chunks)|, [BREAK])
    requires chunks != [] ==> depth + 1 <= rules.limits.maxDepth
    requires c.items + |chunks| <= rules.limits.maxItems
    ensures Yields(ParseChunks(data, c, depth, rules, if text then TextKind else BytesKind), ChunkItems(text, chunks, c.pos),
                   c.pos + |SerChunks(text, chunks)| + 1, c.items + |chunks|)
    decreases |chunks|
  {
    hide *;
    if chunks == [] {
      NoChunks(text, data, c, depth, rules);
    } else {
      FirstChunkParses(text, chunks, data, c, depth, rules);
      var r := Parse(data, c, depth + 1, rules);
      ChunkBehind(r, text, chunks[0], c);
      ChunksUnfold(text, chunks, c.pos);
      ChunksParse(text, chunks[1..], data, r.value.1, depth, rules);
      ChunksJoin(text, chunks, data, c, depth, rules);
    }
  }

  lemma FirstChunkParses(text: bool, chunks: seq<Chunk>, data: Bytes, c: Cursor, depth: nat, rules: Rules)
    requires chunks != [] && forall i :: 0 <= i < |chunks| ==> ChunkFits(chunks[i])
    requires At(data, c.pos, SerChunks(text, chunks)) && depth + 1 <= rules.limits.maxDepth && c.items + 1 <= rules.limits.maxItems
    ensures c.pos <= |data| && !AtBreak(data, c.pos) && ChunkAccepted(Parse(data, c, depth + 1, rules), text, chunks[0], c)
    ensures At(data, c.pos + |SerChunk(text, chunks[0])|, SerChunks(text, chunks[1..]))
  {
    AtSplit(data, c.pos, SerChunk(text, chunks[0]), SerChunks(text, chunks[1..]));
    NotBreak(data, c.pos, Str(text, chunks[0]));
    ChunkParses(text, chunks[0], data, c, depth + 1, rules);
  }

  ghost predicate ChunkAccepted(r: Result<(Item, Cursor)>, text: bool, chunk: Chunk, c: Cursor)
    requires ChunkFits(chunk)
  {
    && r.Ok? && r.value.0 == ChunkItem(text, chunk, c.pos)
    && r.value.1.pos == c.pos + |SerChunk(text, chunk)| && r.value.1.items == c.items + 1
  }

  lemma NoChunks(text: bool, data: Bytes, c: Cursor, depth: nat, rules: Rules)
    requires At(data, c.pos + |SerChunks(text, [])|, [BREAK])
    ensures Yields(ParseChunks(data, c, depth, rules, if text then TextKind else BytesKind), ChunkItems(text, [], c.pos),
                   c.pos + |SerChunks(text, [])| + 1, c.items)
  {
    hide At, Parse;
    IsBreak(data, c.pos);
  }

  lemma ChunkBehind(r: Result<(Item, Cursor)>, text: bool, chunk: Chunk, c: Cursor)
    requires ChunkFits(chunk) && ChunkAccepted(r, text, chunk, c)
    ensures r.Ok? && r.value.1.pos == c.pos + |SerChunk(text, chunk)| && r.value.1.items == c.items + 1
  {
  }

  lemma ChunksJoin(text: bool, chunks: seq<Chunk>, data: Bytes, c: Cursor, depth: nat, rules: Rules)
    requires chunks != [] && forall i :: 0 <= i < |chunks| ==> ChunkFits(chunks[i])
    requires c.pos <= |data| && !AtBreak(data, c.pos) && ChunkAccepted(Parse(data, c, depth + 1, rules), text, chunks[0], c)
    requires var c1 := Parse(data, c, depth + 1, rules).value.1;
             Yields(ParseChunks(data, c1, depth, rules, if text then TextKind else BytesKind), ChunkItems(text, chunks[1..], c1.pos),
                    c1.pos + |SerChunks(text, chunks[1..])| + 1, c1.items + |chunks[1..]|)
    ensures Yields(ParseChunks(data, c, depth, rules, if text then TextKind else BytesKind), ChunkItems(text, chunks, c.pos),
                   c.pos + |SerChunks(text, chunks)| + 1, c.items + |chunks|)
  {
    hide At, Ser, ParseChunks, Parse, SerChunk;
    var (item, c1) := Parse(data, c, depth + 1, rules).value;
    var kind := if text then TextKind else BytesKind;
    ChunksStep(data, c, depth, rules, kind);
    ChunksUnfold(text, chunks, c.pos);
    Joined(ParseChunks(data, c, depth, rules, kind), ParseChunks(data, c1, depth, rules, kind), item, ChunkItems(text, chunks[1..], c1.pos),
           ChunkItems(text, chunks, c.pos), c.pos + |SerChunks(text, chunks)| + 1, c.items + |chunks|);
  }

  lemma {:induction false} ListParses(form: Form, items: seq<Syn>, data: Bytes, c: Cursor, depth: nat, rules: Rules, start: Start)
    requires var s := List(form, items);
             WellFormed(s) && At(data, c.pos, Ser(s)) && Admitted(s, c.items, depth, rules) && StartsAs(start, s, c.pos)
    ensures Contains(ParseContent(data, start, Behind(List(form, items), c), depth, rules), List(form, items), c)
    decreases items, 2
  {
    hide At, Admitted, ParseItems, Opening, Closing, SerItems;
    ListOpens(form, items, data, c, depth, rules);
    ListStands(form, items, data, c, depth, rules);
    ItemsParse(form, items, data, Behind(List(form, items), c), depth, rules);
  }

  lemma {:induction false} ListOpens(form: Form, items: seq<Syn>, data: Bytes, c: Cursor, depth: nat, rules: Rules)
    requires var s := List(form, items);
             WellFormed(s) && At(data, c.pos, Ser(s)) && Admitted(s, c.items, depth, rules)
    ensures At(data, c.pos + FormLength(form), SerItems(items)) && At(data, c.pos + FormLength(form) + |SerItems(items)|, Closing(form))
    ensures |Ser(List(form, items))| == FormLength(form) + |SerItems(items)| + |Closing(form)|
  {
    hide At, Opening, Closing, SerItems;
    OpeningStarts(data, c.pos, 4, form, |items|, SerItems(items), rules.limits);
    OpeningLength(4, form, |items|);
  }

  lemma {:induction false} ListStands(form: Form, items: seq<Syn>, data: Bytes, c: Cursor, depth: nat, rules: Rules)
    requires var s := List(form, items);
             WellFormed(s) && Admitted(s, c.items, depth, rules)
    requires At(data, c.pos + FormLength(form), SerItems(items)) && At(data, c.pos + FormLength(form) + |SerItems(items)|, Closing(form))
    ensures ItemsStand(form, items, data, Behind(List(form, items), c), depth, rules)
  {
    hide At, Closing, SerItems, Ser;
  }

  function Announced(form: Form, n: nat): Option<nat> {
    if form.Definite? then Some(n) else None
  }

  lemma {:induction false} OpeningStarts(data: Bytes, pos: nat, major: nat, form: Form, n: nat, body: Bytes, limits: CborLimits)
    requires 4 <= major <= 5 && FormFits(form, n) && At(data, pos, Opening(major, form, n) + body + Closing(form))
    requires limits.requireDefinite ==> form.Definite?
    ensures ReadStart(data, pos, limits).Ok?
    ensures var start := ReadStart(data, pos, limits).value;
            start.major == major && start.argument == Announced(form, n) && start.pos == pos + FormLength(form)
    ensures At(data, pos + FormLength(form), body) && At(data, pos + FormLength(form) + |body|, Closing(form))
  {
    AtSplit(data, pos, Opening(major, form, n) + body, Closing(form));
    AtSplit(data, pos, Opening(major, form, n), body);
    if form.Definite? {
      StartsDefinite(data, pos, major, n, form.width, limits);
    } else {
      StartsIndefinite(data, pos, major, limits);
    }
  }

  /** The item in front of the others, all joined. */
  lemma Joined(r: Result<(seq<Item>, Cursor)>, rest: Result<(seq<Item>, Cursor)>, item: Item, more: seq<Item>, whole: seq<Item>, pos: nat, count: nat)
    requires Prepends(r, item, rest) && Yields(rest, more, pos, count) && whole == [item] + more
    ensures Yields(r, whole, pos, count)
  {
  }

  lemma ItemsUnfold(items: seq<Syn>, at: nat)
    requires items != [] && WellFormedItems(items)
    ensures ItemsAt(items, at) == [ItemOf(items[0], at)] + ItemsAt(items[1..], at + |Ser(items[0])|)
    ensures |SerItems(items)| == |Ser(items[0])| + |SerItems(items[1..])| && ItemsOf(items) == Items(items[0]) + ItemsOf(items[1..])
  {
    hide Ser, ItemOf, Items, WellFormed;
  }

  /** What the loops need to know about the items still to come. */
  ghost predicate ItemsStand(form: Form, items: seq<Syn>, data: Bytes, c: Cursor, depth: nat, rules: Rules) {
    && WellFormedItems(items) && At(data, c.pos, SerItems(items)) && At(data, c.pos + |SerItems(items)|, Closing(form))
    && depth + NestingOf(items) <= rules.limits.maxDepth
    && c.items + ItemsOf(items) <= rules.limits.maxItems
    && (rules.limits.requireDefinite ==> AllDefiniteItems(items))
    && (rules.rejectDuplicates ==> DistinctKeysIn(items, rules.reencode))
  }

  lemma {:induction false} ItemsParse(form: Form, items: seq<Syn>, data: Bytes, c: Cursor, depth: nat, rules: Rules)
    requires ItemsStand(form, items, data, c, depth, rules)
    ensures Yields(ParseItems(data, c, depth, rules, Announced(form, |items|)), ItemsAt(items, c.pos),
                   c.pos + |SerItems(items)| + |Closing(form)|, c.items + ItemsOf(items))
    decreases items, 1
  {
    hide *;
    if items == [] {
      NoItemsParse(form, data, c, depth, rules);
    } else {
      FirstStands(form, items, data, c, depth, rules);
      AdmittedParses(items[0], data, c, depth + 1, rules);
      var r := Parse(data, c, depth + 1, rules);
      ItemBehind(r, items[0], c);
      RestStands(form, items, data, c, r.value.1, depth, rules);
      ItemsParse(form, items[1..], data, r.value.1, depth, rules);
      StandsWell(form, items, data, c, depth, rules);
      ItemsJoin(form, items, data, c, depth, rules);
    }
  }

  lemma StandsWell(form: Form, items: seq<Syn>, data: Bytes, c: Cursor, depth: nat, rules: Rules)
    requires ItemsStand(form, items, data, c, depth, rules)
    ensures WellFormedItems(items)
  {
  }

  lemma ItemBehind(r: Result<(Item, Cursor)>, s: Syn, c: Cursor)
    requires WellFormed(s) && Accepts(r, s, c)
    ensures r.Ok? && r.value.1.pos == c.pos + |Ser(s)| && r.value.1.items == c.items + Items(s)
  {
  }

  lemma NoItemsParse(form: Form, data: Bytes, c: Cursor, depth: nat, rules: Rules)
    requires ItemsStand(form, [], data, c, depth, rules)
    ensures Yields(ParseItems(data, c, depth, rules, Announced(form, 0)), ItemsAt([], c.pos),
                   c.pos + |SerItems([])| + |Closing(form)|, c.items + ItemsOf([]))
  {
    hide At, Parse;
    if form.Indefinite? {
      IsBreak(data, c.pos);
    }
  }

  lemma ItemsJoin(form: Form, items: seq<Syn>, data: Bytes, c: Cursor, depth: nat, rules: Rules)
    requires items != [] && WellFormedItems(items) && c.pos <= |data| && !AtBreak(data, c.pos)
    requires Accepts(Parse(data, c, depth + 1, rules), items[0], c)
    requires var c1 := Parse(data, c, depth + 1, rules).value.1;
             Yields(ParseItems(data, c1, depth, rules, Announced(form, |items[1..]|)), ItemsAt(items[1..], c1.pos),
                    c1.pos + |SerItems(items[1..])| + |Closing(form)|, c1.items + ItemsOf(items[1..]))
    ensures Yields(ParseItems(data, c, depth, rules, Announced(form, |items|)), ItemsAt(items, c.pos),
                   c.pos + |SerItems(items)| + |Closing(form)|, c.items + ItemsOf(items))
  {
    hide At, Ser, SerItems, ItemOf, ItemsAt, Items, ItemsOf, Parse, ParseItems;
    var r := Parse(data, c, depth + 1, rules);
    var left := Announced(form, |items|);
    ItemsStep(data, c, depth, rules, left);
    ItemsUnfold(items, c.pos);
    ItemsGlue(items, c, r.value.0, r.value.1, |Closing(form)|, ParseItems(data, c, depth, rules, left),
              ParseItems(data, r.value.1, depth, rules, OneFewer(left)));
  }

  lemma ItemsGlue(items: seq<Syn>, c: Cursor, item: Item, next: Cursor, closing: nat,
                  r: Result<(seq<Item>, Cursor)>, rest: Result<(seq<Item>, Cursor)>)
    requires items != [] && WellFormedItems(items)
    requires item == ItemOf(items[0], c.pos) && next.pos == c.pos + |Ser(items[0])| && next.items == c.items + Items(items[0])
    requires Prepends(r, item, rest)
    requires Yields(rest, ItemsAt(items[1..], next.pos), next.pos + |SerItems(items[1..])| + closing, next.items + ItemsOf(items[1..]))
    ensures Yields(r, ItemsAt(items, c.pos), c.pos + |SerItems(items)| + closing, c.items + ItemsOf(items))
  {
    hide ItemsAt, ItemsOf, SerItems, Ser, Items, ItemOf, Prepends, Yields;
    ItemsUnfold(items, c.pos);
    Joined(r, rest, item, ItemsAt(items[1..], next.pos), ItemsAt(items, c.pos), c.pos + |SerItems(items)| + closing, c.items + ItemsOf(items));
  }

  lemma {:induction false} FirstStands(form: Form, items: seq<Syn>, data: Bytes, c: Cursor, depth: nat, rules: Rules)
    requires ItemsStand(form, items, data, c, depth, rules) && items != []
    ensures WellFormed(items[0]) && At(data, c.pos, Ser(items[0])) && Admitted(items[0], c.items, depth + 1, rules)
    ensures c.pos <= |data| && !AtBreak(data, c.pos)
  {
    AtSplit(data, c.pos, Ser(items[0]), SerItems(items[1..]));
    NotBreak(data, c.pos, items[0]);
  }

  lemma {:induction false} RestStands(form: Form, items: seq<Syn>, data: Bytes, c: Cursor, next: Cursor, depth: nat, rules: Rules)
    requires ItemsStand(form, items, data, c, depth, rules) && items != []
    requires next.pos == c.pos + |Ser(items[0])| && next.items == c.items + Items(items[0])
    ensures ItemsStand(form, items[1..], data, next, depth, rules)
  {
    hide At, Ser, Admitted, Items, Nesting, AllDefinite, DistinctKeys, Closing;
    AtSplit(data, c.pos, Ser(items[0]), SerItems(items[1..]));
  }

  lemma {:induction false} TableParses(form: Form, pairs: seq<Pair>, data: Bytes, c: Cursor, depth: nat, rules: Rules, start: Start)
    requires var s := Table(form, pairs);
             WellFormed(s) && At(data, c.pos, Ser(s)) && Admitted(s, c.items, depth, rules) && StartsAs(start, s, c.pos)
    ensures Contains(ParseContent(data, start, Behind(Table(form, pairs), c), depth, rules), Table(form, pairs), c)
    decreases pairs, 3
  {
    hide At, Admitted, ParsePairs, Opening, Closing, SerPairs;
    TableOpens(form, pairs, data, c, depth, rules);
    TableStands(form, pairs, data, c, depth, rules);
    PairsParse(form, pairs, data, Behind(Table(form, pairs), c), depth, rules, {});
  }

  lemma {:induction false} TableOpens(form: Form, pairs: seq<Pair>, data: Bytes, c: Cursor, depth: nat, rules: Rules)
    requires var s := Table(form, pairs);
             WellFormed(s) && At(data, c.pos, Ser(s)) && Admitted(s, c.items, depth, rules)
    ensures At(data, c.pos + FormLength(form), SerPairs(pairs)) && At(data, c.pos + FormLength(form) + |SerPairs(pairs)|, Closing(form))
    ensures |Ser(Table(form, pairs))| == FormLength(form) + |SerPairs(pairs)| + |Closing(form)|
  {
    hide At, Opening, Closing, SerPairs;
    OpeningStarts(data, c.pos, 5, form, |pairs|, SerPairs(pairs), rules.limits);
    OpeningLength(5, form, |pairs|);
  }

  lemma OpeningLength(major: nat, form: Form, n: nat)
    requires 4 <= major <= 5 && FormFits(form, n)
    ensures |Opening(major, form, n)| == FormLength(form)
  {
  }

  lemma {:induction false} TableStands(form: Form, pairs: seq<Pair>, data: Bytes, c: Cursor, depth: nat, rules: Rules)
    requires var s := Table(form, pairs);
             WellFormed(s) && Admitted(s, c.items, depth, rules)
    requires At(data, c.pos + FormLength(form), SerPairs(pairs)) && At(data, c.pos + FormLength(form) + |SerPairs(pairs)|, Closing(form))
    ensures PairsStand(form, pairs, data, Behind(Table(form, pairs), c), depth, rules, {})
  {
    hide At, Closing, SerPairs, Ser;
  }

  ghost predicate Reaches(r: Result<Cursor>, pos: nat, count: nat) {
    r.Ok? && r.value.pos == pos && r.value.items == count
  }

  ghost predicate PairsStand(form: Form, pairs: seq<Pair>, data: Bytes, c: Cursor, depth: nat, rules: Rules, keys: set<Bytes>) {
    && WellFormedPairs(pairs) && At(data, c.pos, SerPairs(pairs)) && At(data, c.pos + |SerPairs(pairs)|, Closing(form))
    && depth + NestingOfPairs(pairs) <= rules.limits.maxDepth
    && c.items + ItemsOfPairs(pairs) <= rules.limits.maxItems
    && (rules.limits.requireDefinite ==> AllDefinitePairs(pairs))
    && (rules.rejectDuplicates ==> DistinctPairs(pairs, keys, rules.reencode))
  }

  lemma {:induction false} PairsParse(form: Form, pairs: seq<Pair>, data: Bytes, c: Cursor, depth: nat, rules: Rules, keys: set<Bytes>)
    requires PairsStand(form, pairs, data, c, depth, rules, keys)
    ensures Reaches(ParsePairs(data, c, depth, rules, Announced(form, |pairs|), keys),
                    c.pos + |SerPairs(pairs)| + |Closing(form)|, c.items + ItemsOfPairs(pairs))
    decreases pairs, 2
  {
    hide At, Ser, Parse, AddKey, Admitted, WellFormed, KeyCode;
    if pairs == [] {
      if form.Indefinite? {
        IsBreak(data, c.pos);
      }
    } else {
      var p := pairs[0];
      FirstPairStands(form, pairs, data, c, depth, rules, keys);
      KeyParses(p, data, c, depth, rules, keys);
      var (key, c1) := Parse(data, c, depth + 1, rules).value;
      ValParses(p, data, c1, depth, rules);
      var c2 := Parse(data, c1, depth + 1, rules).value.1;
      var keys1 := WithKey(p.key, rules, keys);
      PairsStep(data, c, depth, rules, Announced(form, |pairs|), keys, key, c1, keys1);
      RestOfPairsStands(form, pairs, data, c, c2, depth, rules, keys);
      PairsParse(form, pairs[1..], data, c2, depth, rules, keys1);
    }
  }

  lemma {:induction false} FirstPairStands(form: Form, pairs: seq<Pair>, data: Bytes, c: Cursor, depth: nat, rules: Rules, keys: set<Bytes>)
    requires PairsStand(form, pairs, data, c, depth, rules, keys) && pairs != []
    ensures WellFormedPair(pairs[0])
    ensures At(data, c.pos, Ser(pairs[0].key)) && At(data, c.pos + |Ser(pairs[0].key)|, Ser(pairs[0].val))
  {
    hide At, Ser, WellFormed, Closing, NestingOfPairs, ItemsOfPairs, AllDefinitePairs, DistinctPairs;
    AtSplit(data, c.pos, SerPair(pairs[0]), SerPairs(pairs[1..]));
    AtSplit(data, c.pos, Ser(pairs[0].key), Ser(pairs[0].val));
  }

  lemma {:induction false} RestOfPairsStands(form: Form, pairs: seq<Pair>, data: Bytes, c: Cursor, next: Cursor, depth: nat, rules: Rules, keys: set<Bytes>)
    requires PairsStand(form, pairs, data, c, depth, rules, keys) && pairs != []
    requires next.pos == c.pos + |SerPair(pairs[0])| && next.items == c.items + ItemsOfPair(pairs[0])
    ensures PairsStand(form, pairs[1..], data, next, depth, rules, WithKey(pairs[0].key, rules, keys))
  {
    AtSplit(data, c.pos, SerPair(pairs[0]), SerPairs(pairs[1..]));
  }

  function WithKey(key: Syn, rules: Rules, keys: set<Bytes>): set<Bytes>
    requires WellFormed(key) && (rules.rejectDuplicates ==> KeyCode(key, rules.reencode).Ok?)
  {
    if rules.rejectDuplicates then keys + {KeyCode(key, rules.reencode).value} else keys
  }

  lemma {:induction false} KeyParses(p: Pair, data: Bytes, c: Cursor, depth: nat, rules: Rules, keys: set<Bytes>)
    requires WellFormedPair(p) && At(data, c.pos, Ser(p.key))
    requires depth + 1 + NestingOfPair(p) <= rules.limits.maxDepth
    requires c.items + ItemsOfPair(p) <= rules.limits.maxItems
    requires rules.limits.requireDefinite ==> AllDefinitePair(p)
    requires rules.rejectDuplicates ==>
               DistinctPair(p, rules.reencode) && KeyCode(p.key, rules.reencode).Ok? && KeyCode(p.key, rules.reencode).value !in keys
    ensures c.pos <= |data| && !AtBreak(data, c.pos)
    ensures Accepts(Parse(data, c, depth + 1, rules), p.key, c)
    ensures AddKey(data, Parse(data, c, depth + 1, rules).value.0, rules, keys) == Ok(WithKey(p.key, rules, keys))
    decreases p, 4
  {
    NotBreak(data, c.pos, p.key);
    AdmittedParses(p.key, data, c, depth + 1, rules);
    CanonicalKeyIsKeyCode(p.key, data, c.pos, rules.reencode);
  }

  lemma {:induction false} ValParses(p: Pair, data: Bytes, c: Cursor, depth: nat, rules: Rules)
    requires WellFormedPair(p) && At(data, c.pos, Ser(p.val))
    requires depth + 1 + NestingOfPair(p) <= rules.limits.maxDepth
    requires c.items + Items(p.val) <= rules.limits.maxItems
    requires rules.limits.requireDefinite ==> AllDefinitePair(p)
    requires rules.rejectDuplicates ==> DistinctPair(p, rules.reencode)
    ensures c.pos <= |data| && !AtBreak(data, c.pos)
    ensures Accepts(Parse(data, c, depth + 1, rules), p.val, c)
    decreases p, 4
  {
    NotBreak(data, c.pos, p.val);
    AdmittedParses(p.val, data, c, depth + 1, rules);
  }

  /** The parser compares a key by the code its serialization alone determines. */
  lemma {:induction false} CanonicalKeyIsKeyCode(s: Syn, data: Bytes, at: nat, reencode: Bytes -> Result<Bytes>)
    requires WellFormed(s) && At(data, at, Ser(s)) && SpanIn(ItemOf(s, at), data)
    ensures CanonicalKey(data, ItemOf(s, at), reencode) == KeyCode(s, reencode)
  {
    hide At, Ser, CanonicalKey, HeadArgument, WellFormed, Preferred, HeadLength, Extra;
    AtIsSlice(data, at, Ser(s));
    KeyFromRaw(data, ItemOf(s, at), Ser(s), HeadLength(s), reencode);
    if ScalarSyn(s) {
      ScalarKeyHead(s);
    }
  }

  predicate ScalarSyn(s: Syn) {
    s.Number? || s.Str?
  }

  /** The comparison looks at the key's own bytes only. */
  lemma KeyFromRaw(data: Bytes, key: Item, raw: Bytes, headLength: nat, reencode: Bytes -> Result<Bytes>)
    requires SpanIn(key, data) && data[key.start..key.end] == raw && key.contentStart == key.start + headLength
    ensures 0 < headLength <= |raw| && headLength <= 9
    ensures CanonicalKey(data, key, reencode)
         == if IsScalarKey(key) && headLength == 1 + Extra(Preferred(HeadArgument(raw[..headLength]))) then Ok(raw) else reencode(raw)
  {
  }

  /** Whether a key is compared in place shows in the length of its head. */
  lemma {:induction false} ScalarKeyHead(s: Syn)
    requires WellFormed(s) && ScalarSyn(s)
    ensures 0 < HeadLength(s) <= |Ser(s)| && HeadLength(s) <= 9
    ensures InPlaceKey(s) <==> HeadLength(s) == 1 + Extra(Preferred(HeadArgument(Ser(s)[..HeadLength(s)])))
  {
    match s {
      case Number(negative, w, arg) =>
        HeadArgumentOf(if negative then 1 else 0, arg, w);
        FitsBelow(arg, w);
        WidthsDiffer(w, Preferred(arg));
        assert Ser(s)[..HeadLength(s)] == Ser(s);
      case Str(text, c) =>
        HeadArgumentOf(StringMajor(text), |c.content|, c.width);
        WidthsDiffer(c.width, Preferred(|c.content|));
        assert Ser(s)[..HeadLength(s)] == Head(StringMajor(text), |c.content|, c.width);
    }
  }

  lemma {:induction false} HeadArgumentOf(major: nat, arg: nat, w: Width)
    requires major < 8 && Fits(arg, w)
    ensures HeadArgument(Head(major, arg, w)) == arg
  {
    var h := Head(major, arg, w);
    assert h[0] % 32 == Additional(w, arg);
    if w != Direct {
      BigEndianReads(arg, Extra(w));
      assert h[1..] == BigEndian(arg, Extra(w));
    }
  }

  lemma WidthsDiffer(a: Width, b: Width)
    ensures Extra(a) == Extra(b) <==> a == b
  {
  }
}
