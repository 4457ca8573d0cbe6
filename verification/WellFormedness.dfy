/** Well-formed CBOR by the algorithm of RFC 8949, appendix C, and how the strict parser differs from
    it (src/strict.rs): the parser also accepts the two-byte form of the simple values 0 to 31, which
    section 3.3 forbids, and otherwise only adds its limits and the test for duplicate keys. */
module WellFormedness {
  import opened Values
  import opened Heads
  import opened Syntax
  import opened Readings
  import opened StrictParser
  import opened ParserGrammar
  import opened ParserLaws

  // ---- the algorithm of appendix C --------------------------------------------------------------

  /** A break, or an item with its major type, and the position behind it. */
  datatype Outcome = Fail | Stop(next: nat) | Whole(major: nat, next: nat)

  /** What an indefinite-length item returns in place of its major type. */
  const INDEFINITE: nat := 99

  function Check(data: Bytes, pos: nat, breakable: bool): (r: Outcome)
    requires pos <= |data|
    ensures r != Fail ==> pos < r.next <= |data|
    decreases |data| - pos, 0
  {
    if pos == |data| then Fail else
    match ReadArgument(data, pos + 1, data[pos] % 32)
    case Err(_) => Fail
    case Ok((None, next)) => CheckIndefinite(data, next, data[pos] / 32, breakable)
    case Ok((Some(val), next)) => CheckContent(data, next, data[pos] / 32, data[pos] % 32, val)
  }

  function CheckContent(data: Bytes, pos: nat, major: nat, additional: byte, val: nat): (r: Outcome)
    requires pos <= |data|
    ensures !r.Stop? && (r.Whole? ==> r.major == major && pos <= r.next <= |data|)
    decreases |data| - pos, 2
  {
    if major == 2 || major == 3 then if pos + val <= |data| then Whole(major, pos + val) else Fail
    else if major == 4 then Many(data, pos, val, major)
    else if major == 5 then Many(data, pos, 2 * val, major)
    else if major == 6 then Many(data, pos, 1, major)
    else if major == 7 && additional == 24 && val < 32 then Fail
    else Whole(major, pos)
  }

  /** `n` items in a row. */
  function Many(data: Bytes, pos: nat, n: nat, major: nat): (r: Outcome)
    requires pos <= |data|
    ensures !r.Stop? && (r.Whole? ==> r.major == major && pos <= r.next <= |data|)
    decreases |data| - pos, 1
  {
    if n == 0 then Whole(major, pos) else
    match Check(data, pos, false)
    case Whole(_, next) => Many(data, next, n - 1, major)
    case _ => Fail
  }

  function CheckIndefinite(data: Bytes, pos: nat, major: nat, breakable: bool): (r: Outcome)
    requires pos <= |data|
    ensures r != Fail ==> pos <= r.next <= |data|
    decreases |data| - pos, 2
  {
    if major == 2 || major == 3 then Chunks(data, pos, major)
    else if major == 4 then UntilBreak(data, pos)
    else if major == 5 then PairsUntilBreak(data, pos)
    else if major == 7 && breakable then Stop(pos)
    else Fail
  }

  function Chunks(data: Bytes, pos: nat, major: nat): (r: Outcome)
    requires pos <= |data|
    ensures !r.Stop? && (r.Whole? ==> r.major == INDEFINITE && pos <= r.next <= |data|)
    decreases |data| - pos, 1
  {
    match Check(data, pos, true)
    case Fail => Fail
    case Stop(next) => Whole(INDEFINITE, next)
    case Whole(m, next) => if m == major then Chunks(data, next, major) else Fail
  }

  function UntilBreak(data: Bytes, pos: nat): (r: Outcome)
    requires pos <= |data|
    ensures !r.Stop? && (r.Whole? ==> r.major == INDEFINITE && pos <= r.next <= |data|)
    decreases |data| - pos, 1
  {
    match Check(data, pos, true)
    case Fail => Fail
    case Stop(next) => Whole(INDEFINITE, next)
    case Whole(_, next) => UntilBreak(data, next)
  }

  function PairsUntilBreak(data: Bytes, pos: nat): (r: Outcome)
    requires pos <= |data|
    ensures !r.Stop? && (r.Whole? ==> r.major == INDEFINITE && pos <= r.next <= |data|)
    decreases |data| - pos, 1
  {
    match Check(data, pos, true)
    case Fail => Fail
    case Stop(next) => Whole(INDEFINITE, next)
    case Whole(_, next) =>
      match Check(data, next, false)
      case Whole(_, next1) => PairsUntilBreak(data, next1)
      case _ => Fail
  }

  /** `data` is one well-formed item of RFC 8949. */
  predicate RfcWellFormed(data: Bytes) {
    var r := Check(data, 0, false);
    r.Whole? && r.next == |data|
  }

  // ---- the simple values the parser accepts in excess -------------------------------------------

  predicate ShortSimple(s: Syn) {
    s.SimpleCode? && s.width == One && s.code < 32
  }

  /** No simple value below 32 is written in two bytes. */
  predicate Clean(s: Syn)
    decreases s, 1
  {
    match s
    case List(_, items) => CleanItems(items)
    case Table(_, pairs) => CleanPairs(pairs)
    case Tagged(_, _, inner) => Clean(inner)
    case _ => !ShortSimple(s)
  }

  predicate CleanItems(items: seq<Syn>)
    decreases items, 0
  {
    items == [] || (Clean(items[0]) && CleanItems(items[1..]))
  }

  predicate CleanPairs(pairs: seq<Pair>)
    decreases pairs, 0
  {
    pairs == [] || (CleanPair(pairs[0]) && CleanPairs(pairs[1..]))
  }

  predicate CleanPair(p: Pair)
    decreases p, 2
  {
    Clean(p.key) && Clean(p.val)
  }

  /** `t` is the item `s` or stands somewhere inside it. */
  ghost predicate Stands(t: Syn, s: Syn)
    decreases s, 1
  {
    t == s ||
    match s
    case List(_, items) => exists i :: 0 <= i < |items| && Stands(t, items[i])
    case Table(_, pairs) => exists i :: 0 <= i < |pairs| && StandsInPair(t, pairs[i])
    case Tagged(_, _, inner) => Stands(t, inner)
    case _ => false
  }

  ghost predicate StandsInPair(t: Syn, p: Pair)
    decreases p, 2
  {
    Stands(t, p.key) || Stands(t, p.val)
  }

  lemma {:induction false} CleanMeans(s: Syn)
    ensures Clean(s) <==> forall t :: Stands(t, s) ==> !ShortSimple(t)
    decreases s, 1
  {
    match s
    case List(form, items) =>
      CleanItemsMean(items);
      assert forall t :: Stands(t, s) <==> t == s || exists i :: 0 <= i < |items| && Stands(t, items[i]);
    case Table(form, pairs) =>
      CleanPairsMean(pairs);
      assert forall t :: Stands(t, s) <==> t == s || exists i :: 0 <= i < |pairs| && StandsInPair(t, pairs[i]);
    case Tagged(_, _, inner) => CleanMeans(inner);
    case _ => assert Stands(s, s);
  }

  lemma {:induction false} CleanItemsMean(items: seq<Syn>)
    ensures CleanItems(items) <==> forall i, t :: 0 <= i < |items| && Stands(t, items[i]) ==> !ShortSimple(t)
    decreases items, 0
  {
    if items != [] {
      CleanMeans(items[0]);
      CleanItemsMean(items[1..]);
      if CleanItems(items) {
        forall i, t | 0 <= i < |items| && Stands(t, items[i]) ensures !ShortSimple(t) {
          assert i == 0 || items[i] == items[1..][i - 1];
        }
      } else if Clean(items[0]) {
        var i, t :| 0 <= i < |items[1..]| && Stands(t, items[1..][i]) && ShortSimple(t);
        assert items[i + 1] == items[1..][i];
      }
    }
  }

  lemma {:induction false} CleanPairsMean(pairs: seq<Pair>)
    ensures CleanPairs(pairs) <==> forall i, t :: 0 <= i < |pairs| && StandsInPair(t, pairs[i]) ==> !ShortSimple(t)
    decreases pairs, 0
  {
    if pairs != [] {
      CleanPairMeans(pairs[0]);
      CleanPairsMean(pairs[1..]);
      if CleanPairs(pairs) {
        forall i, t | 0 <= i < |pairs| && StandsInPair(t, pairs[i]) ensures !ShortSimple(t) {
          assert i == 0 || pairs[i] == pairs[1..][i - 1];
        }
      } else if CleanPair(pairs[0]) {
        var i, t :| 0 <= i < |pairs[1..]| && StandsInPair(t, pairs[1..][i]) && ShortSimple(t);
        assert pairs[i + 1] == pairs[1..][i];
      }
    }
  }

  lemma {:induction false} CleanPairMeans(p: Pair)
    ensures CleanPair(p) <==> forall t :: StandsInPair(t, p) ==> !ShortSimple(t)
    decreases p, 2
  {
    CleanMeans(p.key);
    CleanMeans(p.val);
    assert forall t :: Stands(t, p.key) ==> StandsInPair(t, p);
    assert forall t :: Stands(t, p.val) ==> StandsInPair(t, p);
  }

  // ---- the algorithm on a serialization ---------------------------------------------------------

  function Returned(s: Syn): nat {
    if IndefiniteSyn(s) then INDEFINITE else MajorOf(s)
  }

  /** The algorithm finds a clean item whole and fails on any other. */
  ghost predicate Finds(r: Outcome, clean: bool, major: nat, next: nat) {
    r == if clean then Whole(major, next) else Fail
  }

  lemma DefiniteHead(data: Bytes, pos: nat, major: nat, arg: nat, w: Width, breakable: bool)
    requires major < 8 && Fits(arg, w) && At(data, pos, Head(major, arg, w))
    ensures pos + 1 + Extra(w) <= |data|
    ensures Check(data, pos, breakable) == CheckContent(data, pos + 1 + Extra(w), major, Additional(w, arg), arg)
  {
    HeadReads(data, pos, major, arg, w);
  }

  lemma IndefiniteHead(data: Bytes, pos: nat, major: nat, breakable: bool)
    requires major < 8 && At(data, pos, [Initial(major, 31)])
    ensures pos + 1 <= |data| && Check(data, pos, breakable) == CheckIndefinite(data, pos + 1, major, breakable)
  {
    assert data[pos] == [Initial(major, 31)][0];
  }

  lemma StopFound(data: Bytes, pos: nat)
    requires At(data, pos, [BREAK])
    ensures pos + 1 <= |data| && Check(data, pos, true) == Stop(pos + 1)
  {
    assert [BREAK] == [Initial(7, 31)];
    IndefiniteHead(data, pos, 7, true);
  }

  lemma {:induction false} CheckFinds(s: Syn, data: Bytes, pos: nat, breakable: bool)
    requires WellFormed(s) && At(data, pos, Ser(s))
    ensures Finds(Check(data, pos, breakable), Clean(s), Returned(s), pos + |Ser(s)|)
    decreases s, 3
  {
    hide At, Check;
    match s
    case Number(negative, w, arg) => DefiniteHead(data, pos, if negative then 1 else 0, arg, w, breakable);
    case Str(text, c) => StringFound(text, c, data, pos, breakable);
    case Chunked(text, chunks) => ChunkedFound(text, chunks, data, pos, breakable);
    case List(form, items) => ListFound(form, items, data, pos, breakable);
    case Table(form, pairs) => TableFound(form, pairs, data, pos, breakable);
    case Tagged(w, tag, inner) => TaggedFound(w, tag, inner, data, pos, breakable);
    case SimpleCode(w, code) => DefiniteHead(data, pos, 7, code, w, breakable);
    case FloatBits(w, bits) => DefiniteHead(data, pos, 7, bits, w, breakable);
  }

  lemma StringFound(text: bool, c: Chunk, data: Bytes, pos: nat, breakable: bool)
    requires ChunkFits(c) && At(data, pos, SerChunk(text, c))
    ensures Check(data, pos, breakable) == Whole(StringMajor(text), pos + |SerChunk(text, c)|)
  {
    hide At;
    AtSplit(data, pos, Head(StringMajor(text), |c.content|, c.width), c.content);
    DefiniteHead(data, pos, StringMajor(text), |c.content|, c.width, breakable);
  }

  lemma {:induction false} ChunkedFound(text: bool, chunks: seq<Chunk>, data: Bytes, pos: nat, breakable: bool)
    requires WellFormed(Chunked(text, chunks)) && At(data, pos, Ser(Chunked(text, chunks)))
    ensures Check(data, pos, breakable) == Whole(INDEFINITE, pos + |Ser(Chunked(text, chunks))|)
  {
    hide At;
    var opening := [Initial(StringMajor(text), 31)];
    AtSplit(data, pos, opening + SerChunks(text, chunks), [BREAK]);
    AtSplit(data, pos, opening, SerChunks(text, chunks));
    IndefiniteHead(data, pos, StringMajor(text), breakable);
    ChunksFound(text, chunks, data, pos + 1);
  }

  lemma {:induction false} ChunksFound(text: bool, chunks: seq<Chunk>, data: Bytes, pos: nat)
    requires forall i :: 0 <= i < |chunks| ==> ChunkFits(chunks[i])
    requires At(data, pos, SerChunks(text, chunks)) && At(data, pos + |SerChunks(text, chunks)|, [BREAK])
    ensures Chunks(data, pos, StringMajor(text)) == Whole(INDEFINITE, pos + |SerChunks(text, chunks)| + 1)
    decreases |chunks|
  {
    hide At;
    if chunks == [] {
      StopFound(data, pos);
    } else {
      AtSplit(data, pos, SerChunk(text, chunks[0]), SerChunks(text, chunks[1..]));
      StringFound(text, chunks[0], data, pos, true);
      ChunksFound(text, chunks[1..], data, pos + |SerChunk(text, chunks[0])|);
    }
  }

  lemma FormSplit(data: Bytes, pos: nat, major: nat, form: Form, n: nat, body: Bytes, breakable: bool)
    requires 4 <= major <= 5 && FormFits(form, n) && At(data, pos, Opening(major, form, n) + body + Closing(form))
    ensures At(data, pos + FormLength(form), body) && At(data, pos + FormLength(form) + |body|, Closing(form))
    ensures Opened(data, pos, major, form, n, breakable)
  {
    hide At;
    Placed(data, pos, Opening(major, form, n), body, Closing(form), FormLength(form));
    OpeningChecked(data, pos, major, form, n, breakable);
  }

  lemma Placed(data: Bytes, pos: nat, opening: Bytes, body: Bytes, closing: Bytes, length: nat)
    requires At(data, pos, opening + body + closing) && length == |opening|
    ensures At(data, pos, opening) && At(data, pos + length, body) && At(data, pos + length + |body|, closing)
  {
    hide At;
    AtSplit(data, pos, opening + body, closing);
    AtSplit(data, pos, opening, body);
    assert pos + |opening + body| == pos + length + |body|;
  }

  /** The algorithm goes on with the members of an array or map. */
  ghost predicate Opened(data: Bytes, pos: nat, major: nat, form: Form, n: nat, breakable: bool) {
    && pos + FormLength(form) <= |data|
    && Check(data, pos, breakable) ==
       if form.Definite? then Many(data, pos + FormLength(form), if major == 4 then n else 2 * n, major)
       else if major == 4 then UntilBreak(data, pos + FormLength(form))
       else PairsUntilBreak(data, pos + FormLength(form))
  }

  lemma OpeningChecked(data: Bytes, pos: nat, major: nat, form: Form, n: nat, breakable: bool)
    requires 4 <= major <= 5 && FormFits(form, n) && At(data, pos, Opening(major, form, n))
    ensures Opened(data, pos, major, form, n, breakable)
  {
    if form.Definite? {
      DefiniteHead(data, pos, major, n, form.width, breakable);
    } else {
      IndefiniteHead(data, pos, major, breakable);
    }
  }

  lemma {:induction false} ListFound(form: Form, items: seq<Syn>, data: Bytes, pos: nat, breakable: bool)
    requires WellFormed(List(form, items)) && At(data, pos, Ser(List(form, items)))
    ensures Finds(Check(data, pos, breakable), CleanItems(items), Returned(List(form, items)), pos + |Ser(List(form, items))|)
    decreases items, 2
  {
    hide At, Check, Many, UntilBreak, PairsUntilBreak;
    FormSplit(data, pos, 4, form, |items|, SerItems(items), breakable);
    if form.Definite? {
      ManyFound(items, data, pos + FormLength(form));
    } else {
      ItemsFound(items, data, pos + 1);
    }
  }

  lemma {:induction false} ManyFound(items: seq<Syn>, data: Bytes, pos: nat)
    requires WellFormedItems(items) && At(data, pos, SerItems(items))
    ensures Finds(Many(data, pos, |items|, 4), CleanItems(items), 4, pos + |SerItems(items)|)
    decreases items, 1
  {
    hide At, Check;
    if items != [] {
      AtSplit(data, pos, Ser(items[0]), SerItems(items[1..]));
      CheckFinds(items[0], data, pos, false);
      ManyFound(items[1..], data, pos + |Ser(items[0])|);
    }
  }

  lemma {:induction false} ItemsFound(items: seq<Syn>, data: Bytes, pos: nat)
    requires WellFormedItems(items) && At(data, pos, SerItems(items)) && At(data, pos + |SerItems(items)|, [BREAK])
    ensures Finds(UntilBreak(data, pos), CleanItems(items), INDEFINITE, pos + |SerItems(items)| + 1)
    decreases items, 1
  {
    hide At, Check;
    if items == [] {
      StopFound(data, pos);
    } else {
      AtSplit(data, pos, Ser(items[0]), SerItems(items[1..]));
      CheckFinds(items[0], data, pos, true);
      ItemsFound(items[1..], data, pos + |Ser(items[0])|);
    }
  }

  lemma {:induction false} TableFound(form: Form, pairs: seq<Pair>, data: Bytes, pos: nat, breakable: bool)
    requires WellFormed(Table(form, pairs)) && At(data, pos, Ser(Table(form, pairs)))
    ensures Finds(Check(data, pos, breakable), CleanPairs(pairs), Returned(Table(form, pairs)), pos + |Ser(Table(form, pairs))|)
    decreases pairs, 2
  {
    hide At, Check, Many, UntilBreak, PairsUntilBreak;
    FormSplit(data, pos, 5, form, |pairs|, SerPairs(pairs), breakable);
    if form.Definite? {
      ManyPairsFound(pairs, data, pos + FormLength(form));
    } else {
      PairsFound(pairs, data, pos + 1);
    }
  }

  /** A key and its value, one after the other. */
  lemma {:induction false} PairFound(p: Pair, data: Bytes, pos: nat, breakable: bool)
    requires WellFormedPair(p) && At(data, pos, SerPair(p))
    ensures Finds(Check(data, pos, breakable), Clean(p.key), Returned(p.key), pos + |Ser(p.key)|)
    ensures pos + |Ser(p.key)| <= |data|
    ensures Finds(Check(data, pos + |Ser(p.key)|, false), Clean(p.val), Returned(p.val), pos + |SerPair(p)|)
    decreases p, 4
  {
    hide At, Check, Clean, Returned, Finds, Ser;
    AtSplit(data, pos, Ser(p.key), Ser(p.val));
    CheckFinds(p.key, data, pos, breakable);
    CheckFinds(p.val, data, pos + |Ser(p.key)|, false);
  }

  lemma PairsSplit(data: Bytes, pos: nat, pairs: seq<Pair>)
    requires WellFormedPairs(pairs) && pairs != [] && At(data, pos, SerPairs(pairs))
    ensures WellFormedPair(pairs[0]) && WellFormedPairs(pairs[1..])
    ensures At(data, pos, SerPair(pairs[0])) && At(data, pos + |SerPair(pairs[0])|, SerPairs(pairs[1..]))
    ensures pos + |SerPair(pairs[0])| + |SerPairs(pairs[1..])| == pos + |SerPairs(pairs)|
  {
    hide At;
    AtSplit(data, pos, SerPair(pairs[0]), SerPairs(pairs[1..]));
  }

  lemma {:induction false} ManyPairsFound(pairs: seq<Pair>, data: Bytes, pos: nat)
    requires WellFormedPairs(pairs) && At(data, pos, SerPairs(pairs))
    ensures Finds(Many(data, pos, 2 * |pairs|, 5), CleanPairs(pairs), 5, pos + |SerPairs(pairs)|)
    decreases pairs, 1
  {
    hide At, Check;
    if pairs != [] {
      PairsSplit(data, pos, pairs);
      PairFound(pairs[0], data, pos, false);
      ManyPairsFound(pairs[1..], data, pos + |SerPair(pairs[0])|);
      TwoMore(data, pos, |pairs|, pairs[0], CleanPairs(pairs[1..]), pos + |SerPairs(pairs)|);
    }
  }

  lemma TwoMore(data: Bytes, pos: nat, n: nat, p: Pair, rest: bool, end: nat)
    requires WellFormedPair(p) && n > 0 && pos + |SerPair(p)| <= |data|
    requires Finds(Check(data, pos, false), Clean(p.key), Returned(p.key), pos + |Ser(p.key)|)
    requires Finds(Check(data, pos + |Ser(p.key)|, false), Clean(p.val), Returned(p.val), pos + |SerPair(p)|)
    requires Finds(Many(data, pos + |SerPair(p)|, 2 * (n - 1), 5), rest, 5, end)
    ensures Finds(Many(data, pos, 2 * n, 5), CleanPair(p) && rest, 5, end)
  {
    hide Check, Ser, Clean, Returned;
    if Clean(p.key) {
      assert Many(data, pos, 2 * n, 5) == Many(data, pos + |Ser(p.key)|, 2 * n - 1, 5);
    }
  }

  lemma {:induction false} PairsFound(pairs: seq<Pair>, data: Bytes, pos: nat)
    requires WellFormedPairs(pairs) && At(data, pos, SerPairs(pairs)) && At(data, pos + |SerPairs(pairs)|, [BREAK])
    ensures Finds(PairsUntilBreak(data, pos), CleanPairs(pairs), INDEFINITE, pos + |SerPairs(pairs)| + 1)
    decreases pairs, 1
  {
    hide At, Check;
    if pairs == [] {
      StopFound(data, pos);
    } else {
      PairsSplit(data, pos, pairs);
      PairFound(pairs[0], data, pos, true);
      PairsFound(pairs[1..], data, pos + |SerPair(pairs[0])|);
    }
  }

  lemma {:induction false} TaggedFound(w: Width, tag: nat, inner: Syn, data: Bytes, pos: nat, breakable: bool)
    requires WellFormed(Tagged(w, tag, inner)) && At(data, pos, Ser(Tagged(w, tag, inner)))
    ensures Finds(Check(data, pos, breakable), Clean(inner), 6, pos + |Ser(Tagged(w, tag, inner))|)
    decreases inner, 4
  {
    hide At, Check, Many;
    AtSplit(data, pos, Head(6, tag, w), Ser(inner));
    DefiniteHead(data, pos, 6, tag, w, breakable);
    CheckFinds(inner, data, pos + 1 + Extra(w), false);
    JustOne(data, pos + 1 + Extra(w), 6);
  }

  lemma JustOne(data: Bytes, pos: nat, major: nat)
    requires pos <= |data|
    ensures Many(data, pos, 1, major) == if Check(data, pos, false).Whole? then Whole(major, Check(data, pos, false).next) else Fail
  {
    var r := Check(data, pos, false);
    if r.Whole? {
      assert Many(data, r.next, 0, major) == Whole(major, r.next);
    }
  }

  // ---- what the algorithm accepts, the parser accepts -------------------------------------------

  /** Nothing but the grammar can stop the parser. */
  ghost predicate Roomy(data: Bytes, c: Cursor, depth: nat, rules: Rules) {
    && c.pos <= |data| && !rules.rejectDuplicates && !rules.limits.requireDefinite
    && depth + (|data| - c.pos) <= rules.limits.maxDepth
    && c.items + (|data| - c.pos) <= rules.limits.maxItems
  }

  /** The parser ends at `next`, having counted at most one item for every byte. */
  ghost predicate EndsAt(end: Cursor, c: Cursor, next: nat) {
    end.pos == next && c.items <= end.items <= c.items + (next - c.pos)
  }

  ghost predicate ItemEnds(r: Result<(Item, Cursor)>, c: Cursor, found: Outcome)
    requires found.Whole?
  {
    && r.Ok? && EndsAt(r.value.1, c, found.next)
    && (found.major == 2 ==> r.value.0.kind == BytesKind && !r.value.0.indefinite)
    && (found.major == 3 ==> r.value.0.kind == TextKind && !r.value.0.indefinite)
  }

  lemma StopIsBreak(data: Bytes, pos: nat)
    requires pos < |data|
    ensures Check(data, pos, true).Stop? <==> AtBreak(data, pos)
    ensures AtBreak(data, pos) ==> Check(data, pos, true) == Stop(pos + 1)
    ensures !AtBreak(data, pos) ==> Check(data, pos, true) == Check(data, pos, false)
    ensures !Check(data, pos, false).Stop? && (Check(data, pos, false).Whole? ==> !AtBreak(data, pos))
  {
  }

  lemma {:induction false} CheckedParses(data: Bytes, c: Cursor, depth: nat, rules: Rules)
    requires Roomy(data, c, depth, rules) && Check(data, c.pos, false).Whole?
    ensures ItemEnds(Parse(data, c, depth, rules), c, Check(data, c.pos, false))
    decreases |data| - c.pos, 0
  {
    StopIsBreak(data, c.pos);
    var (argument, next) := ReadArgument(data, c.pos + 1, data[c.pos] % 32).value;
    var start := Start(data[c.pos] / 32, data[c.pos] % 32, argument, next);
    var counted := Cursor(next, c.items + 1);
    StartsWhole(data, c, rules);
    if argument.Some? {
      ContentParses(data, start, counted, depth, rules);
    } else {
      IndefiniteParses(data, start, counted, depth, rules);
    }
    ParseStep(data, c, depth, rules, start, counted);
  }

  lemma StartsWhole(data: Bytes, c: Cursor, rules: Rules)
    requires c.pos < |data| && !rules.limits.requireDefinite && Check(data, c.pos, false).Whole? && !AtBreak(data, c.pos)
    ensures ReadArgument(data, c.pos + 1, data[c.pos] % 32).Ok?
    ensures var (argument, next) := ReadArgument(data, c.pos + 1, data[c.pos] % 32).value;
            && ReadStart(data, c.pos, rules.limits) == Ok(Start(data[c.pos] / 32, data[c.pos] % 32, argument, next))
            && data[c.pos] / 32 < 8
            && (argument.Some? ==> Check(data, c.pos, false) == CheckContent(data, next, data[c.pos] / 32, data[c.pos] % 32, argument.value))
            && (argument.None? ==> 2 <= data[c.pos] / 32 <= 5
                                   && Check(data, c.pos, false) == CheckIndefinite(data, next, data[c.pos] / 32, false))
  {
    hide Many, Chunks, UntilBreak, PairsUntilBreak;
  }

  /** What follows a head. */
  ghost predicate ContentEnds(r: Result<(Kind, seq<Item>, Cursor)>, c: Cursor, found: Outcome)
    requires found.Whole?
  {
    && r.Ok? && EndsAt(r.value.2, c, found.next)
    && (found.major == 2 ==> r.value.0 == BytesKind)
    && (found.major == 3 ==> r.value.0 == TextKind)
  }

  lemma {:induction false} ContentParses(data: Bytes, start: Start, c: Cursor, depth: nat, rules: Rules)
    requires start.pos == c.pos && start.major < 8 && start.argument.Some? && 0 < depth + (|data| - c.pos) + 1
    requires Roomy(data, c, depth + 1, rules)
    requires CheckContent(data, c.pos, start.major, start.additional, start.argument.value).Whole?
    ensures ContentEnds(ParseContent(data, start, c, depth, rules), c,
                        CheckContent(data, c.pos, start.major, start.additional, start.argument.value))
    decreases |data| - c.pos, 2
  {
    hide Check;
    var val := start.argument.value;
    if start.major == 4 {
      ManyParse(data, c, depth, rules, val);
    } else if start.major == 5 {
      ManyPairsParse(data, c, depth, rules, val, {});
    } else if start.major == 6 {
      JustOne(data, c.pos, 6);
      CheckedParses(data, c, depth + 1, rules);
    }
  }

  lemma {:induction false} ManyParse(data: Bytes, c: Cursor, depth: nat, rules: Rules, n: nat)
    requires Roomy(data, c, depth + 1, rules) && Many(data, c.pos, n, 4).Whole?
    ensures var r := ParseItems(data, c, depth, rules, Some(n));
            r.Ok? && EndsAt(r.value.1, c, Many(data, c.pos, n, 4).next)
    decreases |data| - c.pos, 1
  {
    hide Check;
    if n != 0 {
      CheckedParses(data, c, depth + 1, rules);
      var next := Parse(data, c, depth + 1, rules).value.1;
      ManyParse(data, next, depth, rules, n - 1);
    }
  }

  lemma {:induction false} ManyPairsParse(data: Bytes, c: Cursor, depth: nat, rules: Rules, n: nat, keys: set<Bytes>)
    requires Roomy(data, c, depth + 1, rules) && Many(data, c.pos, 2 * n, 5).Whole?
    ensures var r := ParsePairs(data, c, depth, rules, Some(n), keys);
            r.Ok? && EndsAt(r.value, c, Many(data, c.pos, 2 * n, 5).next)
    decreases |data| - c.pos, 1
  {
    hide At;
    if n != 0 {
      CheckedParses(data, c, depth + 1, rules);
      var (key, next) := Parse(data, c, depth + 1, rules).value;
      assert Many(data, c.pos, 2 * n, 5) == Many(data, next.pos, 2 * n - 1, 5);
      CheckedParses(data, next, depth + 1, rules);
      var next1 := Parse(data, next, depth + 1, rules).value.1;
      assert Many(data, c.pos, 2 * n, 5) == Many(data, next1.pos, 2 * (n - 1), 5);
      ManyPairsParse(data, next1, depth, rules, n - 1, keys);
      PairsStep(data, c, depth, rules, Some(n), keys, key, next, keys);
    }
  }

  lemma {:induction false} IndefiniteParses(data: Bytes, start: Start, c: Cursor, depth: nat, rules: Rules)
    requires start.pos == c.pos && 2 <= start.major <= 5 && start.argument.None?
    requires Roomy(data, c, depth + 1, rules)
    requires CheckIndefinite(data, c.pos, start.major, false).Whole?
    ensures ContentEnds(ParseContent(data, start, c, depth, rules), c, CheckIndefinite(data, c.pos, start.major, false))
    decreases |data| - c.pos, 2
  {
    hide Check;
    if start.major == 2 || start.major == 3 {
      ChunksParsed(data, c, depth, rules, start.major);
    } else if start.major == 4 {
      ItemsParsed(data, c, depth, rules);
    } else {
      PairsParsed(data, c, depth, rules, {});
    }
  }

  lemma {:induction false} ChunksParsed(data: Bytes, c: Cursor, depth: nat, rules: Rules, major: nat)
    requires Roomy(data, c, depth + 1, rules) && (major == 2 || major == 3) && Chunks(data, c.pos, major).Whole?
    ensures var r := ParseChunks(data, c, depth, rules, StringKind(major));
            r.Ok? && EndsAt(r.value.1, c, Chunks(data, c.pos, major).next)
    decreases |data| - c.pos, 1
  {
    Unfinished(data, c.pos);
    StopIsBreak(data, c.pos);
    hide Check;
    if !AtBreak(data, c.pos) {
      CheckedParses(data, c, depth + 1, rules);
      ChunksParsed(data, Parse(data, c, depth + 1, rules).value.1, depth, rules, major);
    }
  }

  lemma Unfinished(data: Bytes, pos: nat)
    requires pos <= |data|
    ensures Check(data, pos, true) != Fail ==> pos < |data|
  {
  }

  lemma {:induction false} ItemsParsed(data: Bytes, c: Cursor, depth: nat, rules: Rules)
    requires Roomy(data, c, depth + 1, rules) && UntilBreak(data, c.pos).Whole?
    ensures var r := ParseItems(data, c, depth, rules, None);
            r.Ok? && EndsAt(r.value.1, c, UntilBreak(data, c.pos).next)
    decreases |data| - c.pos, 1
  {
    Unfinished(data, c.pos);
    StopIsBreak(data, c.pos);
    hide Check;
    if !AtBreak(data, c.pos) {
      CheckedParses(data, c, depth + 1, rules);
      ItemsParsed(data, Parse(data, c, depth + 1, rules).value.1, depth, rules);
    }
  }

  lemma {:induction false} PairsParsed(data: Bytes, c: Cursor, depth: nat, rules: Rules, keys: set<Bytes>)
    requires Roomy(data, c, depth + 1, rules) && PairsUntilBreak(data, c.pos).Whole?
    ensures var r := ParsePairs(data, c, depth, rules, None, keys);
            r.Ok? && EndsAt(r.value, c, PairsUntilBreak(data, c.pos).next)
    decreases |data| - c.pos, 1
  {
    Unfinished(data, c.pos);
    StopIsBreak(data, c.pos);
    hide Check;
    if !AtBreak(data, c.pos) {
      CheckedParses(data, c, depth + 1, rules);
      var (key, next) := Parse(data, c, depth + 1, rules).value;
      NotAtBreak(data, next.pos);
      CheckedParses(data, next, depth + 1, rules);
      var next1 := Parse(data, next, depth + 1, rules).value.1;
      PairsParsed(data, next1, depth, rules, keys);
      PairsStep(data, c, depth, rules, None, keys, key, next, keys);
    }
  }

  lemma NotAtBreak(data: Bytes, pos: nat)
    requires pos <= |data| && Check(data, pos, false).Whole?
    ensures !AtBreak(data, pos)
  {
    if pos < |data| {
      StopIsBreak(data, pos);
    }
  }

  // ---- the standard and the parser --------------------------------------------------------------

  function NoLimits(data: Bytes): Rules {
    Rules(CborLimits(|data|, |data|, false), false, (b: Bytes) => Err(Cbor))
  }

  /** Data is well-formed by the algorithm of appendix C exactly when it is a serialization of the
      grammar without two-byte simple values below 32. */
  lemma RfcIsCleanGrammar(data: Bytes)
    ensures RfcWellFormed(data) <==> exists s :: WellFormed(s) && Ser(s) == data && Clean(s)
  {
    if RfcWellFormed(data) {
      CheckedParses(data, Cursor(0, 0), 0, NoLimits(data));
      var s := RootWritten(data, NoLimits(data));
      WholeFound(s, data);
      assert WellFormed(s) && Ser(s) == data && Clean(s);
    }
    if s :| WellFormed(s) && Ser(s) == data && Clean(s) {
      WholeFound(s, data);
    }
  }

  lemma WholeFound(s: Syn, data: Bytes)
    requires WellFormed(s) && Ser(s) == data
    ensures RfcWellFormed(data) <==> Clean(s)
  {
    AtIsSlice(data, 0, Ser(s));
    assert data[0..|data|] == data;
    CheckFinds(s, data, 0, false);
  }

  /** What the strict parser accepts is well-formed exactly when no simple value below 32 stands in it
      in two bytes, and what is well-formed it accepts exactly within its limits and without duplicate
      keys. */
  lemma AcceptedIsRfc(data: Bytes, rules: Rules)
    ensures Root(data, rules).Ok? ==>
              (RfcWellFormed(data) <==> forall s, t :: WellFormed(s) && Ser(s) == data && Stands(t, s) ==> !ShortSimple(t))
    ensures RfcWellFormed(data) ==> exists s :: WellFormed(s) && Ser(s) == data && (Root(data, rules).Ok? <==> Admitted(s, 0, 0, rules))
  {
    if Root(data, rules).Ok? {
      var s := RootWritten(data, rules);
      OnlyReading(s, data);
    }
    if RfcWellFormed(data) {
      RfcIsCleanGrammar(data);
      var s :| WellFormed(s) && Ser(s) == data && Clean(s);
      AdmittedOrNot(s, data, rules);
    }
  }

  lemma OnlyReading(s: Syn, data: Bytes)
    requires WellFormed(s) && Ser(s) == data
    ensures RfcWellFormed(data) <==> forall r, t :: WellFormed(r) && Ser(r) == data && Stands(t, r) ==> !ShortSimple(t)
  {
    WholeFound(s, data);
    CleanMeans(s);
    forall r | WellFormed(r) && Ser(r) == data ensures r == s {
      SerInjective(r, s);
    }
  }

  lemma AdmittedOrNot(s: Syn, data: Bytes, rules: Rules)
    requires WellFormed(s) && Ser(s) == data
    ensures Root(data, rules).Ok? <==> Admitted(s, 0, 0, rules)
  {
    if Root(data, rules).Ok? {
      var r := RootWritten(data, rules);
      SerInjective(r, s);
    }
    if Admitted(s, 0, 0, rules) {
      WrittenParses(s, data, rules);
    }
  }

  /** The shortest input on which they differ. */
  lemma ShortSimpleAccepted(reencode: Bytes -> Result<Bytes>)
    ensures Root([0xf8, 0x00], Rules(DEFAULT_LIMITS, true, reencode)).Ok? && !RfcWellFormed([0xf8, 0x00])
  {
    var s := SimpleCode(One, 0);
    assert BigEndian(0, 1) == [0];
    assert Ser(s) == [0xf8, 0x00];
    WrittenParses(s, [0xf8, 0x00], Rules(DEFAULT_LIMITS, true, reencode));
    WholeFound(s, [0xf8, 0x00]);
  }
}
