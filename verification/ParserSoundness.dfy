/** Whatever the strict parser accepts is a serialization within the limits. */
module ParserSoundness {
  import opened Values
  import opened Heads
  import opened Syntax
  import opened StrictParser
  import opened ParserGrammar

  /** `s` stands at the cursor and respects the limits there. */
  ghost predicate Stands(s: Syn, data: Bytes, c: Cursor, depth: nat, rules: Rules) {
    WellFormed(s) && At(data, c.pos, Ser(s)) && Admitted(s, c.items, depth, rules)
  }

  lemma SerStart(data: Bytes, pos: nat, start: Start, limits: CborLimits) returns (form: Form)
    requires ReadStart(data, pos, limits) == Ok(start)
    ensures form.Definite? <==> start.argument.Some?
    ensures limits.requireDefinite ==> form.Definite?
    ensures FormLength(form) == start.pos - pos
    ensures form.Definite? ==>
              && Fits(start.argument.value, form.width) && start.argument.value < TWO_64
              && start.additional == Additional(form.width, start.argument.value)
              && At(data, pos, Head(start.major, start.argument.value, form.width))
    ensures form.Indefinite? ==> 2 <= start.major <= 5 && At(data, pos, [Initial(start.major, 31)])
  {
    if start.argument.Some? {
      var w := ReadsHead(data, pos);
      AtIsSlice(data, pos, Head(start.major, start.argument.value, w));
      form := Definite(w);
    } else {
      form := Indefinite;
    }
  }

  lemma AtSlice(data: Bytes, from: nat, to: nat)
    requires from <= to <= |data|
    ensures At(data, from, data[from..to])
  {
    AtIsSlice(data, from, data[from..to]);
  }

  lemma BreakStands(data: Bytes, pos: nat)
    requires AtBreak(data, pos)
    ensures At(data, pos, [BREAK])
  {
  }

  lemma {:induction false} ParsedStands(data: Bytes, c: Cursor, depth: nat, rules: Rules) returns (s: Syn)
    requires c.pos <= |data| && Parse(data, c, depth, rules).Ok?
    ensures Stands(s, data, c, depth, rules) && Accepts(Parse(data, c, depth, rules), s, c)
    decreases |data| - c.pos, 0
  {
    var start := ReadStart(data, c.pos, rules.limits).value;
    var form := SerStart(data, c.pos, start, rules.limits);
    s := ContentStands(data, c, depth, rules, start, form);
    AdmittedParses(s, data, c, depth, rules);
  }

  ghost predicate Opens(data: Bytes, c: Cursor, rules: Rules, start: Start, form: Form) {
    && start.major < 8 && start.pos == c.pos + FormLength(form) && start.pos <= |data|
    && (form.Definite? <==> start.argument.Some?)
    && (rules.limits.requireDefinite ==> form.Definite?)
    && (form.Definite? ==>
          && Fits(start.argument.value, form.width) && start.argument.value < TWO_64
          && start.additional == Additional(form.width, start.argument.value)
          && At(data, c.pos, Head(start.major, start.argument.value, form.width)))
    && (form.Indefinite? ==> 2 <= start.major <= 5 && At(data, c.pos, [Initial(start.major, 31)]))
  }

  lemma {:induction false} ContentStands(data: Bytes, c: Cursor, depth: nat, rules: Rules, start: Start, form: Form) returns (s: Syn)
    requires depth <= rules.limits.maxDepth && c.items + 1 <= rules.limits.maxItems
    requires Opens(data, c, rules, start, form)
    requires ParseContent(data, start, Cursor(start.pos, c.items + 1), depth, rules).Ok?
    ensures Stands(s, data, c, depth, rules)
    decreases |data| - start.pos, 4
  {
    if start.major <= 1 {
      s := Number(start.major == 1, form.width, start.argument.value);
    } else if start.major <= 3 && form.Definite? {
      s := StringStands(data, c, depth, rules, start, form);
    } else if start.major <= 3 {
      s := ChunkedStands(data, c, depth, rules, start, form);
    } else if start.major == 4 {
      s := ListStands(data, c, depth, rules, start, form);
    } else if start.major == 5 {
      s := TableStands(data, c, depth, rules, start, form);
    } else if start.major == 6 {
      s := TaggedStands(data, c, depth, rules, start, form);
    } else {
      s := SimpleStands(data, c, depth, rules, start, form);
    }
  }

  lemma {:induction false} ChunkedStands(data: Bytes, c: Cursor, depth: nat, rules: Rules, start: Start, form: Form) returns (s: Syn)
    requires depth <= rules.limits.maxDepth && c.items + 1 <= rules.limits.maxItems
    requires Opens(data, c, rules, start, form) && 2 <= start.major <= 3 && form.Indefinite?
    requires ParseContent(data, start, Cursor(start.pos, c.items + 1), depth, rules).Ok?
    ensures Stands(s, data, c, depth, rules)
    decreases |data| - start.pos, 2
  {
    hide At, Ser, ParseChunks, SerChunks;
    var c1 := Cursor(start.pos, c.items + 1);
    var text := start.major == 3;
    var chunks := ChunksFound(data, c1, depth, rules, text);
    s := Chunked(text, chunks);
    ChunkedFound(text, chunks, data, c, depth, rules);
  }

  lemma ChunkedFound(text: bool, chunks: seq<Chunk>, data: Bytes, c: Cursor, depth: nat, rules: Rules)
    requires depth <= rules.limits.maxDepth && !rules.limits.requireDefinite
    requires At(data, c.pos, [Initial(StringMajor(text), 31)])
    requires ChunksStanding(text, chunks, data, Cursor(c.pos + 1, c.items + 1), depth, rules)
    ensures Stands(Chunked(text, chunks), data, c, depth, rules)
  {
    var opening := [Initial(StringMajor(text), 31)];
    AtSplit(data, c.pos, opening, SerChunks(text, chunks));
    AtSplit(data, c.pos, opening + SerChunks(text, chunks), [BREAK]);
  }

  lemma {:induction false} ListStands(data: Bytes, c: Cursor, depth: nat, rules: Rules, start: Start, form: Form) returns (s: Syn)
    requires depth <= rules.limits.maxDepth && c.items + 1 <= rules.limits.maxItems
    requires Opens(data, c, rules, start, form) && start.major == 4
    requires ParseContent(data, start, Cursor(start.pos, c.items + 1), depth, rules).Ok?
    ensures Stands(s, data, c, depth, rules)
    decreases |data| - start.pos, 2
  {
    var c1 := Cursor(start.pos, c.items + 1);
    var items := ItemsFound(data, c1, depth, rules, form, start.argument);
    s := List(form, items);
    ListFound(data, c, depth, rules, form, items);
  }

  lemma ListFound(data: Bytes, c: Cursor, depth: nat, rules: Rules, form: Form, items: seq<Syn>)
    requires FormFits(form, |items|) && At(data, c.pos, Opening(4, form, |items|)) && (rules.limits.requireDefinite ==> form.Definite?)
    requires ItemsStand(form, items, data, Cursor(c.pos + FormLength(form), c.items + 1), depth, rules)
    ensures Stands(List(form, items), data, c, depth, rules)
  {
    Enclosed(data, c.pos, 4, form, |items|, SerItems(items));
  }

  lemma {:induction false} TableStands(data: Bytes, c: Cursor, depth: nat, rules: Rules, start: Start, form: Form) returns (s: Syn)
    requires depth <= rules.limits.maxDepth && c.items + 1 <= rules.limits.maxItems
    requires Opens(data, c, rules, start, form) && start.major == 5
    requires ParseContent(data, start, Cursor(start.pos, c.items + 1), depth, rules).Ok?
    ensures Stands(s, data, c, depth, rules)
    decreases |data| - start.pos, 3
  {
    var c1 := Cursor(start.pos, c.items + 1);
    var pairs := PairsFound(data, c1, depth, rules, form, start.argument, {});
    s := Table(form, pairs);
    TableFound(data, c, depth, rules, form, pairs);
  }

  lemma TableFound(data: Bytes, c: Cursor, depth: nat, rules: Rules, form: Form, pairs: seq<Pair>)
    requires FormFits(form, |pairs|) && At(data, c.pos, Opening(5, form, |pairs|)) && (rules.limits.requireDefinite ==> form.Definite?)
    requires PairsStand(form, pairs, data, Cursor(c.pos + FormLength(form), c.items + 1), depth, rules, {})
    ensures Stands(Table(form, pairs), data, c, depth, rules)
  {
    Enclosed(data, c.pos, 5, form, |pairs|, SerPairs(pairs));
  }

  lemma {:induction false} TaggedStands(data: Bytes, c: Cursor, depth: nat, rules: Rules, start: Start, form: Form) returns (s: Syn)
    requires depth <= rules.limits.maxDepth && c.items + 1 <= rules.limits.maxItems
    requires Opens(data, c, rules, start, form) && start.major == 6 && form.Definite?
    requires ParseContent(data, start, Cursor(start.pos, c.items + 1), depth, rules).Ok?
    ensures Stands(s, data, c, depth, rules)
    decreases |data| - start.pos, 2
  {
    var c1 := Cursor(start.pos, c.items + 1);
    var inner := ParsedStands(data, c1, depth + 1, rules);
    AtSplit(data, c.pos, Head(6, start.argument.value, form.width), Ser(inner));
    s := Tagged(form.width, start.argument.value, inner);
  }

  lemma {:induction false} StringStands(data: Bytes, c: Cursor, depth: nat, rules: Rules, start: Start, form: Form) returns (s: Syn)
    requires depth <= rules.limits.maxDepth && c.items + 1 <= rules.limits.maxItems
    requires Opens(data, c, rules, start, form) && 2 <= start.major <= 3 && form.Definite?
    requires start.pos + start.argument.value <= |data|
    ensures Stands(s, data, c, depth, rules)
  {
    var content := data[start.pos..start.pos + start.argument.value];
    AtSlice(data, start.pos, start.pos + start.argument.value);
    AtSplit(data, c.pos, Head(start.major, |content|, form.width), content);
    s := Str(start.major == 3, Chunk(form.width, content));
  }

  lemma {:induction false} SimpleStands(data: Bytes, c: Cursor, depth: nat, rules: Rules, start: Start, form: Form) returns (s: Syn)
    requires depth <= rules.limits.maxDepth && c.items + 1 <= rules.limits.maxItems
    requires Opens(data, c, rules, start, form) && start.major == 7 && form.Definite?
    ensures Stands(s, data, c, depth, rules)
  {
    Pow256Values();
    if start.additional <= 24 {
      s := SimpleCode(form.width, start.argument.value);
    } else {
      s := FloatBits(form.width, start.argument.value);
    }
  }

  lemma Enclosed(data: Bytes, pos: nat, major: nat, form: Form, n: nat, body: Bytes)
    requires 4 <= major <= 5 && FormFits(form, n)
    requires At(data, pos, Opening(major, form, n)) && At(data, pos + FormLength(form), body)
    requires At(data, pos + FormLength(form) + |body|, Closing(form))
    ensures At(data, pos, Opening(major, form, n) + body + Closing(form))
  {
    AtSplit(data, pos, Opening(major, form, n), body);
    AtSplit(data, pos, Opening(major, form, n) + body, Closing(form));
  }

  /** `left` is what the form still announces. */
  ghost predicate Expects(form: Form, left: Option<nat>) {
    form.Definite? <==> left.Some?
  }

  /** What the loop over string chunks found. */
  ghost predicate ChunksStanding(text: bool, chunks: seq<Chunk>, data: Bytes, c: Cursor, depth: nat, rules: Rules) {
    && (forall i :: 0 <= i < |chunks| ==> ChunkFits(chunks[i]))
    && At(data, c.pos, SerChunks(text, chunks)) && At(data, c.pos + |SerChunks(text, chunks)|, [BREAK])
    && (chunks != [] ==> depth + 1 <= rules.limits.maxDepth)
    && c.items + |chunks| <= rules.limits.maxItems
  }

  lemma {:induction false} ChunksFound(data: Bytes, c: Cursor, depth: nat, rules: Rules, text: bool) returns (chunks: seq<Chunk>)
    requires c.pos <= |data| && c.items <= rules.limits.maxItems
    requires ParseChunks(data, c, depth, rules, if text then TextKind else BytesKind).Ok?
    ensures ChunksStanding(text, chunks, data, c, depth, rules)
    decreases |data| - c.pos, 1
  {
    if AtBreak(data, c.pos) {
      chunks := [];
      BreakStands(data, c.pos);
    } else {
      var first := ParsedStands(data, c, depth + 1, rules);
      var next := Parse(data, c, depth + 1, rules).value.1;
      ChunkIsStr(first, c.pos, text);
      var rest := ChunksFound(data, next, depth, rules, text);
      chunks := [first.chunk] + rest;
      OneChunkMore(text, first.chunk, rest, data, c, next, depth, rules);
    }
  }

  /** Of the strings only a definite one is not indefinite. */
  lemma ChunkIsStr(s: Syn, at: nat, text: bool)
    requires WellFormed(s) && !ItemOf(s, at).indefinite && ItemOf(s, at).kind == if text then TextKind else BytesKind
    ensures s.Str? && s.text == text && ChunkFits(s.chunk) && Ser(s) == SerChunk(text, s.chunk) && Items(s) == 1 && Nesting(s) == 0
  {
  }

  lemma OneChunkMore(text: bool, first: Chunk, rest: seq<Chunk>, data: Bytes, c: Cursor, next: Cursor, depth: nat, rules: Rules)
    requires ChunkFits(first) && At(data, c.pos, SerChunk(text, first)) && depth + 1 <= rules.limits.maxDepth
    requires next.pos == c.pos + |SerChunk(text, first)| && next.items == c.items + 1
    requires ChunksStanding(text, rest, data, next, depth, rules)
    ensures ChunksStanding(text, [first] + rest, data, c, depth, rules)
  {
    assert ([first] + rest)[1..] == rest;
    AtSplit(data, c.pos, SerChunk(text, first), SerChunks(text, rest));
  }

  lemma {:induction false} ItemsFound(data: Bytes, c: Cursor, depth: nat, rules: Rules, form: Form, left: Option<nat>) returns (items: seq<Syn>)
    requires c.pos <= |data| && Expects(form, left) && depth <= rules.limits.maxDepth && c.items <= rules.limits.maxItems
    requires ParseItems(data, c, depth, rules, left).Ok?
    ensures left.Some? ==> |items| == left.value
    ensures ItemsStand(form, items, data, c, depth, rules)
    decreases |data| - c.pos, 1
  {
    if left == Some(0) {
      items := [];
    } else if left.None? && AtBreak(data, c.pos) {
      items := [];
      BreakStands(data, c.pos);
    } else {
      var first := ParsedStands(data, c, depth + 1, rules);
      var next := Parse(data, c, depth + 1, rules).value.1;
      var rest := ItemsFound(data, next, depth, rules, form, OneFewer(left));
      items := [first] + rest;
      OneItemMore(form, first, rest, data, c, next, depth, rules);
    }
  }

  /** An item that stands in front of items that stand. */
  lemma OneItemMore(form: Form, first: Syn, rest: seq<Syn>, data: Bytes, c: Cursor, next: Cursor, depth: nat, rules: Rules)
    requires Stands(first, data, c, depth + 1, rules) && ItemsStand(form, rest, data, next, depth, rules)
    requires next.pos == c.pos + |Ser(first)| && next.items == c.items + Items(first)
    ensures ItemsStand(form, [first] + rest, data, c, depth, rules)
  {
    assert ([first] + rest)[1..] == rest;
    AtSplit(data, c.pos, Ser(first), SerItems(rest));
  }

  lemma {:induction false} PairsFound(data: Bytes, c: Cursor, depth: nat, rules: Rules, form: Form, left: Option<nat>, keys: set<Bytes>)
    returns (pairs: seq<Pair>)
    requires c.pos <= |data| && Expects(form, left) && depth <= rules.limits.maxDepth && c.items <= rules.limits.maxItems
    requires ParsePairs(data, c, depth, rules, left, keys).Ok?
    ensures left.Some? ==> |pairs| == left.value
    ensures PairsStand(form, pairs, data, c, depth, rules, keys)
    decreases |data| - c.pos, 2
  {
    if left == Some(0) {
      pairs := [];
    } else if left.None? && AtBreak(data, c.pos) {
      pairs := [];
      BreakStands(data, c.pos);
    } else {
      var p := PairStands(data, c, depth, rules, keys);
      var next := Parse(data, c, depth + 1, rules).value.1;
      var next1 := Parse(data, next, depth + 1, rules).value.1;
      var rest := PairsFound(data, next1, depth, rules, form, OneFewer(left), WithKey(p.key, rules, keys));
      pairs := [p] + rest;
      OnePairMore(form, p, rest, data, c, next1, depth, rules, keys);
    }
  }

  /** What standing means for one pair, before `keys` are used. */
  ghost predicate PairStanding(p: Pair, data: Bytes, c: Cursor, depth: nat, rules: Rules, keys: set<Bytes>) {
    && WellFormedPair(p) && At(data, c.pos, SerPair(p))
    && depth + 1 + NestingOfPair(p) <= rules.limits.maxDepth
    && c.items + ItemsOfPair(p) <= rules.limits.maxItems
    && (rules.limits.requireDefinite ==> AllDefinitePair(p))
    && (rules.rejectDuplicates ==>
          DistinctPair(p, rules.reencode) && KeyCode(p.key, rules.reencode).Ok? && KeyCode(p.key, rules.reencode).value !in keys)
  }

  /** A pair that stands in front of pairs that stand. */
  lemma OnePairMore(form: Form, p: Pair, rest: seq<Pair>, data: Bytes, c: Cursor, next: Cursor, depth: nat, rules: Rules, keys: set<Bytes>)
    requires PairStanding(p, data, c, depth, rules, keys)
    requires PairsStand(form, rest, data, next, depth, rules, WithKey(p.key, rules, keys))
    requires next.pos == c.pos + |SerPair(p)| && next.items == c.items + ItemsOfPair(p)
    ensures PairsStand(form, [p] + rest, data, c, depth, rules, keys)
  {
    assert ([p] + rest)[1..] == rest;
    AtSplit(data, c.pos, SerPair(p), SerPairs(rest));
  }

  lemma {:induction false} PairStands(data: Bytes, c: Cursor, depth: nat, rules: Rules, keys: set<Bytes>) returns (p: Pair)
    requires c.pos <= |data|
    requires Parse(data, c, depth + 1, rules).Ok?
    requires AddKey(data, Parse(data, c, depth + 1, rules).value.0, rules, keys).Ok?
    requires Parse(data, Parse(data, c, depth + 1, rules).value.1, depth + 1, rules).Ok?
    ensures PairStanding(p, data, c, depth, rules, keys)
    ensures var next := Parse(data, c, depth + 1, rules).value.1;
            var end := Parse(data, next, depth + 1, rules).value.1;
            && end.pos == c.pos + |SerPair(p)| && end.items == c.items + ItemsOfPair(p)
            && AddKey(data, Parse(data, c, depth + 1, rules).value.0, rules, keys) == Ok(WithKey(p.key, rules, keys))
    decreases |data| - c.pos, 1
  {
    var key := ParsedStands(data, c, depth + 1, rules);
    var next := Parse(data, c, depth + 1, rules).value.1;
    var val := ParsedStands(data, next, depth + 1, rules);
    p := Pair(key, val);
    CanonicalKeyIsKeyCode(key, data, c.pos, rules.reencode);
    KeyAndValueStand(key, val, data, c, next, depth, rules, keys);
  }

  lemma KeyAndValueStand(key: Syn, val: Syn, data: Bytes, c: Cursor, next: Cursor, depth: nat, rules: Rules, keys: set<Bytes>)
    requires Stands(key, data, c, depth + 1, rules) && Stands(val, data, next, depth + 1, rules)
    requires next.pos == c.pos + |Ser(key)| && next.items == c.items + Items(key)
    requires rules.rejectDuplicates ==> KeyCode(key, rules.reencode).Ok? && KeyCode(key, rules.reencode).value !in keys
    ensures PairStanding(Pair(key, val), data, c, depth, rules, keys)
  {
    AtSplit(data, c.pos, Ser(key), Ser(val));
  }
}
