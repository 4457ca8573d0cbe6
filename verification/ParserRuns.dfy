/** The strict parser as the source runs it: a cursor and an item counter that its methods advance,
    with one loop for each kind of container (src/strict.rs). Every method computes what
    `StrictParser` says. */
module ParserRuns {
  import opened Values
  import opened Heads
  import opened StrictParser

  /** What a loop returns that already holds `done` when the rest of it returns `rest`. */
  function After(done: seq<Item>, rest: Result<(seq<Item>, Cursor)>): Result<(seq<Item>, Cursor)> {
    match rest
    case Ok((items, end)) => Ok((done + items, end))
    case Err(e) => Err(e)
  }

  lemma AfterOneMore(done: seq<Item>, item: Item, rest: Result<(seq<Item>, Cursor)>)
    ensures After(done, After([item], rest)) == After(done + [item], rest)
  {
    if rest.Ok? {
      assert done + ([item] + rest.value.0) == done + [item] + rest.value.0;
    }
  }

  lemma AfterNothing(rest: Result<(seq<Item>, Cursor)>)
    ensures After([], rest) == rest
  {
    if rest.Ok? {
      assert [] + rest.value.0 == rest.value.0;
      assert rest.value == (rest.value.0, rest.value.1);
    }
  }

  lemma AfterAll(done: seq<Item>, end: Cursor)
    ensures After(done, Ok(([], end))) == Ok((done, end))
  {
    assert done + [] == done;
  }

  class Parser {
    const data: Bytes
    const rules: Rules
    var pos: nat
    var items: nat

    constructor (data: Bytes, rules: Rules)
      ensures this.data == data && this.rules == rules && pos == 0 && items == 0
    {
      this.data := data;
      this.rules := rules;
      pos := 0;
      items := 0;
    }

    ghost predicate Valid()
      reads this
    {
      pos <= |data|
    }

    ghost function Here(): Cursor
      reads this
    {
      Cursor(pos, items)
    }

    method NextByte() returns (r: Result<byte>)
      requires Valid()
      modifies this`pos
      ensures Valid()
      ensures if old(pos) < |data| then r == Ok(data[old(pos)]) && pos == old(pos) + 1
              else r == Err(Cbor) && pos == old(pos)
    {
      if pos >= |data| {
        return Err(Cbor);
      }
      r := Ok(data[pos]);
      pos := pos + 1;
    }

    /** Reads the argument the additional information announces. */
    method Uint(additional: byte) returns (r: Result<Option<nat>>)
      requires Valid() && additional < 32
      modifies this`pos
      ensures Valid() && old(pos) <= pos
      ensures match ReadArgument(data, old(pos), additional)
              case Ok((argument, end)) => r == Ok(argument) && pos == end
              case Err(e) => r == Err(e)
    {
      var width: nat;
      if additional < 24 {
        return Ok(Some(additional));
      } else if additional == 24 {
        width := 1;
      } else if additional == 25 {
        width := 2;
      } else if additional == 26 {
        width := 4;
      } else if additional == 27 {
        width := 8;
      } else if additional == 31 {
        return Ok(None);
      } else {
        return Err(Cbor);
      }
      if pos + width > |data| {
        return Err(Cbor);
      }
      var bytes := data[pos..pos + width];
      pos := pos + width;
      var value := Fold(bytes);
      r := Ok(Some(value));
    }

    /** The number a byte string denotes, accumulated from its front. */
    static method Fold(bytes: Bytes) returns (value: nat)
      ensures value == Unsigned(bytes)
    {
      value := 0;
      var i := 0;
      while i < |bytes|
        invariant 0 <= i <= |bytes| && value == Unsigned(bytes[..i])
      {
        assert bytes[..i + 1][..i] == bytes[..i];
        value := value * 256 + bytes[i];
        i := i + 1;
      }
      assert bytes[..|bytes|] == bytes;
    }

    method CountOne() returns (r: Result<()>)
      modifies this`items
      ensures match CountItem(Cursor(pos, old(items)), rules.limits)
              case Ok(c) => r == Ok(()) && items == c.items
              case Err(e) => r == Err(e)
    {
      items := items + 1;
      if items > rules.limits.maxItems {
        return Err(Limit);
      }
      r := Ok(());
    }

    /** `r` and the cursor are what parsing from `c` gives. */
    ghost predicate Parsed(r: Result<Item>, c: Cursor, depth: nat)
      requires c.pos <= |data|
      reads this
    {
      match r
      case Ok(item) => Parse(data, c, depth, rules) == Ok((item, Here()))
      case Err(e) => Parse(data, c, depth, rules) == Err(e)
    }

    method ParseItem(depth: nat) returns (r: Result<Item>)
      requires Valid()
      modifies this
      ensures Valid() && old(pos) <= pos
      ensures Parsed(r, old(Here()), depth)
      decreases |data| - pos, 0
    {
      if depth > rules.limits.maxDepth {
        return Err(Limit);
      }
      ghost var c := Here();
      var _ :- CountOne();
      var from := pos;
      var initial :- NextByte();
      if initial == 0xff {
        return Err(Cbor);
      }
      var major, additional := initial / 32, initial % 32;
      var argument :- Uint(additional);
      if argument.None? && !(2 <= major <= 5) {
        return Err(Cbor);
      }
      if argument.None? && rules.limits.requireDefinite {
        return Err(Cbor);
      }
      var contentStart := pos;
      ghost var start := Start(major, additional, argument, pos);
      assert ReadStart(data, c.pos, rules.limits) == Ok(start);
      var content :- ParseAfterHead(major, additional, argument, depth);
      r := Ok(Item(content.0, from, contentStart, pos, argument.None?, content.1));
    }

    /** The branch for each major type. */
    method ParseAfterHead(major: nat, additional: byte, argument: Option<nat>, depth: nat) returns (r: Result<(Kind, seq<Item>)>)
      requires Valid() && major < 8
      modifies this
      ensures Valid() && old(pos) <= pos
      ensures match ParseContent(data, Start(major, additional, argument, old(pos)), old(Here()), depth, rules)
              case Ok((kind, children, end)) => r == Ok((kind, children)) && Here() == end
              case Err(e) => r == Err(e)
      decreases |data| - pos, 3
    {
      if major == 0 {
        return Ok((UnsignedKind, []));
      } else if major == 1 {
        return Ok((NegativeKind, []));
      } else if major <= 3 {
        var kind := if major == 2 then BytesKind else TextKind;
        if argument.Some? {
          if pos + argument.value > |data| {
            return Err(Cbor);
          }
          pos := pos + argument.value;
          return Ok((kind, []));
        }
        var chunks :- ChunkLoop(depth, kind);
        return Ok((kind, chunks));
      } else if major == 4 {
        var children :- ItemLoop(depth, argument);
        return Ok((ArrayKind, children));
      } else if major == 5 {
        var _ :- PairLoop(depth, argument);
        return Ok((MapKind, []));
      } else if argument.None? {
        return Err(Cbor);
      } else if major == 6 {
        var child :- ParseItem(depth + 1);
        return Ok((TagKind(argument.value), [child]));
      } else if additional <= 24 {
        return Ok((SimpleKind(argument.value), []));
      }
      r := Ok((FloatKind, []));
    }

    method ChunkLoop(depth: nat, kind: Kind) returns (r: Result<seq<Item>>)
      requires Valid()
      modifies this
      ensures Valid() && old(pos) <= pos
      ensures match ParseChunks(data, old(Here()), depth, rules, kind)
              case Ok((chunks, end)) => r == Ok(chunks) && Here() == end
              case Err(e) => r == Err(e)
      decreases |data| - pos, 1
    {
      var children: seq<Item> := [];
      ghost var whole := ParseChunks(data, Here(), depth, rules, kind);
      AfterNothing(whole);
      while pos >= |data| || data[pos] != 0xff
        invariant Valid() && old(pos) <= pos
        invariant whole == After(children, ParseChunks(data, Here(), depth, rules, kind))
        decreases |data| - pos
      {
        ghost var c := Here();
        var chunk :- ParseItem(depth + 1);
        if chunk.kind != kind || chunk.indefinite {
          return Err(Cbor);
        }
        AfterOneMore(children, chunk, ParseChunks(data, Here(), depth, rules, kind));
        children := children + [chunk];
      }
      AfterAll(children, Here().(pos := pos + 1));
      pos := pos + 1;
      r := Ok(children);
    }

    method ItemLoop(depth: nat, length: Option<nat>) returns (r: Result<seq<Item>>)
      requires Valid()
      modifies this
      ensures Valid() && old(pos) <= pos
      ensures match ParseItems(data, old(Here()), depth, rules, length)
              case Ok((items, end)) => r == Ok(items) && Here() == end
              case Err(e) => r == Err(e)
      decreases |data| - pos, 2
    {
      if length.Some? {
        r := CountedItems(depth, length.value);
      } else {
        r := ItemsToBreak(depth);
      }
    }

    method CountedItems(depth: nat, length: nat) returns (r: Result<seq<Item>>)
      requires Valid()
      modifies this
      ensures Valid() && old(pos) <= pos
      ensures match ParseItems(data, old(Here()), depth, rules, Some(length))
              case Ok((items, end)) => r == Ok(items) && Here() == end
              case Err(e) => r == Err(e)
      decreases |data| - pos, 1
    {
      var children: seq<Item> := [];
      var i := 0;
      ghost var whole := ParseItems(data, Here(), depth, rules, Some(length));
      AfterNothing(whole);
      while i < length
        invariant 0 <= i <= length && Valid() && old(pos) <= pos
        invariant whole == After(children, ParseItems(data, Here(), depth, rules, Some(length - i)))
      {
        var item :- ParseItem(depth + 1);
        AfterOneMore(children, item, ParseItems(data, Here(), depth, rules, Some(length - i - 1)));
        children := children + [item];
        i := i + 1;
      }
      AfterAll(children, Here());
      r := Ok(children);
    }

    method ItemsToBreak(depth: nat) returns (r: Result<seq<Item>>)
      requires Valid()
      modifies this
      ensures Valid() && old(pos) <= pos
      ensures match ParseItems(data, old(Here()), depth, rules, None)
              case Ok((items, end)) => r == Ok(items) && Here() == end
              case Err(e) => r == Err(e)
      decreases |data| - pos, 1
    {
      var children: seq<Item> := [];
      ghost var whole := ParseItems(data, Here(), depth, rules, None);
      AfterNothing(whole);
      while pos >= |data| || data[pos] != 0xff
        invariant Valid() && old(pos) <= pos
        invariant whole == After(children, ParseItems(data, Here(), depth, rules, None))
        decreases |data| - pos
      {
        var item :- ParseItem(depth + 1);
        AfterOneMore(children, item, ParseItems(data, Here(), depth, rules, None));
        children := children + [item];
      }
      AfterAll(children, Here().(pos := pos + 1));
      pos := pos + 1;
      r := Ok(children);
    }

    method PairLoop(depth: nat, pairs: Option<nat>) returns (r: Result<()>)
      requires Valid()
      modifies this
      ensures Valid() && old(pos) <= pos
      ensures match ParsePairs(data, old(Here()), depth, rules, pairs, {})
              case Ok(end) => r == Ok(()) && Here() == end
              case Err(e) => r == Err(e)
      decreases |data| - pos, 2
    {
      var keys: set<Bytes> := {};
      var left := pairs;
      ghost var whole := ParsePairs(data, Here(), depth, rules, pairs, {});
      while true
        invariant Valid() && old(pos) <= pos
        invariant whole == ParsePairs(data, Here(), depth, rules, left, keys)
        decreases |data| - pos
      {
        if left.None? && pos < |data| && data[pos] == 0xff {
          pos := pos + 1;
          return Ok(());
        }
        if left == Some(0) {
          return Ok(());
        }
        var key :- ParseItem(depth + 1);
        if rules.rejectDuplicates {
          var code :- CanonicalKeyOf(key);
          if code in keys {
            return Err(Cbor);
          }
          keys := keys + {code};
        }
        if left.None? && pos < |data| && data[pos] == 0xff {
          return Err(Cbor);
        }
        var _ :- ParseItem(depth + 1);
        left := OneFewer(left);
      }
    }

    /** The bytes a key is compared by, with the argument of its head accumulated byte by byte. */
    method CanonicalKeyOf(key: Item) returns (r: Result<Bytes>)
      requires SpanIn(key, data)
      ensures r == CanonicalKey(data, key, rules.reencode)
    {
      var raw := data[key.start..key.end];
      if IsScalarKey(key) {
        var head := raw[..key.contentStart - key.start];
        var argument: nat := head[0] % 32;
        if argument >= 24 {
          argument := Fold(head[1..]);
        }
        var preferred: nat :=
          if argument <= 23 then 1 else if argument <= 0xff then 2 else if argument <= 0xffff then 3
          else if argument <= 0xffff_ffff then 5 else 9;
        if |head| == preferred {
          return Ok(raw);
        }
      }
      r := rules.reencode(raw);
    }
  }

  method RunRoot(data: Bytes, rules: Rules) returns (r: Result<Item>)
    ensures r == Root(data, rules)
  {
    var parser := new Parser(data, rules);
    var item :- parser.ParseItem(0);
    if parser.pos != |data| {
      return Err(Cbor);
    }
    r := Ok(item);
  }
}
