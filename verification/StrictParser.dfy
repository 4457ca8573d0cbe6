/** What the strict CBOR parser computes: the meaning of `Parser` in src/strict.rs as functions that
    thread its cursor. `ParserRuns` runs the source's own loops against these functions. The decoder
    and deterministic encoder that rewrite unusual map keys are the function `reencode`. */
module StrictParser {
  import opened Values
  import opened Heads

  datatype CborLimits = CborLimits(maxDepth: nat, maxItems: nat, requireDefinite: bool)

  const DEFAULT_LIMITS := CborLimits(128, 100_000, false)

  datatype Rules = Rules(limits: CborLimits, rejectDuplicates: bool, reencode: Bytes -> Result<Bytes>)

  datatype Kind =
    | UnsignedKind
    | NegativeKind
    | BytesKind
    | TextKind
    | ArrayKind
    | MapKind
    | TagKind(tag: nat)
    | SimpleKind(code: nat)
    | FloatKind

  /** A parsed item with its exact span. The entries of a map are not retained. */
  datatype Item = Item(
    kind: Kind,
    start: nat,
    contentStart: nat,
    end: nat,
    indefinite: bool,
    children: seq<Item>)

  datatype Cursor = Cursor(pos: nat, items: nat)

  predicate SpanIn(item: Item, data: Bytes) {
    item.start < item.contentStart <= item.end <= |data| && item.contentStart <= item.start + 9
  }

  function CountItem(c: Cursor, limits: CborLimits): (r: Result<Cursor>)
    ensures r.Ok? ==> r.value == c.(items := c.items + 1) && r.value.items <= limits.maxItems
  {
    if c.items + 1 > limits.maxItems then Err(Limit) else Ok(c.(items := c.items + 1))
  }

  datatype Start = Start(major: nat, additional: byte, argument: Option<nat>, pos: nat)

  /** Reads the head of an item and applies what does not depend on the content. */
  function ReadStart(data: Bytes, pos: nat, limits: CborLimits): (r: Result<Start>)
    ensures r.Ok? ==> pos < r.value.pos <= |data| && r.value.pos <= pos + 9 && r.value.major < 8
    ensures r.Ok? ==> r.value.major == data[pos] / 32 && r.value.additional == data[pos] % 32
    ensures r.Ok? ==> ReadArgument(data, pos + 1, data[pos] % 32) == Ok((r.value.argument, r.value.pos))
    ensures r.Ok? && r.value.argument.None? ==> 2 <= r.value.major <= 5 && !limits.requireDefinite && data[pos] != 0xff
  {
    if pos >= |data| then Err(Cbor) else
    if data[pos] == 0xff then Err(Cbor) else
    var major, additional := data[pos] / 32, data[pos] % 32;
    var (argument, next) :- ReadArgument(data, pos + 1, additional);
    if argument.None? && !(2 <= major <= 5) then Err(Cbor) else
    if argument.None? && limits.requireDefinite then Err(Cbor) else
    Ok(Start(major, additional, argument, next))
  }

  function StringKind(major: nat): Kind {
    if major == 2 then BytesKind else TextKind
  }

  function Parse(data: Bytes, c: Cursor, depth: nat, rules: Rules): (r: Result<(Item, Cursor)>)
    requires c.pos <= |data|
    ensures r.Ok? ==> SpanIn(r.value.0, data)
    ensures r.Ok? ==> r.value.0.start == c.pos && r.value.0.end == r.value.1.pos
    decreases |data| - c.pos, 0
  {
    if depth > rules.limits.maxDepth then Err(Limit) else
    var counted :- CountItem(c, rules.limits);
    var start :- ReadStart(data, c.pos, rules.limits);
    var (kind, children, end) :- ParseContent(data, start, counted.(pos := start.pos), depth, rules);
    Ok((Item(kind, c.pos, start.pos, end.pos, start.argument.None?, children), end))
  }

  /** The content behind a head: the kind of the item, its retained children, and where it ends. */
  function ParseContent(data: Bytes, start: Start, c: Cursor, depth: nat, rules: Rules): (r: Result<(Kind, seq<Item>, Cursor)>)
    requires start.pos == c.pos <= |data| && start.major < 8
    ensures r.Ok? ==> c.pos <= r.value.2.pos <= |data|
    decreases |data| - c.pos, 3
  {
    if start.major == 0 then Ok((UnsignedKind, [], c))
    else if start.major == 1 then Ok((NegativeKind, [], c))
    else if start.major <= 3 then
      var kind := StringKind(start.major);
      match start.argument
      case Some(length) =>
        if c.pos + length > |data| then Err(Cbor) else Ok((kind, [], c.(pos := c.pos + length)))
      case None =>
        var (children, end) :- ParseChunks(data, c, depth, rules, kind);
        Ok((kind, children, end))
    else if start.major == 4 then
      var (children, end) :- ParseItems(data, c, depth, rules, start.argument);
      Ok((ArrayKind, children, end))
    else if start.major == 5 then
      var end :- ParsePairs(data, c, depth, rules, start.argument, {});
      Ok((MapKind, [], end))
    else if start.argument.None? then Err(Cbor)
    else if start.major == 6 then
      var (child, end) :- Parse(data, c, depth + 1, rules);
      Ok((TagKind(start.argument.value), [child], end))
    else if start.additional <= 24 then Ok((SimpleKind(start.argument.value), [], c))
    else Ok((FloatKind, [], c))
  }

  predicate AtBreak(data: Bytes, pos: nat) {
    pos < |data| && data[pos] == 0xff
  }

  /** The chunks of an indefinite-length string up to the break. */
  function ParseChunks(data: Bytes, c: Cursor, depth: nat, rules: Rules, kind: Kind): (r: Result<(seq<Item>, Cursor)>)
    requires c.pos <= |data|
    ensures r.Ok? ==> c.pos <= r.value.1.pos <= |data|
    decreases |data| - c.pos, 1
  {
    if AtBreak(data, c.pos) then Ok(([], c.(pos := c.pos + 1))) else
    var (chunk, next) :- Parse(data, c, depth + 1, rules);
    if chunk.kind != kind || chunk.indefinite then Err(Cbor) else
    var (chunks, end) :- ParseChunks(data, next, depth, rules, kind);
    Ok(([chunk] + chunks, end))
  }

  /** The items of an array: as many as `left` says, or up to the break. */
  function ParseItems(data: Bytes, c: Cursor, depth: nat, rules: Rules, left: Option<nat>): (r: Result<(seq<Item>, Cursor)>)
    requires c.pos <= |data|
    ensures r.Ok? ==> c.pos <= r.value.1.pos <= |data|
    decreases |data| - c.pos, 1
  {
    if left == Some(0) then Ok(([], c))
    else if left.None? && AtBreak(data, c.pos) then Ok(([], c.(pos := c.pos + 1)))
    else
      var (item, next) :- Parse(data, c, depth + 1, rules);
      var (items, end) :- ParseItems(data, next, depth, rules, OneFewer(left));
      Ok(([item] + items, end))
  }

  /** One item fewer to come. */
  function OneFewer(left: Option<nat>): Option<nat>
    requires left != Some(0)
  {
    match left
    case Some(n) => Some(n - 1)
    case None => None
  }

  /** The pairs of a map; `keys` are the deterministic encodings of the keys so far. */
  function ParsePairs(data: Bytes, c: Cursor, depth: nat, rules: Rules, left: Option<nat>, keys: set<Bytes>): (r: Result<Cursor>)
    requires c.pos <= |data|
    ensures r.Ok? ==> c.pos <= r.value.pos <= |data|
    decreases |data| - c.pos, 2
  {
    if left.None? && AtBreak(data, c.pos) then Ok(c.(pos := c.pos + 1))
    else if left == Some(0) then Ok(c)
    else
      var (key, next) :- Parse(data, c, depth + 1, rules);
      var keys1 :- AddKey(data, key, rules, keys);
      if left.None? && AtBreak(data, next.pos) then Err(Cbor) else
      var (_, next1) :- Parse(data, next, depth + 1, rules);
      ParsePairs(data, next1, depth, rules, OneFewer(left), keys1)
  }

  function AddKey(data: Bytes, key: Item, rules: Rules, keys: set<Bytes>): Result<set<Bytes>>
    requires SpanIn(key, data)
  {
    if !rules.rejectDuplicates then Ok(keys) else
    var code :- CanonicalKey(data, key, rules.reencode);
    if code in keys then Err(Cbor) else Ok(keys + {code})
  }

  predicate IsScalarKey(key: Item) {
    || key.kind == UnsignedKind || key.kind == NegativeKind
    || ((key.kind == BytesKind || key.kind == TextKind) && !key.indefinite)
  }

  /** The argument of a definite head. */
  function HeadArgument(head: Bytes): (n: nat)
    requires 0 < |head| <= 9
    ensures n < TWO_64
  {
    if head[0] % 32 < 24 then head[0] % 32 else
    HeadArgumentFits(head[1..]);
    Unsigned(head[1..])
  }

  lemma {:induction false} HeadArgumentFits(bytes: Bytes)
    requires |bytes| <= 8
    ensures Unsigned(bytes) < TWO_64
  {
    Pow256Values();
    Pow256Grows(|bytes|, 8);
  }

  /** The bytes a map key is compared by: a key that is already deterministic is compared in place,
      any other is decoded and encoded again. */
  function CanonicalKey(data: Bytes, key: Item, reencode: Bytes -> Result<Bytes>): Result<Bytes>
    requires SpanIn(key, data)
  {
    var raw := data[key.start..key.end];
    var head := raw[..key.contentStart - key.start];
    if IsScalarKey(key) && |head| == 1 + Extra(Preferred(HeadArgument(head))) then Ok(raw) else reencode(raw)
  }

  function Root(data: Bytes, rules: Rules): (r: Result<Item>)
    ensures r.Ok? ==> SpanIn(r.value, data) && r.value.start == 0 && r.value.end == |data|
  {
    var (item, end) :- Parse(data, Cursor(0, 0), 0, rules);
    if end.pos != |data| then Err(Cbor) else Ok(item)
  }
}
