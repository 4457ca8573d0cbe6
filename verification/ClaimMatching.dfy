/** Comparing two restored copies of the same claims while some of either copy is still hidden, and
    removing what stays hidden (sd-cwt/src/validation.rs). `canon` stands for the deterministic CBOR
    encoder. */
module ClaimMatching {
  import opened Values

  type Canon = Value -> Bytes

  predicate HasHidden(entries: seq<Entry>) {
    exists i :: 0 <= i < |entries| && entries[i].key == REDACTED_KEYS_LABEL
  }

  /** The visible entries of a map by label; the last of several equal labels stays. */
  function VisibleByLabel(entries: seq<Entry>, seen: map<Label, Value>): Result<map<Label, Value>> {
    if entries == [] then Ok(seen)
    else if entries[0].key == REDACTED_KEYS_LABEL then VisibleByLabel(entries[1..], seen)
    else
      match LabelOf(entries[0].key)
      case None => Err(UnexpectedType)
      case Some(key) => VisibleByLabel(entries[1..], seen[key := entries[0].val])
  }

  /** The number of array items that are not redacted elements. */
  function KnownCount(items: seq<Value>): (n: nat)
    ensures n <= |items|
  {
    if items == [] then 0
    else KnownCount(items[1..]) + if IsRedactedElement(items[0]) then 0 else 1
  }

  /** How many items at the front are known. */
  function KnownFront(items: seq<Value>): (n: nat)
    ensures n <= |items|
  {
    if items == [] || IsRedactedElement(items[0]) then 0 else 1 + KnownFront(items[1..])
  }

  /** How many items at the back are known. */
  function KnownBack(items: seq<Value>): (n: nat)
    ensures n <= |items|
  {
    if items == [] || IsRedactedElement(items[|items| - 1]) then 0 else 1 + KnownBack(items[..|items| - 1])
  }

  function Min(a: nat, b: nat): nat {
    if a < b then a else b
  }

  function ClaimValuesMatch(left: Value, right: Value, canon: Canon): Result<bool>
    decreases left, 3
  {
    if left.Map? && right.Map? then
      MapsMatch(left.entries, right.entries, canon)
    else if left.Array? && right.Array? then
      ArraysMatch(left.items, right.items, canon)
    else if left.Tag? && right.Tag? && left.tag == right.tag then
      ClaimValuesMatch(left.inner, right.inner, canon)
    else
      Ok(canon(left) == canon(right))
  }

  function MapsMatch(left: seq<Entry>, right: seq<Entry>, canon: Canon): Result<bool>
    decreases left, 2
  {
    var values :- VisibleByLabel(right, map[]);
    var rest :- EntriesMatch(left, values, HasHidden(right), canon);
    match rest
    case None => Ok(false)
    case Some(rest) => Ok(HasHidden(left) || rest == map[])
  }

  /** What is left of `values` once every visible entry of `left` found its partner, or `None` at
      the first disagreement. */
  function EntriesMatch(left: seq<Entry>, values: map<Label, Value>, rightHidden: bool, canon: Canon)
    : Result<Option<map<Label, Value>>>
    decreases left, 1
  {
    if left == [] then Ok(Some(values)) else
    var found :- EntryMatches(left[0], values, rightHidden, canon);
    match found
    case None => Ok(None)
    case Some(rest) => EntriesMatch(left[1..], rest, rightHidden, canon)
  }

  function EntryMatches(e: Entry, values: map<Label, Value>, rightHidden: bool, canon: Canon)
    : Result<Option<map<Label, Value>>>
    decreases e, 0
  {
    if e.key == REDACTED_KEYS_LABEL then Ok(Some(values)) else
    match LabelOf(e.key)
    case None => Err(UnexpectedType)
    case Some(key) =>
      if key !in values then Ok(if rightHidden then Some(values) else None) else
      var same :- ClaimValuesMatch(e.val, values[key], canon);
      Ok(if same then Some(values - {key}) else None)
  }

  function ArraysMatch(left: seq<Value>, right: seq<Value>, canon: Canon): Result<bool>
    decreases left, 2
  {
    if KnownCount(left) > |right| || KnownCount(right) > |left| then Ok(false)
    else if KnownCount(left) == |left| && KnownCount(right) == |right| then
      FrontsMatch(left, right, 0, Min(|left|, |right|), canon)
    else
      var front :- FrontsMatch(left, right, 0, Min(KnownFront(left), KnownFront(right)), canon);
      if !front then Ok(false)
      else BacksMatch(left, right, 0, Min(KnownBack(left), KnownBack(right)), canon)
  }

  /** Compares items `i..n` counted from the front. */
  function FrontsMatch(left: seq<Value>, right: seq<Value>, i: nat, n: nat, canon: Canon): Result<bool>
    requires i <= n <= |left| && n <= |right|
    decreases left, 1, n - i
  {
    if i == n then Ok(true) else
    var same :- ClaimValuesMatch(left[i], right[i], canon);
    if !same then Ok(false) else FrontsMatch(left, right, i + 1, n, canon)
  }

  /** Compares items `i..n` counted from the back. */
  function BacksMatch(left: seq<Value>, right: seq<Value>, i: nat, n: nat, canon: Canon): Result<bool>
    requires i <= n <= |left| && n <= |right|
    decreases left, 1, n - i
  {
    if i == n then Ok(true) else
    var same :- ClaimValuesMatch(left[|left| - 1 - i], right[|right| - 1 - i], canon);
    if !same then Ok(false) else BacksMatch(left, right, i + 1, n, canon)
  }

  /** A restored claims tree: maps are keyed by distinct labels, and only where `hidden` allows it do
      maps carry a list of undisclosed hashes and arrays carry redacted elements. */
  predicate View(v: Value, hidden: bool)
    decreases v, 0
  {
    match v
    case Map(entries) =>
      && DistinctKeys(entries)
      && forall i :: 0 <= i < |entries| ==> ViewEntry(entries[i], hidden)
    case Array(items) => forall i :: 0 <= i < |items| ==> ViewItem(items[i], hidden)
    case Tag(tag, inner) => !IsReservedTag(tag) && View(inner, hidden)
    case Simple(code) => code != REDACTED_CLAIM_KEYS_SIMPLE
    case _ => true
  }

  predicate ViewEntry(e: Entry, hidden: bool)
    decreases e, 0
  {
    if e.key == REDACTED_KEYS_LABEL then hidden && HashList(e.val)
    else LabelOf(e.key).Some? && View(e.val, hidden)
  }

  predicate HashList(v: Value) {
    v.Array? && v.items != [] && forall i :: 0 <= i < |v.items| ==> v.items[i].ByteString?
  }

  predicate ViewItem(item: Value, hidden: bool)
    decreases item, 1
  {
    if IsRedactedElement(item) then hidden && item.inner.ByteString? else View(item, hidden)
  }

  predicate DistinctKeys(entries: seq<Entry>) {
    forall i, j :: 0 <= i < j < |entries| ==> entries[i].key != entries[j].key
  }

  datatype Seen = Seen(map_: nat, val: Value)

  /** The key of a claims map entry in the form duplicates are detected by. */
  function SafeMapKey(key: Value, canon: Canon): Result<Bytes> {
    match key
    case Integer(_) => Ok(canon(key))
    case TextString(t) => if 1 <= |t| <= 255 then Ok(canon(key)) else Err(UnexpectedType)
    case _ => Err(UnexpectedType)
  }

  /** Checks that claims present in several maps agree, map by map and entry by entry. */
  function MatchingClaims(maps: seq<seq<Entry>>, index: nat, seen: map<Bytes, Seen>, canon: Canon)
    : Result<map<Bytes, Seen>>
  {
    if maps == [] then Ok(seen) else
    var seen1 :- MatchingEntries(maps[0], index, seen, canon);
    MatchingClaims(maps[1..], index + 1, seen1, canon)
  }

  function MatchingEntries(entries: seq<Entry>, index: nat, seen: map<Bytes, Seen>, canon: Canon)
    : Result<map<Bytes, Seen>>
  {
    if entries == [] then Ok(seen) else
    var seen1 :- MatchingEntry(entries[0], index, seen, canon);
    MatchingEntries(entries[1..], index, seen1, canon)
  }

  function MatchingEntry(e: Entry, index: nat, seen: map<Bytes, Seen>, canon: Canon): Result<map<Bytes, Seen>> {
    if e.key == REDACTED_KEYS_LABEL then Ok(seen) else
    var key :- SafeMapKey(e.key, canon);
    if key !in seen then Ok(seen[key := Seen(index, e.val)]) else
    if seen[key].map_ == index then Err(Verify) else
    var same :- ClaimValuesMatch(seen[key].val, e.val, canon);
    if same then Ok(seen[key := Seen(index, e.val)]) else Err(Verify)
  }

  /** Removes the markers of undisclosed claims and elements. */
  function Strip(v: Value): Value {
    match v
    case Map(entries) => Map(StripEntries(entries))
    case Array(items) => Array(StripItems(items))
    case Tag(tag, inner) => Tag(tag, Strip(inner))
    case _ => v
  }

  function StripEntries(entries: seq<Entry>): seq<Entry> {
    if entries == [] then [] else StripEntry(entries[0]) + StripEntries(entries[1..])
  }

  function StripEntry(e: Entry): seq<Entry> {
    if e.key == REDACTED_KEYS_LABEL then [] else [Entry(e.key, Strip(e.val))]
  }

  function StripItems(items: seq<Value>): seq<Value> {
    if items == [] then []
    else (if IsRedactedElement(items[0]) then [] else [Strip(items[0])]) + StripItems(items[1..])
  }

  lemma StripEntriesConcat(a: seq<Entry>, b: seq<Entry>)
    ensures StripEntries(a + b) == StripEntries(a) + StripEntries(b)
  {
    if a == [] {
      assert a + b == b;
    } else {
      assert (a + b)[1..] == a[1..] + b;
    }
  }

  lemma StripItemsConcat(a: seq<Value>, b: seq<Value>)
    ensures StripItems(a + b) == StripItems(a) + StripItems(b)
  {
    if a == [] {
      assert a + b == b;
    } else {
      assert (a + b)[1..] == a[1..] + b;
    }
  }
}
