/** The redaction requests of a pre-issuance claims tree, read without issuing anything. Requests are
    numbered from `n` in the order issuance discloses them: what a redacted node contains comes
    before the node itself. `sel` is the set of numbers whose disclosures are presented. */
module Redactions {
  import opened Values

  predicate Redacts(v: Value) { v.Tag? && v.tag == TO_BE_REDACTED_TAG }

  predicate IsDecoy(v: Value) { v.Tag? && v.tag == TO_BE_DECOY_TAG }

  predicate PlainEntry(e: Entry) { !Redacts(e.key) && !IsDecoy(e.key) }

  // ---- how many ---------------------------------------------------------------------------------

  function Count(v: Value): nat
    decreases v, 0
  {
    match v
    case Map(entries) => CountEntries(entries)
    case Array(items) => CountItems(items)
    case Tag(_, inner) => Count(inner)
    case _ => 0
  }

  function CountEntries(entries: seq<Entry>): nat {
    if entries == [] then 0 else CountEntry(entries[0]) + CountEntries(entries[1..])
  }

  function CountEntry(e: Entry): nat {
    if Redacts(e.key) then Count(e.val) + 1 else if IsDecoy(e.key) then 1 else Count(e.val)
  }

  function CountItems(items: seq<Value>): nat {
    if items == [] then 0 else CountItem(items[0]) + CountItems(items[1..])
  }

  function CountItem(item: Value): nat
    decreases item, 1
  {
    if Redacts(item) then Count(item.inner) + 1 else if IsDecoy(item) then 1 else Count(item)
  }

  // ---- the claims a selection leaves visible ----------------------------------------------------

  /** The original claims without decoys and without the redacted nodes left out of `sel`. A map
      lists its plain entries in order, then its redacted ones in order. */
  function Visible(v: Value, n: nat, sel: set<nat>): Value
    decreases v, 0
  {
    match v
    case Map(entries) => Map(VisiblePlain(entries, n, sel) + VisibleRedacted(entries, n, sel))
    case Array(items) => Array(VisibleItems(items, n, sel))
    case Tag(tag, inner) => Tag(tag, Visible(inner, n, sel))
    case _ => v
  }

  function VisiblePlain(entries: seq<Entry>, n: nat, sel: set<nat>): seq<Entry> {
    if entries == [] then [] else
    PlainPart(entries[0], n, sel) + VisiblePlain(entries[1..], n + CountEntry(entries[0]), sel)
  }

  function PlainPart(e: Entry, n: nat, sel: set<nat>): seq<Entry> {
    if PlainEntry(e) then [Entry(e.key, Visible(e.val, n, sel))] else []
  }

  function VisibleRedacted(entries: seq<Entry>, n: nat, sel: set<nat>): seq<Entry> {
    if entries == [] then [] else
    RedactedPart(entries[0], n, sel) + VisibleRedacted(entries[1..], n + CountEntry(entries[0]), sel)
  }

  function RedactedPart(e: Entry, n: nat, sel: set<nat>): seq<Entry> {
    if Redacts(e.key) && n + Count(e.val) in sel then [Entry(e.key.inner, Visible(e.val, n, sel))] else []
  }

  function VisibleItems(items: seq<Value>, n: nat, sel: set<nat>): seq<Value> {
    if items == [] then [] else
    ItemPart(items[0], n, sel) + VisibleItems(items[1..], n + CountItem(items[0]), sel)
  }

  function ItemPart(item: Value, n: nat, sel: set<nat>): seq<Value>
    decreases item, 1
  {
    if Redacts(item) then
      if n + Count(item.inner) in sel then [Visible(item.inner, n, sel)] else []
    else if IsDecoy(item) then []
    else [Visible(item, n, sel)]
  }

  // ---- what a restoration meets on its way ------------------------------------------------------

  /** Numbers met and presented, and how the requests met were dealt with. */
  datatype Met = Met(used: set<nat>, disclosed: nat, decoys: nat, removed: nat)

  const NOTHING_MET := Met({}, 0, 0, 0)
  const ONE_REMOVED := Met({}, 0, 0, 1)

  function Both(a: Met, b: Met): Met {
    Met(a.used + b.used, a.disclosed + b.disclosed, a.decoys + b.decoys, a.removed + b.removed)
  }

  function MetIn(v: Value, n: nat, sel: set<nat>): Met
    decreases v, 0
  {
    match v
    case Map(entries) => Both(MetPlain(entries, n, sel), MetRedacted(entries, n, sel))
    case Array(items) => MetItems(items, n, sel)
    case Tag(_, inner) => MetIn(inner, n, sel)
    case _ => NOTHING_MET
  }

  function MetPlain(entries: seq<Entry>, n: nat, sel: set<nat>): Met {
    if entries == [] then NOTHING_MET else
    Both(MetPlainEntry(entries[0], n, sel), MetPlain(entries[1..], n + CountEntry(entries[0]), sel))
  }

  function MetPlainEntry(e: Entry, n: nat, sel: set<nat>): Met {
    if PlainEntry(e) then MetIn(e.val, n, sel) else NOTHING_MET
  }

  function MetRedacted(entries: seq<Entry>, n: nat, sel: set<nat>): Met {
    if entries == [] then NOTHING_MET else
    Both(MetRedactedEntry(entries[0], n, sel), MetRedacted(entries[1..], n + CountEntry(entries[0]), sel))
  }

  function MetRedactedEntry(e: Entry, n: nat, sel: set<nat>): Met {
    if Redacts(e.key) then MetRequest(e.val, n, sel)
    else if IsDecoy(e.key) then MetDecoy(n, sel)
    else NOTHING_MET
  }

  /** A redacted node: what it contains is met only if the node is presented. */
  function MetRequest(content: Value, n: nat, sel: set<nat>): Met
    decreases content, 1
  {
    var own := n + Count(content);
    if own in sel then Both(Met({own}, 1, 0, 0), MetIn(content, n, sel)) else ONE_REMOVED
  }

  function MetDecoy(n: nat, sel: set<nat>): Met {
    if n in sel then Met({n}, 0, 1, 0) else ONE_REMOVED
  }

  function MetItems(items: seq<Value>, n: nat, sel: set<nat>): Met {
    if items == [] then NOTHING_MET else
    Both(MetItem(items[0], n, sel), MetItems(items[1..], n + CountItem(items[0]), sel))
  }

  function MetItem(item: Value, n: nat, sel: set<nat>): Met
    decreases item, 2
  {
    if Redacts(item) then MetRequest(item.inner, n, sel)
    else if IsDecoy(item) then MetDecoy(n, sel)
    else MetIn(item, n, sel)
  }

  // ---- who holds whose hash ---------------------------------------------------------------------

  /** The number of the redacted node directly around request `i`, if there is one. */
  function Parent(v: Value, n: nat, i: nat): Option<nat>
    decreases v, 0
  {
    match v
    case Map(entries) => ParentInEntries(entries, n, i)
    case Array(items) => ParentInItems(items, n, i)
    case Tag(_, inner) => Parent(inner, n, i)
    case _ => None
  }

  function ParentInEntries(entries: seq<Entry>, n: nat, i: nat): Option<nat> {
    if entries == [] then None
    else if i < n + CountEntry(entries[0]) then ParentInEntry(entries[0], n, i)
    else ParentInEntries(entries[1..], n + CountEntry(entries[0]), i)
  }

  function ParentInEntry(e: Entry, n: nat, i: nat): Option<nat> {
    if Redacts(e.key) then ParentInRequest(e.val, n, i)
    else if IsDecoy(e.key) then None
    else Parent(e.val, n, i)
  }

  function ParentInRequest(content: Value, n: nat, i: nat): Option<nat>
    decreases content, 1
  {
    var own := n + Count(content);
    if i >= own then None else
    match Parent(content, n, i)
    case Some(p) => Some(p)
    case None => Some(own)
  }

  function ParentInItems(items: seq<Value>, n: nat, i: nat): Option<nat> {
    if items == [] then None
    else if i < n + CountItem(items[0]) then ParentInItem(items[0], n, i)
    else ParentInItems(items[1..], n + CountItem(items[0]), i)
  }

  function ParentInItem(item: Value, n: nat, i: nat): Option<nat>
    decreases item, 2
  {
    if Redacts(item) then ParentInRequest(item.inner, n, i)
    else if IsDecoy(item) then None
    else Parent(item, n, i)
  }

  /** No request of the tree, whose requests are numbered from `n`, is selected while the redacted node
      holding its hash is left out. */
  ghost predicate AncestorClosed(v: Value, n: nat, sel: set<nat>) {
    forall i :: n <= i < n + Count(v) && i in sel && Parent(v, n, i).Some? ==> Parent(v, n, i).value in sel
  }
}
