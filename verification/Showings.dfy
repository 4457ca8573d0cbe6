/** What restoring an issued tree with a selection of the disclosures shows, and what it costs, both
    read off the pre-issuance tree. */
module Showings {
  import opened Values
  import opened Disclosures
  import opened Restoration
  import opened Redactions
  import opened Selections

  // ---- what is shown ----------------------------------------------------------------------------

  /** The hash that stands for a request nobody presented, where the structural validator keeps it. */
  function HiddenHash(i: nat, run: Run): seq<Value> {
    if i in run.sel || !run.cfg.validateClaims || i >= |run.all| then [] else [ByteString(DigestAt(i, run))]
  }

  function HiddenElement(i: nat, run: Run): seq<Value> {
    if HiddenHash(i, run) == [] then [] else [Tag(REDACTED_ELEMENT_TAG, HiddenHash(i, run)[0])]
  }

  /** The visible claims, with the markers of what stays hidden if they are kept. */
  function Shown(v: Value, n: nat, run: Run): Value
    decreases v, 0
  {
    match v
    case Map(entries) => Map(ShownPlain(entries, n, run) + ShownRedacted(entries, n, run) + KeptEntry(HiddenHashes(entries, n, run)))
    case Array(items) => Array(ShownItems(items, n, run))
    case Tag(tag, inner) => Tag(tag, Shown(inner, n, run))
    case _ => v
  }

  function ShownPlain(entries: seq<Entry>, n: nat, run: Run): seq<Entry> {
    if entries == [] then [] else
    ShownPlainPart(entries[0], n, run) + ShownPlain(entries[1..], n + CountEntry(entries[0]), run)
  }

  function ShownPlainPart(e: Entry, n: nat, run: Run): seq<Entry> {
    if PlainEntry(e) then [Entry(e.key, Shown(e.val, n, run))] else []
  }

  function ShownRedacted(entries: seq<Entry>, n: nat, run: Run): seq<Entry> {
    if entries == [] then [] else
    ShownRedactedPart(entries[0], n, run) + ShownRedacted(entries[1..], n + CountEntry(entries[0]), run)
  }

  function ShownRedactedPart(e: Entry, n: nat, run: Run): seq<Entry> {
    if Redacts(e.key) && n + Count(e.val) in run.sel then [Entry(e.key.inner, Shown(e.val, n, run))] else []
  }

  /** The hashes of a map nobody presented, in order. */
  function HiddenHashes(entries: seq<Entry>, n: nat, run: Run): seq<Value> {
    if entries == [] then [] else
    HiddenPart(entries[0], n, run) + HiddenHashes(entries[1..], n + CountEntry(entries[0]), run)
  }

  function HiddenPart(e: Entry, n: nat, run: Run): seq<Value> {
    if Redacts(e.key) then HiddenHash(n + Count(e.val), run)
    else if IsDecoy(e.key) then HiddenHash(n, run)
    else []
  }

  function ShownItems(items: seq<Value>, n: nat, run: Run): seq<Value> {
    if items == [] then [] else
    ShownItem(items[0], n, run) + ShownItems(items[1..], n + CountItem(items[0]), run)
  }

  function ShownItem(item: Value, n: nat, run: Run): seq<Value>
    decreases item, 1
  {
    if Redacts(item) then ShownRequest(item.inner, n, run)
    else if IsDecoy(item) then HiddenElement(n, run)
    else [Shown(item, n, run)]
  }

  function ShownRequest(content: Value, n: nat, run: Run): seq<Value>
    decreases content, 1
  {
    if n + Count(content) in run.sel then [Shown(content, n, run)] else HiddenElement(n + Count(content), run)
  }

  /** Without markers it is the visible part of the claims. */
  lemma {:induction false} ShownIsVisible(v: Value, n: nat, run: Run)
    requires !run.cfg.validateClaims
    ensures Shown(v, n, run) == Visible(v, n, run.sel)
    decreases v, 0
  {
    match v
    case Map(entries) =>
      ShownEntriesAreVisible(entries, n, run);
      assert VisiblePlain(entries, n, run.sel) + VisibleRedacted(entries, n, run.sel) + []
          == VisiblePlain(entries, n, run.sel) + VisibleRedacted(entries, n, run.sel);
    case Array(items) => ShownItemsAreVisible(items, n, run);
    case Tag(_, inner) => ShownIsVisible(inner, n, run);
    case _ =>
  }

  lemma {:induction false} ShownEntriesAreVisible(entries: seq<Entry>, n: nat, run: Run)
    requires !run.cfg.validateClaims
    ensures ShownPlain(entries, n, run) == VisiblePlain(entries, n, run.sel)
    ensures ShownRedacted(entries, n, run) == VisibleRedacted(entries, n, run.sel) && HiddenHashes(entries, n, run) == []
    decreases entries, 1
  {
    if entries != [] {
      ShownEntryIsVisible(entries[0], n, run);
      ShownEntriesAreVisible(entries[1..], n + CountEntry(entries[0]), run);
    }
  }

  lemma {:induction false} ShownEntryIsVisible(e: Entry, n: nat, run: Run)
    requires !run.cfg.validateClaims
    ensures ShownPlainPart(e, n, run) == PlainPart(e, n, run.sel) && ShownRedactedPart(e, n, run) == RedactedPart(e, n, run.sel)
    ensures HiddenPart(e, n, run) == []
    decreases e, 0
  {
    ShownIsVisible(e.val, n, run);
  }

  lemma {:induction false} ShownItemsAreVisible(items: seq<Value>, n: nat, run: Run)
    requires !run.cfg.validateClaims
    ensures ShownItems(items, n, run) == VisibleItems(items, n, run.sel)
    decreases items, 1
  {
    if items != [] {
      ShownItemIsVisible(items[0], n, run);
      ShownItemsAreVisible(items[1..], n + CountItem(items[0]), run);
    }
  }

  lemma {:induction false} ShownItemIsVisible(item: Value, n: nat, run: Run)
    requires !run.cfg.validateClaims
    ensures ShownItem(item, n, run) == ItemPart(item, n, run.sel)
    decreases item, 2
  {
    if Redacts(item) {
      ShownIsVisible(item.inner, n, run);
    } else if !IsDecoy(item) {
      ShownIsVisible(item, n, run);
    }
  }

  // ---- what it costs ----------------------------------------------------------------------------

  /** How many values are visited, and whether every depth and container on the way is allowed. */
  datatype Load = Load(visits: nat, fits: bool)

  const NO_LOAD := Load(0, true)

  function Plus(a: Load, b: Load): Load {
    Load(a.visits + b.visits, a.fits && b.fits)
  }

  /** `k` values visited at `depth`. */
  function Visit(k: nat, depth: nat, limits: Limits): Load {
    Load(k, k == 0 || depth <= limits.maxDepth)
  }

  function Holding(k: nat, limits: Limits): Load {
    Load(0, ContainerFits(k, limits))
  }

  function LoadOf(v: Value, n: nat, sel: set<nat>, depth: nat, limits: Limits): Load
    decreases v, 0
  {
    Plus(Visit(1, depth, limits),
         match v
         case Map(entries) => LoadOfMap(entries, n, sel, depth, limits)
         case Array(items) => Plus(Holding(|items|, limits), LoadOfItems(items, n, sel, depth, limits))
         case Tag(_, inner) => LoadOf(inner, n, sel, depth + 1, limits)
         case _ => NO_LOAD)
  }

  /** How many entries of a map are issued as such, and how many as hashes. */
  function PlainCount(entries: seq<Entry>): nat {
    if entries == [] then 0 else (if PlainEntry(entries[0]) then 1 else 0) + PlainCount(entries[1..])
  }

  function HashCount(entries: seq<Entry>): nat {
    if entries == [] then 0 else (if PlainEntry(entries[0]) then 0 else 1) + HashCount(entries[1..])
  }

  function LoadOfMap(entries: seq<Entry>, n: nat, sel: set<nat>, depth: nat, limits: Limits): Load
    decreases entries, 2
  {
    Plus(Holding(PlainCount(entries) + if HashCount(entries) == 0 then 0 else 1, limits),
         Plus(LoadOfPlain(entries, n, sel, depth, limits),
              Plus(LoadOfHashes(HashCount(entries), depth, limits), LoadOfRedacted(entries, n, sel, depth, limits))))
  }

  /** The entry that carries the hashes of a map. */
  function LoadOfHashes(k: nat, depth: nat, limits: Limits): Load {
    if k == 0 then NO_LOAD
    else Plus(Visit(2, depth + 1, limits), Plus(Holding(k, limits), Visit(k, depth + 2, limits)))
  }

  function LoadOfPlain(entries: seq<Entry>, n: nat, sel: set<nat>, depth: nat, limits: Limits): Load
    decreases entries, 1
  {
    if entries == [] then NO_LOAD else
    Plus(LoadOfPlainEntry(entries[0], n, sel, depth, limits), LoadOfPlain(entries[1..], n + CountEntry(entries[0]), sel, depth, limits))
  }

  function LoadOfPlainEntry(e: Entry, n: nat, sel: set<nat>, depth: nat, limits: Limits): Load
    decreases e, 0
  {
    if PlainEntry(e) then Plus(Visit(1, depth + 1, limits), LoadOf(e.val, n, sel, depth + 1, limits)) else NO_LOAD
  }

  function LoadOfRedacted(entries: seq<Entry>, n: nat, sel: set<nat>, depth: nat, limits: Limits): Load
    decreases entries, 1
  {
    if entries == [] then NO_LOAD else
    Plus(LoadOfRedactedEntry(entries[0], n, sel, depth, limits), LoadOfRedacted(entries[1..], n + CountEntry(entries[0]), sel, depth, limits))
  }

  function LoadOfRedactedEntry(e: Entry, n: nat, sel: set<nat>, depth: nat, limits: Limits): Load
    decreases e, 0
  {
    if Redacts(e.key) then LoadOfRequest(e.val, n, sel, depth, limits) else NO_LOAD
  }

  /** A redacted node costs what it contains, one level further down, if it is presented. */
  function LoadOfRequest(content: Value, n: nat, sel: set<nat>, depth: nat, limits: Limits): Load
    decreases content, 1
  {
    if n + Count(content) in sel then LoadOf(content, n, sel, depth + 1, limits) else NO_LOAD
  }

  function LoadOfItems(items: seq<Value>, n: nat, sel: set<nat>, depth: nat, limits: Limits): Load
    decreases items, 1
  {
    if items == [] then NO_LOAD else
    Plus(LoadOfItem(items[0], n, sel, depth, limits), LoadOfItems(items[1..], n + CountItem(items[0]), sel, depth, limits))
  }

  function LoadOfItem(item: Value, n: nat, sel: set<nat>, depth: nat, limits: Limits): Load
    decreases item, 2
  {
    if Redacts(item) then Plus(LoadOfMarker(depth, limits), LoadOfRequest(item.inner, n, sel, depth, limits))
    else if IsDecoy(item) then LoadOfMarker(depth, limits)
    else LoadOf(item, n, sel, depth + 1, limits)
  }

  /** A redacted element and the hash inside it. */
  function LoadOfMarker(depth: nat, limits: Limits): Load {
    Plus(Visit(1, depth + 1, limits), Visit(1, depth + 2, limits))
  }

  /** The limits allow the load on top of what was visited already. */
  predicate Pays(st: RState, load: Load, run: Run) {
    load.fits && st.visited + load.visits <= run.cfg.limits.maxItems
  }

  /** The state after a stretch that met `met` at the cost of `load`, with `r` pending before it. */
  ghost function Later(st: RState, r: set<nat>, met: Met, load: Load, run: Run): RState {
    After(st, st.visited + load.visits, r, met, run)
  }

  lemma LaterNothing(st: RState, r: set<nat>, run: Run)
    requires st.pending == PendingOf(r, run)
    ensures st == Later(st, r, NOTHING_MET, NO_LOAD, run)
  {
    AfterNothing(st, r, run);
  }

  lemma LaterBoth(st: RState, r: set<nat>, a: Met, b: Met, l: Load, k: Load, run: Run)
    ensures Later(Later(st, r, a, l, run), r - a.used, b, k, run) == Later(st, r, Both(a, b), Plus(l, k), run)
    ensures Pays(st, Plus(l, k), run) <==> Pays(st, l, run) && Pays(Later(st, r, a, l, run), k, run)
  {
    AfterBoth(st, st.visited + l.visits, st.visited + l.visits + k.visits, r, a, b, run);
  }
}
