/** The original claims behind a pre-issuance tree, how many requests it holds, and what a selection of
    every request leaves visible. */
module Originals {
  import opened Values
  import opened Redactions

  // ---- the original claims, and how many requests they hold -------------------------------------

  /** The claims tree without its redaction requests: contents of redacted nodes in place, decoys
      gone, each map listing plain entries before redacted ones. */
  function Original(v: Value): Value
    decreases v, 0
  {
    match v
    case Map(entries) => Map(OriginalPlain(entries) + OriginalRedacted(entries))
    case Array(items) => Array(OriginalItems(items))
    case Tag(tag, inner) => Tag(tag, Original(inner))
    case _ => v
  }

  function OriginalPlain(entries: seq<Entry>): seq<Entry> {
    if entries == [] then [] else PlainOriginal(entries[0]) + OriginalPlain(entries[1..])
  }

  function PlainOriginal(e: Entry): seq<Entry> {
    if PlainEntry(e) then [Entry(e.key, Original(e.val))] else []
  }

  function OriginalRedacted(entries: seq<Entry>): seq<Entry> {
    if entries == [] then [] else RedactedOriginal(entries[0]) + OriginalRedacted(entries[1..])
  }

  function RedactedOriginal(e: Entry): seq<Entry> {
    if Redacts(e.key) then [Entry(e.key.inner, Original(e.val))] else []
  }

  function OriginalItems(items: seq<Value>): seq<Value> {
    if items == [] then [] else ItemOriginal(items[0]) + OriginalItems(items[1..])
  }

  function ItemOriginal(item: Value): seq<Value>
    decreases item, 1
  {
    if Redacts(item) then [Original(item.inner)] else if IsDecoy(item) then [] else [Original(item)]
  }

  /** The number of redacted nodes in a tree of requests. */
  function Redactions58(v: Value): nat
    decreases v, 0
  {
    match v
    case Map(entries) => Redactions58OfEntries(entries)
    case Array(items) => Redactions58OfItems(items)
    case Tag(_, inner) => Redactions58(inner)
    case _ => 0
  }

  function Redactions58OfEntries(entries: seq<Entry>): nat {
    if entries == [] then 0 else Redactions58OfEntry(entries[0]) + Redactions58OfEntries(entries[1..])
  }

  function Redactions58OfEntry(e: Entry): nat {
    if Redacts(e.key) then 1 + Redactions58(e.val) else if IsDecoy(e.key) then 0 else Redactions58(e.val)
  }

  function Redactions58OfItems(items: seq<Value>): nat {
    if items == [] then 0 else Redactions58OfItem(items[0]) + Redactions58OfItems(items[1..])
  }

  function Redactions58OfItem(item: Value): nat
    decreases item, 1
  {
    if Redacts(item) then 1 + Redactions58(item.inner) else if IsDecoy(item) then 0 else Redactions58(item)
  }

  /** The number of decoy requests in a tree. */
  function Decoys62(v: Value): nat
    decreases v, 0
  {
    match v
    case Map(entries) => Decoys62OfEntries(entries)
    case Array(items) => Decoys62OfItems(items)
    case Tag(_, inner) => Decoys62(inner)
    case _ => 0
  }

  function Decoys62OfEntries(entries: seq<Entry>): nat {
    if entries == [] then 0 else Decoys62OfEntry(entries[0]) + Decoys62OfEntries(entries[1..])
  }

  function Decoys62OfEntry(e: Entry): nat {
    if IsDecoy(e.key) then 1 else Decoys62(e.val)
  }

  function Decoys62OfItems(items: seq<Value>): nat {
    if items == [] then 0 else Decoys62OfItem(items[0]) + Decoys62OfItems(items[1..])
  }

  function Decoys62OfItem(item: Value): nat
    decreases item, 1
  {
    if Redacts(item) then Decoys62(item.inner) else if IsDecoy(item) then 1 else Decoys62(item)
  }

  // ---- everything selected ----------------------------------------------------------------------

  ghost predicate Whole(n: nat, k: nat, sel: set<nat>) {
    forall i :: n <= i < n + k ==> i in sel
  }

  lemma {:induction false} WholeVisible(v: Value, n: nat, sel: set<nat>)
    requires Whole(n, Count(v), sel)
    ensures Visible(v, n, sel) == Original(v)
    decreases v, 0
  {
    match v
    case Map(entries) => WholeEntriesVisible(entries, n, sel);
    case Array(items) => WholeItemsVisible(items, n, sel);
    case Tag(_, inner) => WholeVisible(inner, n, sel);
    case _ =>
  }

  lemma {:induction false} WholeEntriesVisible(entries: seq<Entry>, n: nat, sel: set<nat>)
    requires Whole(n, CountEntries(entries), sel)
    ensures VisiblePlain(entries, n, sel) == OriginalPlain(entries)
    ensures VisibleRedacted(entries, n, sel) == OriginalRedacted(entries)
    decreases entries, 1
  {
    if entries != [] {
      WholeEntryVisible(entries[0], n, sel);
      WholeEntriesVisible(entries[1..], n + CountEntry(entries[0]), sel);
    }
  }

  lemma {:induction false} WholeEntryVisible(e: Entry, n: nat, sel: set<nat>)
    requires Whole(n, CountEntry(e), sel)
    ensures PlainPart(e, n, sel) == PlainOriginal(e)
    ensures RedactedPart(e, n, sel) == RedactedOriginal(e)
    decreases e, 0
  {
    if !IsDecoy(e.key) {
      assert Whole(n, Count(e.val), sel);
      WholeVisible(e.val, n, sel);
    }
  }

  lemma {:induction false} WholeItemsVisible(items: seq<Value>, n: nat, sel: set<nat>)
    requires Whole(n, CountItems(items), sel)
    ensures VisibleItems(items, n, sel) == OriginalItems(items)
    decreases items, 1
  {
    if items != [] {
      WholeItemVisible(items[0], n, sel);
      WholeItemsVisible(items[1..], n + CountItem(items[0]), sel);
    }
  }

  lemma {:induction false} WholeItemVisible(item: Value, n: nat, sel: set<nat>)
    requires Whole(n, CountItem(item), sel)
    ensures ItemPart(item, n, sel) == ItemOriginal(item)
    decreases item, 2
  {
    if Redacts(item) {
      WholeVisible(item.inner, n, sel);
    } else if !IsDecoy(item) {
      WholeVisible(item, n, sel);
    }
  }

  /** Every redaction was disclosed, every decoy recognised and nothing removed. */
  ghost predicate MetWhole(met: Met, redactions: nat, decoys: nat) {
    met.disclosed == redactions && met.decoys == decoys && met.removed == 0
  }

  /** The same for what the two loops of a map met together. */
  ghost predicate BothWhole(a: Met, b: Met, redactions: nat, decoys: nat) {
    a.disclosed + b.disclosed == redactions && a.decoys + b.decoys == decoys && a.removed + b.removed == 0
  }

  lemma {:induction false} WholeMet(v: Value, n: nat, sel: set<nat>)
    requires Whole(n, Count(v), sel)
    ensures MetWhole(MetIn(v, n, sel), Redactions58(v), Decoys62(v))
    decreases v, 0
  {
    match v
    case Map(entries) => WholeEntriesMet(entries, n, sel);
    case Array(items) => WholeItemsMet(items, n, sel);
    case Tag(_, inner) => WholeMet(inner, n, sel);
    case _ =>
  }

  lemma {:induction false} WholeRequestMet(content: Value, n: nat, sel: set<nat>)
    requires Whole(n, Count(content) + 1, sel)
    ensures MetWhole(MetRequest(content, n, sel), 1 + Redactions58(content), Decoys62(content))
    decreases content, 1
  {
    WholeMet(content, n, sel);
  }

  lemma {:induction false} WholeEntriesMet(entries: seq<Entry>, n: nat, sel: set<nat>)
    requires Whole(n, CountEntries(entries), sel)
    ensures BothWhole(MetPlain(entries, n, sel), MetRedacted(entries, n, sel), Redactions58OfEntries(entries), Decoys62OfEntries(entries))
    decreases entries, 1
  {
    if entries != [] {
      WholeEntryMet(entries[0], n, sel);
      WholeEntriesMet(entries[1..], n + CountEntry(entries[0]), sel);
    }
  }

  lemma {:induction false} WholeEntryMet(e: Entry, n: nat, sel: set<nat>)
    requires Whole(n, CountEntry(e), sel)
    ensures BothWhole(MetPlainEntry(e, n, sel), MetRedactedEntry(e, n, sel), Redactions58OfEntry(e), Decoys62OfEntry(e))
    decreases e, 0
  {
    if Redacts(e.key) {
      WholeRequestMet(e.val, n, sel);
    } else if !IsDecoy(e.key) {
      WholeMet(e.val, n, sel);
    }
  }

  lemma {:induction false} WholeItemsMet(items: seq<Value>, n: nat, sel: set<nat>)
    requires Whole(n, CountItems(items), sel)
    ensures MetWhole(MetItems(items, n, sel), Redactions58OfItems(items), Decoys62OfItems(items))
    decreases items, 1
  {
    if items != [] {
      WholeItemMet(items[0], n, sel);
      WholeItemsMet(items[1..], n + CountItem(items[0]), sel);
    }
  }

  lemma {:induction false} WholeItemMet(item: Value, n: nat, sel: set<nat>)
    requires Whole(n, CountItem(item), sel)
    ensures MetWhole(MetItem(item, n, sel), Redactions58OfItem(item), Decoys62OfItem(item))
    decreases item, 2
  {
    if Redacts(item) {
      WholeRequestMet(item.inner, n, sel);
    } else if !IsDecoy(item) {
      WholeMet(item, n, sel);
    }
  }

  // ---- nothing removed --------------------------------------------------------------------------

  lemma {:induction false} NothingRemoved(v: Value, n: nat, sel: set<nat>)
    requires MetIn(v, n, sel).removed == 0
    ensures Whole(n, Count(v), sel)
    decreases v, 0
  {
    match v
    case Map(entries) => NothingRemovedFromMap(entries, n, sel);
    case Array(items) => NothingRemovedFromItems(items, n, sel);
    case Tag(_, inner) => NothingRemoved(inner, n, sel);
    case _ =>
  }

  lemma {:induction false} NothingRemovedFromRequest(content: Value, n: nat, sel: set<nat>)
    requires MetRequest(content, n, sel).removed == 0
    ensures Whole(n, Count(content) + 1, sel)
    decreases content, 1
  {
    NothingRemoved(content, n, sel);
  }

  lemma {:induction false} NothingRemovedFromMap(entries: seq<Entry>, n: nat, sel: set<nat>)
    requires MetPlain(entries, n, sel).removed == 0 && MetRedacted(entries, n, sel).removed == 0
    ensures Whole(n, CountEntries(entries), sel)
    decreases entries, 1
  {
    hide MetPlain, MetRedacted, MetPlainEntry, MetRedactedEntry, CountEntry;
    if entries != [] {
      FirstRemoved(entries, n, sel);
      NothingRemovedFromEntry(entries[0], n, sel);
      NothingRemovedFromMap(entries[1..], n + CountEntry(entries[0]), sel);
    }
  }

  lemma FirstRemoved(entries: seq<Entry>, n: nat, sel: set<nat>)
    requires entries != []
    ensures MetPlain(entries, n, sel).removed
         == MetPlainEntry(entries[0], n, sel).removed + MetPlain(entries[1..], n + CountEntry(entries[0]), sel).removed
    ensures MetRedacted(entries, n, sel).removed
         == MetRedactedEntry(entries[0], n, sel).removed + MetRedacted(entries[1..], n + CountEntry(entries[0]), sel).removed
  {
    hide MetPlainEntry, MetRedactedEntry, CountEntry, MetPlain, MetRedacted;
    var m := n + CountEntry(entries[0]);
    PlainFirst(entries, n, sel);
    RedactedFirst(entries, n, sel);
  }

  lemma PlainFirst(entries: seq<Entry>, n: nat, sel: set<nat>)
    requires entries != []
    ensures MetPlain(entries, n, sel) == Both(MetPlainEntry(entries[0], n, sel), MetPlain(entries[1..], n + CountEntry(entries[0]), sel))
  {
    hide MetPlainEntry, CountEntry, Both;
  }

  lemma RedactedFirst(entries: seq<Entry>, n: nat, sel: set<nat>)
    requires entries != []
    ensures MetRedacted(entries, n, sel) == Both(MetRedactedEntry(entries[0], n, sel), MetRedacted(entries[1..], n + CountEntry(entries[0]), sel))
  {
    hide MetRedactedEntry, CountEntry, Both;
  }

  lemma {:induction false} NothingRemovedFromEntry(e: Entry, n: nat, sel: set<nat>)
    requires MetPlainEntry(e, n, sel).removed == 0 && MetRedactedEntry(e, n, sel).removed == 0
    ensures Whole(n, CountEntry(e), sel)
    decreases e, 0
  {
    if Redacts(e.key) {
      NothingRemovedFromRequest(e.val, n, sel);
    } else if !IsDecoy(e.key) {
      NothingRemoved(e.val, n, sel);
    }
  }

  lemma {:induction false} NothingRemovedFromItems(items: seq<Value>, n: nat, sel: set<nat>)
    requires MetItems(items, n, sel).removed == 0
    ensures Whole(n, CountItems(items), sel)
    decreases items, 1
  {
    if items != [] {
      NothingRemovedFromItem(items[0], n, sel);
      NothingRemovedFromItems(items[1..], n + CountItem(items[0]), sel);
    }
  }

  lemma {:induction false} NothingRemovedFromItem(item: Value, n: nat, sel: set<nat>)
    requires MetItem(item, n, sel).removed == 0
    ensures Whole(n, CountItem(item), sel)
    decreases item, 2
  {
    if Redacts(item) {
      NothingRemovedFromRequest(item.inner, n, sel);
    } else if !IsDecoy(item) {
      NothingRemoved(item, n, sel);
    }
  }
}
