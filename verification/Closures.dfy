/** A restoration meets exactly the presented requests whose enclosing requests are all presented:
    nothing presented is left over exactly when the selection is ancestor-closed. */
module Closures {
  import opened Values
  import opened Redactions
  import opened Selections

  // ---- parents lie above their children ---------------------------------------------------------

  lemma {:induction false} ParentAbove(v: Value, n: nat, i: nat)
    requires n <= i < n + Count(v)
    ensures Parent(v, n, i).Some? ==> i < Parent(v, n, i).value < n + Count(v)
    decreases v, 0
  {
    match v
    case Map(entries) => EntriesParentAbove(entries, n, i);
    case Array(items) => ItemsParentAbove(items, n, i);
    case Tag(_, inner) => ParentAbove(inner, n, i);
    case _ =>
  }

  lemma {:induction false} RequestParentAbove(content: Value, n: nat, i: nat)
    requires n <= i <= n + Count(content)
    ensures ParentInRequest(content, n, i).Some? ==> i < ParentInRequest(content, n, i).value <= n + Count(content)
    ensures ParentInRequest(content, n, i).None? <==> i == n + Count(content)
    decreases content, 1
  {
    if i < n + Count(content) {
      ParentAbove(content, n, i);
    }
  }

  lemma {:induction false} EntriesParentAbove(entries: seq<Entry>, n: nat, i: nat)
    requires n <= i < n + CountEntries(entries)
    ensures ParentInEntries(entries, n, i).Some? ==> i < ParentInEntries(entries, n, i).value < n + CountEntries(entries)
    decreases entries, 1
  {
    if i < n + CountEntry(entries[0]) {
      EntryParentAbove(entries[0], n, i);
    } else {
      EntriesParentAbove(entries[1..], n + CountEntry(entries[0]), i);
    }
  }

  lemma {:induction false} EntryParentAbove(e: Entry, n: nat, i: nat)
    requires n <= i < n + CountEntry(e)
    ensures ParentInEntry(e, n, i).Some? ==> i < ParentInEntry(e, n, i).value < n + CountEntry(e)
    decreases e, 0
  {
    if Redacts(e.key) {
      RequestParentAbove(e.val, n, i);
    } else if !IsDecoy(e.key) {
      ParentAbove(e.val, n, i);
    }
  }

  lemma {:induction false} ItemsParentAbove(items: seq<Value>, n: nat, i: nat)
    requires n <= i < n + CountItems(items)
    ensures ParentInItems(items, n, i).Some? ==> i < ParentInItems(items, n, i).value < n + CountItems(items)
    decreases items, 1
  {
    if i < n + CountItem(items[0]) {
      ItemParentAbove(items[0], n, i);
    } else {
      ItemsParentAbove(items[1..], n + CountItem(items[0]), i);
    }
  }

  lemma {:induction false} ItemParentAbove(item: Value, n: nat, i: nat)
    requires n <= i < n + CountItem(item)
    ensures ParentInItem(item, n, i).Some? ==> i < ParentInItem(item, n, i).value < n + CountItem(item)
    decreases item, 2
  {
    if Redacts(item) {
      RequestParentAbove(item.inner, n, i);
    } else if !IsDecoy(item) {
      ParentAbove(item, n, i);
    }
  }

  // ---- what is met has its parent presented -----------------------------------------------------

  ghost predicate ParentIn(p: Option<nat>, sel: set<nat>) {
    p.Some? ==> p.value in sel
  }

  lemma {:induction false} MetHasParent(v: Value, n: nat, sel: set<nat>, i: nat)
    requires i in MetIn(v, n, sel).used
    ensures ParentIn(Parent(v, n, i), sel)
    decreases v, 0
  {
    match v
    case Map(entries) => EntriesMetHaveParent(entries, n, sel, i);
    case Array(items) => ItemsMetHaveParent(items, n, sel, i);
    case Tag(_, inner) => MetHasParent(inner, n, sel, i);
    case _ =>
  }

  lemma {:induction false} RequestMetHasParent(content: Value, n: nat, sel: set<nat>, i: nat)
    requires i in MetRequest(content, n, sel).used
    ensures ParentIn(ParentInRequest(content, n, i), sel)
    decreases content, 1
  {
    if i < n + Count(content) {
      MetHasParent(content, n, sel, i);
    }
  }

  lemma {:induction false} EntriesMetHaveParent(entries: seq<Entry>, n: nat, sel: set<nat>, i: nat)
    requires i in MetPlain(entries, n, sel).used || i in MetRedacted(entries, n, sel).used
    ensures ParentIn(ParentInEntries(entries, n, i), sel)
    decreases entries, 1
  {
    var m := n + CountEntry(entries[0]);
    MetPlainEntryInRange(entries[0], n, sel);
    MetRedactedEntryInRange(entries[0], n, sel);
    MetPlainInRange(entries[1..], m, sel);
    MetRedactedInRange(entries[1..], m, sel);
    if i < m {
      EntryMetHasParent(entries[0], n, sel, i);
    } else {
      EntriesMetHaveParent(entries[1..], m, sel, i);
    }
  }

  lemma {:induction false} EntryMetHasParent(e: Entry, n: nat, sel: set<nat>, i: nat)
    requires i in MetPlainEntry(e, n, sel).used || i in MetRedactedEntry(e, n, sel).used
    ensures ParentIn(ParentInEntry(e, n, i), sel)
    decreases e, 0
  {
    if Redacts(e.key) {
      RequestMetHasParent(e.val, n, sel, i);
    } else if !IsDecoy(e.key) {
      MetHasParent(e.val, n, sel, i);
    }
  }

  lemma {:induction false} ItemsMetHaveParent(items: seq<Value>, n: nat, sel: set<nat>, i: nat)
    requires i in MetItems(items, n, sel).used
    ensures ParentIn(ParentInItems(items, n, i), sel)
    decreases items, 1
  {
    MetItemInRange(items[0], n, sel);
    MetItemsInRange(items[1..], n + CountItem(items[0]), sel);
    if i < n + CountItem(items[0]) {
      ItemMetHasParent(items[0], n, sel, i);
    } else {
      ItemsMetHaveParent(items[1..], n + CountItem(items[0]), sel, i);
    }
  }

  lemma {:induction false} ItemMetHasParent(item: Value, n: nat, sel: set<nat>, i: nat)
    requires i in MetItem(item, n, sel).used
    ensures ParentIn(ParentInItem(item, n, i), sel)
    decreases item, 2
  {
    if Redacts(item) {
      RequestMetHasParent(item.inner, n, sel, i);
    } else if !IsDecoy(item) {
      MetHasParent(item, n, sel, i);
    }
  }

  // ---- in a closed selection everything is met --------------------------------------------------

  ghost predicate Closed(v: Value, n: nat, sel: set<nat>) {
    forall i :: n <= i < n + Count(v) && i in sel ==> ParentIn(Parent(v, n, i), sel)
  }

  ghost predicate ClosedRequest(content: Value, n: nat, sel: set<nat>) {
    forall i :: n <= i <= n + Count(content) && i in sel ==> ParentIn(ParentInRequest(content, n, i), sel)
  }

  ghost predicate ClosedEntries(entries: seq<Entry>, n: nat, sel: set<nat>) {
    forall i :: n <= i < n + CountEntries(entries) && i in sel ==> ParentIn(ParentInEntries(entries, n, i), sel)
  }

  ghost predicate ClosedEntry(e: Entry, n: nat, sel: set<nat>) {
    forall i :: n <= i < n + CountEntry(e) && i in sel ==> ParentIn(ParentInEntry(e, n, i), sel)
  }

  ghost predicate ClosedItems(items: seq<Value>, n: nat, sel: set<nat>) {
    forall i :: n <= i < n + CountItems(items) && i in sel ==> ParentIn(ParentInItems(items, n, i), sel)
  }

  ghost predicate ClosedItem(item: Value, n: nat, sel: set<nat>) {
    forall i :: n <= i < n + CountItem(item) && i in sel ==> ParentIn(ParentInItem(item, n, i), sel)
  }

  lemma {:induction false} AllMet(v: Value, n: nat, sel: set<nat>, i: nat)
    requires Closed(v, n, sel) && n <= i < n + Count(v) && i in sel
    ensures i in MetIn(v, n, sel).used
    decreases v, 0
  {
    match v
    case Map(entries) =>
      assert ClosedEntries(entries, n, sel) by {
        forall j | n <= j < n + CountEntries(entries) && j in sel ensures ParentIn(ParentInEntries(entries, n, j), sel) {
          assert Parent(v, n, j) == ParentInEntries(entries, n, j);
        }
      }
      EntriesAllMet(entries, n, sel, i);
    case Array(items) =>
      assert ClosedItems(items, n, sel) by {
        forall j | n <= j < n + CountItems(items) && j in sel ensures ParentIn(ParentInItems(items, n, j), sel) {
          assert Parent(v, n, j) == ParentInItems(items, n, j);
        }
      }
      ItemsAllMet(items, n, sel, i);
    case Tag(_, inner) =>
      assert Closed(inner, n, sel) by {
        forall j | n <= j < n + Count(inner) && j in sel ensures ParentIn(Parent(inner, n, j), sel) {
          assert Parent(v, n, j) == Parent(inner, n, j);
        }
      }
      AllMet(inner, n, sel, i);
    case _ =>
  }

  /** From any presented request in a closed node one climbs to the node itself. */
  lemma {:induction false} ClimbsToOwner(content: Value, n: nat, sel: set<nat>, i: nat)
    requires ClosedRequest(content, n, sel) && n <= i <= n + Count(content) && i in sel
    ensures n + Count(content) in sel
    decreases n + Count(content) - i
  {
    if i != n + Count(content) {
      RequestParentAbove(content, n, i);
      ClimbsToOwner(content, n, sel, ParentInRequest(content, n, i).value);
    }
  }

  lemma {:induction false} RequestAllMet(content: Value, n: nat, sel: set<nat>, i: nat)
    requires ClosedRequest(content, n, sel) && n <= i <= n + Count(content) && i in sel
    ensures i in MetRequest(content, n, sel).used
    decreases content, 1
  {
    ClimbsToOwner(content, n, sel, i);
    if i < n + Count(content) {
      forall j | n <= j < n + Count(content) && j in sel ensures ParentIn(Parent(content, n, j), sel) {
        assert ParentIn(ParentInRequest(content, n, j), sel);
      }
      AllMet(content, n, sel, i);
    }
  }

  lemma {:induction false} EntriesAllMet(entries: seq<Entry>, n: nat, sel: set<nat>, i: nat)
    requires ClosedEntries(entries, n, sel) && n <= i < n + CountEntries(entries) && i in sel
    ensures i in MetPlain(entries, n, sel).used + MetRedacted(entries, n, sel).used
    decreases entries, 1
  {
    var m := n + CountEntry(entries[0]);
    if i < m {
      forall j | n <= j < m && j in sel ensures ParentIn(ParentInEntry(entries[0], n, j), sel) {
        assert ParentIn(ParentInEntries(entries, n, j), sel);
      }
      EntryAllMet(entries[0], n, sel, i);
    } else {
      forall j | m <= j < m + CountEntries(entries[1..]) && j in sel ensures ParentIn(ParentInEntries(entries[1..], m, j), sel) {
        assert ParentIn(ParentInEntries(entries, n, j), sel);
      }
      EntriesAllMet(entries[1..], m, sel, i);
    }
  }

  lemma {:induction false} EntryAllMet(e: Entry, n: nat, sel: set<nat>, i: nat)
    requires ClosedEntry(e, n, sel) && n <= i < n + CountEntry(e) && i in sel
    ensures i in MetPlainEntry(e, n, sel).used + MetRedactedEntry(e, n, sel).used
    decreases e, 0
  {
    if Redacts(e.key) {
      forall j | n <= j <= n + Count(e.val) && j in sel ensures ParentIn(ParentInRequest(e.val, n, j), sel) {
        assert ParentIn(ParentInEntry(e, n, j), sel);
      }
      RequestAllMet(e.val, n, sel, i);
    } else if !IsDecoy(e.key) {
      forall j | n <= j < n + Count(e.val) && j in sel ensures ParentIn(Parent(e.val, n, j), sel) {
        assert ParentIn(ParentInEntry(e, n, j), sel);
      }
      AllMet(e.val, n, sel, i);
    }
  }

  lemma {:induction false} ItemsAllMet(items: seq<Value>, n: nat, sel: set<nat>, i: nat)
    requires ClosedItems(items, n, sel) && n <= i < n + CountItems(items) && i in sel
    ensures i in MetItems(items, n, sel).used
    decreases items, 1
  {
    var m := n + CountItem(items[0]);
    if i < m {
      forall j | n <= j < m && j in sel ensures ParentIn(ParentInItem(items[0], n, j), sel) {
        assert ParentIn(ParentInItems(items, n, j), sel);
      }
      ItemAllMet(items[0], n, sel, i);
    } else {
      forall j | m <= j < m + CountItems(items[1..]) && j in sel ensures ParentIn(ParentInItems(items[1..], m, j), sel) {
        assert ParentIn(ParentInItems(items, n, j), sel);
      }
      ItemsAllMet(items[1..], m, sel, i);
    }
  }

  lemma {:induction false} ItemAllMet(item: Value, n: nat, sel: set<nat>, i: nat)
    requires ClosedItem(item, n, sel) && n <= i < n + CountItem(item) && i in sel
    ensures i in MetItem(item, n, sel).used
    decreases item, 2
  {
    if Redacts(item) {
      forall j | n <= j <= n + Count(item.inner) && j in sel ensures ParentIn(ParentInRequest(item.inner, n, j), sel) {
        assert ParentIn(ParentInItem(item, n, j), sel);
      }
      RequestAllMet(item.inner, n, sel, i);
    } else if !IsDecoy(item) {
      forall j | n <= j < n + Count(item) && j in sel ensures ParentIn(Parent(item, n, j), sel) {
        assert ParentIn(ParentInItem(item, n, j), sel);
      }
      AllMet(item, n, sel, i);
    }
  }

  /** Every presented request of the tree is met. */
  ghost predicate MeetsAll(v: Value, n: nat, sel: set<nat>) {
    forall i :: n <= i < n + Count(v) && i in sel ==> i in MetIn(v, n, sel).used
  }

  /** Nothing presented stays unmet exactly when the selection is ancestor-closed. */
  lemma {:induction false} MetAllExactlyWhenClosed(v: Value, n: nat, sel: set<nat>)
    ensures MeetsAll(v, n, sel) <==> AncestorClosed(v, n, sel)
  {
    if AncestorClosed(v, n, sel) {
      assert Closed(v, n, sel);
      forall i | n <= i < n + Count(v) && i in sel ensures i in MetIn(v, n, sel).used {
        AllMet(v, n, sel, i);
      }
    }
    if MeetsAll(v, n, sel) {
      forall i | n <= i < n + Count(v) && i in sel && Parent(v, n, i).Some? ensures Parent(v, n, i).value in sel {
        MetHasParent(v, n, sel, i);
      }
    }
  }
}
