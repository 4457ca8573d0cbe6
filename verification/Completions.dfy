/** Two partly hidden copies of one complete claims tree are never found to disagree
    (sd-cwt/src/validation.rs). */
module Completions {
  import opened Values
  import opened ClaimMatching
  import opened MatchLaws

  /** `full` is what `view` may turn out to be once everything is disclosed: a map with hidden hashes
      may gain claims, and a redacted array element stands for at most one item, in its place. */
  ghost predicate Completes(view: Value, full: Value)
    decreases view, 2
  {
    match view
    case Map(entries) => full.Map? && CompletesMap(entries, full.entries)
    case Array(items) => full.Array? && CompletesItems(items, full.items)
    case Tag(tag, inner) => full.Tag? && full.tag == tag && Completes(inner, full.inner)
    case _ => full == view
  }

  ghost predicate CompletesMap(entries: seq<Entry>, full: seq<Entry>)
    decreases entries, 1
  {
    && Covered(entries, full)
    && (HasHidden(entries) || Covered(full, entries))
    && forall i, j :: 0 <= i < |entries| && 0 <= j < |full| ==> CompletesEntry(entries[i], full[j])
  }

  ghost predicate CompletesEntry(e: Entry, full: Entry)
    decreases e, 0
  {
    e.key == full.key && e.key != REDACTED_KEYS_LABEL ==> Completes(e.val, full.val)
  }

  ghost predicate CompletesItems(items: seq<Value>, full: seq<Value>)
    decreases items, 1
  {
    if items == [] then full == []
    else if IsRedactedElement(items[0]) then
      CompletesItems(items[1..], full) || (full != [] && CompletesItems(items[1..], full[1..]))
    else
      full != [] && Completes(items[0], full[0]) && CompletesItems(items[1..], full[1..])
  }

  lemma {:induction false} CompletionLength(items: seq<Value>, full: seq<Value>)
    requires CompletesItems(items, full)
    ensures KnownCount(items) <= |full| <= |items|
  {
    if items == [] {
    } else if IsRedactedElement(items[0]) && CompletesItems(items[1..], full) {
      CompletionLength(items[1..], full);
    } else {
      CompletionLength(items[1..], full[1..]);
    }
  }

  lemma {:induction false} CompletesFront(items: seq<Value>, full: seq<Value>, i: nat)
    requires CompletesItems(items, full) && i < KnownFront(items)
    ensures i < |full| && Completes(items[i], full[i])
  {
    if i != 0 {
      CompletesFront(items[1..], full[1..], i - 1);
    }
  }

  /** A known last item is the last item of the completion. */
  lemma {:induction false} CompletesLast(items: seq<Value>, full: seq<Value>)
    requires CompletesItems(items, full) && items != [] && !IsRedactedElement(items[|items| - 1])
    ensures full != [] && Completes(items[|items| - 1], full[|full| - 1])
    ensures CompletesItems(items[..|items| - 1], full[..|full| - 1])
  {
    var rest := items[1..];
    if |items| == 1 {
      assert full[1..] == [] && full[..|full| - 1] == [] && items[..|items| - 1] == [];
    } else {
      assert rest[|rest| - 1] == items[|items| - 1];
      var init := items[..|items| - 1];
      assert init[1..] == rest[..|rest| - 1] && init[0] == items[0];
      if IsRedactedElement(items[0]) && CompletesItems(rest, full) {
        CompletesLast(rest, full);
      } else {
        CompletesLast(rest, full[1..]);
        var short := full[..|full| - 1];
        assert short[1..] == full[1..][..|full[1..]| - 1];
      }
    }
  }

  lemma {:induction false} CompletesBack(items: seq<Value>, full: seq<Value>, i: nat)
    requires CompletesItems(items, full) && i < KnownBack(items)
    ensures i < |full| && Completes(items[|items| - 1 - i], full[|full| - 1 - i])
  {
    CompletesLast(items, full);
    if i != 0 {
      CompletesBack(items[..|items| - 1], full[..|full| - 1], i - 1);
    }
  }

  lemma {:induction false} AllKnownIsFront(items: seq<Value>)
    requires AllKnown(items)
    ensures KnownFront(items) == |items|
  {
    if items != [] {
      AllKnownIsFront(items[1..]);
    }
  }

  lemma {:induction false} CommonCompletionCompatible(left: Value, right: Value, full: Value, canon: Canon)
    requires Completes(left, full) && Completes(right, full)
    ensures Compatible(left, right, canon)
    decreases left, 2
  {
    match left
    case Map(ls) =>
      if right.Map? {
        MapsCompatible(ls, right.entries, full.entries, canon);
      }
    case Array(ls) =>
      if right.Array? {
        ItemsCompatible(ls, right.items, full.items, canon);
      }
    case Tag(_, inner) =>
      if right.Tag? {
        CommonCompletionCompatible(inner, right.inner, full.inner, canon);
      }
    case _ =>
  }

  lemma {:induction false} MapsCompatible(ls: seq<Entry>, rs: seq<Entry>, full: seq<Entry>, canon: Canon)
    requires CompletesMap(ls, full) && CompletesMap(rs, full)
    ensures CompatibleMaps(ls, rs, canon)
    decreases ls, 1
  {
    forall i, j | 0 <= i < |ls| && 0 <= j < |rs| ensures CompatibleEntries(ls[i], rs[j], canon) {
      if ls[i].key == rs[j].key && ls[i].key != REDACTED_KEYS_LABEL {
        var k :| 0 <= k < |full| && full[k].key == ls[i].key;
        assert CompletesEntry(ls[i], full[k]) && CompletesEntry(rs[j], full[k]);
        EntryCompatible(ls[i], rs[j], full[k], canon);
      }
    }
    CoveredThrough(ls, full, rs);
    CoveredThrough(rs, full, ls);
  }

  lemma {:induction false} EntryCompatible(a: Entry, b: Entry, full: Entry, canon: Canon)
    requires Completes(a.val, full.val) && Completes(b.val, full.val)
    ensures Compatible(a.val, b.val, canon)
    decreases a, 0
  {
    CommonCompletionCompatible(a.val, b.val, full.val, canon);
  }

  lemma {:induction false} CoveredThrough(a: seq<Entry>, b: seq<Entry>, c: seq<Entry>)
    requires Covered(a, b)
    ensures Covered(b, c) ==> Covered(a, c)
  {
    if Covered(b, c) {
      forall i | 0 <= i < |a| && a[i].key != REDACTED_KEYS_LABEL ensures HasKey(c, a[i].key) {
        var j :| 0 <= j < |b| && b[j].key == a[i].key;
        assert HasKey(c, b[j].key);
      }
    }
  }

  lemma {:induction false} ItemsCompatible(ls: seq<Value>, rs: seq<Value>, full: seq<Value>, canon: Canon)
    requires CompletesItems(ls, full) && CompletesItems(rs, full)
    ensures CompatibleItems(ls, rs, canon)
    decreases ls, 1
  {
    CompletionLength(ls, full);
    CompletionLength(rs, full);
    forall i | 0 <= i < FrontLength(ls, rs) ensures Compatible(ls[i], rs[i], canon) {
      if AllKnown(ls) && AllKnown(rs) {
        AllKnownIsFront(ls);
        AllKnownIsFront(rs);
      }
      CompletesFront(ls, full, i);
      CompletesFront(rs, full, i);
      CommonCompletionCompatible(ls[i], rs[i], full[i], canon);
    }
    forall j | |ls| - BackLength(ls, rs) <= j < |ls| ensures Compatible(ls[j], rs[Across(ls, rs, j)], canon) {
      var i := |ls| - 1 - j;
      CompletesBack(ls, full, i);
      CompletesBack(rs, full, i);
      CommonCompletionCompatible(ls[j], rs[Across(ls, rs, j)], full[|full| - 1 - i], canon);
    }
  }

  /** Two views of one complete claims tree always match. */
  lemma {:induction false} CommonCompletionMatches(left: Value, right: Value, full: Value, canon: Canon)
    requires View(left, true) && View(right, true)
    requires Completes(left, full) && Completes(right, full)
    ensures ClaimValuesMatch(left, right, canon) == Ok(true)
  {
    MatchDecides(left, right, canon);
    CommonCompletionCompatible(left, right, full, canon);
  }
}
