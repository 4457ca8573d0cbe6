/** What comparing two partly hidden copies decides. On restored views the comparison never errs and
    equals the declarative `Compatible`; from there: it is symmetric, it never rejects two views of
    one complete claims tree, and on marker-free trees it is equality up to the order of map entries. */
module MatchLaws {
  import opened Values
  import opened ClaimMatching

  // ---- the relation the comparison decides ------------------------------------------------------

  predicate HasKey(entries: seq<Entry>, key: Value) {
    exists j :: 0 <= j < |entries| && entries[j].key == key
  }

  /** Every visible claim of `left` is visible in `right` as well. */
  predicate Covered(left: seq<Entry>, right: seq<Entry>) {
    forall i :: 0 <= i < |left| && left[i].key != REDACTED_KEYS_LABEL ==> HasKey(right, left[i].key)
  }

  predicate AllKnown(items: seq<Value>) {
    KnownCount(items) == |items|
  }

  /** How many items are compared from the front, and how many from the back. */
  function FrontLength(left: seq<Value>, right: seq<Value>): (n: nat)
    ensures n <= |left| && n <= |right|
  {
    if AllKnown(left) && AllKnown(right) then Min(|left|, |right|) else Min(KnownFront(left), KnownFront(right))
  }

  function BackLength(left: seq<Value>, right: seq<Value>): (n: nat)
    ensures n <= |left| && n <= |right|
  {
    if AllKnown(left) && AllKnown(right) then 0 else Min(KnownBack(left), KnownBack(right))
  }

  /** The item of `right` as far from its end as item `j` of `left` is from the end of `left`. */
  function Across(left: seq<Value>, right: seq<Value>, j: int): int {
    j - |left| + |right|
  }

  ghost predicate Compatible(left: Value, right: Value, canon: Canon)
    decreases left, 2
  {
    if left.Map? && right.Map? then CompatibleMaps(left.entries, right.entries, canon)
    else if left.Array? && right.Array? then CompatibleItems(left.items, right.items, canon)
    else if left.Tag? && right.Tag? && left.tag == right.tag then Compatible(left.inner, right.inner, canon)
    else canon(left) == canon(right)
  }

  /** The entries agree claim by claim, and a claim only one map shows may hide in the other. */
  ghost predicate CompatibleMaps(left: seq<Entry>, right: seq<Entry>, canon: Canon)
    decreases left, 1
  {
    && EntriesCompatible(left, right, canon)
    && (HasHidden(right) || Covered(left, right))
    && (HasHidden(left) || Covered(right, left))
  }

  ghost predicate EntriesCompatible(left: seq<Entry>, right: seq<Entry>, canon: Canon)
    decreases left, 0
  {
    forall i, j :: 0 <= i < |left| && 0 <= j < |right| ==> CompatibleEntries(left[i], right[j], canon)
  }

  ghost predicate CompatibleItems(left: seq<Value>, right: seq<Value>, canon: Canon)
    decreases left, 1
  {
    && KnownCount(left) <= |right| && KnownCount(right) <= |left|
    && FrontsCompatible(left, right, FrontLength(left, right), canon)
    && BacksCompatible(left, right, BackLength(left, right), canon)
  }

  ghost predicate FrontsCompatible(left: seq<Value>, right: seq<Value>, n: nat, canon: Canon)
    requires n <= |left| && n <= |right|
    decreases left, 0
  {
    forall i :: 0 <= i < n ==> Compatible(left[i], right[i], canon)
  }

  ghost predicate BacksCompatible(left: seq<Value>, right: seq<Value>, n: nat, canon: Canon)
    requires n <= |left| && n <= |right|
    decreases left, 0
  {
    forall j :: |left| - n <= j < |left| ==> Compatible(left[j], right[Across(left, right, j)], canon)
  }

  /** Two entries for one visible claim hold compatible values. */
  ghost predicate CompatibleEntries(a: Entry, b: Entry, canon: Canon)
    decreases a, 0
  {
    a.key == b.key && a.key != REDACTED_KEYS_LABEL ==> Compatible(a.val, b.val, canon)
  }

  // ---- known items ------------------------------------------------------------------------------

  lemma {:induction false} KnownEverywhere(items: seq<Value>)
    ensures AllKnown(items) <==> forall i :: 0 <= i < |items| ==> !IsRedactedElement(items[i])
  {
    if items != [] {
      KnownEverywhere(items[1..]);
      if forall i :: 0 <= i < |items| ==> !IsRedactedElement(items[i]) {
        assert forall i :: 0 <= i < |items[1..]| ==> items[1..][i] == items[i + 1];
      } else {
        var i :| 0 <= i < |items| && IsRedactedElement(items[i]);
        assert i == 0 || items[1..][i - 1] == items[i];
      }
    }
  }

  lemma {:induction false} FrontIsKnown(items: seq<Value>, i: nat)
    requires i < KnownFront(items)
    ensures !IsRedactedElement(items[i])
  {
    if i != 0 {
      FrontIsKnown(items[1..], i - 1);
    }
  }

  lemma {:induction false} BackIsKnown(items: seq<Value>, i: nat)
    requires i < KnownBack(items)
    ensures !IsRedactedElement(items[|items| - 1 - i])
  {
    if i != 0 {
      BackIsKnown(items[..|items| - 1], i - 1);
    }
  }

  lemma {:induction false} ComparedAreKnown(left: seq<Value>, right: seq<Value>)
    ensures forall i :: 0 <= i < FrontLength(left, right) ==> !IsRedactedElement(left[i]) && !IsRedactedElement(right[i])
    ensures forall j :: |left| - BackLength(left, right) <= j < |left| ==> !IsRedactedElement(left[j])
    ensures forall j :: |right| - BackLength(left, right) <= j < |right| ==> !IsRedactedElement(right[j])
  {
    KnownEverywhere(left);
    KnownEverywhere(right);
    forall i | 0 <= i < FrontLength(left, right) ensures !IsRedactedElement(left[i]) && !IsRedactedElement(right[i]) {
      if !(AllKnown(left) && AllKnown(right)) {
        FrontIsKnown(left, i);
        FrontIsKnown(right, i);
      }
    }
    forall j | |left| - BackLength(left, right) <= j < |left| ensures !IsRedactedElement(left[j]) {
      BackIsKnown(left, |left| - 1 - j);
    }
    forall j | |right| - BackLength(left, right) <= j < |right| ensures !IsRedactedElement(right[j]) {
      BackIsKnown(right, |right| - 1 - j);
    }
  }

  // ---- the comparison decides it ----------------------------------------------------------------

  ghost predicate ViewEntries(entries: seq<Entry>) {
    DistinctKeys(entries) && forall i :: 0 <= i < |entries| ==> ViewEntry(entries[i], true)
  }

  /** `values` holds the visible entries by label. */
  ghost predicate ByLabel(values: map<Label, Value>, entries: seq<Entry>) {
    && (forall i :: 0 <= i < |entries| && entries[i].key != REDACTED_KEYS_LABEL ==>
          LabelOf(entries[i].key).Some? && LabelOf(entries[i].key).value in values && values[LabelOf(entries[i].key).value] == entries[i].val)
    && (forall l :: l in values ==> HasKey(entries, ValueOfLabel(l)))
  }

  lemma KeysAreLabels(v: Value)
    ensures LabelOf(v).Some? ==> ValueOfLabel(LabelOf(v).value) == v && v != REDACTED_KEYS_LABEL
  {
  }

  lemma {:induction false} VisibleIsByLabel(done: seq<Entry>, entries: seq<Entry>, seen: map<Label, Value>)
    requires ViewEntries(done + entries) && ByLabel(seen, done)
    ensures VisibleByLabel(entries, seen).Ok? && ByLabel(VisibleByLabel(entries, seen).value, done + entries)
    decreases entries
  {
    if entries == [] {
      assert done + entries == done;
    } else {
      var e := entries[0];
      assert (done + entries)[|done|] == e;
      assert done + [e] + entries[1..] == done + entries;
      if e.key == REDACTED_KEYS_LABEL {
        ByLabelSkips(done, e, seen);
        VisibleIsByLabel(done + [e], entries[1..], seen);
      } else {
        var key := LabelOf(e.key).value;
        ByLabelAdds(done, e, key, seen, done + entries);
        VisibleIsByLabel(done + [e], entries[1..], seen[key := e.val]);
      }
    }
  }

  lemma {:induction false} HasKeyGrows(entries: seq<Entry>, e: Entry, key: Value)
    requires HasKey(entries, key)
    ensures HasKey(entries + [e], key)
  {
    var j :| 0 <= j < |entries| && entries[j].key == key;
    assert (entries + [e])[j] == entries[j];
  }

  lemma {:induction false} ByLabelSkips(done: seq<Entry>, e: Entry, seen: map<Label, Value>)
    requires ByLabel(seen, done) && e.key == REDACTED_KEYS_LABEL
    ensures ByLabel(seen, done + [e])
  {
    forall l | l in seen ensures HasKey(done + [e], ValueOfLabel(l)) {
      HasKeyGrows(done, e, ValueOfLabel(l));
    }
  }

  lemma {:induction false} ByLabelAdds(done: seq<Entry>, e: Entry, key: Label, seen: map<Label, Value>, all: seq<Entry>)
    requires ByLabel(seen, done) && LabelOf(e.key) == Some(key)
    requires done + [e] <= all && DistinctKeys(all)
    ensures ByLabel(seen[key := e.val], done + [e])
  {
    KeysAreLabels(e.key);
    assert (done + [e])[|done|] == e && all[|done|] == e;
    forall l | l in seen[key := e.val] ensures HasKey(done + [e], ValueOfLabel(l)) {
      if l != key {
        HasKeyGrows(done, e, ValueOfLabel(l));
      }
    }
    forall i | 0 <= i < |done| && done[i].key != REDACTED_KEYS_LABEL
      ensures LabelOf(done[i].key).value != key
    {
      assert all[i] == done[i];
      KeysAreLabels(done[i].key);
    }
  }

  /** What is asked of a visible entry of the left map. */
  ghost predicate EntryAgrees(e: Entry, values: map<Label, Value>, rightHidden: bool, canon: Canon) {
    e.key != REDACTED_KEYS_LABEL && LabelOf(e.key).Some? ==>
      var key := LabelOf(e.key).value;
      if key in values then Compatible(e.val, values[key], canon) else rightHidden
  }

  ghost predicate ViewValues(values: map<Label, Value>) {
    forall l :: l in values ==> View(values[l], true)
  }

  ghost function LabelsOf(entries: seq<Entry>): set<Label> {
    if entries == [] then {} else
    (if entries[0].key != REDACTED_KEYS_LABEL && LabelOf(entries[0].key).Some? then {LabelOf(entries[0].key).value} else {}) + LabelsOf(entries[1..])
  }

  lemma {:induction false} MatchDecides(left: Value, right: Value, canon: Canon)
    requires View(left, true) && View(right, true)
    ensures ClaimValuesMatch(left, right, canon) == Ok(Compatible(left, right, canon))
    decreases left, 2
  {
    if left.Map? && right.Map? {
      MapsDecide(left, right, canon);
    } else if left.Array? && right.Array? {
      ArraysDecide(left, right, canon);
    } else if left.Tag? && right.Tag? && left.tag == right.tag {
      MatchDecides(left.inner, right.inner, canon);
    }
  }

  lemma {:induction false} FrontsDecide(left: seq<Value>, right: seq<Value>, i: nat, n: nat, canon: Canon)
    requires i <= n <= |left| && n <= |right|
    requires forall k :: 0 <= k < n ==> View(left[k], true) && View(right[k], true)
    ensures FrontsMatch(left, right, i, n, canon).Ok?
    ensures FrontsMatch(left, right, i, n, canon).value <==> forall k :: i <= k < n ==> Compatible(left[k], right[k], canon)
    decreases left, 1, n - i
  {
    if i != n {
      MatchDecides(left[i], right[i], canon);
      FrontsDecide(left, right, i + 1, n, canon);
    }
  }

  lemma {:induction false} BacksDecide(left: seq<Value>, right: seq<Value>, i: nat, n: nat, canon: Canon)
    requires i <= n <= |left| && n <= |right|
    requires forall j :: |left| - n <= j < |left| ==> View(left[j], true)
    requires forall j :: |right| - n <= j < |right| ==> View(right[j], true)
    ensures BacksMatch(left, right, i, n, canon).Ok?
    ensures BacksMatch(left, right, i, n, canon).value <==>
            forall j :: |left| - n <= j < |left| - i ==> Compatible(left[j], right[Across(left, right, j)], canon)
    decreases left, 1, n - i
  {
    if i != n {
      var j := |left| - 1 - i;
      MatchDecides(left[j], right[Across(left, right, j)], canon);
      BacksDecide(left, right, i + 1, n, canon);
    }
  }

  lemma {:induction false} ComparedAreViews(left: seq<Value>, right: seq<Value>)
    requires forall i :: 0 <= i < |left| ==> ViewItem(left[i], true)
    requires forall i :: 0 <= i < |right| ==> ViewItem(right[i], true)
    ensures forall i :: 0 <= i < FrontLength(left, right) ==> View(left[i], true) && View(right[i], true)
    ensures forall j :: |left| - BackLength(left, right) <= j < |left| ==> View(left[j], true)
    ensures forall j :: |right| - BackLength(left, right) <= j < |right| ==> View(right[j], true)
  {
    ComparedAreKnown(left, right);
  }

  lemma {:induction false} ArraysDecide(left: Value, right: Value, canon: Canon)
    requires left.Array? && right.Array? && View(left, true) && View(right, true)
    ensures ArraysMatch(left.items, right.items, canon) == Ok(Compatible(left, right, canon))
    decreases left, 1
  {
    ComparedAreViews(left.items, right.items);
    ItemsDecide(left.items, right.items, canon);
  }

  lemma {:induction false} ItemsDecide(left: seq<Value>, right: seq<Value>, canon: Canon)
    requires forall i :: 0 <= i < FrontLength(left, right) ==> View(left[i], true) && View(right[i], true)
    requires forall j :: |left| - BackLength(left, right) <= j < |left| ==> View(left[j], true)
    requires forall j :: |right| - BackLength(left, right) <= j < |right| ==> View(right[j], true)
    ensures ArraysMatch(left, right, canon) == Ok(CompatibleItems(left, right, canon))
    decreases left, 2
  {
    FrontsDecide(left, right, 0, FrontLength(left, right), canon);
    BacksDecide(left, right, 0, BackLength(left, right), canon);
    if KnownCount(left) <= |right| && KnownCount(right) <= |left| {
      if AllKnown(left) && AllKnown(right) {
        assert ArraysMatch(left, right, canon) == FrontsMatch(left, right, 0, FrontLength(left, right), canon);
      } else {
        var front := FrontsMatch(left, right, 0, FrontLength(left, right), canon);
        assert ArraysMatch(left, right, canon)
            == if !front.value then Ok(false) else BacksMatch(left, right, 0, BackLength(left, right), canon);
      }
    }
  }

  lemma {:induction false} EntriesDecide(left: seq<Entry>, values: map<Label, Value>, rightHidden: bool, canon: Canon)
    requires ViewEntries(left) && ViewValues(values)
    ensures var r := EntriesMatch(left, values, rightHidden, canon);
            && r.Ok?
            && (r.value.Some? <==> AllAgree(left, values, rightHidden, canon))
            && (r.value.Some? ==> r.value.value == values - LabelsOf(left))
    decreases left, 1
  {
    if left == [] {
      assert values - {} == values;
    } else {
      EntryDecides(left[0], values, rightHidden, canon);
      var found := EntryMatches(left[0], values, rightHidden, canon);
      assert forall i :: 0 <= i < |left[1..]| ==> left[1..][i] == left[i + 1];
      if found.value.Some? {
        var rest := found.value.value;
        EntriesDecide(left[1..], rest, rightHidden, canon);
        AgreesApart(left, values, rest, rightHidden, canon);
        assert rest - LabelsOf(left[1..]) == values - LabelsOf(left);
      }
    }
  }

  lemma {:induction false} EntryDecides(e: Entry, values: map<Label, Value>, rightHidden: bool, canon: Canon)
    requires ViewEntry(e, true) && ViewValues(values)
    ensures var r := EntryMatches(e, values, rightHidden, canon);
            && r.Ok?
            && (r.value.Some? <==> EntryAgrees(e, values, rightHidden, canon))
            && (r.value.Some? ==> r.value.value == values - LabelsOf([e]))
    decreases e, 0
  {
    assert [e][1..] == [] && LabelsOf([e]) == (if e.key != REDACTED_KEYS_LABEL then {LabelOf(e.key).value} else {});
    if e.key == REDACTED_KEYS_LABEL {
      assert values - {} == values;
    } else {
      var key := LabelOf(e.key).value;
      if key in values {
        MatchDecides(e.val, values[key], canon);
      } else {
        assert values - {key} == values;
      }
    }
  }

  /** Removing the first entry's partner does not change what is asked of the others. */
  lemma {:induction false} AgreesApart(left: seq<Entry>, values: map<Label, Value>, rest: map<Label, Value>, rightHidden: bool, canon: Canon)
    requires left != [] && ViewEntries(left) && rest == values - LabelsOf([left[0]])
    ensures forall i :: 0 < i < |left| ==> (EntryAgrees(left[i], rest, rightHidden, canon) <==> EntryAgrees(left[i], values, rightHidden, canon))
    ensures LabelsOf(left) == LabelsOf([left[0]]) + LabelsOf(left[1..])
  {
    assert [left[0]][1..] == [];
    forall i | 0 < i < |left|
      ensures EntryAgrees(left[i], rest, rightHidden, canon) <==> EntryAgrees(left[i], values, rightHidden, canon)
    {
      KeysAreLabels(left[0].key);
      KeysAreLabels(left[i].key);
    }
  }

  lemma {:induction false} LabelsOfAre(entries: seq<Entry>, l: Label)
    requires ViewEntries(entries)
    ensures l in LabelsOf(entries) <==> ValueOfLabel(l) != REDACTED_KEYS_LABEL && LabelOf(ValueOfLabel(l)) == Some(l) && HasKey(entries, ValueOfLabel(l))
  {
    if entries == [] {
    } else {
      var tail := entries[1..];
      assert forall i :: 0 <= i < |tail| ==> tail[i] == entries[i + 1];
      LabelsOfAre(tail, l);
      KeysAreLabels(entries[0].key);
      if HasKey(entries, ValueOfLabel(l)) {
        var j :| 0 <= j < |entries| && entries[j].key == ValueOfLabel(l);
        assert j == 0 || tail[j - 1].key == ValueOfLabel(l);
      }
      if HasKey(tail, ValueOfLabel(l)) {
        var j :| 0 <= j < |tail| && tail[j].key == ValueOfLabel(l);
        assert entries[j + 1].key == ValueOfLabel(l);
      }
    }
  }

  lemma {:induction false} MapsDecide(left: Value, right: Value, canon: Canon)
    requires left.Map? && right.Map? && View(left, true) && View(right, true)
    ensures MapsMatch(left.entries, right.entries, canon) == Ok(Compatible(left, right, canon))
    decreases left, 1
  {
    var ls, rs := left.entries, right.entries;
    assert ViewEntries(ls) && ViewEntries(rs);
    var values := VisibleValues(rs);
    EntriesDecide(ls, values, HasHidden(rs), canon);
    AgreeIsCompatible(ls, rs, values, canon);
    MapsJoin(ls, rs, values, canon);
  }

  ghost predicate AllAgree(ls: seq<Entry>, values: map<Label, Value>, rightHidden: bool, canon: Canon) {
    forall i :: 0 <= i < |ls| ==> EntryAgrees(ls[i], values, rightHidden, canon)
  }

  lemma {:induction false} MapsJoin(ls: seq<Entry>, rs: seq<Entry>, values: map<Label, Value>, canon: Canon)
    requires ViewEntries(ls) && ViewEntries(rs) && ByLabel(values, rs) && VisibleByLabel(rs, map[]) == Ok(values)
    requires var r := EntriesMatch(ls, values, HasHidden(rs), canon);
             r.Ok? && (r.value.Some? <==> AllAgree(ls, values, HasHidden(rs), canon)) && (r.value.Some? ==> r.value.value == values - LabelsOf(ls))
    requires AllAgree(ls, values, HasHidden(rs), canon) <==> EntriesCompatible(ls, rs, canon) && (HasHidden(rs) || Covered(ls, rs))
    ensures MapsMatch(ls, rs, canon) == Ok(CompatibleMaps(ls, rs, canon))
  {
    NothingLeft(ls, rs, values);
  }

  lemma {:induction false} VisibleValues(rs: seq<Entry>) returns (values: map<Label, Value>)
    requires ViewEntries(rs)
    ensures VisibleByLabel(rs, map[]) == Ok(values) && ByLabel(values, rs) && ViewValues(values)
  {
    assert [] + rs == rs;
    VisibleIsByLabel([], rs, map[]);
    values := VisibleByLabel(rs, map[]).value;
    ValuesAreViews(values, rs);
  }

  lemma {:induction false} ValuesAreViews(values: map<Label, Value>, entries: seq<Entry>)
    requires ByLabel(values, entries) && ViewEntries(entries)
    ensures ViewValues(values)
  {
    forall l | l in values ensures View(values[l], true) {
      var j := FindEntry(values, entries, l);
    }
  }

  /** The entry a label of `values` comes from. */
  lemma {:induction false} FindEntry(values: map<Label, Value>, entries: seq<Entry>, l: Label) returns (j: nat)
    requires ByLabel(values, entries) && ViewEntries(entries) && l in values
    ensures j < |entries| && entries[j].key == ValueOfLabel(l) && entries[j].key != REDACTED_KEYS_LABEL
    ensures LabelOf(entries[j].key) == Some(l) && values[l] == entries[j].val
  {
    assert HasKey(entries, ValueOfLabel(l));
    j :| 0 <= j < |entries| && entries[j].key == ValueOfLabel(l);
    KeysAreLabels(entries[j].key);
    assert ViewEntry(entries[j], true);
  }

  lemma {:induction false} AgreeIsCompatible(ls: seq<Entry>, rs: seq<Entry>, values: map<Label, Value>, canon: Canon)
    requires ViewEntries(ls) && ViewEntries(rs) && ByLabel(values, rs)
    ensures AllAgree(ls, values, HasHidden(rs), canon) <==> EntriesCompatible(ls, rs, canon) && (HasHidden(rs) || Covered(ls, rs))
  {
    forall i | 0 <= i < |ls|
      ensures EntryAgrees(ls[i], values, HasHidden(rs), canon) <==>
              && (forall j :: 0 <= j < |rs| ==> CompatibleEntries(ls[i], rs[j], canon))
              && (HasHidden(rs) || ls[i].key == REDACTED_KEYS_LABEL || HasKey(rs, ls[i].key))
    {
      OneAgrees(ls[i], rs, values, canon);
    }
  }

  lemma {:induction false} OneAgrees(e: Entry, rs: seq<Entry>, values: map<Label, Value>, canon: Canon)
    requires ViewEntry(e, true) && ViewEntries(rs) && ByLabel(values, rs)
    ensures EntryAgrees(e, values, HasHidden(rs), canon) <==>
            && (forall j :: 0 <= j < |rs| ==> CompatibleEntries(e, rs[j], canon))
            && (HasHidden(rs) || e.key == REDACTED_KEYS_LABEL || HasKey(rs, e.key))
  {
    if e.key != REDACTED_KEYS_LABEL {
      var key := LabelOf(e.key).value;
      KeysAreLabels(e.key);
      if key in values {
        var k := FindEntry(values, rs, key);
        forall j | 0 <= j < |rs| && j != k ensures rs[j].key != e.key {
          assert k < j ==> rs[k].key != rs[j].key;
        }
        assert HasKey(rs, e.key);
        assert CompatibleEntries(e, rs[k], canon) <==> Compatible(e.val, values[key], canon);
      } else {
        forall j | 0 <= j < |rs| ensures rs[j].key != e.key {
        }
      }
    }
  }

  lemma {:induction false} NothingLeft(ls: seq<Entry>, rs: seq<Entry>, values: map<Label, Value>)
    requires ViewEntries(ls) && ViewEntries(rs) && ByLabel(values, rs)
    ensures values - LabelsOf(ls) == map[] <==> Covered(rs, ls)
  {
    if Covered(rs, ls) {
      forall l | l in values ensures l in LabelsOf(ls) {
        var j := FindEntry(values, rs, l);
        LabelsOfAre(ls, l);
      }
    }
    if values - LabelsOf(ls) == map[] {
      forall j | 0 <= j < |rs| && rs[j].key != REDACTED_KEYS_LABEL ensures HasKey(ls, rs[j].key) {
        var l := LabelOf(rs[j].key).value;
        KeysAreLabels(rs[j].key);
        assert l in values && l !in (values - LabelsOf(ls));
        LabelsOfAre(ls, l);
      }
    }
  }

  // ---- symmetry ---------------------------------------------------------------------------------

  lemma {:induction false} CompatibleSymmetric(left: Value, right: Value, canon: Canon)
    ensures Compatible(left, right, canon) <==> Compatible(right, left, canon)
    decreases left, 2
  {
    if left.Map? && right.Map? {
      forall i, j | 0 <= i < |left.entries| && 0 <= j < |right.entries|
        ensures CompatibleEntries(left.entries[i], right.entries[j], canon) <==> CompatibleEntries(right.entries[j], left.entries[i], canon)
      {
        EntriesSymmetric(left.entries[i], right.entries[j], canon);
      }
      assert EntriesCompatible(left.entries, right.entries, canon) <==> EntriesCompatible(right.entries, left.entries, canon);
    } else if left.Array? && right.Array? {
      ItemsSymmetric(left.items, right.items, canon);
    } else if left.Tag? && right.Tag? && left.tag == right.tag {
      CompatibleSymmetric(left.inner, right.inner, canon);
    }
  }

  lemma {:induction false} EntriesSymmetric(a: Entry, b: Entry, canon: Canon)
    ensures CompatibleEntries(a, b, canon) <==> CompatibleEntries(b, a, canon)
    decreases a, 0
  {
    CompatibleSymmetric(a.val, b.val, canon);
  }

  lemma LengthsSymmetric(left: seq<Value>, right: seq<Value>)
    ensures FrontLength(left, right) == FrontLength(right, left) && BackLength(left, right) == BackLength(right, left)
  {
  }

  lemma {:induction false} ItemsSymmetric(left: seq<Value>, right: seq<Value>, canon: Canon)
    ensures CompatibleItems(left, right, canon) <==> CompatibleItems(right, left, canon)
    decreases left, 1
  {
    LengthsSymmetric(left, right);
    FrontsSymmetric(left, right, FrontLength(left, right), canon);
    BacksSymmetric(left, right, BackLength(left, right), canon);
  }

  lemma {:induction false} FrontsSymmetric(left: seq<Value>, right: seq<Value>, n: nat, canon: Canon)
    requires n <= |left| && n <= |right|
    ensures FrontsCompatible(left, right, n, canon) <==> FrontsCompatible(right, left, n, canon)
    decreases left, 0
  {
    forall i | 0 <= i < n ensures Compatible(left[i], right[i], canon) <==> Compatible(right[i], left[i], canon) {
      CompatibleSymmetric(left[i], right[i], canon);
    }
  }

  lemma {:induction false} BacksSymmetric(left: seq<Value>, right: seq<Value>, n: nat, canon: Canon)
    requires n <= |left| && n <= |right|
    ensures BacksCompatible(left, right, n, canon) <==> BacksCompatible(right, left, n, canon)
    decreases left, 0
  {
    if BacksCompatible(left, right, n, canon) {
      forall j | |right| - n <= j < |right| ensures Compatible(right[j], left[Across(right, left, j)], canon) {
        CompatibleSymmetric(left[Across(right, left, j)], right[j], canon);
      }
    }
    if BacksCompatible(right, left, n, canon) {
      forall j | |left| - n <= j < |left| ensures Compatible(left[j], right[Across(left, right, j)], canon) {
        CompatibleSymmetric(left[j], right[Across(left, right, j)], canon);
      }
    }
  }

  /** The comparison of restored views gives one answer, whichever copy comes first. */
  lemma {:induction false} MatchSymmetric(left: Value, right: Value, canon: Canon)
    requires View(left, true) && View(right, true)
    ensures ClaimValuesMatch(left, right, canon) == ClaimValuesMatch(right, left, canon)
    ensures ClaimValuesMatch(left, right, canon).Ok?
  {
    MatchDecides(left, right, canon);
    MatchDecides(right, left, canon);
    CompatibleSymmetric(left, right, canon);
  }
}
