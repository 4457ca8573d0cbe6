/** What comparing two partly hidden copies of claims decides, in terms of what either copy shows
    (sd-cwt/src/validation.rs): shared claims and elements whose place is certain agree, and what only one copy
    shows has room in what the other hides. */
module MatchMeaning {
  import opened Values
  import opened ClaimMatching
  import opened MatchLaws
  import opened MatchingMaps

  predicate Marker(v: Value) {
    v.Tag? && v.tag == 60
  }

  /** No marker stands at the places from `a` to `b`. */
  predicate Clear(items: seq<Value>, a: int, b: int) {
    forall k :: a <= k < b && 0 <= k < |items| ==> !Marker(items[k])
  }

  function VisibleCount(items: seq<Value>): nat {
    if items == [] then 0 else (if Marker(items[0]) then 0 else 1) + VisibleCount(items[1..])
  }

  predicate Hides(entries: seq<Entry>) {
    exists i :: 0 <= i < |entries| && entries[i].key == Simple(59)
  }

  /** What `shown` shows and `other` does not must be hidden in `other`. */
  predicate RoomFor(shown: seq<Entry>, other: seq<Entry>) {
    Hides(other) || forall i :: 0 <= i < |shown| && shown[i].key != Simple(59) ==> HasKey(other, shown[i].key)
  }

  /** The copies may be of one claim. */
  ghost predicate Agrees(left: Value, right: Value, canon: Canon)
    decreases left, 2
  {
    if left.Map? && right.Map? then
      && RoomFor(left.entries, right.entries) && RoomFor(right.entries, left.entries)
      && AgreeingEntries(left.entries, right.entries, canon)
    else if left.Array? && right.Array? then
      && VisibleCount(left.items) <= |right.items| && VisibleCount(right.items) <= |left.items|
      && AgreeingFronts(left.items, right.items, canon) && AgreeingBacks(left.items, right.items, canon)
    else if left.Tag? && right.Tag? && left.tag == right.tag then Agrees(left.inner, right.inner, canon)
    else canon(left) == canon(right)
  }

  /** A claim both maps show agrees. */
  ghost predicate AgreeingEntries(left: seq<Entry>, right: seq<Entry>, canon: Canon)
    decreases left, 1
  {
    forall i, j :: 0 <= i < |left| && 0 <= j < |right| ==> AgreeingEntry(left[i], right[j], canon)
  }

  ghost predicate AgreeingEntry(a: Entry, b: Entry, canon: Canon)
    decreases a, 0
  {
    a.key == b.key && a.key != Simple(59) ==> Agrees(a.val, b.val, canon)
  }

  /** Elements with no marker up to them from the front have the same place in both arrays. */
  ghost predicate AgreeingFronts(left: seq<Value>, right: seq<Value>, canon: Canon)
    decreases left, 0
  {
    forall i :: 0 <= i < |left| && i < |right| && Clear(left, 0, i + 1) && Clear(right, 0, i + 1) ==> Agrees(left[i], right[i], canon)
  }

  /** And so have those with no marker from them to the back. */
  ghost predicate AgreeingBacks(left: seq<Value>, right: seq<Value>, canon: Canon)
    decreases left, 0
  {
    forall i :: 0 <= i < |left| && 0 <= Across(left, right, i) < |right| && Clear(left, i, |left|)
                && Clear(right, Across(left, right, i), |right|) ==>
      Agrees(left[i], right[Across(left, right, i)], canon)
  }

  // ---- it is what the comparison decides --------------------------------------------------------

  lemma {:induction false} CountIs(items: seq<Value>)
    ensures KnownCount(items) == VisibleCount(items)
  {
    if items != [] {
      CountIs(items[1..]);
    }
  }

  lemma {:induction false} FrontIs(items: seq<Value>, i: nat)
    requires i < |items|
    ensures i < KnownFront(items) <==> Clear(items, 0, i + 1)
  {
    if i != 0 {
      FrontIs(items[1..], i - 1);
      assert forall k :: 0 <= k < |items[1..]| ==> items[1..][k] == items[k + 1];
      if Clear(items[1..], 0, i) && !Marker(items[0]) {
        forall k | 0 <= k < i + 1 ensures !Marker(items[k]) {
          assert k == 0 || items[k] == items[1..][k - 1];
        }
      }
    }
  }

  lemma {:induction false} BackIs(items: seq<Value>, i: nat)
    requires i < |items|
    ensures |items| - 1 - i < KnownBack(items) <==> Clear(items, i, |items|)
    decreases |items|
  {
    var init := items[..|items| - 1];
    assert forall k :: 0 <= k < |init| ==> init[k] == items[k];
    if i < |init| {
      BackIs(init, i);
    }
  }

  lemma FrontLengthIs(left: seq<Value>, right: seq<Value>)
    ensures FrontLength(left, right) == Min(KnownFront(left), KnownFront(right))
  {
    AllFront(left);
    AllFront(right);
  }

  lemma {:induction false} AllFront(items: seq<Value>)
    ensures KnownCount(items) == |items| ==> KnownFront(items) == |items|
  {
    if items != [] {
      AllFront(items[1..]);
    }
  }

  lemma {:induction false} AgreesIs(left: Value, right: Value, canon: Canon)
    ensures Compatible(left, right, canon) <==> Agrees(left, right, canon)
    decreases left, 2
  {
    hide HasHidden, Hides;
    if left.Map? && right.Map? {
      EntriesAgree(left.entries, right.entries, canon);
      HidesIs(left.entries);
      HidesIs(right.entries);
    } else if left.Array? && right.Array? {
      ItemsAgree(left.items, right.items, canon);
    } else if left.Tag? && right.Tag? && left.tag == right.tag {
      AgreesIs(left.inner, right.inner, canon);
    }
  }

  lemma HidesIs(entries: seq<Entry>)
    ensures HasHidden(entries) <==> Hides(entries)
  {
  }

  lemma {:induction false} EntriesAgree(left: seq<Entry>, right: seq<Entry>, canon: Canon)
    ensures EntriesCompatible(left, right, canon) <==> AgreeingEntries(left, right, canon)
    decreases left, 1
  {
    hide Compatible, Agrees;
    forall i, j | 0 <= i < |left| && 0 <= j < |right|
      ensures CompatibleEntries(left[i], right[j], canon) <==> AgreeingEntry(left[i], right[j], canon)
    {
      EntryAgrees(left[i], right[j], canon);
    }
  }

  lemma EntryAgrees(a: Entry, b: Entry, canon: Canon)
    ensures CompatibleEntries(a, b, canon) <==> AgreeingEntry(a, b, canon)
    decreases a, 0
  {
    AgreesIs(a.val, b.val, canon);
  }

  lemma {:induction false} FrontsAgree(left: seq<Value>, right: seq<Value>, canon: Canon)
    ensures FrontsCompatible(left, right, FrontLength(left, right), canon) <==> AgreeingFronts(left, right, canon)
    decreases left, 1
  {
    hide Compatible, Agrees, Clear, KnownFront, FrontLength;
    FrontLengthIs(left, right);
    forall i | 0 <= i < |left| && i < |right|
      ensures i < FrontLength(left, right) <==> Clear(left, 0, i + 1) && Clear(right, 0, i + 1)
      ensures Compatible(left[i], right[i], canon) <==> Agrees(left[i], right[i], canon)
    {
      FrontIs(left, i);
      FrontIs(right, i);
      AgreesIs(left[i], right[i], canon);
    }
  }

  lemma {:induction false} BacksAgree(left: seq<Value>, right: seq<Value>, canon: Canon)
    ensures BacksCompatible(left, right, Min(KnownBack(left), KnownBack(right)), canon) <==> AgreeingBacks(left, right, canon)
    decreases left, 1
  {
    hide Compatible, Agrees, Clear, KnownBack;
    var n := Min(KnownBack(left), KnownBack(right));
    forall i | 0 <= i < |left| && 0 <= Across(left, right, i) < |right|
      ensures |left| - n <= i <==> Clear(left, i, |left|) && Clear(right, Across(left, right, i), |right|)
      ensures Compatible(left[i], right[Across(left, right, i)], canon) <==> Agrees(left[i], right[Across(left, right, i)], canon)
    {
      BackIs(left, i);
      BackIs(right, Across(left, right, i));
      AgreesIs(left[i], right[Across(left, right, i)], canon);
    }
  }

  lemma {:induction false} ItemsAgree(left: seq<Value>, right: seq<Value>, canon: Canon)
    ensures CompatibleItems(left, right, canon) <==>
            && VisibleCount(left) <= |right| && VisibleCount(right) <= |left|
            && AgreeingFronts(left, right, canon) && AgreeingBacks(left, right, canon)
    decreases left, 2
  {
    hide Compatible, Agrees, FrontLength, Clear, KnownBack, KnownFront;
    CountIs(left);
    CountIs(right);
    FrontsAgree(left, right, canon);
    if AllKnown(left) && AllKnown(right) {
      if |left| == |right| && AgreeingFronts(left, right, canon) {
        WholeAgrees(left, right, canon);
      }
    } else {
      BacksAgree(left, right, canon);
    }
  }

  /** Without markers both counts leave the arrays equally long, and the front is all of them. */
  lemma {:induction false} WholeAgrees(left: seq<Value>, right: seq<Value>, canon: Canon)
    requires AllKnown(left) && AllKnown(right) && |left| == |right| && AgreeingFronts(left, right, canon)
    ensures AgreeingBacks(left, right, canon)
  {
    hide Agrees, KnownCount;
    KnownEverywhere(left);
    KnownEverywhere(right);
    forall i | 0 <= i < |left| ensures Agrees(left[i], right[i], canon) {
      assert Clear(left, 0, i + 1) && Clear(right, 0, i + 1);
    }
  }

  /** On restored claims the comparison never fails, and says whether the copies agree. */
  lemma MatchExactly(left: Value, right: Value, canon: Canon)
    requires View(left, true) && View(right, true)
    ensures ClaimValuesMatch(left, right, canon) == Ok(Agrees(left, right, canon))
  {
    MatchDecides(left, right, canon);
    AgreesIs(left, right, canon);
  }

  /** Two claims maps are accepted together exactly if every claim both show agrees. */
  lemma {:induction false} SharedExactly(a: seq<Entry>, b: seq<Entry>, canon: Canon)
    requires View(Map(a), true) && View(Map(b), true)
    ensures SharedMatch(a, b, canon) <==> AgreeingEntries(a, b, canon)
  {
    hide ClaimValuesMatch, Agrees;
    forall i, j | 0 <= i < |a| && 0 <= j < |b| && b[j].key == a[i].key && b[j].key != REDACTED_KEYS_LABEL
      ensures ClaimValuesMatch(a[i].val, b[j].val, canon) == Ok(Agrees(a[i].val, b[j].val, canon))
    {
      assert ViewEntry(a[i], true) && ViewEntry(b[j], true);
      MatchExactly(a[i].val, b[j].val, canon);
    }
  }
}
