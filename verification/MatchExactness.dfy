/** On claims with nothing hidden the comparison of two copies is equality up to the order of map
    entries (sd-cwt/src/validation.rs). Scalars are compared by their deterministic encodings, which
    rewrite bignum tags and NaNs. */
module MatchExactness {
  import opened Values
  import opened Encoding
  import opened Deterministic
  import opened ClaimMatching
  import opened MatchLaws
  import opened MatchingMaps

  /** The same claims: the same tags and items, maps with the same keys and the same claims under each
      key, in whatever order, and anything else with one canonical form. */
  ghost predicate SameClaims(a: Value, b: Value, norm: Norm)
    decreases a, 1
  {
    if a.Map? && b.Map? then SameMap(a.entries, b.entries, norm)
    else if a.Array? && b.Array? then |a.items| == |b.items| && SameItems(a.items, b.items, norm)
    else if a.Tag? && b.Tag? && a.tag == b.tag then SameClaims(a.inner, b.inner, norm)
    else Canonical(a, norm) == Canonical(b, norm)
  }

  ghost predicate SameMap(a: seq<Entry>, b: seq<Entry>, norm: Norm)
    decreases a, 0
  {
    && (forall i :: 0 <= i < |a| ==> HasKey(b, a[i].key))
    && (forall j :: 0 <= j < |b| ==> HasKey(a, b[j].key))
    && (forall i, j :: 0 <= i < |a| && 0 <= j < |b| ==> SameEntry(a[i], b[j], norm))
  }

  ghost predicate SameEntry(a: Entry, b: Entry, norm: Norm)
    decreases a, 2
  {
    a.key == b.key ==> SameClaims(a.val, b.val, norm)
  }

  ghost predicate SameItems(a: seq<Value>, b: seq<Value>, norm: Norm)
    requires |a| == |b|
    decreases a, 0
  {
    forall i :: 0 <= i < |a| ==> SameClaims(a[i], b[i], norm)
  }

  /** Pairs that are compared by their encodings, not by their parts. */
  predicate ComparedWhole(a: Value, b: Value) {
    !(a.Map? && b.Map?) && !(a.Array? && b.Array?) && !(a.Tag? && b.Tag? && a.tag == b.tag)
  }

  /** Equal deterministic encodings mean equal canonical forms. */
  lemma EncodingsTell(a: Value, b: Value, norm: Norm)
    requires Encodable(a) && Encodable(b) && Sane(norm)
    ensures EncodeCanonical(a, norm) == EncodeCanonical(b, norm) <==> Canonical(a, norm) == Canonical(b, norm)
  {
    CanonicalEncodable(a, norm);
    CanonicalEncodable(b, norm);
    if EncodeCanonical(a, norm) == EncodeCanonical(b, norm) {
      EncodeInjective(Canonical(a, norm), Canonical(b, norm), [], []);
    }
  }

  /** Neither a bignum nor a NaN, which alone have normal forms of their own. */
  predicate Regular(v: Value) {
    match v
    case Tag(tag, _) => !IsBignumTag(tag)
    case Float(wire) => FloatWire(wire) && !IsNan(wire)
    case _ => true
  }

  /** What is compared whole is then compared for equality. */
  lemma RegularCompared(a: Value, b: Value, norm: Norm)
    requires Regular(a) && Regular(b) && ComparedWhole(a, b)
    ensures Canonical(a, norm) == Canonical(b, norm) <==> a == b
  {
  }

  lemma {:induction false} NothingHidden(entries: seq<Entry>)
    requires forall i :: 0 <= i < |entries| ==> ViewEntry(entries[i], false)
    ensures !HasHidden(entries)
  {
  }

  lemma {:induction false} EachEncodable(items: seq<Value>, i: nat)
    requires EncodableItems(items) && i < |items|
    ensures Encodable(items[i])
  {
    if i != 0 {
      EachEncodable(items[1..], i - 1);
    }
  }

  lemma {:induction false} CompatibleIsSame(left: Value, right: Value, norm: Norm)
    requires View(left, false) && View(right, false) && Encodable(left) && Encodable(right) && Sane(norm)
    ensures Compatible(left, right, v => EncodeCanonical(v, norm)) <==> SameClaims(left, right, norm)
    decreases left, 2
  {
    if left.Map? && right.Map? {
      EncodableEach(left.entries);
      EncodableEach(right.entries);
      MapsSame(left.entries, right.entries, norm);
    } else if left.Array? && right.Array? {
      forall i | 0 <= i < |left.items| ensures Encodable(left.items[i]) {
        EachEncodable(left.items, i);
      }
      forall i | 0 <= i < |right.items| ensures Encodable(right.items[i]) {
        EachEncodable(right.items, i);
      }
      ItemsSame(left.items, right.items, norm);
    } else if left.Tag? && right.Tag? && left.tag == right.tag {
      CompatibleIsSame(left.inner, right.inner, norm);
    } else {
      EncodingsTell(left, right, norm);
    }
  }

  ghost predicate PlainEntries(entries: seq<Entry>) {
    forall i :: 0 <= i < |entries| ==> ViewEntry(entries[i], false) && EncodableEntry(entries[i])
  }

  lemma {:induction false} MapsSame(left: seq<Entry>, right: seq<Entry>, norm: Norm)
    requires PlainEntries(left) && PlainEntries(right) && Sane(norm)
    ensures CompatibleMaps(left, right, v => EncodeCanonical(v, norm)) <==> SameMap(left, right, norm)
    decreases left, 1
  {
    NothingHidden(left);
    NothingHidden(right);
    var canon: Canon := v => EncodeCanonical(v, norm);
    forall i, j | 0 <= i < |left| && 0 <= j < |right|
      ensures CompatibleEntries(left[i], right[j], canon) <==> SameEntry(left[i], right[j], norm)
    {
      EntriesSame(left[i], right[j], norm);
    }
  }

  lemma {:induction false} EntriesSame(a: Entry, b: Entry, norm: Norm)
    requires ViewEntry(a, false) && ViewEntry(b, false) && EncodableEntry(a) && EncodableEntry(b) && Sane(norm)
    ensures CompatibleEntries(a, b, v => EncodeCanonical(v, norm)) <==> SameEntry(a, b, norm)
    decreases a, 0
  {
    CompatibleIsSame(a.val, b.val, norm);
  }

  lemma {:induction false} ItemsSame(left: seq<Value>, right: seq<Value>, norm: Norm)
    requires forall i :: 0 <= i < |left| ==> ViewItem(left[i], false) && Encodable(left[i])
    requires forall i :: 0 <= i < |right| ==> ViewItem(right[i], false) && Encodable(right[i])
    requires Sane(norm)
    ensures CompatibleItems(left, right, v => EncodeCanonical(v, norm)) <==> |left| == |right| && SameItems(left, right, norm)
    decreases left, 1
  {
    KnownEverywhere(left);
    KnownEverywhere(right);
    var canon: Canon := v => EncodeCanonical(v, norm);
    if |left| == |right| {
      forall i | 0 <= i < |left| ensures Compatible(left[i], right[i], canon) <==> SameClaims(left[i], right[i], norm) {
        CompatibleIsSame(left[i], right[i], norm);
      }
    }
  }

  lemma {:induction false} ViewGrows(v: Value)
    requires View(v, false)
    ensures View(v, true)
    decreases v, 1
  {
    match v
    case Map(entries) =>
      forall i | 0 <= i < |entries| ensures ViewEntry(entries[i], true) {
        EntryViewGrows(entries[i]);
      }
    case Array(items) =>
      forall i | 0 <= i < |items| ensures ViewItem(items[i], true) {
        assert ViewItem(items[i], false);
        if !IsRedactedElement(items[i]) {
          ViewGrows(items[i]);
        }
      }
    case Tag(_, inner) => ViewGrows(inner);
    case _ =>
  }

  lemma {:induction false} EntryViewGrows(e: Entry)
    requires ViewEntry(e, false)
    ensures ViewEntry(e, true)
    decreases e, 0
  {
    ViewGrows(e.val);
  }

  /** With nothing hidden, two copies match exactly when they are the same claims. */
  lemma {:induction false} MatchIsEquality(left: Value, right: Value, norm: Norm)
    requires View(left, false) && View(right, false) && Encodable(left) && Encodable(right) && Sane(norm)
    ensures ClaimValuesMatch(left, right, v => EncodeCanonical(v, norm)) == Ok(SameClaims(left, right, norm))
  {
    ViewGrows(left);
    ViewGrows(right);
    MatchDecides(left, right, v => EncodeCanonical(v, norm));
    CompatibleIsSame(left, right, norm);
  }

  /** The deterministic encoder tells claim labels apart. */
  lemma EncoderTellsLabels(norm: Norm)
    requires Sane(norm)
    ensures TellsLabels(v => EncodeCanonical(v, norm))
  {
    forall a, b | LabelOf(a).Some? && LabelOf(b).Some? && EncodeCanonical(a, norm) == EncodeCanonical(b, norm) ensures a == b {
      EncodingsTell(a, b, norm);
      RegularCompared(a, b, norm);
    }
  }
}
