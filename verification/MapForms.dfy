/** What the deterministic encoding of a label map tells about the map (src/map.rs): exactly the
    canonical form of its values. The order of entries inside nested maps is not part of it. */
module MapForms {
  import opened Values
  import opened Encoding
  import opened ByteOrder
  import opened Deterministic
  import opened CoseMaps

  // ---- the order labels are kept in -------------------------------------------------------------

  /** Integers before texts, integers by value, texts bytewise. */
  predicate LabelLess(a: Label, b: Label) {
    match (a, b)
    case (IntLabel(x), IntLabel(y)) => x < y
    case (TextLabel(x), TextLabel(y)) => Less(x, y)
    case (IntLabel(_), TextLabel(_)) => true
    case (TextLabel(_), IntLabel(_)) => false
  }

  lemma LabelOrder(a: Label, b: Label, c: Label)
    ensures !LabelLess(a, a)
    ensures LabelLess(a, b) && LabelLess(b, c) ==> LabelLess(a, c)
    ensures LabelLess(a, b) || a == b || LabelLess(b, a)
  {
    if a.TextLabel? {
      LessIrreflexive(a.text);
      if b.TextLabel? {
        LessTotal(a.text, b.text);
        if c.TextLabel? && Less(a.text, b.text) && Less(b.text, c.text) {
          LessTransitive(a.text, b.text, c.text);
        }
      }
    }
  }

  predicate IsLeast(l: Label, labels: set<Label>) {
    l in labels && forall k :: k in labels ==> k == l || LabelLess(l, k)
  }

  lemma {:induction false} SomeLeast(labels: set<Label>)
    requires labels != {}
    ensures exists l :: IsLeast(l, labels)
    decreases |labels|
  {
    var x :| x in labels;
    if labels - {x} == {} {
      forall k | k in labels ensures k == x {
        assert k !in labels - {x};
      }
      assert IsLeast(x, labels);
    } else {
      SomeLeast(labels - {x});
      var y :| IsLeast(y, labels - {x});
      LabelOrder(x, y, x);
      forall k | k in labels && LabelLess(x, y) ensures k == x || LabelLess(x, k) {
        LabelOrder(x, y, k);
      }
      assert IsLeast(if LabelLess(x, y) then x else y, labels);
    }
  }

  lemma OneLeast(labels: set<Label>, a: Label, b: Label)
    requires IsLeast(a, labels) && IsLeast(b, labels)
    ensures a == b
  {
    LabelOrder(a, b, a);
  }

  function Least(labels: set<Label>): (l: Label)
    requires labels != {}
    ensures IsLeast(l, labels)
  {
    SomeLeast(labels);
    assert forall a, b :: IsLeast(a, labels) && IsLeast(b, labels) ==> a == b by {
      forall a, b | IsLeast(a, labels) && IsLeast(b, labels) ensures a == b {
        OneLeast(labels, a, b);
      }
    }
    var l :| l in labels && IsLeast(l, labels);
    l
  }

  function Ordered(labels: set<Label>): (r: seq<Label>)
    ensures forall l :: l in r <==> l in labels
    ensures forall i, j :: 0 <= i < j < |r| ==> r[i] != r[j]
    decreases |labels|
  {
    if labels == {} then [] else
    var l := Least(labels);
    var rest := Ordered(labels - {l});
    assert l !in rest;
    [l] + rest
  }

  /** The labels of a map in the order they are kept in. */
  function Listing(m: map<Label, Value>): (r: seq<Label>)
    ensures Lists(r, m)
  {
    Ordered(m.Keys)
  }

  // ---- bytes and forms --------------------------------------------------------------------------

  /** The deterministic bytes of a map, as `CoseMap.ToVec` produces them. */
  function EncodeMap(m: map<Label, Value>, norm: Norm): Result<Bytes> {
    if MapFits(m) then Ok(Naive(Listing(m), m, norm)) else Err(Cbor)
  }

  /** The map with every value in the form the deterministic encoder writes. */
  function CanonicalMap(m: map<Label, Value>, norm: Norm): map<Label, Value> {
    map l | l in m :: Canonical(m[l], norm)
  }

  /** The entries behind the bytes. */
  function Sorted(m: map<Label, Value>, norm: Norm): seq<Entry> {
    SortEntries(CanonicalEntries(EntriesFor(Listing(m), m), norm))
  }

  lemma BytesOfSorted(m: map<Label, Value>, norm: Norm)
    requires MapFits(m) && Sane(norm)
    ensures Encodable(Map(Sorted(m, norm))) && EncodeMap(m, norm) == Ok(Encode(Map(Sorted(m, norm))))
    ensures |Sorted(m, norm)| == |m|
  {
    NaiveIs(Listing(m), m, norm);
    EncodedMap(Sorted(m, norm));
  }

  lemma {:induction false} EntryOfLabel(m: map<Label, Value>, norm: Norm, l: Label)
    requires l in m
    ensures Entry(ValueOfLabel(l), Canonical(m[l], norm)) in Sorted(m, norm)
  {
    var labels := Listing(m);
    var entries := CanonicalEntries(EntriesFor(labels, m), norm);
    var i :| 0 <= i < |labels| && labels[i] == l;
    CanonicalEntryAt(labels, m, norm, i);
    SortedHas(entries, i);
  }

  lemma SortedHas(entries: seq<Entry>, i: nat)
    requires i < |entries|
    ensures entries[i] in SortEntries(entries)
  {
    SortedFrom(entries);
    var sorted := Sort(ByKey(entries));
    assert ByKey(entries)[i] in multiset(ByKey(entries));
    assert ByKey(entries)[i] in multiset(sorted);
    var j :| 0 <= j < |sorted| && sorted[j] == ByKey(entries)[i];
    assert SortEntries(entries)[j] == entries[i];
  }

  lemma LabelOfEntry(m: map<Label, Value>, norm: Norm, e: Entry)
    requires e in Sorted(m, norm)
    ensures exists l :: l in m && e == Entry(ValueOfLabel(l), Canonical(m[l], norm))
  {
    var labels := Listing(m);
    var i :| 0 <= i < |Sorted(m, norm)| && Sorted(m, norm)[i] == e;
    SortedAt(labels, m, norm, i);
    var l := InOrder(labels)[i];
    LabelStays(l, norm);
    assert l in m && e == Entry(ValueOfLabel(l), Canonical(m[l], norm));
  }

  /** Two maps have the same bytes exactly when their values have the same canonical forms. */
  lemma {:induction false} SameBytesSameForm(a: map<Label, Value>, b: map<Label, Value>, norm: Norm)
    requires MapFits(a) && MapFits(b) && Sane(norm)
    ensures EncodeMap(a, norm) == EncodeMap(b, norm) <==> CanonicalMap(a, norm) == CanonicalMap(b, norm)
  {
    hide EncodeMap, MapFits, Sane, Sorted, Canonical;
    if EncodeMap(a, norm) == EncodeMap(b, norm) {
      BytesTell(a, b, norm);
      FormWithin(a, b, norm);
      FormWithin(b, a, norm);
      assert CanonicalMap(a, norm).Keys == CanonicalMap(b, norm).Keys;
    }
    if CanonicalMap(a, norm) == CanonicalMap(b, norm) {
      SameFormSameBytes(a, b, norm);
    }
  }

  lemma BytesTell(a: map<Label, Value>, b: map<Label, Value>, norm: Norm)
    requires MapFits(a) && MapFits(b) && Sane(norm) && EncodeMap(a, norm) == EncodeMap(b, norm)
    ensures Sorted(a, norm) == Sorted(b, norm)
  {
    hide EncodeMap, MapFits, Sane, Sorted, Encode, Encodable;
    BytesOfSorted(a, norm);
    BytesOfSorted(b, norm);
    EncodeInjective(Map(Sorted(a, norm)), Map(Sorted(b, norm)), [], []);
  }

  lemma {:induction false} FormWithin(a: map<Label, Value>, b: map<Label, Value>, norm: Norm)
    requires Sorted(a, norm) == Sorted(b, norm)
    ensures forall l :: l in a ==> l in b && Canonical(a[l], norm) == Canonical(b[l], norm)
  {
    forall l | l in a ensures l in b && Canonical(a[l], norm) == Canonical(b[l], norm) {
      EntryOfLabel(a, norm, l);
      LabelOfEntry(b, norm, Entry(ValueOfLabel(l), Canonical(a[l], norm)));
    }
  }

  lemma {:induction false} SameFormSameBytes(a: map<Label, Value>, b: map<Label, Value>, norm: Norm)
    requires MapFits(a) && MapFits(b) && CanonicalMap(a, norm) == CanonicalMap(b, norm)
    ensures EncodeMap(a, norm) == EncodeMap(b, norm)
  {
    hide MapFits, Naive, Canonical;
    assert a.Keys == CanonicalMap(a, norm).Keys == CanonicalMap(b, norm).Keys == b.Keys;
    SameFormSameEntries(Listing(a), a, b, norm);
    NaiveFrom(Listing(a), a, norm);
    NaiveFrom(Listing(a), b, norm);
  }

  lemma NaiveFrom(labels: seq<Label>, m: map<Label, Value>, norm: Norm)
    ensures Naive(labels, m, norm) == Code(Map(SortEntries(CanonicalEntries(EntriesFor(labels, m), norm))))
  {
  }

  lemma {:induction false} SameFormSameEntries(labels: seq<Label>, a: map<Label, Value>, b: map<Label, Value>, norm: Norm)
    requires CanonicalMap(a, norm) == CanonicalMap(b, norm) && forall l :: l in labels ==> l in a && l in b
    ensures CanonicalEntries(EntriesFor(labels, a), norm) == CanonicalEntries(EntriesFor(labels, b), norm)
  {
    if labels != [] {
      SameFormSameEntries(labels[1..], a, b, norm);
      assert labels[0] in a;
      assert CanonicalMap(a, norm)[labels[0]] == CanonicalMap(b, norm)[labels[0]];
      assert EntriesFor(labels, a)[1..] == EntriesFor(labels[1..], a) && EntriesFor(labels, b)[1..] == EntriesFor(labels[1..], b);
    }
  }

  // ---- the order inside nested maps leaves no trace ---------------------------------------------

  const ONE_TWO := Map([Entry(Integer(1), Integer(0)), Entry(Integer(2), Integer(0))])
  const TWO_ONE := Map([Entry(Integer(2), Integer(0)), Entry(Integer(1), Integer(0))])

  lemma SameCanonical(norm: Norm)
    ensures Canonical(ONE_TWO, norm) == Canonical(TWO_ONE, norm)
  {
    var x, y := Entry(Integer(1), Integer(0)), Entry(Integer(2), Integer(0));
    TwoStay(x, y, norm);
    TwoStay(y, x, norm);
    if Code(Integer(1)) == Code(Integer(2)) {
      EncodeInjective(Integer(1), Integer(2), [], []);
    }
    assert ByKey([x, y])[0] == ByKey([y, x])[1] && ByKey([x, y])[1] == ByKey([y, x])[0];
    SortIgnoresOrder(ByKey([x, y]), ByKey([y, x]));
  }

  lemma TwoStay(x: Entry, y: Entry, norm: Norm)
    requires x.key.Integer? && x.val.Integer? && y.key.Integer? && y.val.Integer?
    ensures CanonicalEntries([x, y], norm) == [x, y]
  {
    assert [x, y][1..] == [y] && [y][1..] == [];
    IntegersStay(x, norm);
    IntegersStay(y, norm);
  }

  lemma IntegersStay(e: Entry, norm: Norm)
    requires e.key.Integer? && e.val.Integer?
    ensures CanonicalEntry(e, norm) == e
  {
  }

  /** Different maps with the same bytes, whatever the normal form of bignums and NaNs is. */
  lemma DifferentMapsSameBytes(norm: Norm)
    ensures var a, b := map[IntLabel(100) := ONE_TWO], map[IntLabel(100) := TWO_ONE];
            a != b && EncodeMap(a, norm).Ok? && EncodeMap(a, norm) == EncodeMap(b, norm)
  {
    hide Naive, Canonical, Listing;
    var a, b := map[IntLabel(100) := ONE_TWO], map[IntLabel(100) := TWO_ONE];
    assert ONE_TWO.entries[0] != TWO_ONE.entries[0];
    assert a[IntLabel(100)] != b[IntLabel(100)];
    TwoEncodable(ONE_TWO.entries);
    TwoEncodable(TWO_ONE.entries);
    SameCanonical(norm);
    assert CanonicalMap(a, norm) == CanonicalMap(b, norm);
    SameFormSameBytes(a, b, norm);
  }

  lemma TwoEncodable(entries: seq<Entry>)
    requires |entries| == 2 && forall i :: 0 <= i < 2 ==> EncodableEntry(entries[i])
    ensures Encodable(Map(entries))
  {
    EncodableEach(entries);
  }

  // ---- reading the bytes back -------------------------------------------------------------------

  ghost predicate EncodesTo(m: map<Label, Value>, norm: Norm, bytes: Bytes) {
    EncodeMap(m, norm) == Ok(bytes)
  }

  ghost function Reading(norm: Norm, bytes: Bytes): Result<map<Label, Value>> {
    if exists m :: EncodesTo(m, norm, bytes) then
      var m :| EncodesTo(m, norm, bytes);
      Ok(CanonicalMap(m, norm))
    else Err(Cbor)
  }

  lemma OnlyFitting(m: map<Label, Value>, norm: Norm, bytes: Bytes)
    requires EncodesTo(m, norm, bytes)
    ensures MapFits(m) && EncodeMap(m, norm) == Ok(bytes)
  {
  }

  /** The bytes determine the canonical form: some decoder reads every encoded map as just that. */
  lemma ReadingIsPossible(m: map<Label, Value>, norm: Norm)
    requires Sane(norm) && MapFits(m)
    ensures Reading(norm, EncodeMap(m, norm).value) == Ok(CanonicalMap(m, norm))
  {
    var bytes := EncodeMap(m, norm).value;
    assert EncodesTo(m, norm, bytes);
    var other :| EncodesTo(other, norm, bytes) && Reading(norm, bytes) == Ok(CanonicalMap(other, norm));
    OnlyFitting(other, norm, bytes);
    OnlyFitting(m, norm, bytes);
    SameBytesSameForm(m, other, norm);
  }
}
