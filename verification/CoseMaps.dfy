/** The map underlying headers, keys and claims, and its one-pass deterministic encoder (src/map.rs):
    keys are written to one shared buffer, an index of it is sorted, and values are canonicalized only
    where they need it. The library's ordered map is a `map`; every order of iteration is covered. */
module CoseMaps {
  import opened Values
  import opened Heads
  import opened Syntax
  import opened Encoding
  import opened ByteOrder
  import opened Deterministic

  const RECURSION_LIMIT: nat := 256

  /** A growing byte buffer. */
  class Buffer {
    var bytes: Bytes

    constructor ()
      ensures bytes == []
    {
      bytes := [];
    }

    method Extend(more: Bytes)
      modifies this
      ensures bytes == old(bytes) + more
    {
      bytes := bytes + more;
    }

    /** Writes a head in its preferred form. */
    method WriteHead(major: nat, argument: nat)
      requires major < 8 && argument < TWO_64
      modifies this
      ensures bytes == old(bytes) + ShortHead(major, argument)
    {
      Pow256Values();
      if argument < 24 {
        bytes := bytes + [32 * major + argument];
      } else if argument <= 0xff {
        assert BigEndian(argument, 1) == [argument];
        bytes := bytes + [32 * major + 24, argument];
        assert ShortHead(major, argument) == [32 * major + 24, argument];
      } else if argument <= 0xffff {
        bytes := bytes + [32 * major + 25];
        bytes := bytes + BigEndian(argument, 2);
        assert ShortHead(major, argument) == [32 * major + 25] + BigEndian(argument, 2);
      } else if argument <= 0xffff_ffff {
        bytes := bytes + [32 * major + 26];
        bytes := bytes + BigEndian(argument, 4);
        assert ShortHead(major, argument) == [32 * major + 26] + BigEndian(argument, 4);
      } else {
        bytes := bytes + [32 * major + 27];
        bytes := bytes + BigEndian(argument, 8);
        assert ShortHead(major, argument) == [32 * major + 27] + BigEndian(argument, 8);
      }
    }
  }

  // ---- what the encoder must produce ------------------------------------------------------------

  predicate LabelFits(l: Label) {
    match l
    case IntLabel(n) => I64_MIN <= n <= I64_MAX
    case TextLabel(t) => |t| < TWO_64
  }

  predicate MapFits(m: map<Label, Value>) {
    |m| < TWO_64 && forall l :: l in m ==> LabelFits(l) && Encodable(m[l])
  }

  /** Every label of the map once. */
  ghost predicate Lists(labels: seq<Label>, m: map<Label, Value>) {
    && (forall l :: l in labels <==> l in m)
    && (forall i, j :: 0 <= i < j < |labels| ==> labels[i] != labels[j])
  }

  function EntryFor(l: Label, m: map<Label, Value>): Entry {
    Entry(ValueOfLabel(l), if l in m then m[l] else NULL)
  }

  function EntriesFor(labels: seq<Label>, m: map<Label, Value>): (r: seq<Entry>)
    ensures |r| == |labels|
  {
    if labels == [] then [] else [EntryFor(labels[0], m)] + EntriesFor(labels[1..], m)
  }

  /** The naive encoder: the map as a value, canonicalized as a whole and encoded. */
  function Naive(labels: seq<Label>, m: map<Label, Value>, norm: Norm): Bytes {
    EncodeCanonical(Map(EntriesFor(labels, m)), norm)
  }

  function LabelCodes(labels: seq<Label>): (r: seq<Keyed<Label>>)
    ensures |r| == |labels|
    ensures forall i :: 0 <= i < |r| ==> r[i] == Keyed(Code(ValueOfLabel(labels[i])), labels[i])
  {
    seq(|labels|, i requires 0 <= i < |labels| => Keyed(Code(ValueOfLabel(labels[i])), labels[i]))
  }

  lemma LabelCodeInjective(a: Label, b: Label)
    requires LabelFits(a) && LabelFits(b) && Code(ValueOfLabel(a)) == Code(ValueOfLabel(b))
    ensures a == b
  {
    EncodeInjective(ValueOfLabel(a), ValueOfLabel(b), [], []);
  }

  lemma LabelCodesDistinct(labels: seq<Label>, m: map<Label, Value>)
    requires Lists(labels, m) && MapFits(m)
    ensures DistinctCodes(LabelCodes(labels))
  {
    forall i, j | 0 <= i < j < |labels| ensures LabelCodes(labels)[i].code != LabelCodes(labels)[j].code {
      assert labels[i] in m && labels[j] in m;
      if Code(ValueOfLabel(labels[i])) == Code(ValueOfLabel(labels[j])) {
        LabelCodeInjective(labels[i], labels[j]);
      }
    }
  }

  /** The canonical entry a label contributes. */
  function Written(m: map<Label, Value>, norm: Norm): Label -> Entry {
    (l: Label) => CanonicalEntry(EntryFor(l, m), norm)
  }

  lemma {:induction false} CanonicalOfEntries(labels: seq<Label>, m: map<Label, Value>, norm: Norm)
    ensures ByKey(CanonicalEntries(EntriesFor(labels, m), norm)) == Mapped(LabelCodes(labels), Written(m, norm))
  {
    var entries := CanonicalEntries(EntriesFor(labels, m), norm);
    forall i | 0 <= i < |labels| ensures ByKey(entries)[i] == Mapped(LabelCodes(labels), Written(m, norm))[i] {
      CanonicalEntryAt(labels, m, norm, i);
    }
  }

  lemma LabelStays(l: Label, norm: Norm)
    ensures Canonical(ValueOfLabel(l), norm) == ValueOfLabel(l)
  {
    match l
    case IntLabel(_) =>
    case TextLabel(_) =>
  }

  lemma {:induction false} CanonicalEntryAt(labels: seq<Label>, m: map<Label, Value>, norm: Norm, i: nat)
    requires i < |labels|
    ensures CanonicalEntries(EntriesFor(labels, m), norm)[i] == Written(m, norm)(labels[i])
    ensures CanonicalEntries(EntriesFor(labels, m), norm)[i].key == ValueOfLabel(labels[i])
  {
    LabelStays(labels[i], norm);
    if i != 0 {
      CanonicalEntryAt(labels[1..], m, norm, i - 1);
      assert EntriesFor(labels, m)[1..] == EntriesFor(labels[1..], m);
    }
  }

  /** The labels in the order of their encoded keys. */
  function InOrder(labels: seq<Label>): (r: seq<Label>)
    ensures |r| == |labels|
  {
    Deterministic.Items(Sort(LabelCodes(labels)))
  }

  lemma InOrderFrom(labels: seq<Label>)
    ensures forall i :: 0 <= i < |labels| ==> InOrder(labels)[i] in labels
    ensures forall i :: 0 <= i < |labels| ==> Sort(LabelCodes(labels))[i].code == Code(ValueOfLabel(InOrder(labels)[i]))
  {
    var sorted := Sort(LabelCodes(labels));
    SortPermutes(LabelCodes(labels));
    forall i | 0 <= i < |labels|
      ensures sorted[i].item in labels && sorted[i].code == Code(ValueOfLabel(sorted[i].item))
    {
      assert sorted[i] in multiset(sorted);
      assert sorted[i] in LabelCodes(labels);
    }
  }

  /** The naive encoder's entries are the labels' canonical entries in key order. */
  lemma NaiveEntries(labels: seq<Label>, m: map<Label, Value>, norm: Norm)
    ensures var sorted := SortEntries(CanonicalEntries(EntriesFor(labels, m), norm));
            forall i :: 0 <= i < |labels| ==> sorted[i] == Written(m, norm)(InOrder(labels)[i])
  {
    CanonicalOfEntries(labels, m, norm);
    SortMapped(LabelCodes(labels), Written(m, norm));
  }

  /** The naive encoding does not depend on the order the map is listed in. */
  lemma NaiveIgnoresOrder(a: seq<Label>, b: seq<Label>, m: map<Label, Value>, norm: Norm)
    requires Lists(a, m) && Lists(b, m) && MapFits(m)
    ensures Naive(a, m, norm) == Naive(b, m, norm)
  {
    LabelCodesDistinct(a, m);
    LabelCodesDistinct(b, m);
    forall x ensures x in LabelCodes(a) <==> x in LabelCodes(b) {
      CodesHave(a, b, m, x);
      CodesHave(b, a, m, x);
    }
    SortIgnoresOrder(LabelCodes(a), LabelCodes(b));
    CanonicalOfEntries(a, m, norm);
    CanonicalOfEntries(b, m, norm);
    SortMapped(LabelCodes(a), Written(m, norm));
    SortMapped(LabelCodes(b), Written(m, norm));
  }

  lemma CodesHave(a: seq<Label>, b: seq<Label>, m: map<Label, Value>, x: Keyed<Label>)
    requires Lists(a, m) && Lists(b, m)
    ensures x in LabelCodes(a) ==> x in LabelCodes(b)
  {
    if x in LabelCodes(a) {
      var i :| 0 <= i < |a| && LabelCodes(a)[i] == x;
      assert a[i] in b;
      var j :| 0 <= j < |b| && b[j] == a[i];
      assert LabelCodes(b)[j] == x;
    }
  }

  // ---- the shared key buffer --------------------------------------------------------------------

  /** Where a key stands in the buffer, and its value. */
  datatype Slot = Slot(from: nat, to: nat, val: Value)

  function SlotKey(slot: Slot, keys: Bytes): Bytes {
    if slot.from <= slot.to <= |keys| then keys[slot.from..slot.to] else []
  }

  function SlotCodes(slots: seq<Slot>, keys: Bytes): (r: seq<Keyed<Value>>)
    ensures |r| == |slots|
    ensures forall i :: 0 <= i < |r| ==> r[i] == Keyed(SlotKey(slots[i], keys), slots[i].val)
  {
    if slots == [] then [] else [Keyed(SlotKey(slots[0], keys), slots[0].val)] + SlotCodes(slots[1..], keys)
  }

  /** Sorts the index by the key bytes it points at. */
  function SortSlots(slots: seq<Slot>, keys: Bytes): seq<Slot> {
    if slots == [] then [] else InsertSlot(slots[0], SortSlots(slots[1..], keys), keys)
  }

  function InsertSlot(x: Slot, sorted: seq<Slot>, keys: Bytes): seq<Slot> {
    if sorted == [] || Less(SlotKey(x, keys), SlotKey(sorted[0], keys)) then [x] + sorted
    else [sorted[0]] + InsertSlot(x, sorted[1..], keys)
  }

  lemma {:induction false} InsertSlotSorts(x: Slot, sorted: seq<Slot>, keys: Bytes)
    ensures SlotCodes(InsertSlot(x, sorted, keys), keys) == Insert(Keyed(SlotKey(x, keys), x.val), SlotCodes(sorted, keys))
  {
    if sorted == [] || Less(SlotKey(x, keys), SlotKey(sorted[0], keys)) {
      assert ([x] + sorted)[1..] == sorted;
    } else {
      InsertSlotSorts(x, sorted[1..], keys);
      assert SlotCodes(sorted, keys)[1..] == SlotCodes(sorted[1..], keys);
      assert ([sorted[0]] + InsertSlot(x, sorted[1..], keys))[1..] == InsertSlot(x, sorted[1..], keys);
    }
  }

  lemma {:induction false} SortSlotsSorts(slots: seq<Slot>, keys: Bytes)
    ensures SlotCodes(SortSlots(slots, keys), keys) == Sort(SlotCodes(slots, keys))
  {
    if slots != [] {
      SortSlotsSorts(slots[1..], keys);
      InsertSlotSorts(slots[0], SortSlots(slots[1..], keys), keys);
      assert SlotCodes(slots, keys)[1..] == SlotCodes(slots[1..], keys);
    }
  }

  /** Slot `i` holds label `i`: its encoded key and its value. */
  ghost predicate Holds(slots: seq<Slot>, keys: Bytes, labels: seq<Label>, m: map<Label, Value>) {
    && |slots| == |labels|
    && forall i :: 0 <= i < |slots| ==>
         && slots[i].from <= slots[i].to <= |keys|
         && keys[slots[i].from..slots[i].to] == Code(ValueOfLabel(labels[i]))
         && labels[i] in m && slots[i].val == m[labels[i]]
  }

  lemma HoldsMore(slots: seq<Slot>, keys: Bytes, labels: seq<Label>, m: map<Label, Value>, l: Label)
    requires Holds(slots, keys, labels, m) && l in m
    ensures var more := keys + Code(ValueOfLabel(l));
            Holds(slots + [Slot(|keys|, |more|, m[l])], more, labels + [l], m)
  {
    var more := keys + Code(ValueOfLabel(l));
    forall i | 0 <= i < |slots| ensures more[slots[i].from..slots[i].to] == keys[slots[i].from..slots[i].to] {
    }
    assert more[|keys|..|more|] == Code(ValueOfLabel(l));
  }

  /** Every label of the map outside `todo` once. */
  ghost predicate ListsAllBut(labels: seq<Label>, m: map<Label, Value>, todo: set<Label>) {
    && (forall l :: l in labels <==> l in m && l !in todo)
    && (forall i, j :: 0 <= i < j < |labels| ==> labels[i] != labels[j])
  }

  lemma ListsMore(labels: seq<Label>, m: map<Label, Value>, todo: set<Label>, l: Label)
    requires ListsAllBut(labels, m, todo) && l in todo && l in m
    ensures ListsAllBut(labels + [l], m, todo - {l})
  {
  }

  function ValueIn(m: map<Label, Value>): Label -> Value {
    (l: Label) => EntryFor(l, m).val
  }

  /** Sorting the index puts the slots in label order. */
  lemma SortedHolds(slots: seq<Slot>, keys: Bytes, labels: seq<Label>, m: map<Label, Value>)
    requires Holds(slots, keys, labels, m)
    ensures var sorted := SortSlots(slots, keys);
            && |sorted| == |labels|
            && forall i :: 0 <= i < |labels| ==>
                 && SlotKey(sorted[i], keys) == Code(ValueOfLabel(InOrder(labels)[i]))
                 && sorted[i].val == EntryFor(InOrder(labels)[i], m).val
  {
    var sorted := SortSlots(slots, keys);
    SortSlotsSorts(slots, keys);
    assert SlotCodes(slots, keys) == Mapped(LabelCodes(labels), ValueIn(m));
    SortMapped(LabelCodes(labels), ValueIn(m));
    InOrderFrom(labels);
    assert |SlotCodes(sorted, keys)| == |sorted|;
    forall i | 0 <= i < |labels|
      ensures SlotKey(sorted[i], keys) == Code(ValueOfLabel(InOrder(labels)[i])) && sorted[i].val == EntryFor(InOrder(labels)[i], m).val
    {
      assert SlotCodes(sorted, keys)[i] == Mapped(Sort(LabelCodes(labels)), ValueIn(m))[i];
    }
  }

  // ---- writing the entries ----------------------------------------------------------------------

  function Body(entries: seq<Entry>): Bytes
    requires EncodableEntries(entries)
  {
    SerPairs(PlainEntries(entries))
  }

  lemma {:induction false} PlainAppends(entries: seq<Entry>, e: Entry)
    requires EncodableEntries(entries) && EncodableEntry(e)
    ensures EncodableEntries(entries + [e]) && PlainEntries(entries + [e]) == PlainEntries(entries) + [PlainEntry(e)]
  {
    if entries == [] {
      assert [] + [e] == [e] && [e][1..] == [];
    } else {
      assert (entries + [e])[1..] == entries[1..] + [e];
      PlainAppends(entries[1..], e);
    }
  }

  lemma BodyAppends(entries: seq<Entry>, e: Entry)
    requires EncodableEntries(entries) && EncodableEntry(e)
    ensures EncodableEntries(entries + [e]) && Body(entries + [e]) == Body(entries) + (Encode(e.key) + Encode(e.val))
  {
    PlainAppends(entries, e);
    SerPairsAppend(PlainEntries(entries), PlainEntry(e));
  }

  lemma BodyGrows(before: Bytes, entries: seq<Entry>, i: nat)
    requires i < |entries| && EncodableEntries(entries[..i]) && EncodableEntry(entries[i])
    ensures EncodableEntries(entries[..i + 1])
    ensures before + Body(entries[..i]) + (Encode(entries[i].key) + Encode(entries[i].val)) == before + Body(entries[..i + 1])
  {
    BodyAppends(entries[..i], entries[i]);
    assert entries[..i + 1] == entries[..i] + [entries[i]];
  }

  /** Entry `i` of the naive encoding comes from label `i` in key order. */
  lemma SortedAt(labels: seq<Label>, m: map<Label, Value>, norm: Norm, i: nat)
    requires Lists(labels, m) && i < |labels|
    ensures InOrder(labels)[i] in m
    ensures SortEntries(CanonicalEntries(EntriesFor(labels, m), norm))[i] == CanonicalEntry(EntryFor(InOrder(labels)[i], m), norm)
  {
    NaiveEntries(labels, m, norm);
    InOrderFrom(labels);
    assert InOrder(labels)[i] in labels;
  }

  lemma EncodedMap(entries: seq<Entry>)
    requires EncodableEntries(entries) && |entries| < TWO_64
    ensures Encode(Map(entries)) == ShortHead(5, |entries|) + Body(entries)
  {
    TableWritten(entries);
  }

  lemma NaiveIs(labels: seq<Label>, m: map<Label, Value>, norm: Norm)
    requires Lists(labels, m) && MapFits(m) && Sane(norm)
    ensures var sorted := SortEntries(CanonicalEntries(EntriesFor(labels, m), norm));
            && |labels| == |m| && EncodableEntries(sorted)
            && Naive(labels, m, norm) == ShortHead(5, |m|) + Body(sorted)
  {
    ListsSize(labels, m);
    EntriesEncodable(labels, m);
    CanonicalEncodable(Map(EntriesFor(labels, m)), norm);
    EncodedMap(SortEntries(CanonicalEntries(EntriesFor(labels, m), norm)));
  }

  lemma {:induction false} EntriesEncodable(labels: seq<Label>, m: map<Label, Value>)
    requires MapFits(m) && forall l :: l in labels ==> l in m
    ensures EncodableEntries(EntriesFor(labels, m))
  {
    if labels != [] {
      assert labels[0] in m;
      EntriesEncodable(labels[1..], m);
    }
  }

  ghost function Elements<T>(s: seq<T>): set<T> {
    set x | x in s
  }

  lemma {:induction false} DistinctSize<T>(s: seq<T>)
    requires forall i, j :: 0 <= i < j < |s| ==> s[i] != s[j]
    ensures |Elements(s)| == |s|
  {
    if s != [] {
      DistinctSize(s[1..]);
      assert Elements(s) == {s[0]} + Elements(s[1..]);
      assert s[0] !in Elements(s[1..]);
    }
  }

  lemma ListsSize(labels: seq<Label>, m: map<Label, Value>)
    requires Lists(labels, m)
    ensures |labels| == |m|
  {
    DistinctSize(labels);
    assert Elements(labels) == m.Keys;
  }

  class CoseMap {
    var entries: map<Label, Value>

    constructor ()
      ensures entries == map[]
    {
      entries := map[];
    }

    method Insert(key: Label, value: Value) returns (previous: Option<Value>)
      modifies this
      ensures entries == old(entries)[key := value]
      ensures previous == if key in old(entries) then Some(old(entries)[key]) else None
    {
      previous := if key in entries then Some(entries[key]) else None;
      entries := entries[key := value];
    }

    method Remove(key: Label) returns (previous: Option<Value>)
      modifies this
      ensures entries == old(entries) - {key}
      ensures previous == if key in old(entries) then Some(old(entries)[key]) else None
    {
      previous := if key in entries then Some(entries[key]) else None;
      entries := entries - {key};
    }

    /** Appends the encoded key of a label. */
    static method WriteKey(keys: Buffer, l: Label)
      requires LabelFits(l)
      modifies keys
      ensures keys.bytes == old(keys.bytes) + Code(ValueOfLabel(l))
    {
      match l {
        case IntLabel(n) =>
          if n >= 0 {
            keys.WriteHead(0, n);
          } else {
            keys.WriteHead(1, -1 - n);
          }
        case TextLabel(text) =>
          ghost var before := keys.bytes;
          keys.WriteHead(3, |text|);
          keys.Extend(text);
          assert before + ShortHead(3, |text|) + text == before + (ShortHead(3, |text|) + text);
      }
    }

    /** The index of the shared key buffer, for some order of iteration. */
    method IndexKeys(keys: Buffer) returns (slots: seq<Slot>, ghost labels: seq<Label>)
      requires MapFits(entries) && keys.bytes == []
      modifies keys
      ensures Lists(labels, entries) && Holds(slots, keys.bytes, labels, entries)
    {
      slots := [];
      labels := [];
      var todo := entries.Keys;
      while todo != {}
        invariant todo <= entries.Keys && ListsAllBut(labels, entries, todo)
        invariant Holds(slots, keys.bytes, labels, entries)
        decreases |todo|
      {
        var l :| l in todo;
        var start := |keys.bytes|;
        ghost var before := keys.bytes;
        WriteKey(keys, l);
        HoldsMore(slots, before, labels, entries, l);
        ListsMore(labels, entries, todo, l);
        slots := slots + [Slot(start, |keys.bytes|, entries[l])];
        labels := labels + [l];
        todo := todo - {l};
      }
    }

    /** Encodes the map deterministically; the result is the naive encoder's, whatever order the
        entries are listed in. */
    method ToVec(norm: Norm) returns (bytes: Bytes)
      requires MapFits(entries) && Sane(norm)
      ensures forall labels :: Lists(labels, entries) ==> bytes == Naive(labels, entries, norm)
    {
      var keys := new Buffer();
      var slots, labels := IndexKeys(keys);
      SortedHolds(slots, keys.bytes, labels, entries);
      slots := SortSlots(slots, keys.bytes);
      var out := new Buffer();
      out.WriteHead(5, |entries|);
      WriteEntries(out, keys.bytes, slots, labels, norm);
      bytes := out.bytes;
      NaiveIs(labels, entries, norm);
      assert [] + ShortHead(5, |entries|) == ShortHead(5, |entries|);
      forall other | Lists(other, entries) ensures bytes == Naive(other, entries, norm) {
        NaiveIgnoresOrder(labels, other, entries, norm);
      }
    }

    method WriteEntries(out: Buffer, keys: Bytes, slots: seq<Slot>, ghost labels: seq<Label>, norm: Norm)
      requires MapFits(entries) && Sane(norm) && Lists(labels, entries) && |slots| == |labels|
      requires forall i :: 0 <= i < |labels| ==>
                 && SlotKey(slots[i], keys) == Code(ValueOfLabel(InOrder(labels)[i]))
                 && slots[i].val == EntryFor(InOrder(labels)[i], entries).val
      modifies out
      ensures EncodableEntries(SortEntries(CanonicalEntries(EntriesFor(labels, entries), norm)))
      ensures out.bytes == old(out.bytes) + Body(SortEntries(CanonicalEntries(EntriesFor(labels, entries), norm)))
    {
      hide SlotKey, CanonicalEntries, EntriesFor, SortEntries, InOrder, Code;
      ghost var sorted := SortEntries(CanonicalEntries(EntriesFor(labels, entries), norm));
      NaiveIs(labels, entries, norm);
      ghost var before := out.bytes;
      var i := 0;
      assert sorted[..0] == [] && before + [] == before;
      while i < |slots|
        invariant 0 <= i <= |slots| && EncodableEntries(sorted[..i]) && out.bytes == before + Body(sorted[..i])
      {
        ghost var l := InOrder(labels)[i];
        SortedAt(labels, entries, norm, i);
        WriteEntry(out, keys, slots[i], l, norm);
        BodyGrows(before, sorted, i);
        i := i + 1;
      }
      assert sorted[..|slots|] == sorted;
    }

    /** One entry: the key from the buffer, and the value canonicalized only where it needs it. */
    method WriteEntry(out: Buffer, keys: Bytes, slot: Slot, ghost l: Label, norm: Norm)
      requires MapFits(entries) && Sane(norm) && l in entries
      requires SlotKey(slot, keys) == Code(ValueOfLabel(l)) && slot.val == entries[l]
      modifies out
      ensures var e := CanonicalEntry(EntryFor(l, entries), norm);
              EncodableEntry(e) && out.bytes == old(out.bytes) + (Encode(e.key) + Encode(e.val))
    {
      ghost var e := CanonicalEntry(EntryFor(l, entries), norm);
      CanonicalEntryEncodable(EntryFor(l, entries), norm);
      ghost var before := out.bytes;
      out.Extend(SlotKey(slot, keys));
      if NeedsCanonicalization(slot.val, RECURSION_LIMIT) {
        out.Extend(EncodeCanonical(slot.val, norm));
      } else {
        SkippingIsSafe(slot.val, RECURSION_LIMIT, norm);
        out.Extend(Encode(slot.val));
      }
      LabelStays(l, norm);
      Associates(before, Encode(e.key), Encode(e.val));
    }
  }
}
