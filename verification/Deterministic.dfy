/** Deterministically encoded CBOR (RFC 8949, section 4.2.1) and the check that lets the map encoder
    skip it (src/map.rs). What becomes of bignum tags and NaNs is the function `norm`. */
module Deterministic {
  import opened Values
  import opened Heads
  import opened Encoding
  import opened ByteOrder

  type Norm = Value -> Value

  ghost predicate Sane(norm: Norm) {
    forall v {:trigger norm(v)} :: Encodable(v) ==> Encodable(norm(v))
  }

  /** All exponent bits set and some other bit as well. */
  predicate IsNan(wire: Bytes)
    requires FloatWire(wire)
  {
    if |wire| == 3 then wire[1] % 128 / 4 == 31 && (wire[1] % 4 != 0 || wire[2] != 0)
    else if |wire| == 5 then wire[1] % 128 == 127 && wire[2] >= 128 && (wire[2] % 128 != 0 || Unsigned(wire[3..]) != 0)
    else wire[1] % 128 == 127 && wire[2] >= 240 && (wire[2] % 16 != 0 || Unsigned(wire[3..]) != 0)
  }

  predicate IsBignumTag(tag: nat) {
    tag == 2 || tag == 3
  }

  function Code(v: Value): Bytes {
    if Encodable(v) then Encode(v) else []
  }

  function ByKey(entries: seq<Entry>): (r: seq<Keyed<Entry>>)
    ensures |r| == |entries|
    ensures forall i :: 0 <= i < |r| ==> r[i] == Keyed(Code(entries[i].key), entries[i])
  {
    seq(|entries|, i requires 0 <= i < |entries| => Keyed(Code(entries[i].key), entries[i]))
  }

  function Items<T>(s: seq<Keyed<T>>): (r: seq<T>)
    ensures |r| == |s|
    ensures forall i :: 0 <= i < |s| ==> r[i] == s[i].item
  {
    seq(|s|, i requires 0 <= i < |s| => s[i].item)
  }

  function SortEntries(entries: seq<Entry>): (r: seq<Entry>)
    ensures |r| == |entries|
  {
    Items(Sort(ByKey(entries)))
  }

  /** The value the deterministic encoder writes: maps sorted by their encoded keys at every depth. */
  function Canonical(v: Value, norm: Norm): Value
    decreases v, 1
  {
    match v
    case Map(entries) => Map(SortEntries(CanonicalEntries(entries, norm)))
    case Array(items) => Array(CanonicalItems(items, norm))
    case Tag(tag, inner) => if IsBignumTag(tag) then norm(v) else Tag(tag, Canonical(inner, norm))
    case Float(wire) => if FloatWire(wire) && IsNan(wire) then norm(v) else v
    case _ => v
  }

  function CanonicalItems(items: seq<Value>, norm: Norm): (r: seq<Value>)
    ensures |r| == |items|
    decreases items, 0
  {
    if items == [] then [] else [Canonical(items[0], norm)] + CanonicalItems(items[1..], norm)
  }

  function CanonicalEntries(entries: seq<Entry>, norm: Norm): (r: seq<Entry>)
    ensures |r| == |entries|
    decreases entries, 0
  {
    if entries == [] then [] else [CanonicalEntry(entries[0], norm)] + CanonicalEntries(entries[1..], norm)
  }

  function CanonicalEntry(e: Entry, norm: Norm): Entry
    decreases e, 2
  {
    Entry(Canonical(e.key, norm), Canonical(e.val, norm))
  }

  // ---- what it is, without sorting --------------------------------------------------------------

  /** `c` is `v` with the entries of every map reordered so that encoded keys do not descend; bignum tags and
      NaNs are the business of `norm`. */
  ghost predicate FormOf(v: Value, c: Value, norm: Norm)
    decreases v, 1
  {
    match v
    case Map(entries) => c.Map? && NotDescending(c.entries) && exists each :: FormsOfEntries(entries, each, norm) && multiset(c.entries) == multiset(each)
    case Array(items) => c.Array? && FormsOfItems(items, c.items, norm)
    case Tag(tag, inner) => if tag in {2, 3} then c == norm(v) else c.Tag? && c.tag == tag && FormOf(inner, c.inner, norm)
    case Float(wire) => c == if FloatWire(wire) && NotANumber(wire) then norm(v) else v
    case _ => c == v
  }

  ghost predicate FormsOfItems(items: seq<Value>, each: seq<Value>, norm: Norm)
    decreases items, 0
  {
    |items| == |each| && (items == [] || (FormOf(items[0], each[0], norm) && FormsOfItems(items[1..], each[1..], norm)))
  }

  ghost predicate FormsOfEntries(entries: seq<Entry>, each: seq<Entry>, norm: Norm)
    decreases entries, 0
  {
    |entries| == |each| && (entries == [] || (FormOfEntry(entries[0], each[0], norm) && FormsOfEntries(entries[1..], each[1..], norm)))
  }

  ghost predicate FormOfEntry(e: Entry, c: Entry, norm: Norm)
    decreases e, 2
  {
    FormOf(e.key, c.key, norm) && FormOf(e.val, c.val, norm)
  }

  predicate NotDescending(entries: seq<Entry>) {
    forall i, j :: 0 <= i < j < |entries| ==> !Less(Code(entries[j].key), Code(entries[i].key))
  }

  /** The bits of a half, single or double float: every bit of the exponent is set, and some bit below it. */
  predicate NotANumber(wire: Bytes)
    requires FloatWire(wire)
  {
    var bits := Unsigned(wire[1..]);
    if |wire| == 3 then bits / 0x400 % 0x20 == 0x1f && bits % 0x400 != 0
    else if |wire| == 5 then bits / 0x80_0000 % 0x100 == 0xff && bits % 0x80_0000 != 0
    else bits / 0x10_0000_0000_0000 % 0x800 == 0x7ff && bits % 0x10_0000_0000_0000 != 0
  }

  lemma SortedEntriesPermute(entries: seq<Entry>)
    ensures multiset(SortEntries(entries)) == multiset(entries)
  {
    ItemsOfSorted(ByKey(entries));
    assert Items(ByKey(entries)) == entries;
  }

  lemma {:induction false} ItemsOfSorted<T>(s: seq<Keyed<T>>)
    ensures multiset(Items(Sort(s))) == multiset(Items(s))
  {
    if s == [] {
      assert Items(Sort(s)) == Items(s);
    } else {
      ItemsOfSorted(s[1..]);
      ItemsOfInserted(s[0], Sort(s[1..]));
      assert Items(s) == [s[0].item] + Items(s[1..]);
    }
  }

  lemma MultisetFront<T>(x: T, s: seq<T>)
    ensures multiset([x] + s) == multiset(s) + multiset{x}
  {
  }

  lemma ItemsFront<T>(x: Keyed<T>, s: seq<Keyed<T>>)
    ensures Items([x] + s) == [x.item] + Items(s)
  {
  }

  lemma {:induction false} ItemsOfInserted<T>(x: Keyed<T>, s: seq<Keyed<T>>)
    ensures multiset(Items(Insert(x, s))) == multiset(Items(s)) + multiset{x.item}
  {
    if s == [] || Less(x.code, s[0].code) {
      ItemsFront(x, s);
      MultisetFront(x.item, Items(s));
    } else {
      ItemsOfInserted(x, s[1..]);
      assert s == [s[0]] + s[1..];
      ItemsFront(s[0], s[1..]);
      ItemsFront(s[0], Insert(x, s[1..]));
      MultisetFront(s[0].item, Items(s[1..]));
      MultisetFront(s[0].item, Items(Insert(x, s[1..])));
    }
  }

  lemma {:induction false} CanonicalIsForm(v: Value, norm: Norm)
    ensures FormOf(v, Canonical(v, norm), norm)
    decreases v, 1
  {
    match v
    case Map(entries) =>
      var each := CanonicalEntries(entries, norm);
      CanonicalEntriesAreForms(entries, norm);
      SortedEntriesPermute(each);
      SortOrders(each);
    case Array(items) => CanonicalItemsAreForms(items, norm);
    case Tag(tag, inner) =>
      if !IsBignumTag(tag) {
        CanonicalIsForm(inner, norm);
      }
    case Float(wire) =>
      if FloatWire(wire) {
        NanExact(wire);
      }
    case _ =>
  }

  lemma {:induction false} CanonicalItemsAreForms(items: seq<Value>, norm: Norm)
    ensures FormsOfItems(items, CanonicalItems(items, norm), norm)
    decreases items, 0
  {
    if items != [] {
      CanonicalIsForm(items[0], norm);
      CanonicalItemsAreForms(items[1..], norm);
      assert CanonicalItems(items, norm)[1..] == CanonicalItems(items[1..], norm);
    }
  }

  lemma {:induction false} CanonicalEntriesAreForms(entries: seq<Entry>, norm: Norm)
    ensures FormsOfEntries(entries, CanonicalEntries(entries, norm), norm)
    decreases entries, 0
  {
    if entries != [] {
      CanonicalEntryIsForm(entries[0], norm);
      CanonicalEntriesAreForms(entries[1..], norm);
      assert CanonicalEntries(entries, norm)[1..] == CanonicalEntries(entries[1..], norm);
    }
  }

  lemma {:induction false} CanonicalEntryIsForm(e: Entry, norm: Norm)
    ensures FormOfEntry(e, CanonicalEntry(e, norm), norm)
    decreases e, 2
  {
    CanonicalIsForm(e.key, norm);
    CanonicalIsForm(e.val, norm);
  }

  lemma SortOrders(entries: seq<Entry>)
    ensures NotDescending(SortEntries(entries))
  {
    SortDoesNotDescend(ByKey(entries));
    forall i | 0 <= i < |entries| ensures Sort(ByKey(entries))[i].code == Code(SortEntries(entries)[i].key) {
      SortedCode(entries, i);
    }
  }

  lemma SortedCode(entries: seq<Entry>, i: nat)
    requires i < |entries|
    ensures Sort(ByKey(entries))[i].code == Code(SortEntries(entries)[i].key)
  {
    SortKeeps(ByKey(entries));
    assert Sort(ByKey(entries))[i] in Sort(ByKey(entries));
    var j :| 0 <= j < |entries| && ByKey(entries)[j] == Sort(ByKey(entries))[i];
  }

  lemma NanExact(wire: Bytes)
    requires FloatWire(wire)
    ensures IsNan(wire) <==> NotANumber(wire)
  {
    Leading(wire);
    var rest := Unsigned(wire[3..]);
    Pow256Values();
    if |wire| == 3 {
      assert wire[3..] == [];
      HalfBits(wire[1], wire[2]);
    } else if |wire| == 5 {
      SingleBits(wire[1], wire[2], rest);
    } else {
      assert Pow256(6) == 0x1_0000_0000_0000;
      DoubleBits(wire[1], wire[2], rest);
    }
  }

  /** A number's first two bytes and its rest. */
  lemma Leading(wire: Bytes)
    requires FloatWire(wire)
    ensures Unsigned(wire[1..]) == (256 * wire[1] + wire[2]) * Pow256(|wire| - 3) + Unsigned(wire[3..])
  {
    UnsignedJoins([wire[1], wire[2]], wire[3..]);
    assert wire[1..] == [wire[1], wire[2]] + wire[3..];
    assert [wire[1], wire[2]][..1] == [wire[1]] && [wire[1]][..0] == [];
    assert Unsigned([wire[1]]) == wire[1];
  }

  lemma {:induction false} UnsignedJoins(a: Bytes, b: Bytes)
    ensures Unsigned(a + b) == Unsigned(a) * Pow256(|b|) + Unsigned(b)
    decreases |b|
  {
    if b == [] {
      assert a + b == a;
    } else {
      hide Unsigned, Pow256;
      var init, last := b[..|b| - 1], b[|b| - 1];
      assert a + b == a + init + [last] && b == init + [last];
      UnsignedJoins(a, init);
      OneMoreByte(a + init, last);
      OneMoreByte(init, last);
      NextPower(|init|);
      TimesNext(Unsigned(a), Pow256(|init|));
    }
  }

  lemma OneMoreByte(bytes: Bytes, last: byte)
    ensures Unsigned(bytes + [last]) == Unsigned(bytes) * 256 + last
  {
    assert (bytes + [last])[..|bytes|] == bytes;
  }

  lemma NextPower(k: nat)
    ensures Pow256(k + 1) == 256 * Pow256(k)
  {
  }

  lemma TimesNext(a: nat, p: nat)
    ensures a * (256 * p) == a * p * 256
  {
  }

  lemma HalfBits(a: byte, b: byte)
    ensures var bits := 256 * a + b;
            bits / 0x400 % 0x20 == a % 128 / 4 && bits % 0x400 == a % 4 * 256 + b
  {
  }

  lemma SingleBits(a: byte, b: byte, rest: nat)
    requires rest < 0x1_0000
    ensures var bits := (256 * a + b) * 0x1_0000 + rest;
            && (bits / 0x80_0000 % 0x100 == 0xff <==> a % 128 == 127 && b >= 128)
            && bits % 0x80_0000 == b % 128 * 0x1_0000 + rest
  {
    var bits := (256 * a + b) * 0x1_0000 + rest;
    assert bits == (2 * a + b / 128) * 0x80_0000 + (b % 128 * 0x1_0000 + rest);
    assert bits / 0x80_0000 == 2 * a + b / 128;
    assert (2 * a + b / 128) % 0x100 == 2 * (a % 128) + b / 128;
  }

  lemma DoubleBits(a: byte, b: byte, rest: nat)
    requires rest < 0x1_0000_0000_0000
    ensures var bits := (256 * a + b) * 0x1_0000_0000_0000 + rest;
            && (bits / 0x10_0000_0000_0000 % 0x800 == 0x7ff <==> a % 128 == 127 && b >= 240)
            && bits % 0x10_0000_0000_0000 == b % 16 * 0x1_0000_0000_0000 + rest
  {
    var bits := (256 * a + b) * 0x1_0000_0000_0000 + rest;
    assert bits == (16 * a + b / 16) * 0x10_0000_0000_0000 + (b % 16 * 0x1_0000_0000_0000 + rest);
    assert bits / 0x10_0000_0000_0000 == 16 * a + b / 16;
    assert (16 * a + b / 16) % 0x800 == 16 * (a % 128) + b / 16;
  }

  // ---- it stays encodable -----------------------------------------------------------------------

  lemma {:induction false} EncodableEach(entries: seq<Entry>)
    ensures EncodableEntries(entries) <==> forall i :: 0 <= i < |entries| ==> EncodableEntry(entries[i])
  {
    if entries != [] {
      EncodableEach(entries[1..]);
      if EncodableEntries(entries) {
        forall i | 0 <= i < |entries| ensures EncodableEntry(entries[i]) {
          assert i == 0 || entries[i] == entries[1..][i - 1];
        }
      }
    }
  }

  lemma SortedFrom(entries: seq<Entry>)
    ensures multiset(Sort(ByKey(entries))) == multiset(ByKey(entries))
    ensures forall i :: 0 <= i < |entries| ==> SortEntries(entries)[i] in entries
  {
    SortPermutes(ByKey(entries));
    var sorted := Sort(ByKey(entries));
    forall i | 0 <= i < |entries| ensures SortEntries(entries)[i] in entries {
      assert sorted[i] in multiset(sorted);
      assert sorted[i] in ByKey(entries);
    }
  }

  lemma SortEncodable(entries: seq<Entry>)
    requires EncodableEntries(entries)
    ensures EncodableEntries(SortEntries(entries))
  {
    EncodableEach(entries);
    SortedFrom(entries);
    EncodableEach(SortEntries(entries));
  }

  lemma {:induction false} CanonicalEncodable(v: Value, norm: Norm)
    requires Encodable(v) && Sane(norm)
    ensures Encodable(Canonical(v, norm))
    decreases v, 1
  {
    match v
    case Map(entries) =>
      CanonicalEntriesEncodable(entries, norm);
      SortEncodable(CanonicalEntries(entries, norm));
    case Array(items) => CanonicalItemsEncodable(items, norm);
    case Tag(tag, inner) =>
      if !IsBignumTag(tag) {
        CanonicalEncodable(inner, norm);
      }
    case _ =>
  }

  lemma {:induction false} CanonicalItemsEncodable(items: seq<Value>, norm: Norm)
    requires EncodableItems(items) && Sane(norm)
    ensures EncodableItems(CanonicalItems(items, norm))
    decreases items, 0
  {
    if items != [] {
      CanonicalEncodable(items[0], norm);
      CanonicalItemsEncodable(items[1..], norm);
    }
  }

  lemma {:induction false} CanonicalEntriesEncodable(entries: seq<Entry>, norm: Norm)
    requires EncodableEntries(entries) && Sane(norm)
    ensures EncodableEntries(CanonicalEntries(entries, norm))
    decreases entries, 0
  {
    if entries != [] {
      CanonicalEntryEncodable(entries[0], norm);
      CanonicalEntriesEncodable(entries[1..], norm);
    }
  }

  lemma {:induction false} CanonicalEntryEncodable(e: Entry, norm: Norm)
    requires EncodableEntry(e) && Sane(norm)
    ensures EncodableEntry(CanonicalEntry(e, norm))
    decreases e, 2
  {
    CanonicalEncodable(e.key, norm);
    CanonicalEncodable(e.val, norm);
  }

  /** Deterministic bytes of a value. */
  function EncodeCanonical(v: Value, norm: Norm): Bytes {
    Code(Canonical(v, norm))
  }

  // ---- when it changes nothing ------------------------------------------------------------------

  /** Whether deterministic encoding can differ from ordinary encoding; deeper than `depth` the
      answer is yes. */
  predicate NeedsCanonicalization(v: Value, depth: nat)
    decreases v, 1
  {
    depth == 0 ||
    match v
    case Map(_) => true
    case Float(wire) => FloatWire(wire) && IsNan(wire)
    case Tag(tag, inner) => IsBignumTag(tag) || NeedsCanonicalization(inner, depth - 1)
    case Array(items) => AnyNeedsCanonicalization(items, depth - 1)
    case _ => false
  }

  predicate AnyNeedsCanonicalization(items: seq<Value>, depth: nat)
    decreases items, 0
  {
    items != [] && (NeedsCanonicalization(items[0], depth) || AnyNeedsCanonicalization(items[1..], depth))
  }

  /** Skipping the deterministic encoder where it is not needed changes nothing. */
  lemma {:induction false} SkippingIsSafe(v: Value, depth: nat, norm: Norm)
    requires !NeedsCanonicalization(v, depth)
    ensures Canonical(v, norm) == v
    decreases v, 1
  {
    match v
    case Array(items) => SkippingAllIsSafe(items, depth - 1, norm);
    case Tag(_, inner) => SkippingIsSafe(inner, depth - 1, norm);
    case _ =>
  }

  lemma {:induction false} SkippingAllIsSafe(items: seq<Value>, depth: nat, norm: Norm)
    requires !AnyNeedsCanonicalization(items, depth)
    ensures CanonicalItems(items, norm) == items
    decreases items, 0
  {
    if items != [] {
      SkippingIsSafe(items[0], depth, norm);
      SkippingAllIsSafe(items[1..], depth, norm);
    }
  }
}
