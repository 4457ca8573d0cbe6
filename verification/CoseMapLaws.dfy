/** What the map encoder's output is: deterministic (RFC 8949, section 4.2.1), and read back by the
    strict parser as the same entries. */
module CoseMapLaws {
  import opened Values
  import opened Heads
  import opened Syntax
  import opened Readings
  import opened Encoding
  import opened ByteOrder
  import opened Deterministic
  import opened CoseMaps
  import opened StrictParser
  import opened ParserGrammar
  import opened ParserLaws
  import opened DuplicateKeys

  /** The entries in the order the encoder writes them. */
  function WrittenEntries(labels: seq<Label>, m: map<Label, Value>, norm: Norm): seq<Entry> {
    SortEntries(CanonicalEntries(EntriesFor(labels, m), norm))
  }

  lemma WrittenCodes(labels: seq<Label>, m: map<Label, Value>, norm: Norm)
    requires Lists(labels, m) && MapFits(m)
    ensures Ascending(Sort(ByKey(CanonicalEntries(EntriesFor(labels, m), norm))))
  {
    LabelCodesDistinct(labels, m);
    CanonicalOfEntries(labels, m, norm);
    SortAscends(ByKey(CanonicalEntries(EntriesFor(labels, m), norm)));
  }

  /** Keys come out in strictly ascending bytewise order, and none begins another. */
  lemma KeysAscend(labels: seq<Label>, m: map<Label, Value>, norm: Norm, i: nat, j: nat)
    requires Lists(labels, m) && MapFits(m) && Sane(norm) && i < j < |labels|
    ensures var e := WrittenEntries(labels, m, norm);
            && |e| == |labels| && EncodableEntries(e) && Encodable(e[i].key) && Encodable(e[j].key)
            && Less(Encode(e[i].key), Encode(e[j].key))
            && !Begins(Encode(e[i].key), Encode(e[j].key)) && !Begins(Encode(e[j].key), Encode(e[i].key))
  {
    WrittenCodes(labels, m, norm);
    NaiveIs(labels, m, norm);
    var entries := CanonicalEntries(EntriesFor(labels, m), norm);
    var e := WrittenEntries(labels, m, norm);
    SortedCode(entries, i);
    SortedCode(entries, j);
    EncodableEach(e);
    assert EncodableEntry(e[i]) && EncodableEntry(e[j]);
    NotPrefixed(e[i].key, e[j].key);
  }

  lemma BeginsThenRest(whole: Bytes, part: Bytes)
    requires Begins(whole, part)
    ensures whole + [] == part + whole[|part|..]
  {
  }

  lemma NotPrefixed(a: Value, b: Value)
    requires Encodable(a) && Encodable(b) && Less(Encode(a), Encode(b))
    ensures !Begins(Encode(a), Encode(b)) && !Begins(Encode(b), Encode(a))
  {
    LessIrreflexive(Encode(a));
    var x, y := Encode(a), Encode(b);
    if Begins(x, y) {
      BeginsThenRest(x, y);
      EncodeInjective(a, b, [], x[|y|..]);
    }
    if Begins(y, x) {
      BeginsThenRest(y, x);
      EncodeInjective(b, a, [], y[|x|..]);
    }
  }

  lemma {:induction false} PlainEntriesAt(entries: seq<Entry>, i: nat)
    requires EncodableEntries(entries) && i < |entries|
    ensures EncodableEntry(entries[i]) && PlainEntries(entries)[i] == PlainEntry(entries[i])
  {
    if i != 0 {
      PlainEntriesAt(entries[1..], i - 1);
    }
  }

  ghost predicate LabelEntry(e: Entry, reencode: Bytes -> Result<Bytes>) {
    EncodableEntry(e) && (e.key.Integer? || e.key.TextString?) && DistinctKeys(Plain(e.val), reencode)
  }

  lemma PlainKeyInPlace(key: Value)
    requires Encodable(key) && (key.Integer? || key.TextString?)
    ensures InPlaceKey(Plain(key))
  {
  }

  lemma {:induction false} EntriesAdmitted(entries: seq<Entry>, reencode: Bytes -> Result<Bytes>)
    requires EncodableEntries(entries)
    requires forall i :: 0 <= i < |entries| ==> LabelEntry(entries[i], reencode)
    ensures LabelKeys(PlainEntries(entries)) && ValuesDistinct(PlainEntries(entries), reencode)
    ensures KeysReadable(PlainEntries(entries), reencode)
  {
    if entries != [] {
      assert LabelEntry(entries[0], reencode);
      PlainDenotes(entries[0].key);
      PlainKeyInPlace(entries[0].key);
      assert forall i :: 0 <= i < |entries[1..]| ==> entries[1..][i] == entries[i + 1];
      EntriesAdmitted(entries[1..], reencode);
      assert PlainEntries(entries)[1..] == PlainEntries(entries[1..]);
    }
  }

  /** Strict parsing accepts the encoder's output, the only tree it can be read as denotes the
      canonical entries in key order, and these are the map's own entries. */
  lemma EncodedMapReadsBack(labels: seq<Label>, m: map<Label, Value>, norm: Norm, rules: Rules, s: Syn)
    requires Lists(labels, m) && MapFits(m) && Sane(norm) && Faithful(rules.reencode)
    requires forall l :: l in m ==> Encodable(Canonical(m[l], norm)) && DistinctKeys(Plain(Canonical(m[l], norm)), rules.reencode)
    requires Height(Map(WrittenEntries(labels, m, norm))) <= rules.limits.maxDepth
    requires Nodes(Map(WrittenEntries(labels, m, norm))) <= rules.limits.maxItems
    ensures Root(Naive(labels, m, norm), rules).Ok?
    ensures WellFormed(s) && Ser(s) == Naive(labels, m, norm) ==> Den(s) == Map(WrittenEntries(labels, m, norm))
    ensures multiset(WrittenEntries(labels, m, norm)) == multiset(CanonicalEntries(EntriesFor(labels, m), norm))
  {
    var e := WrittenEntries(labels, m, norm);
    NaiveIs(labels, m, norm);
    EncodedMap(e);
    var v := Map(e);
    assert Naive(labels, m, norm) == Encode(v);
    WrittenAdmitted(labels, m, norm, rules);
    PlainDenotes(v);
    EncodedItems(v);
    WrittenParses(Plain(v), Encode(v), rules);
    if WellFormed(s) && Ser(s) == Encode(v) {
      SerInjective(s, Plain(v));
    }
    SortedEntriesPermute(CanonicalEntries(EntriesFor(labels, m), norm));
  }

  lemma WrittenAdmitted(labels: seq<Label>, m: map<Label, Value>, norm: Norm, rules: Rules)
    requires Lists(labels, m) && MapFits(m) && Sane(norm) && Faithful(rules.reencode)
    requires forall l :: l in m ==> Encodable(Canonical(m[l], norm)) && DistinctKeys(Plain(Canonical(m[l], norm)), rules.reencode)
    ensures EncodableEntries(WrittenEntries(labels, m, norm))
    ensures DistinctPairs(PlainEntries(WrittenEntries(labels, m, norm)), {}, rules.reencode)
  {
    var e := WrittenEntries(labels, m, norm);
    NaiveIs(labels, m, norm);
    EncodableEach(e);
    forall i | 0 <= i < |e| ensures LabelEntry(e[i], rules.reencode) {
      SortedAt(labels, m, norm, i);
      LabelStays(InOrder(labels)[i], norm);
      assert EncodableEntry(e[i]);
    }
    EntriesAdmitted(e, rules.reencode);
    var pairs := PlainEntries(e);
    PlainEntriesDenote(e);
    EncodableKeys(pairs);
    forall i, j | 0 <= i < j < |e| ensures e[i].key != e[j].key {
      KeysAscend(labels, m, norm, i, j);
      LessIrreflexive(Encode(e[i].key));
    }
    DistinctPairsExact(pairs, {}, rules.reencode);
  }
}
