/** What accepted `sd_claims` are, and that every way of counting their items agrees. */
module SdClaimLaws {
  import opened Values
  import opened Disclosures
  import opened ClaimMatching
  import opened Intakes
  import opened Issuance
  import opened SdClaims
  import opened StrictParser
  import opened ClaimKeys
  import opened IssuedValues
  import B = MessageBodies
  import X = Syntax
  import P = ParserLaws

  // ---- what accepted disclosures are ------------------------------------------------------------

  /** No two salts agree, and none is in `salts`. */
  ghost predicate Distinct(ds: seq<Disclosure>, salts: set<Bytes>) {
    && (forall i :: 0 <= i < |ds| ==> ds[i].kind.salt !in salts)
    && (forall i, j :: 0 <= i < j < |ds| ==> ds[i].kind.salt != ds[j].kind.salt)
  }

  ghost predicate FreshSalts(ds: seq<Disclosure>, salts: set<Bytes>) {
    Distinct(ds, salts) && forall i :: 0 <= i < |ds| ==> |ds[i].kind.salt| == 16
  }

  /** Disclosure `i` is what entry `i` holds. */
  ghost predicate ReadFrom(ds: seq<Disclosure>, items: seq<Value>, reader: Reader) {
    && |ds| == |items|
    && forall i :: 0 <= i < |ds| ==>
         && items[i] == ByteString(ds[i].encoded)
         && reader.decode(ds[i].encoded) == Ok(KindToValue(ds[i].kind))
  }

  /** Decoding an array and turning the disclosure back into an array are inverse. */
  lemma KindRoundTrip(kind: Disclosures.Kind, v: Value)
    ensures (kind.Claim? ==> LabelOf(ValueOfLabel(kind.key)) == Some(kind.key)) ==> DecodeKind(KindToValue(kind)) == Ok(kind)
    ensures DecodeKind(v).Ok? ==> KindToValue(DecodeKind(v).value) == v
  {
    if DecodeKind(v).Ok? {
      assert v.items == KindToValue(DecodeKind(v).value).items;
    }
  }

  lemma LabelIsOneNode(l: Label)
    ensures Nodes(ValueOfLabel(l)) == 1
  {
  }

  lemma OneMember(v: Value)
    ensures NodesOfItems([v]) == Nodes(v)
  {
    assert [v][1..] == [];
  }

  /** The item count of a disclosure is the number of values in the array it stands for. */
  lemma ItemCountIsNodes(d: Disclosure)
    ensures ItemCount(d) == Nodes(KindToValue(d.kind))
  {
    match d.kind
    case Claim(salt, key, value) =>
      LabelIsOneNode(key);
      OneMember(ValueOfLabel(key));
      assert [value, ValueOfLabel(key)][1..] == [ValueOfLabel(key)];
      assert [ByteString(salt), value, ValueOfLabel(key)][1..] == [value, ValueOfLabel(key)];
      assert NodesOfItems([value, ValueOfLabel(key)]) == Nodes(value) + 1;
      assert NodesOfItems([ByteString(salt), value, ValueOfLabel(key)]) == 1 + (Nodes(value) + 1);
    case Element(salt, value) =>
      OneMember(value);
      assert [ByteString(salt), value][1..] == [value];
      assert NodesOfItems([ByteString(salt), value]) == 1 + Nodes(value);
    case Decoy(salt) =>
      OneMember(ByteString(salt));
  }

  /** One accepted entry. */
  lemma EntryRead(item: Value, salts: set<Bytes>, bytes: nat, remaining: nat, limits: Limits, reader: Reader, d: Disclosure)
    requires ReadEntry(item, salts, bytes, remaining, limits, reader) == Ok(d)
    ensures item == ByteString(d.encoded) && reader.decode(d.encoded) == Ok(KindToValue(d.kind))
    ensures |d.kind.salt| == 16 && d.kind.salt !in salts
    ensures ItemCount(d) <= remaining && bytes + |d.encoded| <= limits.maxDisclosureBytes
  {
    KindRoundTrip(d.kind, reader.decode(d.encoded).value);
  }

  lemma {:induction false} EntriesRead(items: seq<Value>, salts: set<Bytes>, bytes: nat, remaining: nat, limits: Limits, reader: Reader)
    requires ReadEntries(items, salts, bytes, remaining, limits, reader).Ok?
    ensures var ds := ReadEntries(items, salts, bytes, remaining, limits, reader).value;
            && ReadFrom(ds, items, reader) && FreshSalts(ds, salts)
            && TotalItems(ds) <= remaining
            && (ds != [] ==> bytes + TotalBytes(ds) <= limits.maxDisclosureBytes)
  {
    hide ReadEntry, ItemCount, KindToValue;
    if items != [] {
      var d := ReadEntry(items[0], salts, bytes, remaining, limits, reader).value;
      EntryRead(items[0], salts, bytes, remaining, limits, reader, d);
      var salts1 := salts + {d.kind.salt};
      EntriesRead(items[1..], salts1, bytes + |d.encoded|, remaining - ItemCount(d), limits, reader);
      var rest := ReadEntries(items[1..], salts1, bytes + |d.encoded|, remaining - ItemCount(d), limits, reader).value;
      FirstRead(d, rest, items, salts, reader);
      assert ([d] + rest)[1..] == rest;
    }
  }

  lemma FirstRead(d: Disclosure, rest: seq<Disclosure>, items: seq<Value>, salts: set<Bytes>, reader: Reader)
    requires items != [] && items[0] == ByteString(d.encoded) && reader.decode(d.encoded) == Ok(KindToValue(d.kind))
    requires ReadFrom(rest, items[1..], reader) && FreshSalts(rest, salts + {d.kind.salt})
    requires |d.kind.salt| == 16 && d.kind.salt !in salts
    ensures ReadFrom([d] + rest, items, reader) && FreshSalts([d] + rest, salts)
  {
    var ds := [d] + rest;
    forall i | 0 < i < |ds| ensures ds[i] == rest[i - 1] && items[i] == items[1..][i - 1] {
    }
  }

  /** Every accepted `sd_claims` array: the disclosures are its entries in order, the array, its
      entries and everything inside them are within the item limit together, and salts differ. */
  lemma AcceptedWithinLimits(header: Option<Value>, limits: Limits, reader: Reader)
    requires FromUnprotected(header, limits, reader).Ok? && header.Some?
    ensures var ds := FromUnprotected(header, limits, reader).value;
            && header.value.Array? && ds != [] && ReadFrom(ds, header.value.items, reader)
            && 1 + |ds| + TotalItems(ds) <= limits.maxItems
            && |ds| <= limits.maxDisclosures && TotalBytes(ds) <= limits.maxDisclosureBytes
            && FreshSalts(ds, {})
  {
    var items := header.value.items;
    EntriesRead(items, {}, 0, limits.maxItems - (|items| + 1), limits, reader);
  }

  // ---- exactly which headers are accepted -------------------------------------------------------

  /** The array a disclosure is sent as: the salt, then the value, then the claim key. */
  ghost predicate ArrayOf(v: Value, kind: Disclosures.Kind) {
    match kind
    case Decoy(salt) => v == Array([ByteString(salt)])
    case Element(salt, value) => v == Array([ByteString(salt), value])
    case Claim(salt, IntLabel(n), value) => v == Array([ByteString(salt), value, Integer(n)])
    case Claim(salt, TextLabel(text), value) => v == Array([ByteString(salt), value, TextString(text)])
  }

  lemma DecodedKindExact(v: Value, kind: Disclosures.Kind)
    requires kind.Claim? ==> ClaimKey(ValueOfLabel(kind.key))
    ensures DecodeKind(v) == Ok(kind) <==> ArrayOf(v, kind)
  {
    KindRoundTrip(kind, v);
    match kind
    case Claim(salt, IntLabel(n), value) =>
    case Claim(salt, TextLabel(text), value) =>
    case Element(salt, value) =>
    case Decoy(salt) =>
  }

  /** The entry is the byte string of the disclosure: one definite, strictly encoded item with at most
      `left` values, decoding to the array of a sound disclosure. */
  ghost predicate Sends(item: Value, d: Disclosure, left: nat, limits: Limits, reader: Reader) {
    var tight := limits.(maxItems := left);
    && item == ByteString(d.encoded)
    && (exists s :: P.Writes(s, d.encoded, B.Strict(CborLimits(limits.maxDepth, left, true), reader.reencode)))
    && (exists v :: reader.decode(d.encoded) == Ok(v) && ArrayOf(v, d.kind))
    && SoundKind(d.kind, reader.canon, tight)
  }

  lemma EncodedExact(encoded: Bytes, d: Disclosure, limits: Limits, reader: Reader)
    ensures FromEncoded(encoded, limits, reader) == Ok(d) <==>
            && |encoded| <= limits.maxDisclosureBytes
            && Sends(ByteString(encoded), d, limits.maxItems, limits, reader)
  {
    hide DecodeKind, ArrayOf, SoundKind, CheckKind, Root;
    assert limits.(maxItems := limits.maxItems) == limits;
    P.AcceptsExactly(encoded, B.Strict(DefiniteLimits(limits), reader.reencode));
    KindExact(d.kind, reader.canon, limits);
    if reader.decode(encoded).Ok? {
      var value := reader.decode(encoded).value;
      if SoundKind(d.kind, reader.canon, limits) {
        assert d.kind.Claim? ==> ClaimKey(ValueOfLabel(d.kind.key)) by { SoundKey(d.kind, reader.canon, limits); }
        DecodedKindExact(value, d.kind);
      }
    }
  }

  lemma SoundKey(kind: Disclosures.Kind, canon: Canon, limits: Limits)
    requires SoundKind(kind, canon, limits)
    ensures kind.Claim? ==> ClaimKey(ValueOfLabel(kind.key))
  {
  }

  /** Entry by entry, each within the items the ones before it leave. */
  ghost predicate EachSent(ds: seq<Disclosure>, items: seq<Value>, left: nat, limits: Limits, reader: Reader) {
    && |ds| == |items|
    && (ds == [] ||
        (&& Sends(items[0], ds[0], left, limits, reader) && ItemCount(ds[0]) <= left
         && EachSent(ds[1..], items[1..], left - ItemCount(ds[0]), limits, reader)))
  }

  lemma EntryExact(item: Value, salts: set<Bytes>, bytes: nat, left: nat, limits: Limits, reader: Reader, d: Disclosure)
    ensures ReadEntry(item, salts, bytes, left, limits, reader) == Ok(d) <==>
            && Sends(item, d, left, limits, reader) && bytes + |d.encoded| <= limits.maxDisclosureBytes
            && d.kind.salt !in salts && ItemCount(d) <= left
  {
    hide FromEncoded, SoundKind, ArrayOf;
    if item.ByteString? {
      EncodedExact(item.bytes, d, limits.(maxItems := left), reader);
      assert limits.(maxItems := left).(maxItems := left) == limits.(maxItems := left);
    }
  }

  lemma DistinctFirst(ds: seq<Disclosure>, salts: set<Bytes>)
    requires ds != []
    ensures Distinct(ds, salts) <==> ds[0].kind.salt !in salts && Distinct(ds[1..], salts + {ds[0].kind.salt})
  {
    var rest := ds[1..];
    assert forall i :: 0 <= i < |rest| ==> rest[i] == ds[i + 1];
    if ds[0].kind.salt !in salts && Distinct(rest, salts + {ds[0].kind.salt}) {
      forall i | 0 <= i < |ds| ensures ds[i].kind.salt !in salts {
        if i > 0 {
          assert ds[i] == rest[i - 1];
        }
      }
      forall i, j | 0 <= i < j < |ds| ensures ds[i].kind.salt != ds[j].kind.salt {
        assert ds[j] == rest[j - 1];
        if i > 0 {
          assert ds[i] == rest[i - 1];
        }
      }
    }
  }

  ghost predicate AllSent(ds: seq<Disclosure>, items: seq<Value>, salts: set<Bytes>, bytes: nat, left: nat, limits: Limits, reader: Reader) {
    && EachSent(ds, items, left, limits, reader)
    && (ds != [] ==> bytes + TotalBytes(ds) <= limits.maxDisclosureBytes)
    && Distinct(ds, salts)
  }

  lemma {:induction false} EntriesExact(items: seq<Value>, salts: set<Bytes>, bytes: nat, left: nat, limits: Limits, reader: Reader,
                                        ds: seq<Disclosure>)
    ensures ReadEntries(items, salts, bytes, left, limits, reader) == Ok(ds) <==> AllSent(ds, items, salts, bytes, left, limits, reader)
  {
    hide ReadEntry, Sends, Distinct, ItemCount;
    if items == [] || ds == [] {
      assert Distinct([], salts) by { NoneSent(salts); }
    } else {
      EntryExact(items[0], salts, bytes, left, limits, reader, ds[0]);
      DistinctFirst(ds, salts);
      assert [ds[0]] + ds[1..] == ds;
      if ReadEntry(items[0], salts, bytes, left, limits, reader) == Ok(ds[0]) {
        EntriesExact(items[1..], salts + {ds[0].kind.salt}, bytes + |ds[0].encoded|, left - ItemCount(ds[0]), limits, reader, ds[1..]);
      }
    }
  }

  lemma NoneSent(salts: set<Bytes>)
    ensures Distinct([], salts)
  {
  }

  /** Reading the header gives `ds` exactly if the header is absent and `ds` empty, or it is a non-empty
      array of at most so many disclosures, each the strict encoding of a sound one within the items that
      the array, its entries and the disclosures before leave, of no more bytes than allowed together, and
      with distinct salts. */
  lemma FromUnprotectedExact(header: Option<Value>, limits: Limits, reader: Reader, ds: seq<Disclosure>)
    ensures FromUnprotected(header, limits, reader) == Ok(ds) <==>
            match header
            case None => ds == []
            case Some(value) =>
              && value.Array? && value.items != []
              && |value.items| <= limits.maxDisclosures && 1 + |value.items| <= limits.maxItems
              && EachSent(ds, value.items, limits.maxItems - 1 - |value.items|, limits, reader)
              && TotalBytes(ds) <= limits.maxDisclosureBytes
              && Distinct(ds, {})
  {
    hide ReadEntries, EachSent, Distinct, TotalBytes;
    if header.Some? && header.value.Array? {
      var items := header.value.items;
      if 1 + |items| <= limits.maxItems {
        EntriesExact(items, {}, 0, limits.maxItems - 1 - |items|, limits, reader, ds);
        assert ds == [] ==> TotalBytes(ds) == 0 by { NoBytes(); }
      }
    }
  }

  lemma NoBytes()
    ensures TotalBytes([]) == 0
  {
  }

  // ---- counting the same things -----------------------------------------------------------------

  /** No tag 2 or 3 stands in the value: the library may read a tagged bignum as one integer. */
  predicate BignumFree(v: Value)
    decreases v, 1
  {
    match v
    case Array(items) => BignumFreeItems(items)
    case Map(entries) => BignumFreeEntries(entries)
    case Tag(tag, inner) => tag != 2 && tag != 3 && BignumFree(inner)
    case _ => true
  }

  predicate BignumFreeItems(items: seq<Value>)
    decreases items, 0
  {
    items == [] || (BignumFree(items[0]) && BignumFreeItems(items[1..]))
  }

  predicate BignumFreeEntries(entries: seq<Entry>)
    decreases entries, 0
  {
    entries == [] || (BignumFreeEntry(entries[0]) && BignumFreeEntries(entries[1..]))
  }

  predicate BignumFreeEntry(e: Entry)
    decreases e, 2
  {
    BignumFree(e.key) && BignumFree(e.val)
  }

  /** However the library normalizes what it decodes, it keeps the number of values. */
  ghost predicate KeepsNodes(reader: Reader) {
    forall s {:trigger X.Ser(s)} :: X.WellFormed(s) && X.AllDefinite(s) && BignumFree(X.Den(s)) && reader.decode(X.Ser(s)).Ok? ==>
      Nodes(reader.decode(X.Ser(s)).value) == Nodes(X.Den(s))
  }

  ghost predicate Denotes(encoded: Bytes, s: X.Syn) {
    X.WellFormed(s) && X.Ser(s) == encoded
  }

  /** For every accepted disclosure the parser's item counter, the node count of the decoded value and
      the disclosure's own item count agree. */
  lemma CountersAgree(encoded: Bytes, limits: Limits, reader: Reader)
    requires KeepsNodes(reader) && FromEncoded(encoded, limits, reader).Ok?
    requires forall s :: Denotes(encoded, s) ==> BignumFree(X.Den(s))
    ensures var d := FromEncoded(encoded, limits, reader).value;
            var rules := B.Strict(DefiniteLimits(limits), reader.reencode);
            && Parse(encoded, Cursor(0, 0), 0, rules).Ok?
            && Parse(encoded, Cursor(0, 0), 0, rules).value.1.items == ItemCount(d)
            && (exists s :: Denotes(encoded, s) && Nodes(X.Den(s)) == ItemCount(d))
            && Nodes(reader.decode(encoded).value) == ItemCount(d)
            && ItemCount(d) <= limits.maxItems
  {
    var rules := B.Strict(DefiniteLimits(limits), reader.reencode);
    var d := FromEncoded(encoded, limits, reader).value;
    var s := P.RootWritten(encoded, rules);
    P.WrittenParsesAt(s, X.Ser(s), rules);
    X.DefiniteItemsAreNodes(s);
    assert Denotes(encoded, s);
    KindRoundTrip(d.kind, reader.decode(encoded).value);
    ItemCountIsNodes(d);
  }
}
