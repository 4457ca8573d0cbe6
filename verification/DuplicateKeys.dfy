/** Duplicate map keys are found exactly for integer and string keys, however they are written
    (src/strict.rs). Keys that are not deterministic already are compared by `reencode`, the decoder
    followed by the deterministic encoder. */
module DuplicateKeys {
  import opened Values
  import opened Syntax
  import opened Readings
  import opened Encoding
  import opened StrictParser
  import opened ParserGrammar
  import opened ParserLaws

  predicate LabelSyn(s: Syn) {
    s.Number? || s.Str? || s.Chunked?
  }

  /** Where decoding succeeds (text may not be UTF-8), encoding again keeps what an integer or string
      denotes and writes it in the preferred definite form. */
  ghost predicate Faithful(reencode: Bytes -> Result<Bytes>) {
    forall s {:trigger reencode(Ser(s))} :: WellFormed(s) && LabelSyn(s) && Encodable(Den(s)) && reencode(Ser(s)).Ok? ==>
      reencode(Ser(s)).value == Encode(Den(s))
  }

  /** Keys compared in place and keys decoded first are compared by the same bytes: the deterministic
      encoding of what they denote. */
  lemma InPlaceAgrees(s: Syn, reencode: Bytes -> Result<Bytes>)
    requires WellFormed(s) && LabelSyn(s) && Encodable(Den(s)) && Faithful(reencode)
    ensures KeyCode(s, reencode).Ok? <==> InPlaceKey(s) || reencode(Ser(s)).Ok?
    ensures KeyCode(s, reencode).Ok? ==> KeyCode(s, reencode).value == Encode(Den(s))
  {
    if InPlaceKey(s) {
      InPlaceIsPlain(s);
    }
  }

  lemma InPlaceIsPlain(s: Syn)
    requires WellFormed(s) && InPlaceKey(s)
    ensures LabelSyn(s) && Encodable(Den(s)) && s == Plain(Den(s))
  {
    match s
    case Number(_, w, arg) => FitsBelow(arg, w);
    case Str(_, c) =>
  }

  /** Every key is an integer or a string. */
  ghost predicate LabelKeys(pairs: seq<Pair>)
    requires WellFormedPairs(pairs)
  {
    pairs == [] || (WellFormedPair(pairs[0]) && LabelSyn(pairs[0].key) && Encodable(Den(pairs[0].key)) && LabelKeys(pairs[1..]))
  }

  ghost predicate ValuesDistinct(pairs: seq<Pair>, reencode: Bytes -> Result<Bytes>)
    requires WellFormedPairs(pairs)
  {
    pairs == [] || (WellFormedPair(pairs[0]) && DistinctKeys(pairs[0].val, reencode) && ValuesDistinct(pairs[1..], reencode))
  }

  /** Every key not in deterministic form already can be decoded. */
  ghost predicate KeysReadable(pairs: seq<Pair>, reencode: Bytes -> Result<Bytes>)
    requires WellFormedPairs(pairs)
  {
    pairs == [] || (WellFormedPair(pairs[0]) && KeyCode(pairs[0].key, reencode).Ok? && KeysReadable(pairs[1..], reencode))
  }

  /** No two keys denote the same integer or string. */
  ghost predicate DenotesApart(entries: seq<Entry>) {
    forall i, j :: 0 <= i < j < |entries| ==> entries[i].key != entries[j].key
  }

  ghost predicate KeysAbsent(entries: seq<Entry>, keys: set<Bytes>) {
    forall i :: 0 <= i < |entries| ==> Encodable(entries[i].key) && Encode(entries[i].key) !in keys
  }

  lemma {:induction false} DistinctPairsExact(pairs: seq<Pair>, keys: set<Bytes>, reencode: Bytes -> Result<Bytes>)
    requires WellFormedPairs(pairs) && LabelKeys(pairs) && Faithful(reencode)
    ensures DistinctPairs(pairs, keys, reencode) <==>
            KeysReadable(pairs, reencode) && ValuesDistinct(pairs, reencode)
            && DenotesApart(DenPairs(pairs)) && KeysAbsent(DenPairs(pairs), keys)
  {
    if pairs != [] {
      var entries := DenPairs(pairs);
      assert entries[1..] == DenPairs(pairs[1..]) && entries[0] == DenPair(pairs[0]);
      InPlaceAgrees(pairs[0].key, reencode);
      var code := Encode(entries[0].key);
      if KeyCode(pairs[0].key, reencode).Ok? {
        DistinctStep(pairs, keys, reencode, code);
        DistinctPairsExact(pairs[1..], keys + {code}, reencode);
        ApartStep(entries, keys, code);
      }
    }
  }

  lemma DistinctStep(pairs: seq<Pair>, keys: set<Bytes>, reencode: Bytes -> Result<Bytes>, code: Bytes)
    requires WellFormedPairs(pairs) && pairs != [] && WellFormedPair(pairs[0]) && LabelSyn(pairs[0].key)
    requires KeyCode(pairs[0].key, reencode) == Ok(code)
    ensures DistinctPairs(pairs, keys, reencode) <==>
            DistinctKeys(pairs[0].val, reencode) && code !in keys && DistinctPairs(pairs[1..], keys + {code}, reencode)
  {
    assert DistinctKeys(pairs[0].key, reencode);
    assert DistinctPair(pairs[0], reencode) <==> DistinctKeys(pairs[0].val, reencode);
  }

  lemma {:induction false} ApartStep(entries: seq<Entry>, keys: set<Bytes>, code: Bytes)
    requires entries != [] && Encodable(entries[0].key) && code == Encode(entries[0].key)
    ensures DenotesApart(entries) && KeysAbsent(entries, keys) <==>
            code !in keys && DenotesApart(entries[1..]) && KeysAbsent(entries[1..], keys + {code})
  {
    var rest := entries[1..];
    if DenotesApart(entries) && KeysAbsent(entries, keys) {
      forall i | 0 <= i < |rest| ensures Encodable(rest[i].key) && Encode(rest[i].key) !in keys + {code} {
        assert rest[i] == entries[i + 1] && entries[0].key != entries[i + 1].key;
        if Encode(rest[i].key) == code {
          EncodeInjective(rest[i].key, entries[0].key, [], []);
        }
      }
    }
    if code !in keys && DenotesApart(rest) && KeysAbsent(rest, keys + {code}) {
      forall i, j | 0 <= i < j < |entries| ensures entries[i].key != entries[j].key {
        assert entries[j] == rest[j - 1];
        assert i != 0 ==> entries[i] == rest[i - 1];
      }
      forall i | 0 <= i < |entries| ensures Encodable(entries[i].key) && Encode(entries[i].key) !in keys {
        assert i != 0 ==> entries[i] == rest[i - 1];
      }
    }
  }

  /** A map with readable integer and string keys that respects the other limits is rejected exactly
      when two keys denote the same integer or string, whatever their head widths or chunks. */
  lemma DuplicatesExact(form: Form, pairs: seq<Pair>, rules: Rules)
    requires WellFormed(Table(form, pairs)) && LabelKeys(pairs) && Faithful(rules.reencode) && rules.rejectDuplicates
    requires Nesting(Table(form, pairs)) <= rules.limits.maxDepth && Items(Table(form, pairs)) <= rules.limits.maxItems
    requires rules.limits.requireDefinite ==> AllDefinite(Table(form, pairs))
    requires ValuesDistinct(pairs, rules.reencode)
    ensures Root(Ser(Table(form, pairs)), rules).Ok? <==> KeysReadable(pairs, rules.reencode) && DenotesApart(DenPairs(pairs))
  {
    var t := Table(form, pairs);
    DistinctPairsExact(pairs, {}, rules.reencode);
    EncodableKeys(pairs);
    if KeysReadable(pairs, rules.reencode) && DenotesApart(DenPairs(pairs)) {
      WrittenParses(t, Ser(t), rules);
    }
    if Root(Ser(t), rules).Ok? {
      var s := RootWritten(Ser(t), rules);
      SerInjective(s, t);
    }
  }

  lemma {:induction false} EncodableKeys(pairs: seq<Pair>)
    requires WellFormedPairs(pairs) && LabelKeys(pairs)
    ensures KeysAbsent(DenPairs(pairs), {})
  {
    if pairs != [] {
      EncodableKeys(pairs[1..]);
      var entries := DenPairs(pairs);
      assert forall i :: 0 < i < |entries| ==> entries[i] == DenPairs(pairs[1..])[i - 1];
    }
  }
}
