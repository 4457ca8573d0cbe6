/** When the claims maps of one presentation are found to agree (sd-cwt/src/validation.rs): exactly when
    every claim visible in both matches. */
module MatchingMaps {
  import opened Values
  import opened ClaimMatching
  import opened MatchLaws

  /** The deterministic encoder tells claim labels apart. */
  ghost predicate TellsLabels(canon: Canon) {
    forall a, b {:trigger canon(a), canon(b)} :: LabelOf(a).Some? && LabelOf(b).Some? && canon(a) == canon(b) ==> a == b
  }

  /** `seen` holds the claims of `first` and of the entries `done` of the second map, under their keys;
      a claim of both is held as the second map's. */
  ghost predicate Records(seen: map<Bytes, Seen>, first: seq<Entry>, done: seq<Entry>, canon: Canon) {
    && (forall i :: 0 <= i < |first| && first[i].key != REDACTED_KEYS_LABEL ==> canon(first[i].key) in seen)
    && (forall k :: k in seen ==> RecordFrom(k, seen[k], first, 0, canon) || RecordFrom(k, seen[k], done, 1, canon))
    && (forall i, j :: 0 <= i < |done| && 0 <= j < |first| && done[i].key == first[j].key && done[i].key != REDACTED_KEYS_LABEL ==>
          ClaimValuesMatch(first[j].val, done[i].val, canon) == Ok(true))
  }

  ghost predicate RecordFrom(key: Bytes, s: Seen, entries: seq<Entry>, index: nat, canon: Canon) {
    s.map_ == index && exists i :: 0 <= i < |entries| && IsRecord(key, s, entries[i], canon)
  }

  ghost predicate IsRecord(key: Bytes, s: Seen, e: Entry, canon: Canon) {
    e.key != REDACTED_KEYS_LABEL && canon(e.key) == key && s.val == e.val
  }

  /** Every claim visible in both maps matches. */
  ghost predicate SharedMatch(a: seq<Entry>, b: seq<Entry>, canon: Canon) {
    forall i, j :: 0 <= i < |a| && 0 <= j < |b| && b[j].key == a[i].key && b[j].key != REDACTED_KEYS_LABEL ==>
      ClaimValuesMatch(a[i].val, b[j].val, canon) == Ok(true)
  }

  lemma KeyIsSafe(e: Entry, canon: Canon)
    requires ViewEntry(e, true) && e.key != REDACTED_KEYS_LABEL
    ensures LabelOf(e.key).Some? && SafeMapKey(e.key, canon) == Ok(canon(e.key))
  {
  }

  lemma {:induction false} RecordGrows(key: Bytes, s: Seen, entries: seq<Entry>, e: Entry, index: nat, canon: Canon)
    requires RecordFrom(key, s, entries, index, canon)
    ensures RecordFrom(key, s, entries + [e], index, canon)
  {
    var i :| 0 <= i < |entries| && IsRecord(key, s, entries[i], canon);
    assert (entries + [e])[i] == entries[i];
  }

  /** The first map: its keys are all new. */
  lemma {:induction false} FirstMap(done: seq<Entry>, entries: seq<Entry>, seen: map<Bytes, Seen>, canon: Canon)
    requires ViewEntries(done + entries) && TellsLabels(canon) && Records(seen, done, [], canon)
    ensures MatchingEntries(entries, 0, seen, canon).Ok?
    ensures Records(MatchingEntries(entries, 0, seen, canon).value, done + entries, [], canon)
    decreases |entries|
  {
    if entries == [] {
      assert done + entries == done;
    } else {
      var e := entries[0];
      assert (done + entries)[|done|] == e;
      assert done + [e] + entries[1..] == done + entries;
      if e.key == REDACTED_KEYS_LABEL {
        FirstSkips(done, e, seen, canon);
        FirstMap(done + [e], entries[1..], seen, canon);
      } else {
        KeyIsSafe(e, canon);
        FirstIsNew(done, e, entries, seen, canon);
        FirstAdds(done, e, seen, canon);
        FirstMap(done + [e], entries[1..], seen[canon(e.key) := Seen(0, e.val)], canon);
      }
    }
  }

  lemma {:induction false} FirstSkips(done: seq<Entry>, e: Entry, seen: map<Bytes, Seen>, canon: Canon)
    requires Records(seen, done, [], canon) && e.key == REDACTED_KEYS_LABEL
    ensures Records(seen, done + [e], [], canon)
  {
    forall k | k in seen ensures RecordFrom(k, seen[k], done + [e], 0, canon) {
      RecordGrows(k, seen[k], done, e, 0, canon);
    }
  }

  lemma {:induction false} FirstIsNew(done: seq<Entry>, e: Entry, entries: seq<Entry>, seen: map<Bytes, Seen>, canon: Canon)
    requires entries != [] && entries[0] == e && ViewEntries(done + entries) && TellsLabels(canon) && Records(seen, done, [], canon)
    requires e.key != REDACTED_KEYS_LABEL
    ensures canon(e.key) !in seen
  {
    if canon(e.key) in seen {
      var k := canon(e.key);
      assert RecordFrom(k, seen[k], done, 0, canon);
      var i :| 0 <= i < |done| && IsRecord(k, seen[k], done[i], canon);
      CodesApart(done, entries, i, canon);
    }
  }

  /** No key of a map comes twice. */
  lemma CodesApart(done: seq<Entry>, entries: seq<Entry>, i: nat, canon: Canon)
    requires i < |done| && entries != [] && ViewEntries(done + entries) && TellsLabels(canon)
    requires done[i].key != REDACTED_KEYS_LABEL && entries[0].key != REDACTED_KEYS_LABEL
    ensures canon(done[i].key) != canon(entries[0].key)
  {
    var all := done + entries;
    assert all[i] == done[i] && all[|done|] == entries[0];
    KeyIsSafe(all[i], canon);
    KeyIsSafe(all[|done|], canon);
    assert all[i].key != all[|done|].key;
  }

  lemma {:induction false} FirstAdds(done: seq<Entry>, e: Entry, seen: map<Bytes, Seen>, canon: Canon)
    requires Records(seen, done, [], canon) && e.key != REDACTED_KEYS_LABEL && canon(e.key) !in seen
    ensures Records(seen[canon(e.key) := Seen(0, e.val)], done + [e], [], canon)
  {
    var seen1 := seen[canon(e.key) := Seen(0, e.val)];
    forall k | k in seen1 ensures RecordFrom(k, seen1[k], done + [e], 0, canon) {
      if k == canon(e.key) {
        assert IsRecord(k, seen1[k], (done + [e])[|done|], canon);
      } else {
        RecordGrows(k, seen[k], done, e, 0, canon);
      }
    }
  }

  /** The second map: a key of the first is compared, and no key comes twice. */
  lemma {:induction false} SecondMap(first: seq<Entry>, done: seq<Entry>, entries: seq<Entry>, seen: map<Bytes, Seen>, canon: Canon)
    requires ViewEntries(first) && ViewEntries(done + entries) && TellsLabels(canon) && Records(seen, first, done, canon)
    ensures MatchingEntries(entries, 1, seen, canon).Ok? <==> SharedMatch(first, done + entries, canon)
    ensures MatchingEntries(entries, 1, seen, canon).Err? ==> MatchingEntries(entries, 1, seen, canon) == Err(Verify)
    decreases |entries|
  {
    if entries == [] {
      assert done + entries == done;
    } else {
      var e := entries[0];
      assert (done + entries)[|done|] == e;
      assert done + [e] + entries[1..] == done + entries;
      if e.key == REDACTED_KEYS_LABEL {
        SecondSkips(first, done, e, seen, canon);
        SecondMap(first, done + [e], entries[1..], seen, canon);
      } else {
        KeyIsSafe(e, canon);
        SecondStep(first, done, e, entries, seen, canon);
        if MatchingEntry(e, 1, seen, canon).Ok? {
          SecondMap(first, done + [e], entries[1..], MatchingEntry(e, 1, seen, canon).value, canon);
        }
      }
    }
  }

  lemma {:induction false} SecondSkips(first: seq<Entry>, done: seq<Entry>, e: Entry, seen: map<Bytes, Seen>, canon: Canon)
    requires Records(seen, first, done, canon) && e.key == REDACTED_KEYS_LABEL
    ensures Records(seen, first, done + [e], canon)
  {
    forall k | k in seen ensures RecordFrom(k, seen[k], first, 0, canon) || RecordFrom(k, seen[k], done + [e], 1, canon) {
      if RecordFrom(k, seen[k], done, 1, canon) {
        RecordGrows(k, seen[k], done, e, 1, canon);
      }
    }
  }

  /** One visible entry of the second map. */
  lemma {:induction false} SecondStep(first: seq<Entry>, done: seq<Entry>, e: Entry, entries: seq<Entry>, seen: map<Bytes, Seen>, canon: Canon)
    requires entries != [] && entries[0] == e && e.key != REDACTED_KEYS_LABEL
    requires ViewEntries(first) && ViewEntries(done + entries) && TellsLabels(canon) && Records(seen, first, done, canon)
    requires SafeMapKey(e.key, canon) == Ok(canon(e.key))
    ensures !MatchingEntry(e, 1, seen, canon).Ok? ==>
              MatchingEntry(e, 1, seen, canon) == Err(Verify) && !SharedMatch(first, done + entries, canon)
    ensures MatchingEntry(e, 1, seen, canon).Ok? ==> Records(MatchingEntry(e, 1, seen, canon).value, first, done + [e], canon)
  {
    var k := canon(e.key);
    if k in seen {
      SecondFound(first, done, e, entries, seen, canon);
    } else {
      SecondNew(first, done, e, entries, seen, canon);
    }
  }

  lemma {:induction false} SecondNew(first: seq<Entry>, done: seq<Entry>, e: Entry, entries: seq<Entry>, seen: map<Bytes, Seen>, canon: Canon)
    requires Records(seen, first, done, canon) && e.key != REDACTED_KEYS_LABEL && canon(e.key) !in seen
    ensures Records(seen[canon(e.key) := Seen(1, e.val)], first, done + [e], canon)
  {
    var seen1 := seen[canon(e.key) := Seen(1, e.val)];
    forall k | k in seen1 ensures RecordFrom(k, seen1[k], first, 0, canon) || RecordFrom(k, seen1[k], done + [e], 1, canon) {
      if k == canon(e.key) {
        assert IsRecord(k, seen1[k], (done + [e])[|done|], canon);
      } else if RecordFrom(k, seen[k], done, 1, canon) {
        RecordGrows(k, seen[k], done, e, 1, canon);
      }
    }
  }

  lemma {:induction false} SecondFound(first: seq<Entry>, done: seq<Entry>, e: Entry, entries: seq<Entry>, seen: map<Bytes, Seen>, canon: Canon)
    requires entries != [] && entries[0] == e && e.key != REDACTED_KEYS_LABEL && canon(e.key) in seen
    requires ViewEntries(first) && ViewEntries(done + entries) && TellsLabels(canon) && Records(seen, first, done, canon)
    requires SafeMapKey(e.key, canon) == Ok(canon(e.key))
    ensures !MatchingEntry(e, 1, seen, canon).Ok? ==>
              MatchingEntry(e, 1, seen, canon) == Err(Verify) && !SharedMatch(first, done + entries, canon)
    ensures MatchingEntry(e, 1, seen, canon).Ok? ==> Records(MatchingEntry(e, 1, seen, canon).value, first, done + [e], canon)
  {
    var k := canon(e.key);
    assert (done + entries)[|done|] == e;
    KeyIsSafe(e, canon);
    if RecordFrom(k, seen[k], done, 1, canon) {
      var i :| 0 <= i < |done| && IsRecord(k, seen[k], done[i], canon);
      CodesApart(done, entries, i, canon);
    } else {
      var i :| 0 <= i < |first| && IsRecord(k, seen[k], first[i], canon);
      KeyIsSafe(first[i], canon);
      assert first[i].key == e.key;
      MatchDecides(first[i].val, e.val, canon);
      var same := ClaimValuesMatch(seen[k].val, e.val, canon);
      if same == Ok(true) {
        SecondReplaces(first, done, e, i, seen, canon);
      }
    }
  }

  lemma {:induction false} SecondReplaces(first: seq<Entry>, done: seq<Entry>, e: Entry, at: nat, seen: map<Bytes, Seen>, canon: Canon)
    requires Records(seen, first, done, canon) && at < |first| && first[at].key == e.key && e.key != REDACTED_KEYS_LABEL
    requires ViewEntries(first) && ClaimValuesMatch(first[at].val, e.val, canon) == Ok(true)
    ensures Records(seen[canon(e.key) := Seen(1, e.val)], first, done + [e], canon)
  {
    var seen1 := seen[canon(e.key) := Seen(1, e.val)];
    forall k | k in seen1 ensures RecordFrom(k, seen1[k], first, 0, canon) || RecordFrom(k, seen1[k], done + [e], 1, canon) {
      if k == canon(e.key) {
        assert IsRecord(k, seen1[k], (done + [e])[|done|], canon);
      } else if RecordFrom(k, seen[k], done, 1, canon) {
        RecordGrows(k, seen[k], done, e, 1, canon);
      }
    }
    var more := done + [e];
    forall i, j | 0 <= i < |more| && 0 <= j < |first| && more[i].key == first[j].key && more[i].key != REDACTED_KEYS_LABEL
      ensures ClaimValuesMatch(first[j].val, more[i].val, canon) == Ok(true)
    {
      if i < |done| {
        assert more[i] == done[i];
      } else {
        assert j == at;
      }
    }
  }

  lemma NothingRecorded(canon: Canon)
    ensures Records(map[], [], [], canon)
  {
  }

  /** The maps agree exactly when every claim visible in both matches; one map alone always does. */
  lemma {:induction false} MapsAgree(first: seq<Entry>, second: seq<Entry>, canon: Canon)
    requires ViewEntries(first) && ViewEntries(second) && TellsLabels(canon)
    ensures MatchingClaims([first], 0, map[], canon).Ok?
    ensures MatchingClaims([first, second], 0, map[], canon).Ok? <==> SharedMatch(first, second, canon)
    ensures MatchingClaims([first, second], 0, map[], canon).Err? ==> MatchingClaims([first, second], 0, map[], canon) == Err(Verify)
  {
    NothingRecorded(canon);
    assert [] + first == first && [] + second == second;
    FirstMap([], first, map[], canon);
    var seen := MatchingEntries(first, 0, map[], canon).value;
    SecondMap(first, [], second, seen, canon);
    OneMap(first, 0, map[], canon);
    OneMap(second, 1, seen, canon);
    assert [first, second][1..] == [second];
  }

  lemma OneMap(entries: seq<Entry>, index: nat, seen: map<Bytes, Seen>, canon: Canon)
    ensures MatchingClaims([entries], index, seen, canon) == MatchingEntries(entries, index, seen, canon)
  {
    hide MatchingEntries;
    assert [entries][1..] == [];
    var r := MatchingEntries(entries, index, seen, canon);
    if r.Ok? {
      assert MatchingClaims([], index + 1, r.value, canon) == r;
    }
  }
}
