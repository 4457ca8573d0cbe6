/** Two restorations of the same input compared: keeping undisclosed markers and stripping them later
    against dropping them at once, and the Holder mode against the Verifier mode. */
module RestorationModes {
  import opened Values
  import opened Disclosures
  import opened ClaimMatching
  import opened Restoration

  // ---- keep-then-strip refines drop -------------------------------------------------------------

  function Keeping(cfg: Config): Config { cfg.(validateClaims := true) }

  function Dropping(cfg: Config): Config { cfg.(validateClaims := false) }

  /** At the root the structural run may stop on the root-key policy (`Custom`); otherwise both runs
      stop alike, and where they succeed the plain value is the stripped one. */
  ghost predicate Refines(k: Result<(Value, RState)>, d: Result<(Value, RState)>, root: bool) {
    match k
    case Ok((kept, st)) => d == Ok((Strip(kept), st))
    case Err(e) => (root && e == Custom) || (d.Err? && d.error == e)
  }

  function StripAcc(acc: MapAcc): MapAcc {
    acc.(out := StripEntries(acc.out), kept := [])
  }

  ghost predicate RefinesAcc(k: Result<MapAcc>, d: Result<MapAcc>, root: bool) {
    match k
    case Ok(acc) => d == Ok(StripAcc(acc))
    case Err(e) => (root && e == Custom) || (d.Err? && d.error == e)
  }

  ghost predicate RefinesItems(k: Result<(seq<Value>, RState)>, d: Result<(seq<Value>, RState)>) {
    match k
    case Ok((kept, st)) => d == Ok((StripItems(kept), st))
    case Err(e) => d.Err? && d.error == e
  }

  lemma {:induction false} NotRedacted(v: Value, st: RState, cfg: Config, depth: nat)
    ensures var r := RestoreValue(v, st, cfg, depth);
            r.Ok? ==> !IsRedactedElement(r.value.0)
  {
  }

  lemma {:induction false} StripAppend(out: seq<Value>, v: Value)
    requires !IsRedactedElement(v)
    ensures StripItems(out + [v]) == StripItems(out) + [Strip(v)]
  {
    StripItemsConcat(out, [v]);
    assert [v][1..] == [];
  }

  lemma {:induction false} StripAppendEntry(out: seq<Entry>, e: Entry)
    requires LabelOf(e.key).Some?
    ensures StripEntries(out + [e]) == StripEntries(out) + [Entry(e.key, Strip(e.val))]
  {
    StripEntriesConcat(out, [e]);
    assert [e][1..] == [];
  }

  lemma {:induction false} KeepStripValue(v: Value, st: RState, cfg: Config, depth: nat)
    ensures Refines(RestoreValue(v, st, Keeping(cfg), depth), RestoreValue(v, st, Dropping(cfg), depth), depth == 0)
    decreases |st.pending|, 1, v, 2
  {
    var entered := EnterAt(st, depth, cfg.limits);
    if entered.Ok? {
      var st1 := entered.value;
      match v {
        case Map(entries) => KeepStripMap(entries, st1, cfg, depth);
        case Array(items) =>
          if ContainerFits(|items|, cfg.limits) {
            KeepStripItems(items, [], st1, cfg, depth);
          }
        case Tag(tag, inner) =>
          if !IsReservedTag(tag) {
            KeepStripValue(inner, st1, cfg, depth + 1);
          }
        case _ =>
      }
    }
  }

  lemma {:induction false} KeepStripMap(entries: seq<Entry>, st: RState, cfg: Config, depth: nat)
    ensures Refines(RestoreMap(entries, st, Keeping(cfg), depth), RestoreMap(entries, st, Dropping(cfg), depth), depth == 0)
    decreases |st.pending|, 1, entries, 2
  {
    if ContainerFits(|entries|, cfg.limits) {
      var acc0 := MapAcc([], {}, [], false, [], st);
      KeepStripEntries(entries, acc0, cfg, depth);
      assert StripAcc(acc0) == acc0;
      var acc := RestoreEntries(entries, acc0, Keeping(cfg), depth);
      if acc.Ok? {
        KeepStripHashes(acc.value.hashes, acc.value, cfg, depth);
        var done := RestoreHashes(acc.value.hashes, acc.value, Keeping(cfg), depth);
        if done.Ok? {
          StripEntriesConcat(done.value.out, KeptEntry(done.value.kept));
          assert StripEntries(KeptEntry(done.value.kept)) == [];
          assert StripAcc(done.value).out + KeptEntry([]) == StripAcc(done.value).out;
        }
      }
    }
  }

  lemma {:induction false} KeepStripEntries(entries: seq<Entry>, acc: MapAcc, cfg: Config, depth: nat)
    ensures RefinesAcc(RestoreEntries(entries, acc, Keeping(cfg), depth), RestoreEntries(entries, StripAcc(acc), Dropping(cfg), depth), false)
    decreases |acc.st.pending|, 1, entries, 1
  {
    if entries != [] {
      KeepStripEntry(entries[0], acc, cfg, depth);
      var acc1 := RestoreEntry(entries[0], acc, Keeping(cfg), depth);
      if acc1.Ok? {
        KeepStripEntries(entries[1..], acc1.value, cfg, depth);
      }
    }
  }

  lemma {:induction false} KeepStripEntry(e: Entry, acc: MapAcc, cfg: Config, depth: nat)
    ensures RefinesAcc(RestoreEntry(e, acc, Keeping(cfg), depth), RestoreEntry(e, StripAcc(acc), Dropping(cfg), depth), false)
    decreases |acc.st.pending|, 1, e, 0
  {
    var entered := EnterAt(acc.st, depth + 1, cfg.limits);
    if entered.Ok? {
      if e.key == REDACTED_KEYS_LABEL {
        if !acc.saw && e.val.Array? {
          var st2 := EnterAt(entered.value, depth + 1, cfg.limits);
          if st2.Ok? {
            KeepStripCollect(e.val.items, acc.(saw := true, st := st2.value), cfg, depth);
          }
        }
      } else if LabelOf(e.key).Some? && LabelOf(e.key).value !in acc.labels {
        KeepStripValue(e.val, entered.value, cfg, depth + 1);
        var r := RestoreValue(e.val, entered.value, Keeping(cfg), depth + 1);
        if r.Ok? {
          StripAppendEntry(acc.out, Entry(e.key, r.value.0));
        }
      }
    }
  }

  lemma {:induction false} KeepStripCollect(items: seq<Value>, acc: MapAcc, cfg: Config, depth: nat)
    ensures RefinesAcc(CollectHashes(items, acc, cfg.limits, depth), CollectHashes(items, StripAcc(acc), cfg.limits, depth), false)
  {
    if items != [] {
      var entered := EnterAt(acc.st, depth + 2, cfg.limits);
      if entered.Ok? && items[0].ByteString? {
        KeepStripCollect(items[1..], acc.(hashes := acc.hashes + [items[0].bytes], st := entered.value), cfg, depth);
      }
    }
  }

  lemma {:induction false} KeepStripHashes(hashes: seq<Bytes>, acc: MapAcc, cfg: Config, depth: nat)
    ensures RefinesAcc(RestoreHashes(hashes, acc, Keeping(cfg), depth), RestoreHashes(hashes, StripAcc(acc), Dropping(cfg), depth), depth == 0)
    decreases |acc.st.pending|, 0, |hashes| + 1
  {
    if hashes != [] {
      KeepStripHash(hashes[0], acc, cfg, depth);
      var acc1 := RestoreHash(hashes[0], acc, Keeping(cfg), depth);
      if acc1.Ok? {
        KeepStripHashes(hashes[1..], acc1.value, cfg, depth);
      }
    }
  }

  lemma {:induction false} KeepStripHash(hash: Bytes, acc: MapAcc, cfg: Config, depth: nat)
    ensures RefinesAcc(RestoreHash(hash, acc, Keeping(cfg), depth), RestoreHash(hash, StripAcc(acc), Dropping(cfg), depth), depth == 0)
    decreases |acc.st.pending|, 0, 0
  {
    if hash in acc.st.pending {
      var kind := acc.st.pending[hash].kind;
      if kind.Claim? && kind.key !in acc.labels {
        var st1 := acc.st.(pending := TakePending(acc.st.pending, hash));
        KeepStripValue(kind.value, st1, cfg, depth + 1);
        var r := RestoreValue(kind.value, st1, Keeping(cfg), depth + 1);
        if r.Ok? {
          StripDisclosedEntry(acc.out, kind.key, r.value.0);
        }
      }
    }
  }

  lemma {:induction false} StripDisclosedEntry(out: seq<Entry>, key: Label, v: Value)
    ensures StripEntries(out + [Entry(ValueOfLabel(key), v)]) == StripEntries(out) + [Entry(ValueOfLabel(key), Strip(v))]
  {
    var e := Entry(ValueOfLabel(key), v);
    StripEntriesConcat(out, [e]);
    assert [e][1..] == [];
  }

  lemma {:induction false} KeepStripItems(items: seq<Value>, out: seq<Value>, st: RState, cfg: Config, depth: nat)
    ensures RefinesItems(RestoreItems(items, out, st, Keeping(cfg), depth), RestoreItems(items, StripItems(out), st, Dropping(cfg), depth))
    decreases |st.pending|, 1, items, 1
  {
    if items != [] {
      KeepStripItem(items[0], out, st, cfg, depth);
      var r := RestoreItem(items[0], out, st, Keeping(cfg), depth);
      if r.Ok? {
        KeepStripItems(items[1..], r.value.0, r.value.1, cfg, depth);
      }
    }
  }

  lemma {:induction false} KeepStripItem(item: Value, out: seq<Value>, st: RState, cfg: Config, depth: nat)
    ensures RefinesItems(RestoreItem(item, out, st, Keeping(cfg), depth), RestoreItem(item, StripItems(out), st, Dropping(cfg), depth))
    decreases |st.pending|, 1, item, 3
  {
    if IsRedactedElement(item) {
      var st1 := EnterAt(st, depth + 1, cfg.limits);
      if st1.Ok? {
        var st2 := EnterAt(st1.value, depth + 2, cfg.limits);
        if st2.Ok? && item.inner.ByteString? {
          KeepStripElement(item.inner.bytes, out, st2.value, cfg, depth);
        }
      }
    } else {
      KeepStripValue(item, st, cfg, depth + 1);
      KeepStripPush(item, out, st, cfg, depth);
    }
  }

  /** Appending a restored value to both outputs. */
  lemma {:induction false} KeepStripPush(v: Value, out: seq<Value>, st: RState, cfg: Config, depth: nat)
    requires Refines(RestoreValue(v, st, Keeping(cfg), depth + 1), RestoreValue(v, st, Dropping(cfg), depth + 1), false)
    ensures var r := RestoreValue(v, st, Keeping(cfg), depth + 1);
            r.Ok? ==> StripItems(out + [r.value.0]) == StripItems(out) + [Strip(r.value.0)]
  {
    NotRedacted(v, st, Keeping(cfg), depth + 1);
    var r := RestoreValue(v, st, Keeping(cfg), depth + 1);
    if r.Ok? {
      StripAppend(out, r.value.0);
    }
  }

  lemma {:induction false} KeepStripElement(hash: Bytes, out: seq<Value>, st: RState, cfg: Config, depth: nat)
    ensures RefinesItems(RestoreElement(hash, out, st, Keeping(cfg), depth), RestoreElement(hash, StripItems(out), st, Dropping(cfg), depth))
    decreases |st.pending|, 0, 0
  {
    if hash !in st.pending {
      var marker := Tag(REDACTED_ELEMENT_TAG, ByteString(hash));
      StripItemsConcat(out, [marker]);
      assert StripItems([marker]) == [] by { assert [marker][1..] == []; }
      assert StripItems(out) + [] == StripItems(out);
    } else if st.pending[hash].kind.Element? {
      var st1 := st.(pending := TakePending(st.pending, hash));
      KeepStripValue(st.pending[hash].kind.value, st1, cfg, depth + 1);
      KeepStripPush(st.pending[hash].kind.value, out, st1, cfg, depth);
    }
  }

  // ---- Holder and Verifier ----------------------------------------------------------------------

  function AsHolder(cfg: Config): Config { cfg.(mode := Holder) }

  function AsVerifier(cfg: Config): Config { cfg.(mode := Verifier) }

  /** The Holder's outcome `h` and the Verifier's outcome `w` from the same state: the Holder
      succeeds exactly when the Verifier succeeds without dropping anything, and then alike. */
  ghost predicate SameWithoutRemovals<T>(h: Result<T>, w: Result<T>, before: nat, removed: T -> nat) {
    && (h.Ok? ==> w == h && removed(h.value) == before)
    && (w.Ok? ==> before <= removed(w.value) && (removed(w.value) == before ==> h == w))
  }

  function RemovedOf(r: (Value, RState)): nat { r.1.removed }

  function RemovedOfItems(r: (seq<Value>, RState)): nat { r.1.removed }

  function RemovedOfAcc(acc: MapAcc): nat { acc.st.removed }

  lemma {:induction false} ModesValue(v: Value, st: RState, cfg: Config, depth: nat)
    ensures SameWithoutRemovals(RestoreValue(v, st, AsHolder(cfg), depth), RestoreValue(v, st, AsVerifier(cfg), depth), st.removed, RemovedOf)
    decreases |st.pending|, 1, v, 2
  {
    var entered := EnterAt(st, depth, cfg.limits);
    if entered.Ok? {
      var st1 := entered.value;
      match v {
        case Map(entries) => ModesMap(entries, st1, cfg, depth);
        case Array(items) =>
          if ContainerFits(|items|, cfg.limits) {
            ModesItems(items, [], st1, cfg, depth);
          }
        case Tag(tag, inner) =>
          if !IsReservedTag(tag) {
            ModesValue(inner, st1, cfg, depth + 1);
          }
        case _ =>
      }
    }
  }

  lemma {:induction false} ModesMap(entries: seq<Entry>, st: RState, cfg: Config, depth: nat)
    ensures SameWithoutRemovals(RestoreMap(entries, st, AsHolder(cfg), depth), RestoreMap(entries, st, AsVerifier(cfg), depth), st.removed, RemovedOf)
    decreases |st.pending|, 1, entries, 2
  {
    if ContainerFits(|entries|, cfg.limits) {
      var acc0 := MapAcc([], {}, [], false, [], st);
      ModesEntries(entries, acc0, cfg, depth);
      var acc := RestoreEntries(entries, acc0, AsVerifier(cfg), depth);
      if acc.Ok? {
        ModesHashes(acc.value.hashes, acc.value, cfg, depth);
      }
    }
  }

  lemma {:induction false} ModesEntries(entries: seq<Entry>, acc: MapAcc, cfg: Config, depth: nat)
    ensures SameWithoutRemovals(RestoreEntries(entries, acc, AsHolder(cfg), depth), RestoreEntries(entries, acc, AsVerifier(cfg), depth), acc.st.removed, RemovedOfAcc)
    decreases |acc.st.pending|, 1, entries, 1
  {
    if entries != [] {
      ModesEntry(entries[0], acc, cfg, depth);
      var acc1 := RestoreEntry(entries[0], acc, AsVerifier(cfg), depth);
      if acc1.Ok? {
        ModesEntries(entries[1..], acc1.value, cfg, depth);
      }
    }
  }

  lemma {:induction false} ModesEntry(e: Entry, acc: MapAcc, cfg: Config, depth: nat)
    ensures SameWithoutRemovals(RestoreEntry(e, acc, AsHolder(cfg), depth), RestoreEntry(e, acc, AsVerifier(cfg), depth), acc.st.removed, RemovedOfAcc)
    decreases |acc.st.pending|, 1, e, 0
  {
    var entered := EnterAt(acc.st, depth + 1, cfg.limits);
    if entered.Ok? {
      if e.key == REDACTED_KEYS_LABEL {
        if !acc.saw && e.val.Array? {
          var st2 := EnterAt(entered.value, depth + 1, cfg.limits);
          if st2.Ok? {
            CollectKeepsRemoved(e.val.items, acc.(saw := true, st := st2.value), cfg.limits, depth);
          }
        }
      } else if LabelOf(e.key).Some? && LabelOf(e.key).value !in acc.labels {
        ModesValue(e.val, entered.value, cfg, depth + 1);
      }
    }
  }

  lemma {:induction false} CollectKeepsRemoved(items: seq<Value>, acc: MapAcc, limits: Limits, depth: nat)
    ensures var r := CollectHashes(items, acc, limits, depth);
            r.Ok? ==> r.value.st.removed == acc.st.removed
  {
    if items != [] {
      var entered := EnterAt(acc.st, depth + 2, limits);
      if entered.Ok? && items[0].ByteString? {
        CollectKeepsRemoved(items[1..], acc.(hashes := acc.hashes + [items[0].bytes], st := entered.value), limits, depth);
      }
    }
  }

  lemma {:induction false} ModesHashes(hashes: seq<Bytes>, acc: MapAcc, cfg: Config, depth: nat)
    ensures SameWithoutRemovals(RestoreHashes(hashes, acc, AsHolder(cfg), depth), RestoreHashes(hashes, acc, AsVerifier(cfg), depth), acc.st.removed, RemovedOfAcc)
    decreases |acc.st.pending|, 0, |hashes| + 1
  {
    if hashes != [] {
      ModesHash(hashes[0], acc, cfg, depth);
      var acc1 := RestoreHash(hashes[0], acc, AsVerifier(cfg), depth);
      if acc1.Ok? {
        ModesHashes(hashes[1..], acc1.value, cfg, depth);
      }
    }
  }

  lemma {:induction false} ModesHash(hash: Bytes, acc: MapAcc, cfg: Config, depth: nat)
    ensures SameWithoutRemovals(RestoreHash(hash, acc, AsHolder(cfg), depth), RestoreHash(hash, acc, AsVerifier(cfg), depth), acc.st.removed, RemovedOfAcc)
    decreases |acc.st.pending|, 0, 0
  {
    if hash in acc.st.pending && acc.st.pending[hash].kind.Claim? {
      var st1 := acc.st.(pending := TakePending(acc.st.pending, hash));
      ModesValue(acc.st.pending[hash].kind.value, st1, cfg, depth + 1);
    }
  }

  lemma {:induction false} ModesItems(items: seq<Value>, out: seq<Value>, st: RState, cfg: Config, depth: nat)
    ensures SameWithoutRemovals(RestoreItems(items, out, st, AsHolder(cfg), depth), RestoreItems(items, out, st, AsVerifier(cfg), depth), st.removed, RemovedOfItems)
    decreases |st.pending|, 1, items, 1
  {
    if items != [] {
      ModesItem(items[0], out, st, cfg, depth);
      var r := RestoreItem(items[0], out, st, AsVerifier(cfg), depth);
      if r.Ok? {
        ModesItems(items[1..], r.value.0, r.value.1, cfg, depth);
      }
    }
  }

  lemma {:induction false} ModesItem(item: Value, out: seq<Value>, st: RState, cfg: Config, depth: nat)
    ensures SameWithoutRemovals(RestoreItem(item, out, st, AsHolder(cfg), depth), RestoreItem(item, out, st, AsVerifier(cfg), depth), st.removed, RemovedOfItems)
    decreases |st.pending|, 1, item, 3
  {
    if IsRedactedElement(item) {
      var st1 := EnterAt(st, depth + 1, cfg.limits);
      if st1.Ok? {
        var st2 := EnterAt(st1.value, depth + 2, cfg.limits);
        if st2.Ok? && item.inner.ByteString? {
          ModesElement(item.inner.bytes, out, st2.value, cfg, depth);
        }
      }
    } else {
      ModesValue(item, st, cfg, depth + 1);
    }
  }

  lemma {:induction false} ModesElement(hash: Bytes, out: seq<Value>, st: RState, cfg: Config, depth: nat)
    ensures SameWithoutRemovals(RestoreElement(hash, out, st, AsHolder(cfg), depth), RestoreElement(hash, out, st, AsVerifier(cfg), depth), st.removed, RemovedOfItems)
    decreases |st.pending|, 0, 0
  {
    if hash in st.pending && st.pending[hash].kind.Element? {
      var st1 := st.(pending := TakePending(st.pending, hash));
      ModesValue(st.pending[hash].kind.value, st1, cfg, depth + 1);
    }
  }
}
