/** When the policy on root claims stops the structural run while the plain run succeeds
    (sd-cwt/src/restore.rs): exactly when a disclosure put a claim that must never be redacted at the
    root of the payload or of the protected claims. */
module RootPolicy {
  import opened Values
  import opened Disclosures
  import opened ClaimMatching
  import opened Restoration
  import opened RestorationModes

  /** A claim that must not be redacted at the root of the claims. */
  predicate NeverRedactedKey(key: Value) {
    key.Integer? && key.n in NEVER_REDACTED
  }

  /** How many entries of a map stand in the open. */
  function OpenCount(entries: seq<Entry>): nat {
    if entries == [] then 0 else (if entries[0].key == REDACTED_KEYS_LABEL then 0 else 1) + OpenCount(entries[1..])
  }

  predicate Forbidden(entries: seq<Entry>) {
    exists i :: 0 <= i < |entries| && NeverRedactedKey(entries[i].key)
  }

  /** Restoring added a claim to the root map that must not have been redacted: restored claims stand
      after the entries that stood in the open. */
  predicate AddsForbidden(v: Value, restored: Value) {
    v.Map? && restored.Map? && OpenCount(v.entries) <= |restored.entries| && Forbidden(restored.entries[OpenCount(v.entries)..])
  }

  lemma {:induction false} CollectKeepsOut(items: seq<Value>, acc: MapAcc, limits: Limits, depth: nat)
    ensures var r := CollectHashes(items, acc, limits, depth);
            r.Ok? ==> r.value.out == acc.out
  {
    if items != [] {
      var entered := EnterAt(acc.st, depth + 2, limits);
      if entered.Ok? && items[0].ByteString? {
        CollectKeepsOut(items[1..], acc.(hashes := acc.hashes + [items[0].bytes], st := entered.value), limits, depth);
      }
    }
  }

  lemma {:induction false} OpenEntries(entries: seq<Entry>, acc: MapAcc, cfg: Config, depth: nat)
    ensures var r := RestoreEntries(entries, acc, cfg, depth);
            r.Ok? ==> |r.value.out| == |acc.out| + OpenCount(entries)
    decreases |entries|
  {
    hide RestoreValue;
    if entries != [] {
      var acc1 := RestoreEntry(entries[0], acc, cfg, depth);
      if acc1.Ok? {
        if entries[0].key == REDACTED_KEYS_LABEL {
          var st := EnterAt(acc.st, depth + 1, cfg.limits).value;
          var st2 := EnterAt(st, depth + 1, cfg.limits).value;
          CollectKeepsOut(entries[0].val.items, acc.(saw := true, st := st2), cfg.limits, depth);
        }
        OpenEntries(entries[1..], acc1.value, cfg, depth);
      }
    }
  }

  /** One hash at the root: both runs go on, unless the claim it discloses is forbidden there. */
  lemma {:induction false} ForbiddenHash(hash: Bytes, acc: MapAcc, cfg: Config)
    requires RestoreHash(hash, StripAcc(acc), Dropping(cfg), 0).Ok?
    ensures var plain := RestoreHash(hash, StripAcc(acc), Dropping(cfg), 0).value;
            && StripEntries(acc.out) <= plain.out
            && (RestoreHash(hash, acc, Keeping(cfg), 0).Ok? <==> !Forbidden(plain.out[|StripEntries(acc.out)|..]))
  {
    hide RestoreValue;
    KeepStripHash(hash, acc, cfg, 0);
    var plain, before := RestoreHash(hash, StripAcc(acc), Dropping(cfg), 0).value, StripEntries(acc.out);
    if hash in acc.st.pending && acc.st.pending[hash].kind.Claim? {
      var kind := acc.st.pending[hash].kind;
      var st1 := acc.st.(pending := TakePending(acc.st.pending, hash));
      KeepStripValue(kind.value, st1, cfg, 1);
      assert plain.out[|before|..] == [plain.out[|before|]] && plain.out[|before|].key == ValueOfLabel(kind.key);
      assert plain.out[|before|..][0] == plain.out[|before|];
    } else {
      assert plain.out[|before|..] == [];
    }
  }

  lemma NothingForbidden()
    ensures !Forbidden([])
  {
  }

  lemma ForbiddenParts(a: seq<Entry>, b: seq<Entry>)
    ensures Forbidden(a + b) <==> Forbidden(a) || Forbidden(b)
  {
    if Forbidden(a) {
      var i :| 0 <= i < |a| && NeverRedactedKey(a[i].key);
      assert (a + b)[i] == a[i];
    }
    if Forbidden(b) {
      var i :| 0 <= i < |b| && NeverRedactedKey(b[i].key);
      assert (a + b)[|a| + i] == b[i];
    }
  }

  lemma {:induction false} HashExtends(hash: Bytes, acc: MapAcc, cfg: Config, depth: nat)
    ensures var r := RestoreHash(hash, acc, cfg, depth);
            r.Ok? ==> acc.out <= r.value.out
  {
    hide RestoreValue, TakePending;
  }

  lemma {:induction false} HashesExtend(hashes: seq<Bytes>, acc: MapAcc, cfg: Config, depth: nat)
    ensures var r := RestoreHashes(hashes, acc, cfg, depth);
            r.Ok? ==> acc.out <= r.value.out
    decreases |hashes|
  {
    hide RestoreHash;
    if hashes != [] {
      HashExtends(hashes[0], acc, cfg, depth);
      var r := RestoreHash(hashes[0], acc, cfg, depth);
      if r.Ok? {
        HashesExtend(hashes[1..], r.value, cfg, depth);
      }
    }
  }

  lemma {:induction false} ForbiddenHashes(hashes: seq<Bytes>, acc: MapAcc, cfg: Config)
    requires RestoreHashes(hashes, StripAcc(acc), Dropping(cfg), 0).Ok?
    ensures var plain := RestoreHashes(hashes, StripAcc(acc), Dropping(cfg), 0).value;
            && StripEntries(acc.out) <= plain.out
            && (RestoreHashes(hashes, acc, Keeping(cfg), 0).Ok? <==> !Forbidden(plain.out[|StripEntries(acc.out)|..]))
    decreases |hashes|
  {
    hide RestoreHash, Forbidden;
    var before, plain := StripEntries(acc.out), RestoreHashes(hashes, StripAcc(acc), Dropping(cfg), 0).value;
    if hashes == [] {
      NothingForbidden();
      assert plain.out[|before|..] == [];
    } else {
      ForbiddenHash(hashes[0], acc, cfg);
      KeepStripHash(hashes[0], acc, cfg, 0);
      var one, next := RestoreHash(hashes[0], acc, Keeping(cfg), 0), RestoreHash(hashes[0], StripAcc(acc), Dropping(cfg), 0).value;
      HashesExtend(hashes[1..], next, Dropping(cfg), 0);
      ForbiddenParts(next.out[|before|..], plain.out[|next.out|..]);
      assert plain.out[|before|..] == next.out[|before|..] + plain.out[|next.out|..];
      if one.Ok? {
        ForbiddenHashes(hashes[1..], one.value, cfg);
      }
    }
  }

  lemma {:induction false} ForbiddenAtMap(entries: seq<Entry>, st: RState, cfg: Config)
    requires RestoreMap(entries, st, Dropping(cfg), 0).Ok?
    ensures RestoreMap(entries, st, Keeping(cfg), 0).Ok? <==> !AddsForbidden(Map(entries), RestoreMap(entries, st, Dropping(cfg), 0).value.0)
  {
    hide RestoreEntries, RestoreHashes, Forbidden;
    var acc0 := MapAcc([], {}, [], false, [], st);
    assert StripAcc(acc0) == acc0;
    KeepStripEntries(entries, acc0, cfg, 0);
    OpenEntries(entries, acc0, Dropping(cfg), 0);
    var acc, plain := RestoreEntries(entries, acc0, Keeping(cfg), 0).value, RestoreEntries(entries, acc0, Dropping(cfg), 0).value;
    assert plain == StripAcc(acc);
    ForbiddenHashes(acc.hashes, acc, cfg);
    var done := RestoreHashes(acc.hashes, plain, Dropping(cfg), 0).value;
    KeptNothing(acc.hashes, plain, cfg);
    assert done.out + KeptEntry(done.kept) == done.out;
  }

  lemma {:induction false} KeptNothing(hashes: seq<Bytes>, acc: MapAcc, cfg: Config)
    requires acc.kept == []
    ensures var r := RestoreHashes(hashes, acc, Dropping(cfg), 0);
            r.Ok? ==> r.value.kept == []
    decreases |hashes|
  {
    hide RestoreValue;
    if hashes != [] {
      var r := RestoreHash(hashes[0], acc, Dropping(cfg), 0);
      if r.Ok? {
        KeptNothing(hashes[1..], r.value, cfg);
      }
    }
  }

  /** Where the plain run restores a root value, the structural run does so exactly when no disclosure
      added a forbidden claim to it. */
  lemma {:induction false} PolicyExact(v: Value, st: RState, cfg: Config)
    requires RestoreValue(v, st, Dropping(cfg), 0).Ok?
    ensures var k, plain := RestoreValue(v, st, Keeping(cfg), 0), RestoreValue(v, st, Dropping(cfg), 0).value;
            && (k.Ok? <==> !AddsForbidden(v, plain.0))
            && (k.Err? ==> k == Err(Custom))
            && (k.Ok? ==> plain == (Strip(k.value.0), k.value.1))
  {
    hide RestoreMap, RestoreItems, AddsForbidden, Strip;
    KeepStripValue(v, st, cfg, 0);
    var st1 := EnterAt(st, 0, cfg.limits).value;
    match v
    case Map(entries) => ForbiddenAtMap(entries, st1, cfg);
    case Array(items) =>
      NotAMap(v, RestoreValue(v, st, Dropping(cfg), 0).value.0);
      KeepStripItems(items, [], st1, cfg, 0);
    case Tag(_, inner) =>
      NotAMap(v, RestoreValue(v, st, Dropping(cfg), 0).value.0);
      KeepStripValue(inner, st1, cfg, 1);
    case _ => NotAMap(v, RestoreValue(v, st, Dropping(cfg), 0).value.0);
  }

  lemma NotAMap(v: Value, restored: Value)
    requires !v.Map?
    ensures !AddsForbidden(v, restored)
  {
  }
}
