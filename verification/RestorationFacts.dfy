/** What every successful restoration keeps: disclosures are conserved, the result is a well-formed
    claims tree within the limits, and no run can fail on a limit that is ample for its input. */
module RestorationFacts {
  import opened Values
  import opened Disclosures
  import opened ClaimMatching
  import opened Restoration

  /** Disclosure keys are labels in range, as construction and decoding validate. */
  predicate ValidDisclosure(d: Disclosure) {
    d.kind.Claim? ==> LabelOf(ValueOfLabel(d.kind.key)) == Some(d.kind.key)
  }

  ghost predicate ValidPending(pending: map<Bytes, Disclosure>) {
    forall h :: h in pending ==> ValidDisclosure(pending[h])
  }

  ghost predicate Submap(a: map<Bytes, Disclosure>, b: map<Bytes, Disclosure>) {
    forall h :: h in a ==> h in b && a[h] == b[h]
  }

  /** Disclosures only leave the pending set, and each one that leaves is counted once. */
  ghost predicate Progress(st: RState, st1: RState) {
    && Submap(st1.pending, st.pending)
    && st1.disclosed + st1.decoys + |st1.pending| == st.disclosed + st.decoys + |st.pending|
    && st.removed <= st1.removed
    && st.visited <= st1.visited
  }

  ghost predicate Fits(out: Value, st: RState, st1: RState, limits: Limits, depth: nat) {
    && st.visited + Nodes(out) <= st1.visited <= limits.maxItems
    && depth + Height(out) <= limits.maxDepth
  }

  ghost predicate ValueDone(out: Value, st: RState, st1: RState, cfg: Config, depth: nat) {
    Progress(st, st1) && View(out, cfg.validateClaims) && Fits(out, st, st1, cfg.limits, depth)
  }

  /** The output entries are keyed by the labels written so far. */
  ghost predicate EntriesDone(out: seq<Entry>, labels: set<Label>, hidden: bool) {
    && DistinctKeys(out)
    && forall i :: 0 <= i < |out| ==>
        ViewEntry(out[i], hidden) && LabelOf(out[i].key).Some? && LabelOf(out[i].key).value in labels
  }

  ghost predicate KeptDone(kept: seq<Value>, hidden: bool) {
    (kept != [] ==> hidden) && forall i :: 0 <= i < |kept| ==> kept[i].ByteString?
  }

  /** While a map entered with `st` restores and `todo` hashes are left. */
  ghost predicate MapGoing(acc: MapAcc, todo: nat, st: RState, cfg: Config, depth: nat) {
    && Progress(st, acc.st)
    && EntriesDone(acc.out, acc.labels, cfg.validateClaims)
    && KeptDone(acc.kept, cfg.validateClaims)
    && (todo + |acc.kept| > 0 ==> acc.saw && depth + 2 <= cfg.limits.maxDepth)
    && st.visited + NodesOfEntries(acc.out) + todo + |acc.kept| + (if acc.saw then 2 else 0) <= acc.st.visited <= cfg.limits.maxItems
    && depth + HeightOfEntries(acc.out) <= cfg.limits.maxDepth
  }

  ghost predicate ArrayGoing(out: seq<Value>, st: RState, st1: RState, cfg: Config, depth: nat) {
    && Progress(st, st1)
    && (forall i :: 0 <= i < |out| ==> ViewItem(out[i], cfg.validateClaims))
    && st.visited + NodesOfItems(out) <= st1.visited <= cfg.limits.maxItems
    && depth + HeightOfItems(out) <= cfg.limits.maxDepth
  }

  lemma {:induction false} AppendEntry(acc: MapAcc, e: Entry, key: Label, hidden: bool)
    requires EntriesDone(acc.out, acc.labels, hidden)
    requires key !in acc.labels && LabelOf(e.key) == Some(key) && View(e.val, hidden)
    ensures EntriesDone(acc.out + [e], acc.labels + {key}, hidden)
    ensures NodesOfEntries(acc.out + [e]) == NodesOfEntries(acc.out) + 1 + Nodes(e.val)
    ensures HeightOfEntries(acc.out + [e]) == Max(HeightOfEntries(acc.out), 1 + Height(e.val))
  {
    NodesOfEntriesConcat(acc.out, [e]);
    HeightOfEntriesConcat(acc.out, [e]);
    SingleEntry(e);
    var out := acc.out + [e];
    forall i, j | 0 <= i < j < |out| ensures out[i].key != out[j].key {
      if j == |acc.out| {
        assert LabelOf(out[i].key).value in acc.labels;
      }
    }
  }

  lemma {:induction false} AppendItem(out: seq<Value>, v: Value, hidden: bool)
    requires forall i :: 0 <= i < |out| ==> ViewItem(out[i], hidden)
    requires ViewItem(v, hidden)
    ensures forall i :: 0 <= i < |out + [v]| ==> ViewItem((out + [v])[i], hidden)
    ensures NodesOfItems(out + [v]) == NodesOfItems(out) + Nodes(v)
    ensures HeightOfItems(out + [v]) == Max(HeightOfItems(out), 1 + Height(v))
  {
    NodesOfItemsConcat(out, [v]);
    HeightOfItemsConcat(out, [v]);
  }

  lemma {:induction false} ValueFacts(v: Value, st: RState, cfg: Config, depth: nat)
    requires ValidPending(st.pending)
    ensures var r := RestoreValue(v, st, cfg, depth);
            r.Ok? ==> ValueDone(r.value.0, st, r.value.1, cfg, depth)
    decreases |st.pending|, 1, v, 2
  {
    var entered := EnterAt(st, depth, cfg.limits);
    if entered.Ok? {
      var st1 := entered.value;
      match v {
        case Map(entries) => MapFacts(entries, st1, cfg, depth);
        case Array(items) =>
          if ContainerFits(|items|, cfg.limits) {
            ItemsFacts(items, [], st1, st1, cfg, depth);
          }
        case Tag(tag, inner) =>
          if !IsReservedTag(tag) {
            ValueFacts(inner, st1, cfg, depth + 1);
          }
        case _ =>
      }
    }
  }

  lemma {:induction false} MapFacts(entries: seq<Entry>, st: RState, cfg: Config, depth: nat)
    requires ValidPending(st.pending) && depth <= cfg.limits.maxDepth && 1 <= st.visited <= cfg.limits.maxItems
    ensures var r := RestoreMap(entries, st, cfg, depth);
            r.Ok? ==> ValueDone(r.value.0, st.(visited := st.visited - 1), r.value.1, cfg, depth)
    decreases |st.pending|, 1, entries, 2
  {
    if ContainerFits(|entries|, cfg.limits) {
      var acc0 := MapAcc([], {}, [], false, [], st);
      EntriesFacts(entries, acc0, st, cfg, depth);
      var acc := RestoreEntries(entries, acc0, cfg, depth);
      if acc.Ok? {
        HashesFacts(acc.value.hashes, acc.value, st, cfg, depth);
        var done := RestoreHashes(acc.value.hashes, acc.value, cfg, depth);
        if done.Ok? {
          KeptFacts(done.value, st, cfg, depth);
        }
      }
    }
  }

  lemma {:induction false} KeptFacts(acc: MapAcc, st: RState, cfg: Config, depth: nat)
    requires MapGoing(acc, 0, st, cfg, depth) && 1 <= st.visited
    ensures ValueDone(Map(acc.out + KeptEntry(acc.kept)), st.(visited := st.visited - 1), acc.st, cfg, depth)
  {
    var out := acc.out + KeptEntry(acc.kept);
    NodesOfEntriesConcat(acc.out, KeptEntry(acc.kept));
    HeightOfEntriesConcat(acc.out, KeptEntry(acc.kept));
    HashListSize(acc.kept);
    SingleEntry(Entry(REDACTED_KEYS_LABEL, Array(acc.kept)));
    assert forall i :: 0 <= i < |out| ==> ViewEntry(out[i], cfg.validateClaims);
  }

  lemma HashListSize(kept: seq<Value>)
    requires forall i :: 0 <= i < |kept| ==> kept[i].ByteString?
    ensures NodesOfItems(kept) == |kept|
    ensures HeightOfItems(kept) <= 1
  {
  }

  lemma {:induction false} EntriesFacts(entries: seq<Entry>, acc: MapAcc, st: RState, cfg: Config, depth: nat)
    requires ValidPending(acc.st.pending) && MapGoing(acc, |acc.hashes|, st, cfg, depth) && acc.kept == []
    ensures var r := RestoreEntries(entries, acc, cfg, depth);
            r.Ok? ==> MapGoing(r.value, |r.value.hashes|, st, cfg, depth) && r.value.kept == []
    decreases |acc.st.pending|, 1, entries, 1
  {
    if entries != [] {
      EntryFacts(entries[0], acc, st, cfg, depth);
      var acc1 := RestoreEntry(entries[0], acc, cfg, depth);
      if acc1.Ok? {
        EntriesFacts(entries[1..], acc1.value, st, cfg, depth);
      }
    }
  }

  lemma {:induction false} EntryFacts(e: Entry, acc: MapAcc, st: RState, cfg: Config, depth: nat)
    requires ValidPending(acc.st.pending) && MapGoing(acc, |acc.hashes|, st, cfg, depth) && acc.kept == []
    ensures var r := RestoreEntry(e, acc, cfg, depth);
            r.Ok? ==> MapGoing(r.value, |r.value.hashes|, st, cfg, depth) && r.value.kept == [] && ValidPending(r.value.st.pending)
    decreases |acc.st.pending|, 1, e, 0
  {
    var entered := EnterAt(acc.st, depth + 1, cfg.limits);
    if entered.Ok? {
      if e.key == REDACTED_KEYS_LABEL {
        if !acc.saw && e.val.Array? {
          var st2 := EnterAt(entered.value, depth + 1, cfg.limits);
          if st2.Ok? {
            CollectFacts(e.val.items, acc.(saw := true, st := st2.value), st, cfg, depth);
          }
        }
      } else if LabelOf(e.key).Some? && LabelOf(e.key).value !in acc.labels {
        ValueFacts(e.val, entered.value, cfg, depth + 1);
        var r := RestoreValue(e.val, entered.value, cfg, depth + 1);
        if r.Ok? {
          AppendEntry(acc, Entry(e.key, r.value.0), LabelOf(e.key).value, cfg.validateClaims);
        }
      }
    }
  }

  lemma {:induction false} CollectFacts(items: seq<Value>, acc: MapAcc, st: RState, cfg: Config, depth: nat)
    requires MapGoing(acc, |acc.hashes|, st, cfg, depth) && acc.saw && acc.kept == []
    ensures var r := CollectHashes(items, acc, cfg.limits, depth);
            r.Ok? ==> MapGoing(r.value, |r.value.hashes|, st, cfg, depth) && r.value.kept == []
  {
    if items != [] {
      var entered := EnterAt(acc.st, depth + 2, cfg.limits);
      if entered.Ok? && items[0].ByteString? {
        CollectFacts(items[1..], acc.(hashes := acc.hashes + [items[0].bytes], st := entered.value), st, cfg, depth);
      }
    }
  }

  lemma {:induction false} HashesFacts(hashes: seq<Bytes>, acc: MapAcc, st: RState, cfg: Config, depth: nat)
    requires ValidPending(acc.st.pending) && MapGoing(acc, |hashes|, st, cfg, depth)
    ensures var r := RestoreHashes(hashes, acc, cfg, depth);
            r.Ok? ==> MapGoing(r.value, 0, st, cfg, depth)
    decreases |acc.st.pending|, 0, |hashes| + 1
  {
    if hashes != [] {
      HashFacts(hashes[0], |hashes| - 1, acc, st, cfg, depth);
      var acc1 := RestoreHash(hashes[0], acc, cfg, depth);
      if acc1.Ok? {
        HashesFacts(hashes[1..], acc1.value, st, cfg, depth);
      }
    }
  }

  /** What taking a disclosure out of the pending set leaves. */
  lemma TakenFacts(st: RState, hash: Bytes)
    requires ValidPending(st.pending) && hash in st.pending
    ensures var rest := TakePending(st.pending, hash);
            ValidPending(rest) && Submap(rest, st.pending) && |rest| + 1 == |st.pending|
  {
  }

  /** A disclosure that leaves the pending set and is counted is progress. */
  lemma CountedIsProgress(st: RState, taken: RState, st2: RState, counted: RState)
    requires Submap(taken.pending, st.pending) && |taken.pending| + 1 == |st.pending| && taken == st.(pending := taken.pending)
    requires Progress(taken, st2)
    requires counted == st2.(disclosed := st2.disclosed + 1) || counted == st2.(decoys := st2.decoys + 1)
    ensures Progress(st, counted)
  {
  }

  lemma ProgressChains(a: RState, b: RState, c: RState)
    requires Progress(a, b) && Progress(b, c)
    ensures Progress(a, c)
  {
  }

  lemma ValidStays(st: RState, st1: RState)
    requires ValidPending(st.pending) && Progress(st, st1)
    ensures ValidPending(st1.pending)
  {
  }

  /** The accumulator after a disclosed claim. */
  lemma {:induction false} PlacedFacts(key: Label, out: Value, st2: RState, todo: nat, acc: MapAcc, st: RState, cfg: Config, depth: nat)
    requires MapGoing(acc, todo + 1, st, cfg, depth) && key !in acc.labels && LabelOf(ValueOfLabel(key)) == Some(key)
    requires Progress(acc.st, st2) && View(out, cfg.validateClaims)
    requires acc.st.visited + Nodes(out) <= st2.visited <= cfg.limits.maxItems && depth + 1 + Height(out) <= cfg.limits.maxDepth
    ensures MapGoing(acc.(out := acc.out + [Entry(ValueOfLabel(key), out)], labels := acc.labels + {key}, st := st2), todo, st, cfg, depth)
  {
    hide Progress, EntriesDone, KeptDone, View, Nodes, Height, NodesOfEntries, HeightOfEntries, LabelOf, ValueOfLabel;
    ProgressChains(st, acc.st, st2);
    AppendEntry(acc, Entry(ValueOfLabel(key), out), key, cfg.validateClaims);
  }

  lemma AbsentFacts(hash: Bytes, todo: nat, acc: MapAcc, st: RState, cfg: Config, depth: nat)
    requires MapGoing(acc, todo + 1, st, cfg, depth) && cfg.mode == Verifier && hash !in acc.st.pending
    ensures RestoreHash(hash, acc, cfg, depth).Ok? && MapGoing(RestoreHash(hash, acc, cfg, depth).value, todo, st, cfg, depth)
    ensures RestoreHash(hash, acc, cfg, depth).value.st.pending == acc.st.pending
  {
    hide EntriesDone, NodesOfEntries, HeightOfEntries, RestoreValue;
  }

  lemma {:induction false} HashFacts(hash: Bytes, todo: nat, acc: MapAcc, st: RState, cfg: Config, depth: nat)
    requires ValidPending(acc.st.pending) && MapGoing(acc, todo + 1, st, cfg, depth)
    ensures var r := RestoreHash(hash, acc, cfg, depth);
            r.Ok? ==> MapGoing(r.value, todo, st, cfg, depth) && ValidPending(r.value.st.pending)
    decreases |acc.st.pending|, 0, 1
  {
    if hash !in acc.st.pending {
      if cfg.mode == Verifier {
        AbsentFacts(hash, todo, acc, st, cfg, depth);
      }
    } else {
      TakenFacts(acc.st, hash);
      PresentFacts(hash, todo, acc, acc.st.(pending := TakePending(acc.st.pending, hash)), st, cfg, depth);
    }
  }

  lemma {:induction false} PresentFacts(hash: Bytes, todo: nat, acc: MapAcc, taken: RState, st: RState, cfg: Config, depth: nat)
    requires MapGoing(acc, todo + 1, st, cfg, depth) && hash in acc.st.pending && ValidDisclosure(acc.st.pending[hash])
    requires taken == acc.st.(pending := TakePending(acc.st.pending, hash))
    requires ValidPending(taken.pending) && Submap(taken.pending, acc.st.pending) && |taken.pending| + 1 == |acc.st.pending|
    ensures var r := RestoreHash(hash, acc, cfg, depth);
            r.Ok? ==> MapGoing(r.value, todo, st, cfg, depth) && ValidPending(r.value.st.pending)
    decreases |acc.st.pending|, 0, 0
  {
    hide RestoreValue, TakePending, Submap, ValidPending, Nodes, Height, View, EntriesDone, KeptDone, NodesOfEntries, HeightOfEntries;
    match acc.st.pending[hash].kind
    case Element(_, _) =>
    case Decoy(_) =>
      StillProgress(taken);
      CountedIsProgress(acc.st, taken, taken, taken.(decoys := taken.decoys + 1));
      ProgressChains(st, acc.st, taken.(decoys := taken.decoys + 1));
    case Claim(_, key, value) =>
      ValueFacts(value, taken, cfg, depth + 1);
      var r := RestoreValue(value, taken, cfg, depth + 1);
      if r.Ok? && key !in acc.labels {
        var (out, st1) := r.value;
        var st2 := st1.(disclosed := st1.disclosed + 1);
        CountedIsProgress(acc.st, taken, st1, st2);
        ValidStays(taken, st1);
        PlacedFacts(key, out, st2, todo, acc, st, cfg, depth);
      }
  }

  lemma StillProgress(st: RState)
    ensures Progress(st, st)
  {
  }

  lemma {:induction false} ItemsFacts(items: seq<Value>, out: seq<Value>, st: RState, st1: RState, cfg: Config, depth: nat)
    requires ValidPending(st1.pending) && ArrayGoing(out, st, st1, cfg, depth)
    ensures var r := RestoreItems(items, out, st1, cfg, depth);
            r.Ok? ==> ArrayGoing(r.value.0, st, r.value.1, cfg, depth)
    decreases |st1.pending|, 1, items, 1
  {
    if items != [] {
      ItemFacts(items[0], out, st, st1, cfg, depth);
      var r := RestoreItem(items[0], out, st1, cfg, depth);
      if r.Ok? {
        ItemsFacts(items[1..], r.value.0, st, r.value.1, cfg, depth);
      }
    }
  }

  lemma {:induction false} ItemFacts(item: Value, out: seq<Value>, st: RState, st1: RState, cfg: Config, depth: nat)
    requires ValidPending(st1.pending) && ArrayGoing(out, st, st1, cfg, depth)
    ensures var r := RestoreItem(item, out, st1, cfg, depth);
            r.Ok? ==> ArrayGoing(r.value.0, st, r.value.1, cfg, depth) && ValidPending(r.value.1.pending)
    decreases |st1.pending|, 1, item, 3
  {
    if IsRedactedElement(item) {
      var st2 := EnterAt(st1, depth + 1, cfg.limits);
      if st2.Ok? {
        var st3 := EnterAt(st2.value, depth + 2, cfg.limits);
        if st3.Ok? && item.inner.ByteString? {
          ElementFacts(item.inner.bytes, out, st, st3.value, cfg, depth);
        }
      }
    } else {
      ValueFacts(item, st1, cfg, depth + 1);
      var r := RestoreValue(item, st1, cfg, depth + 1);
      if r.Ok? {
        AppendItem(out, r.value.0, cfg.validateClaims);
      }
    }
  }

  /** An element restored after its disclosure was taken. */
  lemma {:induction false} PushedFacts(v: Value, st2: RState, out: seq<Value>, st: RState, st1: RState, cfg: Config, depth: nat)
    requires ArrayGoing(out, st, st1, cfg, depth) && Progress(st1, st2) && ViewItem(v, cfg.validateClaims)
    requires st.visited + NodesOfItems(out) + Nodes(v) <= st2.visited <= cfg.limits.maxItems && depth + 1 + Height(v) <= cfg.limits.maxDepth
    ensures ArrayGoing(out + [v], st, st2, cfg, depth)
  {
    hide Progress, ViewItem, Nodes, Height, NodesOfItems, HeightOfItems;
    ProgressChains(st, st1, st2);
    AppendItem(out, v, cfg.validateClaims);
  }

  lemma ViewIsItem(v: Value, hidden: bool)
    requires View(v, hidden)
    ensures ViewItem(v, hidden)
  {
  }

  lemma {:induction false} ElementFacts(hash: Bytes, out: seq<Value>, st: RState, st1: RState, cfg: Config, depth: nat)
    requires ValidPending(st1.pending) && ArrayGoing(out, st, st1, cfg, depth)
    requires st.visited + NodesOfItems(out) + 2 <= st1.visited && depth + 2 <= cfg.limits.maxDepth
    ensures var r := RestoreElement(hash, out, st1, cfg, depth);
            r.Ok? ==> ArrayGoing(r.value.0, st, r.value.1, cfg, depth) && ValidPending(r.value.1.pending)
    decreases |st1.pending|, 0, 1
  {
    if hash !in st1.pending {
      if cfg.mode == Verifier {
        AbsentElementFacts(hash, out, st, st1, cfg, depth);
      }
    } else {
      TakenFacts(st1, hash);
      PresentElementFacts(hash, st1.(pending := TakePending(st1.pending, hash)), out, st, st1, cfg, depth);
    }
  }

  lemma {:induction false} AbsentElementFacts(hash: Bytes, out: seq<Value>, st: RState, st1: RState, cfg: Config, depth: nat)
    requires ArrayGoing(out, st, st1, cfg, depth) && cfg.mode == Verifier && hash !in st1.pending
    requires st.visited + NodesOfItems(out) + 2 <= st1.visited && depth + 2 <= cfg.limits.maxDepth
    ensures var r := RestoreElement(hash, out, st1, cfg, depth);
            r.Ok? && ArrayGoing(r.value.0, st, r.value.1, cfg, depth) && r.value.1.pending == st1.pending
  {
    hide RestoreValue, Submap, NodesOfItems, HeightOfItems;
    var st2 := st1.(removed := st1.removed + 1);
    StillProgress(st1);
    assert Progress(st1, st2);
    if cfg.validateClaims {
      PushedFacts(Tag(REDACTED_ELEMENT_TAG, ByteString(hash)), st2, out, st, st1, cfg, depth);
    }
  }

  lemma {:induction false} PresentElementFacts(hash: Bytes, taken: RState, out: seq<Value>, st: RState, st1: RState, cfg: Config, depth: nat)
    requires ArrayGoing(out, st, st1, cfg, depth) && hash in st1.pending && taken == st1.(pending := TakePending(st1.pending, hash))
    requires ValidPending(taken.pending) && Submap(taken.pending, st1.pending) && |taken.pending| + 1 == |st1.pending|
    ensures var r := RestoreElement(hash, out, st1, cfg, depth);
            r.Ok? ==> ArrayGoing(r.value.0, st, r.value.1, cfg, depth) && ValidPending(r.value.1.pending)
    decreases |st1.pending|, 0, 0
  {
    hide RestoreValue, TakePending, Submap, ValidPending, Nodes, Height, View, NodesOfItems, HeightOfItems;
    match st1.pending[hash].kind
    case Claim(_, _, _) =>
    case Decoy(_) =>
      StillProgress(taken);
      CountedIsProgress(st1, taken, taken, taken.(decoys := taken.decoys + 1));
      ProgressChains(st, st1, taken.(decoys := taken.decoys + 1));
    case Element(_, value) =>
      ValueFacts(value, taken, cfg, depth + 1);
      var r := RestoreValue(value, taken, cfg, depth + 1);
      if r.Ok? {
        var (v, st2) := r.value;
        CountedIsProgress(st1, taken, st2, st2.(disclosed := st2.disclosed + 1));
        ValidStays(taken, st2);
        ViewIsItem(v, cfg.validateClaims);
        PushedFacts(v, st2.(disclosed := st2.disclosed + 1), out, st, st1, cfg, depth);
      }
  }
}
