/** How much of the limits a restoration can need: with ample limits it never fails on one. */
module RestorationLimits {
  import opened Values
  import opened Disclosures
  import opened Restoration
  import opened RestorationFacts

  /** No container in the tree exceeds the entry limit. */
  predicate Narrow(v: Value, limits: Limits) {
    match v
    case Map(entries) => ContainerFits(|entries|, limits) && NarrowEntries(entries, limits)
    case Array(items) => ContainerFits(|items|, limits) && NarrowItems(items, limits)
    case Tag(_, inner) => Narrow(inner, limits)
    case _ => true
  }

  predicate NarrowItems(items: seq<Value>, limits: Limits) {
    items == [] || (Narrow(items[0], limits) && NarrowItems(items[1..], limits))
  }

  predicate NarrowEntries(entries: seq<Entry>, limits: Limits) {
    entries == [] || (NarrowEntry(entries[0], limits) && NarrowEntries(entries[1..], limits))
  }

  predicate NarrowEntry(e: Entry, limits: Limits) {
    Narrow(e.val, limits)
  }

  /** The value a disclosure would add to the tree; nothing for a decoy. */
  function Payload(d: Disclosure): seq<Value> {
    if d.kind.Decoy? then [] else [d.kind.value]
  }

  function WeightOf(hash: Bytes, pending: map<Bytes, Disclosure>): nat {
    if hash in pending then NodesOfItems(Payload(pending[hash])) else 0
  }

  function RiseOf(hash: Bytes, pending: map<Bytes, Disclosure>): nat {
    if hash in pending then HeightOfItems(Payload(pending[hash])) else 0
  }

  /** Total size of the pending values, the hashes being listed in `hs`. */
  function Weight(hs: seq<Bytes>, pending: map<Bytes, Disclosure>): nat {
    if hs == [] then 0 else WeightOf(hs[0], pending) + Weight(hs[1..], pending)
  }

  /** Total height of the pending values. */
  function Rise(hs: seq<Bytes>, pending: map<Bytes, Disclosure>): nat {
    if hs == [] then 0 else RiseOf(hs[0], pending) + Rise(hs[1..], pending)
  }

  lemma {:induction false} SubmapWeighs(hs: seq<Bytes>, a: map<Bytes, Disclosure>, b: map<Bytes, Disclosure>)
    requires Submap(a, b)
    ensures Weight(hs, a) <= Weight(hs, b) && Rise(hs, a) <= Rise(hs, b)
  {
    if hs != [] {
      SubmapWeighs(hs[1..], a, b);
    }
  }

  lemma {:induction false} TakeWeighs(hs: seq<Bytes>, pending: map<Bytes, Disclosure>, hash: Bytes)
    requires hash in pending && hash in hs
    ensures Weight(hs, TakePending(pending, hash)) + WeightOf(hash, pending) <= Weight(hs, pending)
    ensures Rise(hs, TakePending(pending, hash)) + RiseOf(hash, pending) <= Rise(hs, pending)
  {
    if hs[0] == hash {
      SubmapWeighs(hs[1..], TakePending(pending, hash), pending);
    } else {
      TakeWeighs(hs[1..], pending, hash);
    }
  }

  /** Every pending hash is listed and every pending value is narrow. */
  ghost predicate Covered(hs: seq<Bytes>, pending: map<Bytes, Disclosure>, limits: Limits) {
    && (forall h :: h in pending ==> h in hs)
    && forall h :: h in pending ==> NarrowItems(Payload(pending[h]), limits)
  }

  /** The limits leave room for `nodes` more values and `height` more levels, besides everything
      still pending. */
  ghost predicate Room(hs: seq<Bytes>, st: RState, nodes: nat, height: nat, limits: Limits, depth: nat) {
    && Covered(hs, st.pending, limits)
    && st.visited + nodes + Weight(hs, st.pending) <= limits.maxItems
    && depth + height + Rise(hs, st.pending) <= limits.maxDepth
  }

  ghost predicate Spent(hs: seq<Bytes>, st: RState, st1: RState, nodes: nat) {
    && Submap(st1.pending, st.pending)
    && st1.visited + Weight(hs, st1.pending) <= st.visited + nodes + Weight(hs, st.pending)
    && Rise(hs, st1.pending) <= Rise(hs, st.pending)
  }

  ghost predicate ValueRoomy(hs: seq<Bytes>, r: Result<(Value, RState)>, st: RState, nodes: nat) {
    match r
    case Ok((_, st1)) => Spent(hs, st, st1, nodes)
    case Err(e) => e != Limit
  }

  ghost predicate ItemsRoomy(hs: seq<Bytes>, r: Result<(seq<Value>, RState)>, st: RState, nodes: nat) {
    match r
    case Ok((_, st1)) => Spent(hs, st, st1, nodes)
    case Err(e) => e != Limit
  }

  /** Hashes are only collected where a level below is still in reach. */
  ghost predicate HashesInReach(hs: seq<Bytes>, acc: MapAcc, limits: Limits, depth: nat) {
    acc.hashes != [] ==> depth + 1 + Rise(hs, acc.st.pending) <= limits.maxDepth
  }

  ghost predicate AccRoomy(hs: seq<Bytes>, r: Result<MapAcc>, st: RState, nodes: nat, limits: Limits, depth: nat) {
    match r
    case Ok(acc) => Spent(hs, st, acc.st, nodes) && HashesInReach(hs, acc, limits, depth)
    case Err(e) => e != Limit
  }

  lemma {:induction false} RoomForValue(hs: seq<Bytes>, v: Value, st: RState, cfg: Config, depth: nat)
    requires Narrow(v, cfg.limits) && Room(hs, st, Nodes(v), Height(v), cfg.limits, depth)
    ensures ValueRoomy(hs, RestoreValue(v, st, cfg, depth), st, Nodes(v))
    decreases |st.pending|, 1, v, 2
  {
    var st1 := st.(visited := st.visited + 1);
    match v {
      case Map(entries) => RoomForMap(hs, entries, st1, cfg, depth);
      case Array(items) => RoomForItems(hs, items, [], st1, cfg, depth);
      case Tag(tag, inner) =>
        if !IsReservedTag(tag) {
          RoomForValue(hs, inner, st1, cfg, depth + 1);
        }
      case _ =>
    }
  }

  lemma {:induction false} RoomForMap(hs: seq<Bytes>, entries: seq<Entry>, st: RState, cfg: Config, depth: nat)
    requires ContainerFits(|entries|, cfg.limits) && NarrowEntries(entries, cfg.limits)
    requires Room(hs, st, NodesOfEntries(entries), HeightOfEntries(entries), cfg.limits, depth)
    ensures ValueRoomy(hs, RestoreMap(entries, st, cfg, depth), st, NodesOfEntries(entries))
    decreases |st.pending|, 1, entries, 2
  {
    var acc0 := MapAcc([], {}, [], false, [], st);
    RoomForEntries(hs, entries, acc0, cfg, depth);
    var acc := RestoreEntries(entries, acc0, cfg, depth);
    if acc.Ok? {
      RoomForHashes(hs, acc.value.hashes, acc.value, cfg, depth);
    }
  }

  lemma {:induction false} RoomForEntries(hs: seq<Bytes>, entries: seq<Entry>, acc: MapAcc, cfg: Config, depth: nat)
    requires NarrowEntries(entries, cfg.limits) && HashesInReach(hs, acc, cfg.limits, depth)
    requires Room(hs, acc.st, NodesOfEntries(entries), HeightOfEntries(entries), cfg.limits, depth)
    ensures AccRoomy(hs, RestoreEntries(entries, acc, cfg, depth), acc.st, NodesOfEntries(entries), cfg.limits, depth)
    decreases |acc.st.pending|, 1, entries, 1
  {
    if entries != [] {
      RoomForEntry(hs, entries[0], acc, cfg, depth);
      var acc1 := RestoreEntry(entries[0], acc, cfg, depth);
      if acc1.Ok? {
        RoomForEntries(hs, entries[1..], acc1.value, cfg, depth);
      }
    }
  }

  lemma {:induction false} RoomForEntry(hs: seq<Bytes>, e: Entry, acc: MapAcc, cfg: Config, depth: nat)
    requires NarrowEntry(e, cfg.limits) && HashesInReach(hs, acc, cfg.limits, depth)
    requires Room(hs, acc.st, NodesOfEntry(e), 1 + HeightOfEntry(e), cfg.limits, depth)
    ensures AccRoomy(hs, RestoreEntry(e, acc, cfg, depth), acc.st, NodesOfEntry(e), cfg.limits, depth)
    decreases |acc.st.pending|, 1, e, 0
  {
    var st := acc.st.(visited := acc.st.visited + 1);
    if e.key == REDACTED_KEYS_LABEL {
      if !acc.saw && e.val.Array? {
        assert NodesOfEntry(e) == 2 + NodesOfItems(e.val.items) && HeightOfEntry(e) == HeightOfItems(e.val.items);
        RoomForCollect(hs, e.val.items, acc.(saw := true, st := st.(visited := st.visited + 1)), cfg.limits, depth);
      }
    } else if LabelOf(e.key).Some? && LabelOf(e.key).value !in acc.labels {
      RoomForValue(hs, e.val, st, cfg, depth + 1);
    }
  }

  lemma {:induction false} RoomForCollect(hs: seq<Bytes>, items: seq<Value>, acc: MapAcc, limits: Limits, depth: nat)
    requires HashesInReach(hs, acc, limits, depth)
    requires Room(hs, acc.st, NodesOfItems(items), 1 + HeightOfItems(items), limits, depth)
    ensures AccRoomy(hs, CollectHashes(items, acc, limits, depth), acc.st, NodesOfItems(items), limits, depth)
  {
    if items != [] {
      var st := acc.st.(visited := acc.st.visited + 1);
      if items[0].ByteString? {
        RoomForCollect(hs, items[1..], acc.(hashes := acc.hashes + [items[0].bytes], st := st), limits, depth);
      }
    }
  }

  lemma {:induction false} RoomForHashes(hs: seq<Bytes>, hashes: seq<Bytes>, acc: MapAcc, cfg: Config, depth: nat)
    requires Room(hs, acc.st, 0, if hashes == [] then 0 else 1, cfg.limits, depth)
    ensures var r := RestoreHashes(hashes, acc, cfg, depth);
            if r.Ok? then Spent(hs, acc.st, r.value.st, 0) else r.error != Limit
    decreases |acc.st.pending|, 0, |hashes| + 1
  {
    if hashes != [] {
      RoomForHash(hs, hashes[0], acc, cfg, depth);
      var acc1 := RestoreHash(hashes[0], acc, cfg, depth);
      if acc1.Ok? {
        RoomForHashes(hs, hashes[1..], acc1.value, cfg, depth);
      }
    }
  }

  lemma SpentAlike(hs: seq<Bytes>, st: RState, a: RState, b: RState, nodes: nat)
    requires Spent(hs, st, a, nodes) && a.pending == b.pending && a.visited == b.visited
    ensures Spent(hs, st, b, nodes)
  {
  }

  lemma NothingSpent(hs: seq<Bytes>, st: RState)
    ensures Spent(hs, st, st, 0)
  {
  }

  /** A disclosure pays for the content it holds. */
  lemma {:induction false} TakenIsSpent(hs: seq<Bytes>, st: RState, hash: Bytes, st1: RState, nodes: nat)
    requires hash in st.pending && hash in hs && nodes <= WeightOf(hash, st.pending)
    requires Spent(hs, st.(pending := TakePending(st.pending, hash)), st1, nodes)
    ensures Spent(hs, st, st1, 0)
  {
    TakeWeighs(hs, st.pending, hash);
  }

  lemma {:induction false} RoomForHash(hs: seq<Bytes>, hash: Bytes, acc: MapAcc, cfg: Config, depth: nat)
    requires Room(hs, acc.st, 0, 1, cfg.limits, depth)
    ensures var r := RestoreHash(hash, acc, cfg, depth);
            if r.Ok? then Spent(hs, acc.st, r.value.st, 0) else r.error != Limit
    decreases |acc.st.pending|, 0, 0
  {
    hide Spent, Weight, Rise, RestoreValue, TakePending, Narrow, Nodes, Height;
    if hash !in acc.st.pending {
      NothingSpent(hs, acc.st);
      SpentAlike(hs, acc.st, acc.st, acc.st.(removed := acc.st.removed + 1), 0);
    } else {
      var kind := acc.st.pending[hash].kind;
      var st := acc.st.(pending := TakePending(acc.st.pending, hash));
      if kind.Decoy? {
        NothingSpent(hs, st);
        SpentAlike(hs, st, st, st.(decoys := st.decoys + 1), 0);
        TakenIsSpent(hs, acc.st, hash, st.(decoys := st.decoys + 1), 0);
      } else if kind.Claim? && kind.key !in acc.labels {
        RoomForPayload(hs, acc.st, hash, cfg, depth);
        RoomForValue(hs, kind.value, st, cfg, depth + 1);
        var r := RestoreValue(kind.value, st, cfg, depth + 1);
        if r.Ok? {
          var st2 := r.value.1.(disclosed := r.value.1.disclosed + 1);
          SpentAlike(hs, st, r.value.1, st2, Nodes(kind.value));
          TakenIsSpent(hs, acc.st, hash, st2, Nodes(kind.value));
        }
      }
    }
  }

  lemma {:induction false} RoomForPayload(hs: seq<Bytes>, st: RState, hash: Bytes, cfg: Config, depth: nat)
    requires Room(hs, st, 0, 1, cfg.limits, depth)
    requires hash in st.pending && !st.pending[hash].kind.Decoy?
    ensures var value := st.pending[hash].kind.value;
            && Narrow(value, cfg.limits)
            && Room(hs, st.(pending := TakePending(st.pending, hash)), Nodes(value), Height(value), cfg.limits, depth + 1)
            && WeightOf(hash, st.pending) == Nodes(value)
  {
    TakeWeighs(hs, st.pending, hash);
    var value := st.pending[hash].kind.value;
    assert Payload(st.pending[hash]) == [value] && [value][1..] == [];
    assert NodesOfItems([value]) == Nodes(value) && HeightOfItems([value]) == 1 + Height(value);
  }

  lemma {:induction false} RoomForItems(hs: seq<Bytes>, items: seq<Value>, out: seq<Value>, st: RState, cfg: Config, depth: nat)
    requires NarrowItems(items, cfg.limits)
    requires Room(hs, st, NodesOfItems(items), HeightOfItems(items), cfg.limits, depth)
    ensures ItemsRoomy(hs, RestoreItems(items, out, st, cfg, depth), st, NodesOfItems(items))
    decreases |st.pending|, 1, items, 1
  {
    if items != [] {
      RoomForItem(hs, items[0], out, st, cfg, depth);
      var r := RestoreItem(items[0], out, st, cfg, depth);
      if r.Ok? {
        RoomForItems(hs, items[1..], r.value.0, r.value.1, cfg, depth);
      }
    }
  }

  lemma {:induction false} RoomForItem(hs: seq<Bytes>, item: Value, out: seq<Value>, st: RState, cfg: Config, depth: nat)
    requires Narrow(item, cfg.limits)
    requires Room(hs, st, Nodes(item), 1 + Height(item), cfg.limits, depth)
    ensures ItemsRoomy(hs, RestoreItem(item, out, st, cfg, depth), st, Nodes(item))
    decreases |st.pending|, 1, item, 3
  {
    if IsRedactedElement(item) {
      if item.inner.ByteString? {
        RoomForElement(hs, item.inner.bytes, out, st.(visited := st.visited + 2), cfg, depth);
      }
    } else {
      RoomForValue(hs, item, st, cfg, depth + 1);
    }
  }

  lemma {:induction false} RoomForElement(hs: seq<Bytes>, hash: Bytes, out: seq<Value>, st: RState, cfg: Config, depth: nat)
    requires Room(hs, st, 0, 1, cfg.limits, depth)
    ensures ItemsRoomy(hs, RestoreElement(hash, out, st, cfg, depth), st, 0)
    decreases |st.pending|, 0, 0
  {
    if hash in st.pending {
      TakeWeighs(hs, st.pending, hash);
      if st.pending[hash].kind.Element? {
        RoomForPayload(hs, st, hash, cfg, depth);
        RoomForValue(hs, st.pending[hash].kind.value, st.(pending := TakePending(st.pending, hash)), cfg, depth + 1);
      }
    }
  }
}
