/** Exactly when restoring succeeds, on any input, and with what result: restoring is finding the one sound
    derivation of the received values that the disclosures feed (sd-cwt/src/restore.rs). */
module RestoreExact {
  import opened Values
  import opened Disclosures
  import opened Restoration
  import opened ClaimKeys
  import opened Derivations

  // ---- the state after a derivation -------------------------------------------------------------

  /** The state once these lookups are done and `nodes` received values were visited. */
  function After(st: RState, events: seq<Event>, nodes: nat): RState {
    RState(Unused(events, st.pending), st.disclosed + CountShown(events), st.decoys + CountDecoys(events),
           st.removed + CountRemoved(events), st.visited + nodes + Revealed(events))
  }

  lemma AfterBoth(st: RState, a: seq<Event>, m: nat, b: seq<Event>, n: nat)
    ensures After(After(st, a, m), b, n) == After(st, a + b, m + n)
    ensures Fed(a + b, st.pending) <==> Fed(a, st.pending) && Fed(b, After(st, a, m).pending)
  {
    EventsSplit(a, b, st.pending);
  }

  /** The lookups can be answered from the state, and the values visited stay within the limit. */
  ghost predicate Feasible(st: RState, events: seq<Event>, nodes: nat, limits: Limits) {
    Fed(events, st.pending) && After(st, events, nodes).visited <= limits.maxItems
  }

  lemma FeasibleBoth(st: RState, a: seq<Event>, m: nat, b: seq<Event>, n: nat, limits: Limits)
    ensures After(After(st, a, m), b, n) == After(st, a + b, m + n)
    ensures Feasible(st, a + b, m + n, limits) <==> Feasible(st, a, m, limits) && Feasible(After(st, a, m), b, n, limits)
  {
    AfterBoth(st, a, m, b, n);
  }

  // ---- a feasible derivation is what the traversal computes -------------------------------------

  /** Visiting `k` values first. */
  lemma Entered(st: RState, k: nat, events: seq<Event>, nodes: nat, limits: Limits)
    ensures After(st.(visited := st.visited + k), events, nodes) == After(st, events, k + nodes)
    ensures Feasible(st.(visited := st.visited + k), events, nodes, limits) <==> Feasible(st, events, k + nodes, limits)
    ensures Feasible(st, events, k + nodes, limits) ==> st.visited + k + nodes <= limits.maxItems
  {
  }

  lemma NothingMet(st: RState, limits: Limits)
    ensures After(st, [], 0) == st
    ensures Feasible(st, [], 0, limits) <==> st.visited <= limits.maxItems
  {
  }

  lemma LabelIs(key: Label)
    ensures ClaimKey(ValueOfLabel(key)) <==> LabelOf(ValueOfLabel(key)) == Some(key)
    ensures Nodes(ValueOfLabel(key)) == 1 && ValueOfLabel(key) != REDACTED_KEYS_LABEL
  {
    ClaimKeyIs(ValueOfLabel(key));
  }

  lemma RootKeyIs(key: Label)
    ensures RootKeyAllowed(key) <==> !MustStay(ValueOfLabel(key))
  {
  }

  lemma {:induction false} ValueRuns(t: Tree, st: RState, cfg: Config, depth: nat)
    requires Sound(t, cfg, depth) && Feasible(st, Events(t), Nodes(Received(t)), cfg.limits)
    ensures RestoreValue(Received(t), st, cfg, depth)
            == Ok((Restored(t, cfg.validateClaims), After(st, Events(t), Nodes(Received(t)))))
    decreases t, 1
  {
    hide RestoreMap, RestoreItems, Feasible, After, SoundSlots, SoundFields, SoundClaims, SlotEvents, RestoredSlots, ReceivedSlots;
    var st1 := st.(visited := st.visited + 1);
    Entered(st, 1, Events(t), Nodes(Received(t)) - 1, cfg.limits);
    match t
    case Leaf(v) => NothingMet(st1, cfg.limits);
    case Tagged(tag, part) => ValueRuns(part, st1, cfg, depth + 1);
    case Listed(slots) =>
      SlotsRun(slots, [], st1, cfg, depth);
      assert [] + RestoredSlots(slots, cfg.validateClaims) == RestoredSlots(slots, cfg.validateClaims);
    case Mapped(fields, sites) => MapRuns(t, st1, cfg, depth);
  }

  lemma {:induction false} SlotsRun(slots: seq<Slot>, out: seq<Value>, st: RState, cfg: Config, depth: nat)
    requires SoundSlots(slots, cfg, depth) && Feasible(st, SlotEvents(slots), NodesOfItems(ReceivedSlots(slots)), cfg.limits)
    ensures RestoreItems(ReceivedSlots(slots), out, st, cfg, depth)
            == Ok((out + RestoredSlots(slots, cfg.validateClaims), After(st, SlotEvents(slots), NodesOfItems(ReceivedSlots(slots)))))
    decreases slots
  {
    hide RestoreItem, Feasible, After, SoundSlot, ReceivedSlot, RestoredSlot, EventsOfSlot, Nodes;
    if slots == [] {
      NothingMet(st, cfg.limits);
      assert out + [] == out;
    } else {
      var first, rest := slots[0], slots[1..];
      var keep := cfg.validateClaims;
      var m, n := Nodes(ReceivedSlot(first)), NodesOfItems(ReceivedSlots(rest));
      FeasibleBoth(st, EventsOfSlot(first), m, SlotEvents(rest), n, cfg.limits);
      SlotRuns(first, out, st, cfg, depth);
      SlotsRun(rest, out + RestoredSlot(first, keep), After(st, EventsOfSlot(first), m), cfg, depth);
      assert ReceivedSlots(slots)[1..] == ReceivedSlots(rest);
      assert out + RestoredSlot(first, keep) + RestoredSlots(rest, keep) == out + RestoredSlots(slots, keep);
    }
  }

  lemma {:induction false} SlotRuns(slot: Slot, out: seq<Value>, st: RState, cfg: Config, depth: nat)
    requires SoundSlot(slot, cfg, depth) && Feasible(st, EventsOfSlot(slot), Nodes(ReceivedSlot(slot)), cfg.limits)
    ensures RestoreItem(ReceivedSlot(slot), out, st, cfg, depth)
            == Ok((out + RestoredSlot(slot, cfg.validateClaims), After(st, EventsOfSlot(slot), Nodes(ReceivedSlot(slot)))))
    decreases slot
  {
    hide RestoreValue, RestoreElement, Feasible, After, EventsOfSite;
    match slot
    case Open(part) =>
      NotRedacted(part, cfg, depth + 1);
      ValueRuns(part, st, cfg, depth + 1);
    case Redacted(site) =>
      Entered(st, 2, EventsOfSite(site), 0, cfg.limits);
      ElementRuns(site, out, st.(visited := st.visited + 2), cfg, depth);
  }

  lemma NotRedacted(t: Tree, cfg: Config, depth: nat)
    requires Sound(t, cfg, depth)
    ensures !IsRedactedElement(Received(t))
  {
  }

  /** Finding a disclosure and then restoring its value. */
  lemma ShownStep(st: RState, hash: Bytes, d: Disclosure, inner: seq<Event>, limits: Limits)
    requires !d.kind.Decoy?
    ensures var taken := st.(pending := st.pending - {hash});
            var all := [Event(hash, Some(d))] + inner;
            && (Feasible(st, all, 0, limits) <==>
                hash in st.pending && st.pending[hash] == d && Feasible(taken, inner, Nodes(d.kind.value), limits))
            && var done := After(taken, inner, Nodes(d.kind.value));
               After(st, all, 0) == done.(disclosed := done.disclosed + 1)
  {
    var all := [Event(hash, Some(d))] + inner;
    assert all[1..] == inner;
  }

  lemma JustOne(e: Event, pending: map<Bytes, Disclosure>)
    ensures Fed([e], pending) <==>
            match e.found
            case None => e.hash !in pending
            case Some(d) => e.hash in pending && pending[e.hash] == d
    ensures Unused([e], pending) == pending - {e.hash}
    ensures CountRemoved([e]) == if e.found.None? then 1 else 0
    ensures CountDecoys([e]) == if e.found.Some? && e.found.value.kind.Decoy? then 1 else 0
    ensures CountShown([e]) == if e.found.Some? && !e.found.value.kind.Decoy? then 1 else 0
    ensures e.found.None? || e.found.value.kind.Decoy? ==> Revealed([e]) == 0
  {
    assert [e][1..] == [];
  }

  lemma NothingFound(st: RState, hash: Bytes, limits: Limits)
    ensures Feasible(st, [Event(hash, None)], 0, limits) <==> hash !in st.pending && st.visited <= limits.maxItems
    ensures hash !in st.pending ==> After(st, [Event(hash, None)], 0) == st.(removed := st.removed + 1)
  {
    var e := Event(hash, None);
    JustOne(e, st.pending);
    assert hash !in st.pending ==> st.pending - {hash} == st.pending;
  }

  lemma DecoyFound(st: RState, hash: Bytes, d: Disclosure, limits: Limits)
    requires d.kind.Decoy?
    ensures Feasible(st, [Event(hash, Some(d))], 0, limits) <==>
            hash in st.pending && st.pending[hash] == d && st.visited <= limits.maxItems
    ensures After(st, [Event(hash, Some(d))], 0) == st.(pending := st.pending - {hash}, decoys := st.decoys + 1)
  {
    JustOne(Event(hash, Some(d)), st.pending);
  }

  lemma {:induction false} ElementRuns(site: Site, out: seq<Value>, st: RState, cfg: Config, depth: nat)
    requires SoundSlot(Redacted(site), cfg, depth) && Feasible(st, EventsOfSite(site), 0, cfg.limits)
    ensures RestoreElement(site.hash, out, st, cfg, depth)
            == Ok((out + RestoredSlot(Redacted(site), cfg.validateClaims), After(st, EventsOfSite(site), 0)))
    decreases site
  {
    hide RestoreValue, Sound;
    match site
    case Removed(hash) => NothingFound(st, hash, cfg.limits);
    case Decoyed(hash, d) =>
      DecoyFound(st, hash, d, cfg.limits);
      assert out + [] == out;
    case Shown(hash, d, part) =>
      ShownStep(st, hash, d, Events(part), cfg.limits);
      ValueRuns(part, st.(pending := st.pending - {hash}), cfg, depth + 1);
  }

  // ---- maps -------------------------------------------------------------------------------------

  /** The locals of the map loops after one entry, and after all of them. */
  ghost function AfterField(field: Field, hashes: seq<Bytes>, acc: MapAcc, keep: bool): MapAcc {
    MapAcc(acc.out + RestoredField(field, keep), acc.labels + Elements(LabelsOf(field)),
           if field.HashesHere? then acc.hashes + hashes else acc.hashes, acc.saw || field.HashesHere?, acc.kept,
           After(acc.st, EventsOfField(field), NodesOfEntry(ReceivedField(field, hashes))))
  }

  ghost function AfterFields(fields: seq<Field>, hashes: seq<Bytes>, acc: MapAcc, keep: bool): MapAcc {
    MapAcc(acc.out + RestoredFields(fields, keep), acc.labels + Elements(Labels(fields)),
           if Lists(fields) == 0 then acc.hashes else acc.hashes + hashes, acc.saw || Lists(fields) > 0, acc.kept,
           After(acc.st, FieldEvents(fields), NodesOfEntries(ReceivedFields(fields, hashes))))
  }

  /** The hashes are few enough and not too deep for the list that holds them. */
  predicate HashesFit(hashes: seq<Bytes>, cfg: Config, depth: nat) {
    |hashes| <= cfg.limits.maxContainerEntries && (hashes != [] ==> depth + 2 <= cfg.limits.maxDepth)
  }

  ghost predicate FieldFits(field: Field, hashes: seq<Bytes>, acc: MapAcc, cfg: Config, depth: nat) {
    && SoundField(field, cfg, depth)
    && (field.HashesHere? ==> HashesFit(hashes, cfg, depth) && !acc.saw)
    && Apart(LabelsOf(field), acc.labels)
    && Feasible(acc.st, EventsOfField(field), NodesOfEntry(ReceivedField(field, hashes)), cfg.limits)
  }

  ghost predicate FieldsFit(fields: seq<Field>, hashes: seq<Bytes>, acc: MapAcc, cfg: Config, depth: nat) {
    && SoundFields(fields, cfg, depth)
    && (Lists(fields) > 0 ==> HashesFit(hashes, cfg, depth) && !acc.saw && Lists(fields) == 1)
    && Apart(Labels(fields), acc.labels)
    && Feasible(acc.st, FieldEvents(fields), NodesOfEntries(ReceivedFields(fields, hashes)), cfg.limits)
  }

  lemma {:induction false} FieldsRun(fields: seq<Field>, hashes: seq<Bytes>, acc: MapAcc, cfg: Config, depth: nat)
    requires FieldsFit(fields, hashes, acc, cfg, depth)
    ensures RestoreEntries(ReceivedFields(fields, hashes), acc, cfg, depth) == Ok(AfterFields(fields, hashes, acc, cfg.validateClaims))
    decreases fields
  {
    hide RestoreEntry, FieldsFit, FieldFits, AfterFields, AfterField;
    if fields == [] {
      NoFields(hashes, acc, cfg);
    } else {
      FieldSplit(fields, hashes, acc, cfg, depth);
      FieldRuns(fields[0], hashes, acc, cfg, depth);
      FieldsRun(fields[1..], hashes, AfterField(fields[0], hashes, acc, cfg.validateClaims), cfg, depth);
      assert ReceivedFields(fields, hashes)[1..] == ReceivedFields(fields[1..], hashes);
    }
  }

  lemma NoFields(hashes: seq<Bytes>, acc: MapAcc, cfg: Config)
    ensures AfterFields([], hashes, acc, cfg.validateClaims) == acc
  {
    assert acc.out + [] == acc.out;
    assert Elements([]) == {};
  }

  lemma {:induction false} FieldSplit(fields: seq<Field>, hashes: seq<Bytes>, acc: MapAcc, cfg: Config, depth: nat)
    requires fields != []
    ensures var next := AfterField(fields[0], hashes, acc, cfg.validateClaims);
            && (FieldsFit(fields, hashes, acc, cfg, depth) <==>
                FieldFits(fields[0], hashes, acc, cfg, depth) && FieldsFit(fields[1..], hashes, next, cfg, depth))
            && (FieldsFit(fields, hashes, acc, cfg, depth) ==>
                AfterFields(fields, hashes, acc, cfg.validateClaims) == AfterFields(fields[1..], hashes, next, cfg.validateClaims))
  {
    hide Received, Apart, HashesFit, Feasible, After, AfterFields, Elements, SoundField, LabelsOf, EventsOfField, ReceivedField, RestoredField;
    var field, rest := fields[0], fields[1..];
    assert ReceivedFields(fields, hashes)[1..] == ReceivedFields(rest, hashes);
    FeasibleBoth(acc.st, EventsOfField(field), NodesOfEntry(ReceivedField(field, hashes)),
                 FieldEvents(rest), NodesOfEntries(ReceivedFields(rest, hashes)), cfg.limits);
    ApartSplit(LabelsOf(field), Labels(rest), acc.labels);
    if Lists(fields) <= 1 {
      FieldThenRest(fields, hashes, acc, cfg.validateClaims);
    }
  }

  lemma {:induction false} FieldThenRest(fields: seq<Field>, hashes: seq<Bytes>, acc: MapAcc, keep: bool)
    requires fields != [] && Lists(fields) <= 1
    ensures AfterFields(fields, hashes, acc, keep) == AfterFields(fields[1..], hashes, AfterField(fields[0], hashes, acc, keep), keep)
  {
    hide Apart, After, Elements, LabelsOf, EventsOfField, ReceivedField, RestoredField;
    var field, rest := fields[0], fields[1..];
    assert ReceivedFields(fields, hashes)[1..] == ReceivedFields(rest, hashes);
    AfterBoth(acc.st, EventsOfField(field), NodesOfEntry(ReceivedField(field, hashes)),
              FieldEvents(rest), NodesOfEntries(ReceivedFields(rest, hashes)));
    ApartSplit(LabelsOf(field), Labels(rest), acc.labels);
    assert acc.out + RestoredField(field, keep) + RestoredFields(rest, keep) == acc.out + RestoredFields(fields, keep);
    assert acc.labels + Elements(LabelsOf(field)) + Elements(Labels(rest)) == acc.labels + Elements(Labels(fields));
  }

  lemma OneLabel(key: Label, used: set<Label>)
    ensures Apart([key], used) <==> key !in used
    ensures Elements([key]) == {key}
  {
    assert [key][0] == key;
  }

  lemma NoLabel(used: set<Label>)
    ensures Apart([], used) && Elements([]) == {}
  {
  }

  lemma {:induction false} FieldRuns(field: Field, hashes: seq<Bytes>, acc: MapAcc, cfg: Config, depth: nat)
    requires FieldFits(field, hashes, acc, cfg, depth)
    ensures RestoreEntry(ReceivedField(field, hashes), acc, cfg, depth) == Ok(AfterField(field, hashes, acc, cfg.validateClaims))
    decreases field
  {
    hide RestoreEntry, FieldFits, AfterField, ReceivedField;
    match field
    case Named(key, part) => NamedRuns(key, part, hashes, acc, cfg, depth);
    case HashesHere => ListRuns(hashes, acc, cfg, depth);
  }

  lemma {:induction false} NamedRuns(key: Label, part: Tree, hashes: seq<Bytes>, acc: MapAcc, cfg: Config, depth: nat)
    requires FieldFits(Named(key, part), hashes, acc, cfg, depth)
    ensures RestoreEntry(ReceivedField(Named(key, part), hashes), acc, cfg, depth)
            == Ok(AfterField(Named(key, part), hashes, acc, cfg.validateClaims))
    decreases part, 2
  {
    hide RestoreValue, Sound, Apart, Elements, Feasible, After, CollectRedactedKeys, Received, Restored, Nodes, LabelOf, ValueOfLabel;
    var st := acc.st.(visited := acc.st.visited + 1);
    OneLabel(key, acc.labels);
    LabelIs(key);
    Entered(acc.st, 1, Events(part), Nodes(Received(part)), cfg.limits);
    SoundDepth(part, cfg, depth + 1);
    ValueRuns(part, st, cfg, depth + 1);
    assert LabelsOf(Named(key, part)) == [key];
  }

  lemma SoundDepth(t: Tree, cfg: Config, depth: nat)
    requires Sound(t, cfg, depth)
    ensures depth <= cfg.limits.maxDepth
  {
  }

  lemma {:induction false} ListRuns(hashes: seq<Bytes>, acc: MapAcc, cfg: Config, depth: nat)
    requires FieldFits(HashesHere, hashes, acc, cfg, depth)
    ensures RestoreEntry(ReceivedField(HashesHere, hashes), acc, cfg, depth)
            == Ok(AfterField(HashesHere, hashes, acc, cfg.validateClaims))
  {
    hide RestoreValue, Apart, Elements, Feasible, After, CollectHashes, HashList, NodesOfEntry;
    NoLabel(acc.labels);
    ListState(acc.st, hashes, cfg.limits);
    Collected(hashes, acc.(saw := true, st := acc.st.(visited := acc.st.visited + 2)), cfg.limits, depth);
    ListAdds(acc, hashes);
  }

  lemma ListAdds(acc: MapAcc, hashes: seq<Bytes>)
    ensures acc.out + [] == acc.out && acc.labels + {} == acc.labels
  {
  }

  /** Visiting the entry that lists the hashes. */
  lemma ListState(st: RState, hashes: seq<Bytes>, limits: Limits)
    ensures After(st, [], NodesOfEntry(ReceivedField(HashesHere, hashes))) == st.(visited := st.visited + 2 + |hashes|)
    ensures Feasible(st, [], NodesOfEntry(ReceivedField(HashesHere, hashes)), limits) <==> st.visited + 2 + |hashes| <= limits.maxItems
  {
    hide After, Feasible, NodesOfEntry, ReceivedField;
    ListNodes(hashes);
    Entered(st, 2 + |hashes|, [], 0, limits);
    NothingMet(st.(visited := st.visited + (2 + |hashes|)), limits);
  }

  lemma ListNodes(hashes: seq<Bytes>)
    ensures NodesOfEntry(ReceivedField(HashesHere, hashes)) == 2 + |hashes|
  {
    hide HashList;
    HashListNodes(hashes);
  }

  lemma {:induction false} HashListNodes(hashes: seq<Bytes>)
    ensures NodesOfItems(HashList(hashes)) == |hashes|
  {
    if hashes != [] {
      HashListNodes(hashes[1..]);
    }
  }

  lemma {:induction false} Collected(hashes: seq<Bytes>, acc: MapAcc, limits: Limits, depth: nat)
    requires acc.st.visited + |hashes| <= limits.maxItems && (hashes != [] ==> depth + 2 <= limits.maxDepth)
    ensures CollectHashes(HashList(hashes), acc, limits, depth)
            == Ok(acc.(hashes := acc.hashes + hashes, st := acc.st.(visited := acc.st.visited + |hashes|)))
  {
    if hashes == [] {
      assert acc.hashes + [] == acc.hashes;
    } else {
      var items := HashList(hashes);
      var acc1 := acc.(hashes := acc.hashes + [hashes[0]], st := acc.st.(visited := acc.st.visited + 1));
      Collected(hashes[1..], acc1, limits, depth);
      assert items[1..] == HashList(hashes[1..]);
      assert CollectHashes(items, acc, limits, depth) == CollectHashes(items[1..], acc1, limits, depth);
      assert acc.hashes + [hashes[0]] + hashes[1..] == acc.hashes + hashes;
    }
  }

  /** The locals of the map loops after one hash, and after all of them. */
  ghost function AfterSite(site: Site, acc: MapAcc, keep: bool): MapAcc {
    acc.(out := acc.out + RestoredClaim(site, keep), labels := acc.labels + Elements(ShownLabel(site)),
         kept := acc.kept + KeptOf(Missed(site), keep), st := After(acc.st, EventsOfSite(site), 0))
  }

  ghost function AfterSites(sites: seq<Site>, acc: MapAcc, keep: bool): MapAcc {
    acc.(out := acc.out + RestoredClaims(sites, keep), labels := acc.labels + Elements(ShownLabels(sites)),
         kept := acc.kept + KeptOf(Undisclosed(sites), keep), st := After(acc.st, SiteEvents(sites), 0))
  }

  function KeptOf(missed: seq<Value>, keep: bool): seq<Value> {
    if keep then missed else []
  }

  ghost predicate SiteFits(site: Site, acc: MapAcc, cfg: Config, depth: nat) {
    SoundClaim(site, cfg, depth) && Apart(ShownLabel(site), acc.labels) && Feasible(acc.st, EventsOfSite(site), 0, cfg.limits)
  }

  ghost predicate SitesFit(sites: seq<Site>, acc: MapAcc, cfg: Config, depth: nat) {
    SoundClaims(sites, cfg, depth) && Apart(ShownLabels(sites), acc.labels) && Feasible(acc.st, SiteEvents(sites), 0, cfg.limits)
  }

  lemma {:induction false} SitesRun(sites: seq<Site>, acc: MapAcc, cfg: Config, depth: nat)
    requires SitesFit(sites, acc, cfg, depth)
    ensures RestoreHashes(Hashes(sites), acc, cfg, depth) == Ok(AfterSites(sites, acc, cfg.validateClaims))
    decreases sites
  {
    hide RestoreHash, SitesFit, SiteFits, AfterSites, AfterSite;
    if sites == [] {
      NoSites(acc, cfg);
    } else {
      SiteSplit(sites, acc, cfg, depth);
      SiteRuns(sites[0], acc, cfg, depth);
      assert Hashes(sites)[1..] == Hashes(sites[1..]);
      SitesRun(sites[1..], AfterSite(sites[0], acc, cfg.validateClaims), cfg, depth);
    }
  }

  lemma NoSites(acc: MapAcc, cfg: Config)
    ensures AfterSites([], acc, cfg.validateClaims) == acc
  {
    assert acc.out + [] == acc.out && acc.kept + [] == acc.kept;
    assert acc.labels + Elements([]) == acc.labels;
  }

  lemma {:induction false} SiteSplit(sites: seq<Site>, acc: MapAcc, cfg: Config, depth: nat)
    requires sites != []
    ensures var next := AfterSite(sites[0], acc, cfg.validateClaims);
            && (SitesFit(sites, acc, cfg, depth) <==>
                SiteFits(sites[0], acc, cfg, depth) && SitesFit(sites[1..], next, cfg, depth))
            && AfterSites(sites, acc, cfg.validateClaims) == AfterSites(sites[1..], next, cfg.validateClaims)
  {
    hide Received, Restored, Apart, Feasible, After, Elements, SoundClaim, ShownLabel, EventsOfSite, RestoredClaim, Missed;
    var site, rest, keep := sites[0], sites[1..], cfg.validateClaims;
    FeasibleBoth(acc.st, EventsOfSite(site), 0, SiteEvents(rest), 0, cfg.limits);
    ApartSplit(ShownLabel(site), ShownLabels(rest), acc.labels);
    assert acc.out + RestoredClaim(site, keep) + RestoredClaims(rest, keep) == acc.out + RestoredClaims(sites, keep);
    assert acc.labels + Elements(ShownLabel(site)) + Elements(ShownLabels(rest)) == acc.labels + Elements(ShownLabels(sites));
    assert acc.kept + KeptOf(Missed(site), keep) + KeptOf(Undisclosed(rest), keep) == acc.kept + KeptOf(Undisclosed(sites), keep);
  }

  lemma {:induction false} SiteRuns(site: Site, acc: MapAcc, cfg: Config, depth: nat)
    requires SiteFits(site, acc, cfg, depth)
    ensures RestoreHash(site.hash, acc, cfg, depth) == Ok(AfterSite(site, acc, cfg.validateClaims))
    decreases site
  {
    hide RestoreValue, Sound, Apart, Elements, Restored, Feasible, After, MustStay, RootKeyAllowed;
    match site
    case Removed(hash) =>
      NothingFound(acc.st, hash, cfg.limits);
      NothingAdded(site, acc);
    case Decoyed(hash, d) =>
      DecoyFound(acc.st, hash, d, cfg.limits);
      NothingAdded(site, acc);
    case Shown(hash, d, part) => ClaimRuns(hash, d, part, acc, cfg, depth);
  }

  lemma NothingAdded(site: Site, acc: MapAcc)
    requires !site.Shown?
    ensures acc.out + RestoredClaim(site, true) == acc.out && acc.out + RestoredClaim(site, false) == acc.out
    ensures acc.labels + Elements(ShownLabel(site)) == acc.labels
    ensures site.Decoyed? ==> acc.kept + Missed(site) == acc.kept
    ensures acc.kept + [] == acc.kept
  {
  }

  lemma {:induction false} ClaimRuns(hash: Bytes, d: Disclosure, part: Tree, acc: MapAcc, cfg: Config, depth: nat)
    requires SiteFits(Shown(hash, d, part), acc, cfg, depth)
    ensures RestoreHash(hash, acc, cfg, depth) == Ok(AfterSite(Shown(hash, d, part), acc, cfg.validateClaims))
    decreases part, 2
  {
    hide RestoreValue, Sound, Apart, Elements, Received, Restored, Feasible, After, Nodes, ValueOfLabel, MustStay, RootKeyAllowed;
    OneLabel(d.kind.key, acc.labels);
    RootKeyIs(d.kind.key);
    assert ShownLabel(Shown(hash, d, part)) == [d.kind.key];
    ShownStep(acc.st, hash, d, Events(part), cfg.limits);
    ValueRuns(part, acc.st.(pending := acc.st.pending - {hash}), cfg, depth + 1);
    assert acc.kept + [] == acc.kept;
  }

  lemma {:induction false} MapRuns(t: Tree, st: RState, cfg: Config, depth: nat)
    requires t.Mapped? && Sound(t, cfg, depth) && Feasible(st, Events(t), NodesOfEntries(Received(t).entries), cfg.limits)
    ensures RestoreMap(Received(t).entries, st, cfg, depth)
            == Ok((Restored(t, cfg.validateClaims), After(st, Events(t), NodesOfEntries(Received(t).entries))))
    decreases t, 0
  {
    hide RestoreEntries, RestoreHashes, Sound, Events, AfterFields, AfterSites, FieldsFit, SitesFit, After, Feasible,
         ReceivedFields, RestoredFields, RestoredClaims, Undisclosed;
    var acc0, keep := MapAcc([], {}, [], false, [], st), cfg.validateClaims;
    MapStarts(t, acc0, cfg, depth);
    FieldsRun(t.fields, Hashes(t.sites), acc0, cfg, depth);
    var acc := AfterFields(t.fields, Hashes(t.sites), acc0, keep);
    SitesRun(t.sites, acc, cfg, depth);
    SoundCounts(t, cfg, depth);
  }

  lemma SoundCounts(t: Tree, cfg: Config, depth: nat)
    requires t.Mapped? && Sound(t, cfg, depth)
    ensures |Received(t).entries| <= cfg.limits.maxContainerEntries
  {
  }

  lemma {:induction false} MapStarts(t: Tree, acc0: MapAcc, cfg: Config, depth: nat)
    requires t.Mapped? && Sound(t, cfg, depth) && acc0 == MapAcc([], {}, [], false, [], acc0.st)
    requires Feasible(acc0.st, Events(t), NodesOfEntries(Received(t).entries), cfg.limits)
    ensures var acc := AfterFields(t.fields, Hashes(t.sites), acc0, cfg.validateClaims);
            var done := AfterSites(t.sites, acc, cfg.validateClaims);
            && FieldsFit(t.fields, Hashes(t.sites), acc0, cfg, depth) && SitesFit(t.sites, acc, cfg, depth)
            && acc.hashes == Hashes(t.sites)
            && done.out + KeptEntry(done.kept) == Restored(t, cfg.validateClaims).entries
            && done.st == After(acc0.st, Events(t), NodesOfEntries(Received(t).entries))
  {
    hide SoundFields, SoundClaims, Feasible, After, Apart, Elements, Labels, ShownLabels,
         ReceivedFields, RestoredFields, RestoredClaims, Undisclosed, FieldEvents, SiteEvents;
    var fields, sites, hashes, keep := t.fields, t.sites, Hashes(t.sites), cfg.validateClaims;
    FeasibleBoth(acc0.st, FieldEvents(fields), NodesOfEntries(ReceivedFields(fields, hashes)), SiteEvents(sites), 0, cfg.limits);
    ApartSplit(Labels(fields), ShownLabels(sites), {});
    var acc := AfterFields(fields, hashes, acc0, keep);
    assert acc.hashes == hashes by { assert [] + hashes == hashes; }
    assert acc.labels == {} + Elements(Labels(fields));
    var done := AfterSites(sites, acc, keep);
    assert done.kept == KeptOf(Undisclosed(sites), keep) by { assert [] + KeptOf(Undisclosed(sites), keep) == KeptOf(Undisclosed(sites), keep); }
    assert done.out == RestoredFields(fields, keep) + RestoredClaims(sites, keep);
  }

  // ---- what the traversal computes has a feasible derivation ------------------------------------

  /** `t` derives the received value, and can be run from the state. */
  ghost predicate Derives(t: Tree, v: Value, st: RState, cfg: Config, depth: nat) {
    Received(t) == v && Sound(t, cfg, depth) && Feasible(st, Events(t), Nodes(v), cfg.limits)
  }

  lemma {:induction false} ValueFound(v: Value, st: RState, cfg: Config, depth: nat) returns (t: Tree)
    requires RestoreValue(v, st, cfg, depth).Ok?
    ensures Derives(t, v, st, cfg, depth)
    decreases |st.pending|, 1, v, 2
  {
    hide RestoreMap, RestoreItems, Feasible, After, SlotEvents, ReceivedSlots, SoundSlots;
    var st1 := EnterAt(st, depth, cfg.limits).value;
    match v
    case Map(entries) =>
      t := MapFound(entries, st1, cfg, depth);
      Entered(st, 1, Events(t), NodesOfEntries(entries), cfg.limits);
    case Array(items) =>
      var slots := ItemsFound(items, [], st1, cfg, depth);
      t := Listed(slots);
      Entered(st, 1, Events(t), NodesOfItems(items), cfg.limits);
    case Tag(tag, inner) =>
      var part := ValueFound(inner, st1, cfg, depth + 1);
      t := Tagged(tag, part);
      Entered(st, 1, Events(t), Nodes(inner), cfg.limits);
    case _ =>
      t := Leaf(v);
      Entered(st, 1, [], 0, cfg.limits);
      NothingMet(st1, cfg.limits);
  }

  lemma {:induction false} ItemsFound(items: seq<Value>, out: seq<Value>, st: RState, cfg: Config, depth: nat) returns (slots: seq<Slot>)
    requires RestoreItems(items, out, st, cfg, depth).Ok? && st.visited <= cfg.limits.maxItems
    ensures ReceivedSlots(slots) == items && SoundSlots(slots, cfg, depth)
    ensures Feasible(st, SlotEvents(slots), NodesOfItems(items), cfg.limits)
    decreases |st.pending|, 1, items, 1
  {
    hide RestoreItem, Feasible, After, SoundSlot, ReceivedSlot, EventsOfSlot;
    if items == [] {
      slots := [];
      NothingMet(st, cfg.limits);
    } else {
      var slot := ItemFound(items[0], out, st, cfg, depth);
      SlotRuns(slot, out, st, cfg, depth);
      var (out1, st1) := RestoreItem(items[0], out, st, cfg, depth).value;
      WithinLimit(st, EventsOfSlot(slot), Nodes(items[0]), cfg.limits);
      var rest := ItemsFound(items[1..], out1, st1, cfg, depth);
      slots := [slot] + rest;
      assert slots[1..] == rest;
      FeasibleBoth(st, EventsOfSlot(slot), Nodes(items[0]), SlotEvents(rest), NodesOfItems(items[1..]), cfg.limits);
    }
  }

  lemma WithinLimit(st: RState, events: seq<Event>, nodes: nat, limits: Limits)
    ensures Feasible(st, events, nodes, limits) ==> After(st, events, nodes).visited <= limits.maxItems
  {
  }

  lemma {:induction false} ItemFound(item: Value, out: seq<Value>, st: RState, cfg: Config, depth: nat) returns (slot: Slot)
    requires RestoreItem(item, out, st, cfg, depth).Ok? && st.visited <= cfg.limits.maxItems
    ensures ReceivedSlot(slot) == item && SoundSlot(slot, cfg, depth)
    ensures Feasible(st, EventsOfSlot(slot), Nodes(item), cfg.limits)
    decreases |st.pending|, 1, item, 3
  {
    hide RestoreValue, RestoreElement, Feasible, After, EventsOfSite, Sound;
    if IsRedactedElement(item) {
      var st2 := st.(visited := st.visited + 2);
      var site := ElementFound(item.inner.bytes, out, st2, cfg, depth);
      slot := Redacted(site);
      Entered(st, 2, EventsOfSite(site), 0, cfg.limits);
    } else {
      var part := ValueFound(item, st, cfg, depth + 1);
      slot := Open(part);
    }
  }

  lemma {:induction false} ElementFound(hash: Bytes, out: seq<Value>, st: RState, cfg: Config, depth: nat) returns (site: Site)
    requires RestoreElement(hash, out, st, cfg, depth).Ok? && st.visited <= cfg.limits.maxItems && depth + 2 <= cfg.limits.maxDepth
    ensures site.hash == hash && SoundSlot(Redacted(site), cfg, depth) && Feasible(st, EventsOfSite(site), 0, cfg.limits)
    decreases |st.pending|, 0, 0
  {
    hide RestoreValue, Feasible, After, Sound;
    if hash !in st.pending {
      site := Removed(hash);
      NothingFound(st, hash, cfg.limits);
    } else {
      var d := st.pending[hash];
      if d.kind.Decoy? {
        site := Decoyed(hash, d);
        DecoyFound(st, hash, d, cfg.limits);
      } else {
        var part := ValueFound(d.kind.value, st.(pending := TakePending(st.pending, hash)), cfg, depth + 1);
        site := Shown(hash, d, part);
        ShownStep(st, hash, d, Events(part), cfg.limits);
      }
    }
  }

  lemma {:induction false} MapFound(entries: seq<Entry>, st: RState, cfg: Config, depth: nat) returns (t: Tree)
    requires RestoreMap(entries, st, cfg, depth).Ok? && st.visited <= cfg.limits.maxItems && depth <= cfg.limits.maxDepth
    ensures t.Mapped? && Received(t) == Map(entries) && Sound(t, cfg, depth)
    ensures Feasible(st, Events(t), NodesOfEntries(entries), cfg.limits)
    decreases |st.pending|, 1, entries, 2
  {
    hide RestoreEntries, RestoreHashes, Sound, Events, AfterFields, FieldsFit, SitesFit, After, Feasible, ReceivedFields;
    var acc0 := MapAcc([], {}, [], false, [], st);
    var fields, hashes := FieldsFound(entries, acc0, cfg, depth);
    FieldsRun(fields, hashes, acc0, cfg, depth);
    var acc := RestoreEntries(entries, acc0, cfg, depth).value;
    FieldsKeepTo(fields, hashes, acc0, cfg, depth);
    var sites := SitesFound(hashes, acc, cfg, depth);
    t := Mapped(fields, sites);
    MapStands(t, acc0, cfg, depth);
  }

  /** What the entries leave: the collected hashes, and a count within the limit. */
  lemma FieldsKeepTo(fields: seq<Field>, hashes: seq<Bytes>, acc0: MapAcc, cfg: Config, depth: nat)
    requires FieldsFit(fields, hashes, acc0, cfg, depth) && acc0.hashes == [] && (Lists(fields) == 0 ==> hashes == [])
    ensures var acc := AfterFields(fields, hashes, acc0, cfg.validateClaims);
            acc.hashes == hashes && acc.st.visited <= cfg.limits.maxItems
  {
    assert [] + hashes == hashes;
  }

  lemma {:induction false} MapStands(t: Tree, acc0: MapAcc, cfg: Config, depth: nat)
    requires t.Mapped? && acc0 == MapAcc([], {}, [], false, [], acc0.st) && depth <= cfg.limits.maxDepth
    requires |t.fields| <= cfg.limits.maxContainerEntries && (Lists(t.fields) == 0 ==> t.sites == [])
    requires FieldsFit(t.fields, Hashes(t.sites), acc0, cfg, depth)
    requires SitesFit(t.sites, AfterFields(t.fields, Hashes(t.sites), acc0, cfg.validateClaims), cfg, depth)
    ensures Sound(t, cfg, depth) && Feasible(acc0.st, Events(t), NodesOfEntries(Received(t).entries), cfg.limits)
  {
    hide SoundFields, SoundClaims, Feasible, After, Apart, Elements, Labels, ShownLabels,
         ReceivedFields, RestoredFields, FieldEvents, SiteEvents;
    var fields, sites, hashes := t.fields, t.sites, Hashes(t.sites);
    FeasibleBoth(acc0.st, FieldEvents(fields), NodesOfEntries(ReceivedFields(fields, hashes)), SiteEvents(sites), 0, cfg.limits);
    ApartSplit(Labels(fields), ShownLabels(sites), {});
    assert {} + Elements(Labels(fields)) == Elements(Labels(fields));
  }

  lemma {:induction false} FieldsFound(entries: seq<Entry>, acc: MapAcc, cfg: Config, depth: nat)
    returns (fields: seq<Field>, hashes: seq<Bytes>)
    requires RestoreEntries(entries, acc, cfg, depth).Ok? && acc.st.visited <= cfg.limits.maxItems
    ensures ReceivedFields(fields, hashes) == entries && FieldsFit(fields, hashes, acc, cfg, depth)
    ensures Lists(fields) == 0 ==> hashes == []
    decreases |acc.st.pending|, 1, entries, 1
  {
    hide RestoreEntry, FieldFits, FieldsFit, AfterField, ReceivedField;
    if entries == [] {
      fields, hashes := [], [];
      NoFieldsFit(acc, cfg, depth);
    } else {
      var field, own := FieldFound(entries[0], acc, cfg, depth);
      FieldRuns(field, own, acc, cfg, depth);
      var acc1 := RestoreEntry(entries[0], acc, cfg, depth).value;
      FieldWithinLimit(field, own, acc, cfg, depth);
      var rest, others := FieldsFound(entries[1..], acc1, cfg, depth);
      fields, hashes := [field] + rest, if field.HashesHere? then own else others;
      assert fields[1..] == rest;
      OtherHashes(field, rest, own, others, acc, cfg, depth);
      FieldSplit(fields, hashes, acc, cfg, depth);
    }
  }

  lemma NoFieldsFit(acc: MapAcc, cfg: Config, depth: nat)
    requires acc.st.visited <= cfg.limits.maxItems
    ensures FieldsFit([], [], acc, cfg, depth)
  {
    NothingMet(acc.st, cfg.limits);
    NoLabel(acc.labels);
  }

  lemma FieldWithinLimit(field: Field, hashes: seq<Bytes>, acc: MapAcc, cfg: Config, depth: nat)
    requires FieldFits(field, hashes, acc, cfg, depth)
    ensures AfterField(field, hashes, acc, cfg.validateClaims).st.visited <= cfg.limits.maxItems
  {
  }

  /** The hashes matter only to the entry that lists them. */
  lemma {:induction false} OtherHashes(field: Field, rest: seq<Field>, own: seq<Bytes>, others: seq<Bytes>, acc: MapAcc, cfg: Config, depth: nat)
    requires FieldFits(field, own, acc, cfg, depth) && FieldsFit(rest, others, AfterField(field, own, acc, cfg.validateClaims), cfg, depth)
    ensures var hashes := if field.HashesHere? then own else others;
            var next := AfterField(field, hashes, acc, cfg.validateClaims);
            && FieldFits(field, hashes, acc, cfg, depth) && FieldsFit(rest, hashes, next, cfg, depth)
            && ReceivedField(field, hashes) == ReceivedField(field, own)
            && ReceivedFields(rest, hashes) == ReceivedFields(rest, others)
            && (field.HashesHere? ==> Lists(rest) == 0)
  {
    hide Feasible, Received, SoundFields, Apart, Elements, After;
    if field.HashesHere? {
      assert AfterField(field, own, acc, cfg.validateClaims).saw;
      NoListNoHashes(rest, own, others);
    }
  }

  lemma {:induction false} NoListNoHashes(fields: seq<Field>, a: seq<Bytes>, b: seq<Bytes>)
    requires Lists(fields) == 0
    ensures ReceivedFields(fields, a) == ReceivedFields(fields, b)
  {
    if fields != [] {
      NoListNoHashes(fields[1..], a, b);
    }
  }

  lemma {:induction false} FieldFound(e: Entry, acc: MapAcc, cfg: Config, depth: nat) returns (field: Field, hashes: seq<Bytes>)
    requires RestoreEntry(e, acc, cfg, depth).Ok? && acc.st.visited <= cfg.limits.maxItems
    ensures ReceivedField(field, hashes) == e && FieldFits(field, hashes, acc, cfg, depth)
    ensures field.Named? ==> hashes == []
    decreases |acc.st.pending|, 1, e, 0
  {
    hide RestoreValue, CollectRedactedKeys, FieldFits, ReceivedField, Sound;
    if e.key == REDACTED_KEYS_LABEL {
      field := HashesHere;
      hashes := ListFound(e, acc, cfg, depth);
    } else {
      var part := ValueFound(e.val, EnterAt(acc.st, depth + 1, cfg.limits).value, cfg, depth + 1);
      field, hashes := Named(LabelOf(e.key).value, part), [];
      NamedFound(e, part, acc, cfg, depth);
    }
  }

  lemma {:induction false} NamedFound(e: Entry, part: Tree, acc: MapAcc, cfg: Config, depth: nat)
    requires e.key != REDACTED_KEYS_LABEL && RestoreEntry(e, acc, cfg, depth).Ok?
    requires Derives(part, e.val, acc.st.(visited := acc.st.visited + 1), cfg, depth + 1)
    ensures var field := Named(LabelOf(e.key).value, part);
            ReceivedField(field, []) == e && FieldFits(field, [], acc, cfg, depth)
  {
    hide RestoreValue, Apart, Elements, Feasible, After, Sound, HashesFit, Nodes, Received;
    var key := LabelOf(e.key).value;
    LabelIs(key);
    OneLabel(key, acc.labels);
    assert LabelsOf(Named(key, part)) == [key];
    assert Nodes(e.key) == 1 by { assert e.key == ValueOfLabel(key); }
    Entered(acc.st, 1, Events(part), Nodes(e.val), cfg.limits);
  }

  lemma {:induction false} ListFound(e: Entry, acc: MapAcc, cfg: Config, depth: nat) returns (hashes: seq<Bytes>)
    requires e.key == REDACTED_KEYS_LABEL && RestoreEntry(e, acc, cfg, depth).Ok?
    ensures ReceivedField(HashesHere, hashes) == e && FieldFits(HashesHere, hashes, acc, cfg, depth)
  {
    hide RestoreValue, Apart, Elements, Feasible, After, CollectHashes, HashList, NodesOfEntry;
    var st := acc.st.(visited := acc.st.visited + 2);
    hashes := CollectedFrom(e.val.items, acc.(saw := true, st := st), cfg.limits, depth);
    NoLabel(acc.labels);
    ListState(acc.st, hashes, cfg.limits);
  }

  lemma {:induction false} CollectedFrom(items: seq<Value>, acc: MapAcc, limits: Limits, depth: nat) returns (hashes: seq<Bytes>)
    requires CollectHashes(items, acc, limits, depth).Ok? && acc.st.visited <= limits.maxItems
    ensures HashList(hashes) == items && acc.st.visited + |items| <= limits.maxItems
    ensures items != [] ==> depth + 2 <= limits.maxDepth
  {
    hashes := [];
    if items != [] {
      var st := EnterAt(acc.st, depth + 2, limits).value;
      var rest := CollectedFrom(items[1..], acc.(hashes := acc.hashes + [items[0].bytes], st := st), limits, depth);
      hashes := [items[0].bytes] + rest;
      assert hashes[1..] == rest;
    }
  }

  lemma {:induction false} SitesFound(hashes: seq<Bytes>, acc: MapAcc, cfg: Config, depth: nat) returns (sites: seq<Site>)
    requires RestoreHashes(hashes, acc, cfg, depth).Ok? && acc.st.visited <= cfg.limits.maxItems
    ensures Hashes(sites) == hashes && SitesFit(sites, acc, cfg, depth)
    decreases |acc.st.pending|, 0, |hashes| + 1
  {
    hide RestoreHash, SiteFits, SitesFit, AfterSite;
    if hashes == [] {
      sites := [];
      NoSitesFit(acc, cfg, depth);
    } else {
      var site := SiteFound(hashes[0], acc, cfg, depth);
      SiteRuns(site, acc, cfg, depth);
      var acc1 := RestoreHash(hashes[0], acc, cfg, depth).value;
      SiteWithinLimit(site, acc, cfg, depth);
      var rest := SitesFound(hashes[1..], acc1, cfg, depth);
      sites := [site] + rest;
      assert sites[1..] == rest;
      SiteSplit(sites, acc, cfg, depth);
    }
  }

  lemma NoSitesFit(acc: MapAcc, cfg: Config, depth: nat)
    requires acc.st.visited <= cfg.limits.maxItems
    ensures SitesFit([], acc, cfg, depth)
  {
    NothingMet(acc.st, cfg.limits);
    NoLabel(acc.labels);
  }

  lemma SiteWithinLimit(site: Site, acc: MapAcc, cfg: Config, depth: nat)
    requires SiteFits(site, acc, cfg, depth)
    ensures AfterSite(site, acc, cfg.validateClaims).st.visited <= cfg.limits.maxItems
  {
  }

  lemma {:induction false} SiteFound(hash: Bytes, acc: MapAcc, cfg: Config, depth: nat) returns (site: Site)
    requires RestoreHash(hash, acc, cfg, depth).Ok? && acc.st.visited <= cfg.limits.maxItems
    ensures site.hash == hash && SiteFits(site, acc, cfg, depth)
    decreases |acc.st.pending|, 0, 0
  {
    hide RestoreValue, Feasible, After, Sound, Apart, Elements;
    var st := acc.st;
    if hash !in st.pending {
      site := Removed(hash);
      NothingFound(st, hash, cfg.limits);
      NoLabel(acc.labels);
    } else {
      var d := st.pending[hash];
      if d.kind.Decoy? {
        site := Decoyed(hash, d);
        DecoyFound(st, hash, d, cfg.limits);
        NoLabel(acc.labels);
      } else {
        var part := ValueFound(d.kind.value, st.(pending := TakePending(st.pending, hash)), cfg, depth + 1);
        site := Shown(hash, d, part);
        ShownStep(st, hash, d, Events(part), cfg.limits);
        RootKeyIs(d.kind.key);
        OneLabel(d.kind.key, acc.labels);
        assert ShownLabel(site) == [d.kind.key];
      }
    }
  }

  /** Restoring a value succeeds exactly if a sound derivation of it can be run from the state, and then
      gives the value and the state of that derivation. */
  lemma ValueExact(v: Value, st: RState, cfg: Config, depth: nat, out: Value, st1: RState)
    ensures RestoreValue(v, st, cfg, depth) == Ok((out, st1)) <==>
            exists t :: Derives(t, v, st, cfg, depth) && out == Restored(t, cfg.validateClaims) && st1 == After(st, Events(t), Nodes(v))
  {
    hide *;
    if RestoreValue(v, st, cfg, depth) == Ok((out, st1)) {
      var t := ValueFound(v, st, cfg, depth);
      DerivesRuns(t, v, st, cfg, depth);
    }
    forall t | Derives(t, v, st, cfg, depth) ensures RestoreValue(v, st, cfg, depth)
                                                     == Ok((Restored(t, cfg.validateClaims), After(st, Events(t), Nodes(v)))) {
      DerivesRuns(t, v, st, cfg, depth);
    }
  }

  lemma DerivesRuns(t: Tree, v: Value, st: RState, cfg: Config, depth: nat)
    requires Derives(t, v, st, cfg, depth)
    ensures RestoreValue(v, st, cfg, depth) == Ok((Restored(t, cfg.validateClaims), After(st, Events(t), Nodes(v))))
  {
    ValueRuns(t, st, cfg, depth);
  }
}
