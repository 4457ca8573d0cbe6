/** Exactly when a whole restoration succeeds, on any claims, disclosures and hash function, and with which
    report (sd-cwt/src/restore.rs): the payload and the protected claims have sound derivations whose hashes
    the disclosures answer at their first mention, with every disclosure used and the limits kept. */
module ReportExact {
  import opened Values
  import opened Disclosures
  import opened ClaimMatching
  import opened Restoration
  import opened Intakes
  import opened MatchingMaps
  import M = MatchMeaning
  import opened Derivations
  import opened RestoreExact
  import L = RestorationLaws

  // ---- lookups, without the pending set ---------------------------------------------------------

  /** A hash finds the disclosure with that digest the first time it is met, and nothing after that. */
  ghost predicate FirstMentions(events: seq<Event>, ds: seq<Disclosure>, hash: Hasher) {
    forall i :: 0 <= i < |events| ==>
      match events[i].found
      case Some(d) => d in ds && hash(d.encoded) == events[i].hash && !Mentioned(events[..i], events[i].hash)
      case None => (forall d :: d in ds ==> hash(d.encoded) != events[i].hash) || Mentioned(events[..i], events[i].hash)
  }

  predicate Mentioned(events: seq<Event>, hash: Bytes) {
    exists i :: 0 <= i < |events| && events[i].hash == hash
  }

  /** Every disclosure fills or drops a place. */
  ghost predicate AllUsed(events: seq<Event>, ds: seq<Disclosure>) {
    forall d :: d in ds ==> exists i :: 0 <= i < |events| && events[i].found == Some(d)
  }

  /** The same on a map of pending disclosures. */
  ghost predicate FirstIn(events: seq<Event>, pending: map<Bytes, Disclosure>) {
    forall i :: 0 <= i < |events| ==> FirstAt(events, i, pending)
  }

  ghost predicate FirstAt(events: seq<Event>, i: nat, pending: map<Bytes, Disclosure>)
    requires i < |events|
  {
    var h := events[i].hash;
    match events[i].found
    case Some(d) => h in pending && pending[h] == d && !Mentioned(events[..i], h)
    case None => h !in pending || Mentioned(events[..i], h)
  }

  lemma MentionedFirst(events: seq<Event>, i: nat, hash: Bytes)
    requires 0 < i <= |events|
    ensures Mentioned(events[..i], hash) <==> events[0].hash == hash || Mentioned(events[1..][..i - 1], hash)
  {
    var rest := events[1..][..i - 1];
    if Mentioned(events[..i], hash) && events[0].hash != hash {
      var k :| 0 <= k < i && events[k].hash == hash;
      assert rest[k - 1].hash == hash;
    }
    if Mentioned(rest, hash) {
      var k :| 0 <= k < |rest| && rest[k].hash == hash;
      assert events[..i][k + 1].hash == hash;
    }
    if events[0].hash == hash {
      assert events[..i][0].hash == hash;
    }
  }

  lemma {:induction false} FedExact(events: seq<Event>, pending: map<Bytes, Disclosure>)
    ensures Fed(events, pending) <==> FirstIn(events, pending)
    decreases |events|
  {
    hide Mentioned;
    if events != [] {
      var rest, left := events[1..], pending - {events[0].hash};
      FedExact(rest, left);
      assert !Mentioned(events[..0], events[0].hash) by { NoneMentioned(events[0].hash); }
      assert events[..0] == [];
      forall i | 0 < i < |events| ensures rest[i - 1] == events[i] && (FirstAt(events, 0, pending) ==> (FirstAt(events, i, pending) <==> FirstAt(rest, i - 1, left))) {
        MentionedFirst(events, i, events[i].hash);
      }
      assert FirstAt(events, 0, pending) <==>
             match events[0].found
             case None => events[0].hash !in pending
             case Some(d) => events[0].hash in pending && pending[events[0].hash] == d;
      if FirstIn(rest, left) && FirstAt(events, 0, pending) {
        forall i | 0 <= i < |events| ensures FirstAt(events, i, pending) {
          if i > 0 {
            assert FirstAt(rest, i - 1, left);
          }
        }
      }
      if FirstIn(events, pending) {
        forall i | 0 <= i < |rest| ensures FirstAt(rest, i, left) {
          assert FirstAt(events, i + 1, pending);
        }
      }
    }
  }

  lemma NoneMentioned(hash: Bytes)
    ensures !Mentioned([], hash)
  {
  }

  /** What is still pending was not mentioned. */
  lemma {:induction false} UnusedExact(events: seq<Event>, pending: map<Bytes, Disclosure>)
    ensures forall h :: h in Unused(events, pending) <==> h in pending && !Mentioned(events, h)
    decreases |events|
  {
    if events != [] {
      UnusedExact(events[1..], pending - {events[0].hash});
      forall h ensures Mentioned(events, h) <==> events[0].hash == h || Mentioned(events[1..], h) {
        MentionedFirst(events, |events|, h);
        assert events[..|events|] == events && events[1..][..|events| - 1] == events[1..];
      }
    }
  }

  lemma FirstMentionsExact(events: seq<Event>, pending: map<Bytes, Disclosure>, ds: seq<Disclosure>, hash: Hasher)
    requires Holds(pending, ds, hash)
    ensures FirstMentions(events, ds, hash) <==> FirstIn(events, pending)
  {
    hide Mentioned;
    forall i | 0 <= i < |events|
      ensures FirstAt(events, i, pending) <==>
              match events[i].found
              case Some(d) => d in ds && DigestOf(d, hash) == events[i].hash && !Mentioned(events[..i], events[i].hash)
              case None => (forall d :: d in ds ==> DigestOf(d, hash) != events[i].hash) || Mentioned(events[..i], events[i].hash)
    {
      var h := events[i].hash;
      if h in pending {
        assert pending[h] in ds && DigestOf(pending[h], hash) == h;
      }
    }
  }

  lemma {:induction false} AllUsedExact(events: seq<Event>, pending: map<Bytes, Disclosure>, ds: seq<Disclosure>, hash: Hasher)
    requires Holds(pending, ds, hash) && FirstIn(events, pending)
    ensures AllUsed(events, ds) <==> Unused(events, pending) == map[]
  {
    UnusedExact(events, pending);
    if AllUsed(events, ds) {
      forall h | h in pending ensures Mentioned(events, h) {
        var i :| 0 <= i < |events| && events[i].found == Some(pending[h]);
        assert FirstAt(events, i, pending);
        assert DigestOf(pending[h], hash) == events[i].hash;
      }
      assert forall h :: h !in Unused(events, pending);
    }
    if Unused(events, pending) == map[] {
      forall d | d in ds ensures exists i :: 0 <= i < |events| && events[i].found == Some(d) {
        var h := DigestOf(d, hash);
        assert h in pending && Mentioned(events, h);
        var i := FirstOf(events, h);
        assert FirstAt(events, i, pending);
      }
    }
  }

  lemma {:induction false} FirstOf(events: seq<Event>, hash: Bytes) returns (i: nat)
    requires Mentioned(events, hash)
    ensures i < |events| && events[i].hash == hash && !Mentioned(events[..i], hash)
    decreases |events|
  {
    if events[0].hash == hash {
      i := 0;
    } else {
      MentionedFirst(events, |events|, hash);
      assert events[..|events|] == events && events[1..][..|events| - 1] == events[1..];
      i := FirstOf(events[1..], hash);
      i := i + 1;
      MentionedFirst(events, i, hash);
    }
  }

  // ---- both values ------------------------------------------------------------------------------

  function ReceivedOption(c: Option<Tree>): Option<Value> {
    match c
    case None => None
    case Some(t) => Some(Received(t))
  }

  function RestoredOption(c: Option<Tree>, keep: bool): Option<Value> {
    match c
    case None => None
    case Some(t) => Some(Restored(t, keep))
  }

  function OptionEvents(c: Option<Tree>): seq<Event> {
    match c
    case None => []
    case Some(t) => Events(t)
  }

  /** The protected claims come first. */
  function AllEvents(t: Tree, c: Option<Tree>): seq<Event> {
    OptionEvents(c) + Events(t)
  }

  function AllNodes(value: Value, claims: Option<Value>): nat {
    L.NodesOfOption(claims) + Nodes(value)
  }

  ghost predicate SoundBoth(t: Tree, c: Option<Tree>, value: Value, claims: Option<Value>, cfg: Config) {
    && Received(t) == value && Sound(t, cfg, 0)
    && ReceivedOption(c) == claims && (c.Some? ==> Sound(c.value, cfg, 0))
  }

  lemma {:induction false} PendingRuns(t: Tree, c: Option<Tree>, value: Value, claims: Option<Value>, st: RState, cfg: Config)
    requires SoundBoth(t, c, value, claims, cfg) && Feasible(st, AllEvents(t, c), AllNodes(value, claims), cfg.limits)
    requires Unused(AllEvents(t, c), st.pending) == map[]
    ensures RestorePending(value, claims, st, cfg)
            == Ok((Restored(t, cfg.validateClaims), RestoredOption(c, cfg.validateClaims), After(st, AllEvents(t, c), AllNodes(value, claims))))
  {
    hide RestoreValue, Sound, Feasible, Received, Restored, Events, Nodes;
    FeasibleBoth(st, OptionEvents(c), L.NodesOfOption(claims), Events(t), Nodes(value), cfg.limits);
    if c.Some? {
      ValueRuns(c.value, st, cfg, 0);
    } else {
      NothingMet(st, cfg.limits);
    }
    ValueRuns(t, After(st, OptionEvents(c), L.NodesOfOption(claims)), cfg, 0);
    assert After(st, AllEvents(t, c), AllNodes(value, claims)).pending == map[];
  }

  lemma {:induction false} PendingFound(value: Value, claims: Option<Value>, st: RState, cfg: Config) returns (t: Tree, c: Option<Tree>)
    requires RestorePending(value, claims, st, cfg).Ok? && st.visited <= cfg.limits.maxItems
    ensures SoundBoth(t, c, value, claims, cfg) && Feasible(st, AllEvents(t, c), AllNodes(value, claims), cfg.limits)
    ensures Unused(AllEvents(t, c), st.pending) == map[]
  {
    hide RestoreValue, Sound, Feasible, Received, Restored, Events, Nodes, After;
    c := None;
    if claims.Some? {
      var part := ValueFound(claims.value, st, cfg, 0);
      c := Some(part);
      ValueRuns(part, st, cfg, 0);
    } else {
      NothingMet(st, cfg.limits);
    }
    var st1 := RestoreProtected(claims, st, cfg).value.1;
    t := ValueFound(value, st1, cfg, 0);
    ValueRuns(t, st1, cfg, 0);
    FeasibleBoth(st, OptionEvents(c), L.NodesOfOption(claims), Events(t), Nodes(value), cfg.limits);
    assert RestorePending(value, claims, st, cfg).value.2 == After(st, AllEvents(t, c), AllNodes(value, claims));
    AfterPending(st, AllEvents(t, c), AllNodes(value, claims));
  }

  lemma AfterPending(st: RState, events: seq<Event>, nodes: nat)
    ensures After(st, events, nodes).pending == Unused(events, st.pending)
  {
  }

  // ---- the report -------------------------------------------------------------------------------

  /** The derivations account for the whole presentation: every lookup is answered, every disclosure is
      used, and the disclosures, both values and everything revealed stay within the item limit. */
  ghost predicate Accounts(t: Tree, c: Option<Tree>, value: Value, claims: Option<Value>, ds: seq<Disclosure>, hash: Hasher, cfg: Config) {
    && SoundBoth(t, c, value, claims, cfg)
    && FirstMentions(AllEvents(t, c), ds, hash) && AllUsed(AllEvents(t, c), ds)
    && TotalItems(ds) + AllNodes(value, claims) + Revealed(AllEvents(t, c)) <= cfg.limits.maxItems
  }

  /** What restoring leaves, and how often a disclosure was shown, was a decoy, or was missing. */
  ghost predicate Ends(t: Tree, c: Option<Tree>, keep: bool, r: (Value, Option<Value>, RState)) {
    && r.0 == Restored(t, keep) && r.1 == RestoredOption(c, keep) && r.2.pending == map[]
    && r.2.disclosed == CountShown(AllEvents(t, c)) && r.2.decoys == CountDecoys(AllEvents(t, c))
    && r.2.removed == CountRemoved(AllEvents(t, c))
  }

  lemma {:induction false} BothFound(value: Value, claims: Option<Value>, ds: seq<Disclosure>, hash: Hasher, cfg: Config)
    returns (t: Tree, c: Option<Tree>)
    requires RestoreBoth(value, claims, ds, hash, cfg).Ok?
    ensures Acceptable(ds, hash, cfg.limits) && Accounts(t, c, value, claims, ds, hash, cfg)
    ensures Ends(t, c, cfg.validateClaims, RestoreBoth(value, claims, ds, hash, cfg).value)
  {
    hide TakeInAll, RestorePending, SoundBoth, Acceptable, Holds, FirstMentions, FirstIn, AllUsed, AllEvents, Nodes, Received, Restored;
    IntakeExact(ds, hash, cfg.limits);
    var st := Started(TakeInAll(ds, 0, EMPTY_INTAKE, hash, cfg.limits).value);
    WithinItems(ds, hash, cfg.limits);
    t, c := PendingFound(value, claims, st, cfg);
    PendingRuns(t, c, value, claims, st, cfg);
    LookupsExact(AllEvents(t, c), st.pending, ds, hash);
  }

  lemma WithinItems(ds: seq<Disclosure>, hash: Hasher, limits: Limits)
    requires Acceptable(ds, hash, limits)
    ensures TotalItems(ds) <= limits.maxItems
  {
  }

  lemma LookupsExact(events: seq<Event>, pending: map<Bytes, Disclosure>, ds: seq<Disclosure>, hash: Hasher)
    requires Holds(pending, ds, hash)
    ensures Fed(events, pending) && Unused(events, pending) == map[] <==> FirstMentions(events, ds, hash) && AllUsed(events, ds)
  {
    hide Fed, FirstMentions, AllUsed, FirstIn, Unused, Holds;
    FedExact(events, pending);
    FirstMentionsExact(events, pending, ds, hash);
    if FirstIn(events, pending) {
      AllUsedExact(events, pending, ds, hash);
    }
  }

  lemma {:induction false} BothRuns(t: Tree, c: Option<Tree>, value: Value, claims: Option<Value>, ds: seq<Disclosure>, hash: Hasher, cfg: Config)
    requires Acceptable(ds, hash, cfg.limits) && Accounts(t, c, value, claims, ds, hash, cfg)
    ensures RestoreBoth(value, claims, ds, hash, cfg).Ok?
    ensures Ends(t, c, cfg.validateClaims, RestoreBoth(value, claims, ds, hash, cfg).value)
  {
    hide TakeInAll, RestorePending, SoundBoth, Acceptable, Holds, FirstMentions, FirstIn, AllUsed, AllEvents, Nodes, Received, Restored;
    IntakeExact(ds, hash, cfg.limits);
    var st := Started(TakeInAll(ds, 0, EMPTY_INTAKE, hash, cfg.limits).value);
    LookupsExact(AllEvents(t, c), st.pending, ds, hash);
    PendingRuns(t, c, value, claims, st, cfg);
  }

  // ---- markers ----------------------------------------------------------------------------------

  lemma {:induction false} StripRestored(t: Tree, cfg: Config, depth: nat)
    requires Sound(t, cfg, depth)
    ensures Strip(Restored(t, true)) == Restored(t, false) && !IsRedactedElement(Restored(t, true))
    decreases t
  {
    match t
    case Leaf(_) =>
    case Tagged(_, part) => StripRestored(part, cfg, depth + 1);
    case Listed(slots) => StripSlots(slots, cfg, depth);
    case Mapped(fields, sites) =>
      StripFields(fields, cfg, depth);
      StripClaims(sites, cfg, depth);
      StripEntriesConcat(RestoredFields(fields, true), RestoredClaims(sites, true));
      StripEntriesConcat(RestoredFields(fields, true) + RestoredClaims(sites, true), Kept(Undisclosed(sites)));
      assert StripEntries(Kept(Undisclosed(sites))) == [];
      assert Kept([]) == [];
  }

  lemma {:induction false} StripSlots(slots: seq<Slot>, cfg: Config, depth: nat)
    requires SoundSlots(slots, cfg, depth)
    ensures StripItems(RestoredSlots(slots, true)) == RestoredSlots(slots, false)
    decreases slots
  {
    if slots != [] {
      StripItemsConcat(RestoredSlot(slots[0], true), RestoredSlots(slots[1..], true));
      StripSlot(slots[0], cfg, depth);
      StripSlots(slots[1..], cfg, depth);
    }
  }

  lemma {:induction false} StripSlot(slot: Slot, cfg: Config, depth: nat)
    requires SoundSlot(slot, cfg, depth)
    ensures StripItems(RestoredSlot(slot, true)) == RestoredSlot(slot, false)
    decreases slot
  {
    var one := RestoredSlot(slot, true);
    assert one != [] ==> one[1..] == [];
    match slot
    case Open(part) => StripRestored(part, cfg, depth + 1);
    case Redacted(Shown(_, _, part)) => StripRestored(part, cfg, depth + 1);
    case Redacted(_) =>
  }

  lemma {:induction false} StripFields(fields: seq<Field>, cfg: Config, depth: nat)
    requires SoundFields(fields, cfg, depth)
    ensures StripEntries(RestoredFields(fields, true)) == RestoredFields(fields, false)
    decreases fields
  {
    if fields != [] {
      StripEntriesConcat(RestoredField(fields[0], true), RestoredFields(fields[1..], true));
      StripField(fields[0], cfg, depth);
      StripFields(fields[1..], cfg, depth);
    }
  }

  lemma {:induction false} StripField(field: Field, cfg: Config, depth: nat)
    requires SoundField(field, cfg, depth)
    ensures StripEntries(RestoredField(field, true)) == RestoredField(field, false)
    decreases field
  {
    if field.Named? {
      StripRestored(field.part, cfg, depth + 1);
      assert RestoredField(field, true)[1..] == [];
    }
  }

  lemma {:induction false} StripClaims(sites: seq<Site>, cfg: Config, depth: nat)
    requires SoundClaims(sites, cfg, depth)
    ensures StripEntries(RestoredClaims(sites, true)) == RestoredClaims(sites, false)
    decreases sites
  {
    if sites != [] {
      StripEntriesConcat(RestoredClaim(sites[0], true), RestoredClaims(sites[1..], true));
      StripClaim(sites[0], cfg, depth);
      StripClaims(sites[1..], cfg, depth);
    }
  }

  lemma {:induction false} StripClaim(site: Site, cfg: Config, depth: nat)
    requires SoundClaim(site, cfg, depth)
    ensures StripEntries(RestoredClaim(site, true)) == RestoredClaim(site, false)
    decreases site
  {
    if site.Shown? {
      StripRestored(site.part, cfg, depth + 1);
      assert RestoredClaim(site, true)[1..] == [];
    }
  }

  /** The report of a derivation. Where claims are validated, the copies of a claim in both maps must agree,
      compared while the markers of what stays hidden are in place. */
  ghost predicate Reports(t: Tree, c: Option<Tree>, canon: Canon, cfg: Config, report: Report) {
    && report.value == Restored(t, false) && report.protectedClaims == RestoredOption(c, false)
    && report.disclosed == CountShown(AllEvents(t, c)) && report.decoys == CountDecoys(AllEvents(t, c))
    && report.removed == CountRemoved(AllEvents(t, c))
    && (cfg.validateClaims ==> CopiesAgree(Restored(t, true), RestoredOption(c, true), canon))
  }

  /** Every claim both maps show agrees. */
  ghost predicate CopiesAgree(value: Value, claims: Option<Value>, canon: Canon) {
    value.Map? && claims.Some? && claims.value.Map? ==> M.AgreeingEntries(value.entries, claims.value.entries, canon)
  }

  lemma CopiesAgreeIs(value: Value, claims: Option<Value>, canon: Canon)
    requires View(value, true) && (claims.Some? ==> View(claims.value, true))
    ensures L.MapsMatching(value, claims, canon) <==> CopiesAgree(value, claims, canon)
  {
    hide SharedMatch, M.AgreeingEntries, View;
    if value.Map? && claims.Some? && claims.value.Map? {
      M.SharedExactly(value.entries, claims.value.entries, canon);
    }
  }

  /** A restoration succeeds with a report exactly if the disclosures are acceptable and derivations of the
      payload and the protected claims account for them all and give that report. */
  lemma {:induction false} RestoreExactly(value: Value, claims: Option<Value>, ds: seq<Disclosure>, hash: Hasher, canon: Canon, cfg: Config, report: Report)
    requires Restorable(value, cfg) && (cfg.validateClaims ==> L.ValidDisclosures(ds) && TellsLabels(canon))
    ensures Restore(value, claims, ds, hash, canon, cfg) == Ok(report) <==>
            && Acceptable(ds, hash, cfg.limits)
            && exists t, c :: Accounts(t, c, value, claims, ds, hash, cfg) && Reports(t, c, canon, cfg, report)
  {
    hide *;
    if Restore(value, claims, ds, hash, canon, cfg) == Ok(report) {
      BothSucceeds(value, claims, ds, hash, canon, cfg);
      var t, c := BothFound(value, claims, ds, hash, cfg);
      ReportIs(t, c, value, claims, ds, hash, canon, cfg, report);
    }
    if Acceptable(ds, hash, cfg.limits) {
      forall t, c | Accounts(t, c, value, claims, ds, hash, cfg) && Reports(t, c, canon, cfg, report)
        ensures Restore(value, claims, ds, hash, canon, cfg) == Ok(report)
      {
        BothRuns(t, c, value, claims, ds, hash, cfg);
        ReportIs(t, c, value, claims, ds, hash, canon, cfg, report);
      }
    }
  }

  lemma BothSucceeds(value: Value, claims: Option<Value>, ds: seq<Disclosure>, hash: Hasher, canon: Canon, cfg: Config)
    requires Restorable(value, cfg) && Restore(value, claims, ds, hash, canon, cfg).Ok?
    ensures RestoreBoth(value, claims, ds, hash, cfg).Ok?
  {
  }

  lemma {:induction false} ReportIs(t: Tree, c: Option<Tree>, value: Value, claims: Option<Value>, ds: seq<Disclosure>, hash: Hasher,
                                    canon: Canon, cfg: Config, report: Report)
    requires Restorable(value, cfg) && (cfg.validateClaims ==> L.ValidDisclosures(ds) && TellsLabels(canon))
    requires Accounts(t, c, value, claims, ds, hash, cfg) && RestoreBoth(value, claims, ds, hash, cfg).Ok?
    requires Ends(t, c, cfg.validateClaims, RestoreBoth(value, claims, ds, hash, cfg).value)
    ensures Restore(value, claims, ds, hash, canon, cfg) == Ok(report) <==> Reports(t, c, canon, cfg, report)
  {
    hide RestoreBoth, Received, Restored, Sound, MatchingClaims, L.MapsMatching, CopiesAgree, TellsLabels, AllEvents, FirstMentions, AllUsed, L.ValidDisclosures, Strip;
    if cfg.validateClaims {
      L.BothAreViews(value, claims, ds, hash, cfg);
      L.RestoredIsMap(value, claims, ds, hash, cfg);
      L.MatchingDecides(Restored(t, true), RestoredOption(c, true), canon);
      CopiesAgreeIs(Restored(t, true), RestoredOption(c, true), canon);
      StripRestored(t, cfg, 0);
      if c.Some? {
        StripRestored(c.value, cfg, 0);
      }
    }
  }
}
