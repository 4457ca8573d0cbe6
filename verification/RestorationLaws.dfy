/** The laws of a whole restoration, for any claims, disclosures and hash function. */
module RestorationLaws {
  import opened Values
  import opened Disclosures
  import opened ClaimMatching
  import opened Restoration
  import opened RestorationFacts
  import opened RestorationModes
  import opened RootPolicy
  import opened MatchingMaps
  import opened RestorationLimits
  import opened Intakes

  ghost predicate ValidDisclosures(ds: seq<Disclosure>) {
    forall i :: 0 <= i < |ds| ==> ValidDisclosure(ds[i])
  }

  function NodesOfOption(claims: Option<Value>): nat {
    match claims
    case None => 0
    case Some(v) => Nodes(v)
  }

  function HeightOfOption(claims: Option<Value>): nat {
    match claims
    case None => 0
    case Some(v) => Height(v)
  }

  /** What a report promises: every disclosure was used, no marker is left, and the trees fit. */
  ghost predicate Sound(report: Report, ds: seq<Disclosure>, limits: Limits) {
    && report.disclosed + report.decoys == |ds|
    && View(report.value, false)
    && (report.protectedClaims.Some? ==> View(report.protectedClaims.value, false))
    && TotalItems(ds) + Nodes(report.value) + NodesOfOption(report.protectedClaims) <= limits.maxItems
    && Height(report.value) <= limits.maxDepth
    && HeightOfOption(report.protectedClaims) <= limits.maxDepth
  }

  // ---- keep-then-strip refines drop -------------------------------------------------------------

  lemma {:induction false} BothRefine(value: Value, claims: Option<Value>, ds: seq<Disclosure>, hash: Hasher, cfg: Config)
    ensures var k, d := RestoreBoth(value, claims, ds, hash, Keeping(cfg)), RestoreBoth(value, claims, ds, hash, Dropping(cfg));
            match k
            case Ok((v, c, st)) => d == Ok((Strip(v), StripOption(c), st))
            case Err(e) => e == Custom || (d.Err? && d.error == e)
  {
    var intake := TakeInAll(ds, 0, EMPTY_INTAKE, hash, cfg.limits);
    if intake.Ok? {
      var st := Started(intake.value);
      if claims.Some? {
        KeepStripValue(claims.value, st, cfg, 0);
      }
      var r := RestoreProtected(claims, st, Keeping(cfg));
      if r.Ok? {
        KeepStripValue(value, r.value.1, cfg, 0);
      }
    }
  }

  /** Whenever the structural validator's run succeeds, the plain run succeeds with the same report. */
  lemma {:induction false} StructuralRefinesPlain(value: Value, claims: Option<Value>, ds: seq<Disclosure>, hash: Hasher, canon: Canon, cfg: Config)
    requires value.Map?
    ensures var k := Restore(value, claims, ds, hash, canon, Keeping(cfg));
            k.Ok? ==> Restore(value, claims, ds, hash, canon, Dropping(cfg)) == k
  {
    BothRefine(value, claims, ds, hash, cfg);
  }

  /** A disclosure put a claim at the root of the payload or of the protected claims that must never
      be redacted there. */
  predicate AddsForbiddenRoot(value: Value, claims: Option<Value>, plain: Report) {
    || AddsForbidden(value, plain.value)
    || (claims.Some? && plain.protectedClaims.Some? && AddsForbidden(claims.value, plain.protectedClaims.value))
  }

  /** Where the plain run succeeds, the structural run gets past restoring exactly when no disclosure
      added a forbidden root claim. */
  lemma {:induction false} PolicyDecides(value: Value, claims: Option<Value>, ds: seq<Disclosure>, hash: Hasher, canon: Canon, cfg: Config)
    requires Restore(value, claims, ds, hash, canon, Dropping(cfg)).Ok?
    ensures var plain := Restore(value, claims, ds, hash, canon, Dropping(cfg)).value;
            var kept := RestoreBoth(value, claims, ds, hash, Keeping(cfg));
            (kept.Ok? <==> !AddsForbiddenRoot(value, claims, plain)) && (kept.Err? ==> kept == Err(Custom))
  {
    hide RestoreValue, AddsForbidden;
    var st := Started(TakeInAll(ds, 0, EMPTY_INTAKE, hash, cfg.limits).value);
    if claims.Some? {
      PolicyExact(claims.value, st, cfg);
    }
    PolicyExact(value, RestoreProtected(claims, st, Dropping(cfg)).value.1, cfg);
  }

  lemma {:induction false} BothAreViews(value: Value, claims: Option<Value>, ds: seq<Disclosure>, hash: Hasher, cfg: Config)
    requires ValidDisclosures(ds) && RestoreBoth(value, claims, ds, hash, cfg).Ok?
    ensures var (v, c, _) := RestoreBoth(value, claims, ds, hash, cfg).value;
            View(v, cfg.validateClaims) && (c.Some? ==> View(c.value, cfg.validateClaims))
  {
    IntakeExact(ds, hash, cfg.limits);
    var st := Started(TakeInAll(ds, 0, EMPTY_INTAKE, hash, cfg.limits).value);
    if claims.Some? {
      ValueFacts(claims.value, st, cfg, 0);
    }
    ValueFacts(value, RestoreProtected(claims, st, cfg).value.1, cfg, 0);
  }

  /** Every claim shown by the payload and by protected claims that are a map matches. */
  ghost predicate MapsMatching(value: Value, claims: Option<Value>, canon: Canon) {
    value.Map? && claims.Some? && claims.value.Map? ==> SharedMatch(value.entries, claims.value.entries, canon)
  }

  lemma {:induction false} MatchingDecides(value: Value, claims: Option<Value>, canon: Canon)
    requires value.Map? && View(value, true) && (claims.Some? ==> View(claims.value, true)) && TellsLabels(canon)
    ensures var r := MatchingClaims(ClaimMaps(value, claims), 0, map[], canon);
            (r.Ok? <==> MapsMatching(value, claims, canon)) && (r.Err? ==> r == Err(Verify))
  {
    hide MatchingClaims, SharedMatch;
    if claims.Some? && claims.value.Map? {
      MapsAgree(value.entries, claims.value.entries, canon);
      assert [value.entries] + [claims.value.entries] == [value.entries, claims.value.entries];
    } else {
      MapsAgree(value.entries, value.entries, canon);
      assert [value.entries] + [] == [value.entries];
    }
  }

  /** What the structural run returns where the plain run succeeds: the policy error exactly when a
      disclosure added a forbidden root claim, a verification error exactly when a claim shown by both
      maps does not match, and the plain report otherwise. */
  lemma {:induction false} PlainWithoutStructural(value: Value, claims: Option<Value>, ds: seq<Disclosure>, hash: Hasher, canon: Canon, cfg: Config)
    requires value.Map? && ValidDisclosures(ds) && TellsLabels(canon)
    requires Restore(value, claims, ds, hash, canon, Dropping(cfg)).Ok?
    ensures var plain, k := Restore(value, claims, ds, hash, canon, Dropping(cfg)), Restore(value, claims, ds, hash, canon, Keeping(cfg));
            var kept := RestoreBoth(value, claims, ds, hash, Keeping(cfg));
            if AddsForbiddenRoot(value, claims, plain.value) then k == Err(Custom)
            else kept.Ok? && k == if MapsMatching(kept.value.0, kept.value.1, canon) then plain else Err(Verify)
  {
    hide RestoreBoth, AddsForbiddenRoot, MatchingClaims, MapsMatching, TellsLabels;
    PolicyDecides(value, claims, ds, hash, canon, cfg);
    var kept := RestoreBoth(value, claims, ds, hash, Keeping(cfg));
    if kept.Ok? {
      BothAreViews(value, claims, ds, hash, Keeping(cfg));
      RestoredIsMap(value, claims, ds, hash, Keeping(cfg));
      MatchingDecides(kept.value.0, kept.value.1, canon);
      StructuralRefinesPlain(value, claims, ds, hash, canon, cfg);
    }
  }

  lemma RestoredIsMap(value: Value, claims: Option<Value>, ds: seq<Disclosure>, hash: Hasher, cfg: Config)
    requires value.Map? && RestoreBoth(value, claims, ds, hash, cfg).Ok?
    ensures RestoreBoth(value, claims, ds, hash, cfg).value.0.Map?
  {
  }

  // ---- soundness of every report ----------------------------------------------------------------

  lemma {:induction false} PlainSound(value: Value, claims: Option<Value>, ds: seq<Disclosure>, hash: Hasher, canon: Canon, cfg: Config)
    requires ValidDisclosures(ds)
    ensures var r := Restore(value, claims, ds, hash, canon, Dropping(cfg));
            r.Ok? ==> Sound(r.value, ds, cfg.limits)
  {
    var plain := Dropping(cfg);
    var r := Restore(value, claims, ds, hash, canon, plain);
    if r.Ok? {
      IntakeExact(ds, hash, cfg.limits);
      var st := Started(TakeInAll(ds, 0, EMPTY_INTAKE, hash, cfg.limits).value);
      if claims.Some? {
        ValueFacts(claims.value, st, plain, 0);
      }
      var st1 := RestoreProtected(claims, st, plain).value.1;
      ValueFacts(value, st1, plain, 0);
    }
  }

  /** Conservation, cleanliness and bounds hold of every report, whichever path produced it. */
  lemma {:induction false} EveryReportSound(value: Value, claims: Option<Value>, ds: seq<Disclosure>, hash: Hasher, canon: Canon, cfg: Config)
    requires ValidDisclosures(ds) && Restorable(value, cfg)
    ensures var r := Restore(value, claims, ds, hash, canon, cfg);
            r.Ok? ==> Sound(r.value, ds, cfg.limits)
  {
    PlainSound(value, claims, ds, hash, canon, cfg);
    if cfg.validateClaims {
      assert Keeping(cfg) == cfg;
      StructuralRefinesPlain(value, claims, ds, hash, canon, cfg);
    } else {
      assert Dropping(cfg) == cfg;
    }
  }

  // ---- order and modes --------------------------------------------------------------------------

  /** The order the disclosures come in changes neither the verdict nor the report. */
  lemma {:induction false} OrderIrrelevant(value: Value, claims: Option<Value>, ds: seq<Disclosure>, es: seq<Disclosure>, hash: Hasher, canon: Canon, cfg: Config)
    requires multiset(ds) == multiset(es) && Restorable(value, cfg)
    ensures var r, s := Restore(value, claims, ds, hash, canon, cfg), Restore(value, claims, es, hash, canon, cfg);
            r.Ok? == s.Ok? && (r.Ok? ==> r == s)
  {
    IntakePermutes(ds, es, hash, cfg.limits);
  }

  function RemovedOfBoth(r: (Value, Option<Value>, RState)): nat { r.2.removed }

  function RemovedOfProtected(r: (Option<Value>, RState)): nat { r.1.removed }

  lemma {:induction false} ProtectedModes(claims: Option<Value>, st: RState, cfg: Config)
    ensures SameWithoutRemovals(RestoreProtected(claims, st, AsHolder(cfg)), RestoreProtected(claims, st, AsVerifier(cfg)), st.removed, RemovedOfProtected)
  {
    if claims.Some? {
      ModesValue(claims.value, st, cfg, 0);
    }
  }

  lemma {:induction false} PendingModes(value: Value, claims: Option<Value>, st: RState, cfg: Config)
    ensures SameWithoutRemovals(RestorePending(value, claims, st, AsHolder(cfg)), RestorePending(value, claims, st, AsVerifier(cfg)), st.removed, RemovedOfBoth)
  {
    ProtectedModes(claims, st, cfg);
    var r := RestoreProtected(claims, st, AsVerifier(cfg));
    if r.Ok? {
      ModesValue(value, r.value.1, cfg, 0);
    }
  }

  lemma {:induction false} BothModes(value: Value, claims: Option<Value>, ds: seq<Disclosure>, hash: Hasher, cfg: Config)
    ensures SameWithoutRemovals(RestoreBoth(value, claims, ds, hash, AsHolder(cfg)), RestoreBoth(value, claims, ds, hash, AsVerifier(cfg)), 0, RemovedOfBoth)
  {
    var intake := TakeInAll(ds, 0, EMPTY_INTAKE, hash, cfg.limits);
    if intake.Ok? {
      PendingModes(value, claims, Started(intake.value), cfg);
    }
  }

  /** Holder restoration succeeds exactly when Verifier restoration removes nothing, with its report. */
  lemma {:induction false} HolderIsCompleteVerifier(value: Value, claims: Option<Value>, ds: seq<Disclosure>, hash: Hasher, canon: Canon, cfg: Config)
    requires Restorable(value, cfg)
    ensures var h, w := Restore(value, claims, ds, hash, canon, AsHolder(cfg)), Restore(value, claims, ds, hash, canon, AsVerifier(cfg));
            (h.Ok? <==> w.Ok? && w.value.removed == 0) && (h.Ok? ==> h == w)
  {
    BothModes(value, claims, ds, hash, cfg);
  }

  // ---- limits -----------------------------------------------------------------------------------

  function PayloadNodes(ds: seq<Disclosure>): nat {
    if ds == [] then 0 else NodesOfItems(Payload(ds[0])) + PayloadNodes(ds[1..])
  }

  function PayloadHeight(ds: seq<Disclosure>): nat {
    if ds == [] then 0 else HeightOfItems(Payload(ds[0])) + PayloadHeight(ds[1..])
  }

  /** Limits no restoration of this input can exceed: each visited node is charged once where it
      stands, once more when its disclosure is taken in, and disclosures nest at most all at once. */
  ghost predicate Ample(value: Value, claims: Option<Value>, ds: seq<Disclosure>, limits: Limits) {
    && |ds| <= limits.maxDisclosures
    && TotalBytes(ds) <= limits.maxDisclosureBytes
    && TotalItems(ds) + Nodes(value) + NodesOfOption(claims) + PayloadNodes(ds) <= limits.maxItems
    && Max(Height(value), HeightOfOption(claims)) + PayloadHeight(ds) <= limits.maxDepth
    && Narrow(value, limits)
    && (claims.Some? ==> Narrow(claims.value, limits))
    && forall i :: 0 <= i < |ds| ==> NarrowItems(Payload(ds[i]), limits)
  }

  function DigestList(ds: seq<Disclosure>, hash: Hasher): seq<Bytes> {
    if ds == [] then [] else [DigestOf(ds[0], hash)] + DigestList(ds[1..], hash)
  }

  lemma {:induction false} DigestListHas(ds: seq<Disclosure>, hash: Hasher, d: Disclosure)
    requires d in ds
    ensures DigestOf(d, hash) in DigestList(ds, hash)
  {
    if d != ds[0] {
      DigestListHas(ds[1..], hash, d);
    }
  }

  lemma {:induction false} HeldWeighs(m: map<Bytes, Disclosure>, ds: seq<Disclosure>, hash: Hasher)
    requires forall i :: 0 <= i < |ds| ==> DigestOf(ds[i], hash) in m && m[DigestOf(ds[i], hash)] == ds[i]
    ensures Weight(DigestList(ds, hash), m) == PayloadNodes(ds)
    ensures Rise(DigestList(ds, hash), m) == PayloadHeight(ds)
  {
    if ds != [] {
      HeldWeighs(m, ds[1..], hash);
      assert DigestList(ds, hash)[0] == DigestOf(ds[0], hash);
      assert DigestList(ds, hash)[1..] == DigestList(ds[1..], hash);
    }
  }

  lemma {:induction false} HeldCovered(m: map<Bytes, Disclosure>, ds: seq<Disclosure>, hash: Hasher, limits: Limits)
    requires Holds(m, ds, hash)
    requires forall i :: 0 <= i < |ds| ==> NarrowItems(Payload(ds[i]), limits)
    ensures Covered(DigestList(ds, hash), m, limits)
  {
    forall h | h in m ensures h in DigestList(ds, hash) && NarrowItems(Payload(m[h]), limits) {
      DigestListHas(ds, hash, m[h]);
    }
  }

  /** With the size limits met, only a repeated digest or salt can refuse the disclosures. */
  lemma {:induction false} IntakeNotLimited(ds: seq<Disclosure>, index: nat, into: Intake, hash: Hasher, limits: Limits)
    requires SizesFit(ds, index, into, limits)
    ensures TakeInAll(ds, index, into, hash, limits) != Err(Limit)
    decreases ds
  {
    if ds != [] {
      SizesFitFirst(ds, index, into, Extended(ds[0], into, hash), limits);
      var r := TakeIn(index, ds[0], into, hash, limits);
      if r.Ok? {
        IntakeNotLimited(ds[1..], index + 1, r.value, hash, limits);
      }
    }
  }

  /** Restoring in a state with room for both values and everything pending. */
  lemma {:induction false} PendingNotLimited(hs: seq<Bytes>, value: Value, claims: Option<Value>, st: RState, cfg: Config)
    requires Narrow(value, cfg.limits) && (claims.Some? ==> Narrow(claims.value, cfg.limits))
    requires Room(hs, st, Nodes(value) + NodesOfOption(claims), Max(Height(value), HeightOfOption(claims)), cfg.limits, 0)
    ensures RestorePending(value, claims, st, cfg) != Err(Limit)
  {
    if claims.Some? {
      RoomForValue(hs, claims.value, st, cfg, 0);
    }
    var r := RestoreProtected(claims, st, cfg);
    if r.Ok? {
      RoomForValue(hs, value, r.value.1, cfg, 0);
    }
  }

  /** With ample limits no restoration fails on a limit. */
  lemma {:induction false} NeverLimited(value: Value, claims: Option<Value>, ds: seq<Disclosure>, hash: Hasher, cfg: Config)
    requires Ample(value, claims, ds, cfg.limits)
    ensures RestoreBoth(value, claims, ds, hash, cfg) != Err(Limit)
  {
    IntakeNotLimited(ds, 0, EMPTY_INTAKE, hash, cfg.limits);
    var intake := TakeInAll(ds, 0, EMPTY_INTAKE, hash, cfg.limits);
    if intake.Ok? {
      IntakeExact(ds, hash, cfg.limits);
      var st := Started(intake.value);
      HeldWeighs(st.pending, ds, hash);
      HeldCovered(st.pending, ds, hash, cfg.limits);
      PendingNotLimited(DigestList(ds, hash), value, claims, st, cfg);
    }
  }
}
