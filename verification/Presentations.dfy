/** The promises of selective disclosure. A token carries a payload and perhaps protected claims, both
    issued; a presentation shows any selection of the disclosures. A Verifier succeeds exactly when
    the limits cover the cost and the selection is ancestor-closed, and sees exactly what was selected;
    a Holder succeeds exactly when everything is presented, and gets the original claims back. */
module Presentations {
  import opened Values
  import opened Disclosures
  import opened ClaimMatching
  import opened Restoration
  import opened RestorationModes
  import opened Intakes
  import opened RestorationLaws
  import opened Issuance
  import opened Redactions
  import opened IssuanceFacts
  import opened Selections
  import opened Closures
  import opened Showings
  import opened IssueRestore
  import opened Originals
  import opened MatchingMaps
  import opened Copies

  // ---- what is issued ---------------------------------------------------------------------------

  /** Pre-issuance claims and who issues them. */
  datatype Draft = Draft(claims: Value, issuer: Issuer)

  /** The payload of a token and the protected claims it carries, if any. */
  datatype Offer = Offer(payload: Draft, protectedClaims: Option<Draft>)

  predicate Issues(d: Draft) {
    Issue(d.claims, d.issuer).Ok?
  }

  function Hidden(d: Draft): seq<Disclosure>
    requires Issues(d)
  {
    Issue(d.claims, d.issuer).value.disclosures
  }

  function Tree(d: Draft): (tree: Value)
    requires Issues(d)
    ensures tree.Map?
  {
    Issue(d.claims, d.issuer).value.value
  }

  predicate BothIssue(o: Offer) {
    Issues(o.payload) && (o.protectedClaims.Some? ==> Issues(o.protectedClaims.value))
  }

  /** Every disclosure of the token, those of the payload first. */
  function All(o: Offer): seq<Disclosure>
    requires BothIssue(o)
  {
    Hidden(o.payload) + if o.protectedClaims.Some? then Hidden(o.protectedClaims.value) else []
  }

  function Base(o: Offer): nat
    requires Issues(o.payload)
  {
    |Hidden(o.payload)|
  }

  function ClaimsTree(o: Offer): Option<Value>
    requires BothIssue(o)
  {
    if o.protectedClaims.Some? then Some(Tree(o.protectedClaims.value)) else None
  }

  /** Both were issued, with one hash function; what each issuance guarantees by itself, that no digest
      and no salt repeats, is also asked of the two together. */
  ghost predicate Offers(o: Offer) {
    && BothIssue(o)
    && (o.protectedClaims.Some? ==>
          && o.protectedClaims.value.issuer.hash == o.payload.issuer.hash
          && DistinctDigests(All(o), o.payload.issuer.hash)
          && DistinctSalts(All(o)))
  }

  lemma {:induction false} IssuedFacts(d: Draft)
    requires Issues(d)
    ensures |Hidden(d)| == Count(d.claims) && DistinctDigests(Hidden(d), d.issuer.hash) && DistinctSalts(Hidden(d))
    ensures ValidDisclosures(Hidden(d))
  {
    IssueValueGrows(d.claims, EMPTY_CONTEXT, d.issuer, 0);
  }

  lemma {:induction false} OfferFacts(o: Offer)
    requires Offers(o)
    ensures Base(o) == Count(o.payload.claims) && DistinctDigests(All(o), o.payload.issuer.hash) && DistinctSalts(All(o))
    ensures |All(o)| == Base(o) + if o.protectedClaims.Some? then Count(o.protectedClaims.value.claims) else 0
    ensures ValidDisclosures(All(o))
  {
    IssuedFacts(o.payload);
    if o.protectedClaims.Some? {
      IssuedFacts(o.protectedClaims.value);
    } else {
      assert Hidden(o.payload) + [] == Hidden(o.payload);
    }
  }

  // ---- presenting a selection -------------------------------------------------------------------

  /** The disclosures numbered by `idx`, in that order. */
  function Pick(all: seq<Disclosure>, idx: seq<nat>): (ds: seq<Disclosure>)
    requires forall k :: 0 <= k < |idx| ==> idx[k] < |all|
    ensures |ds| == |idx|
  {
    seq(|idx|, k requires 0 <= k < |idx| => all[idx[k]])
  }

  ghost function Numbers(idx: seq<nat>): set<nat> {
    set i | i in idx
  }

  /** A selection of the disclosures, each at most once, in any order. */
  ghost predicate Selects(idx: seq<nat>, all: seq<Disclosure>) {
    && (forall k :: 0 <= k < |idx| ==> idx[k] < |all|)
    && (forall j, k :: 0 <= j < k < |idx| ==> idx[j] != idx[k])
  }

  lemma {:induction false} ApartIsFull(ds: seq<Disclosure>, hash: Hasher)
    requires DistinctDigests(ds, hash) && DistinctSalts(ds)
    ensures |Digests(ds, hash)| == |ds| && |Salts(ds)| == |ds|
  {
    if ds == [] {
      assert Digests(ds, hash) == {} && Salts(ds) == {};
    } else {
      DigestsFirst(ds, hash);
      FirstApart(ds, hash);
      ApartIsFull(ds[1..], hash);
    }
  }

  lemma {:induction false} FirstApart(ds: seq<Disclosure>, hash: Hasher)
    requires ds != [] && DistinctDigests(ds, hash) && DistinctSalts(ds)
    ensures DigestOf(ds[0], hash) !in Digests(ds[1..], hash) && ds[0].kind.salt !in Salts(ds[1..])
    ensures DistinctDigests(ds[1..], hash) && DistinctSalts(ds[1..])
  {
    forall d | d in ds[1..] ensures DigestOf(d, hash) != DigestOf(ds[0], hash) && d.kind.salt != ds[0].kind.salt {
      var k :| 0 <= k < |ds[1..]| && ds[1..][k] == d;
      assert ds[k + 1] == d;
    }
  }

  lemma {:induction false} PickApart(all: seq<Disclosure>, idx: seq<nat>, hash: Hasher)
    requires Selects(idx, all) && DistinctDigests(all, hash) && DistinctSalts(all)
    ensures DistinctDigests(Pick(all, idx), hash) && DistinctSalts(Pick(all, idx))
  {
    var ds := Pick(all, idx);
    forall j, k | 0 <= j < k < |ds| ensures DigestOf(ds[j], hash) != DigestOf(ds[k], hash) && ds[j].kind.salt != ds[k].kind.salt {
      if idx[j] < idx[k] {
        assert DigestOf(all[idx[j]], hash) != DigestOf(all[idx[k]], hash) && all[idx[j]].kind.salt != all[idx[k]].kind.salt;
      } else {
        assert DigestOf(all[idx[k]], hash) != DigestOf(all[idx[j]], hash) && all[idx[k]].kind.salt != all[idx[j]].kind.salt;
      }
    }
  }

  /** The map built from the selection is the pending map of its numbers. */
  lemma {:induction false} PickIsPending(m: map<Bytes, Disclosure>, idx: seq<nat>, run: Run)
    requires Fair(run) && Selects(idx, run.all) && Holds(m, Pick(run.all, idx), run.env.hash)
    ensures m == PendingOf(Numbers(idx), run)
  {
    var sel, p, ds := Numbers(idx), PendingOf(Numbers(idx), run), Pick(run.all, idx);
    forall h | h in m ensures h in p && p[h] == m[h] {
      var k :| 0 <= k < |ds| && ds[k] == m[h];
      PendingAt(sel, idx[k], run);
    }
    forall h | h in p ensures h in m {
      BelowOnly(|run.all|, sel, run, h);
      var i: nat :| i < |run.all| && i in sel && h == DigestAt(i, run) && p[h] == run.all[i];
      var k :| 0 <= k < |idx| && idx[k] == i;
      assert ds[k] == run.all[i];
    }
  }

  /** Where no digest and no salt repeats, only a limit can refuse the disclosures. */
  lemma {:induction false} OnlyLimitsRefuse(ds: seq<Disclosure>, index: nat, into: Intake, hash: Hasher, limits: Limits)
    requires NoneRepeats(ds, into, hash)
    ensures TakeInAll(ds, index, into, hash, limits).Ok? || TakeInAll(ds, index, into, hash, limits) == Err(Limit)
    decreases ds
  {
    hide NoneRepeats, Digests, Salts;
    if ds != [] {
      var next := Extended(ds[0], into, hash);
      assert next.entries.Keys == into.entries.Keys + {DigestOf(ds[0], hash)};
      NoneRepeatsFirst(ds, into, next, hash);
      OnlyLimitsRefuse(ds[1..], index + 1, next, hash, limits);
    }
  }

  /** Taking in a selection succeeds exactly when its sizes fit; otherwise a limit stopped it. */
  lemma {:induction false} SelectionTaken(o: Offer, idx: seq<nat>, cfg: Config)
    requires Offers(o) && Selects(idx, All(o)) && cfg.mode == Verifier
    ensures var ds, run := Pick(All(o), idx), PayloadRun(o, Numbers(idx), cfg);
            TakenIn(ds, o.payload.issuer.hash, cfg.limits, if SizesFit(ds, 0, EMPTY_INTAKE, cfg.limits) then Some(PendingOf(Numbers(idx), run)) else None)
  {
    var ds, hash := Pick(All(o), idx), o.payload.issuer.hash;
    OfferFacts(o);
    PickApart(All(o), idx, hash);
    ApartIsFull(ds, hash);
    IntakeExact(ds, hash, cfg.limits);
    assert EMPTY_INTAKE.entries.Keys + Digests(ds, hash) == Digests(ds, hash) && EMPTY_INTAKE.salts + Salts(ds) == Salts(ds);
    OnlyLimitsRefuse(ds, 0, EMPTY_INTAKE, hash, cfg.limits);
    if SizesFit(ds, 0, EMPTY_INTAKE, cfg.limits) {
      PickIsPending(TakeInAll(ds, 0, EMPTY_INTAKE, hash, cfg.limits).value.entries, idx, PayloadRun(o, Numbers(idx), cfg));
    }
  }

  /** The intake ended with this pending map, or with a limit error. */
  ghost predicate TakenIn(ds: seq<Disclosure>, hash: Hasher, limits: Limits, pending: Option<map<Bytes, Disclosure>>) {
    var r := TakeInAll(ds, 0, EMPTY_INTAKE, hash, limits);
    if pending.None? then r == Err(Limit)
    else r.Ok? && Started(r.value) == RState(pending.value, 0, 0, 0, TotalItems(ds)) && TotalItems(ds) <= limits.maxItems
  }

  // ---- restoring the selection ------------------------------------------------------------------

  function PayloadRun(o: Offer, sel: set<nat>, cfg: Config): Run
    requires BothIssue(o)
  {
    Run(All(o), 0, sel, o.payload.issuer, cfg)
  }

  function ClaimsRun(o: Offer, sel: set<nat>, cfg: Config): Run
    requires BothIssue(o) && o.protectedClaims.Some?
  {
    Run(All(o), Base(o), sel, o.protectedClaims.value.issuer, cfg)
  }

  function ShownPayload(o: Offer, sel: set<nat>, cfg: Config): Value
    requires BothIssue(o)
  {
    Shown(o.payload.claims, 0, PayloadRun(o, sel, cfg))
  }

  function ShownClaims(o: Offer, sel: set<nat>, cfg: Config): Option<Value>
    requires BothIssue(o)
  {
    if o.protectedClaims.Some? then Some(Shown(o.protectedClaims.value.claims, Base(o), ClaimsRun(o, sel, cfg))) else None
  }

  function MetInClaims(o: Offer, sel: set<nat>): Met
    requires BothIssue(o)
  {
    if o.protectedClaims.Some? then MetIn(o.protectedClaims.value.claims, Base(o), sel) else NOTHING_MET
  }

  /** What a restoration meets: the protected claims come first. */
  function MetBoth(o: Offer, sel: set<nat>): Met
    requires BothIssue(o)
  {
    Both(MetInClaims(o, sel), MetIn(o.payload.claims, 0, sel))
  }

  function LoadOfClaims(o: Offer, sel: set<nat>, limits: Limits): Load
    requires BothIssue(o)
  {
    if o.protectedClaims.Some? then LoadOf(o.protectedClaims.value.claims, Base(o), sel, 0, limits) else NO_LOAD
  }

  function LoadOfBoth(o: Offer, sel: set<nat>, limits: Limits): Load
    requires BothIssue(o)
  {
    Plus(LoadOfClaims(o, sel, limits), LoadOf(o.payload.claims, 0, sel, 0, limits))
  }

  ghost predicate ClosedBoth(o: Offer, sel: set<nat>)
    requires BothIssue(o)
  {
    && AncestorClosed(o.payload.claims, 0, sel)
    && (o.protectedClaims.Some? ==> AncestorClosed(o.protectedClaims.value.claims, Base(o), sel))
  }

  /** The limits cover the disclosures presented and the values visited on the way, each of which is
      charged once, at its own depth. */
  ghost predicate Affords(o: Offer, idx: seq<nat>, limits: Limits)
    requires BothIssue(o) && Selects(idx, All(o))
  {
    && SizesFit(Pick(All(o), idx), 0, EMPTY_INTAKE, limits)
    && LoadOfBoth(o, Numbers(idx), limits).fits
    && TotalItems(Pick(All(o), idx)) + LoadOfBoth(o, Numbers(idx), limits).visits <= limits.maxItems
  }

  /** One issued tree among all disclosures. */
  lemma {:induction false} TreeReturns(d: Draft, run: Run, st: RState, r: set<nat>)
    requires Issues(d) && Fair(run) && run.env == d.issuer
    requires run.base + |Hidden(d)| <= |run.all| && run.all[run.base..run.base + |Hidden(d)|] == Hidden(d)
    requires Ready(st, r, run.base, |Hidden(d)|, run)
    ensures ValueComes(RestoreValue(Tree(d), st, run.cfg, 0), Shown(d.claims, run.base, run), st, r,
                       MetIn(d.claims, run.base, run.sel), LoadOf(d.claims, run.base, run.sel, 0, run.cfg.limits), run)
  {
    hide RestoreValue, IssueValue, PendingOf, Shown, MetIn, LoadOf, Ready, ValueComes, Fair;
    IssuedFacts(d);
    var end := IssueValue(d.claims, EMPTY_CONTEXT, d.issuer, 0).value.1;
    assert Within(end, run) && Start(EMPTY_CONTEXT, run) == run.base;
    ValueReturns(d.claims, EMPTY_CONTEXT, Tree(d), end, 0, st, r, run, 0);
  }

  lemma {:induction false} ClaimsReturn(o: Offer, sel: set<nat>, cfg: Config, st: RState)
    requires Offers(o) && cfg.mode == Verifier && st.pending == PendingOf(sel, PayloadRun(o, sel, cfg)) && st.visited <= cfg.limits.maxItems
    ensures var run := PayloadRun(o, sel, cfg);
            RestoreProtected(ClaimsTree(o), st, cfg) ==
            if Pays(st, LoadOfClaims(o, sel, cfg.limits), run)
            then Ok((ShownClaims(o, sel, cfg), Later(st, sel, MetInClaims(o, sel), LoadOfClaims(o, sel, cfg.limits), run)))
            else Err(Limit)
  {
    hide RestoreValue, PendingBelow, Shown, MetIn, LoadOf;
    var run := PayloadRun(o, sel, cfg);
    OfferFacts(o);
    if o.protectedClaims.Some? {
      var d, own := o.protectedClaims.value, ClaimsRun(o, sel, cfg);
      PendingSame(|run.all|, sel, run, own);
      PendingSame(|run.all|, sel - MetInClaims(o, sel).used, run, own);
      TreeReturns(d, own, st, sel);
    } else {
      LaterNothing(st, sel, run);
    }
  }

  /** What the protected claims met lies beyond the payload's numbers. */
  lemma {:induction false} MetApart(o: Offer, sel: set<nat>)
    requires Offers(o)
    ensures forall i :: i in MetInClaims(o, sel).used ==> Base(o) <= i
    ensures forall i :: i in MetIn(o.payload.claims, 0, sel).used ==> i < Base(o)
  {
    OfferFacts(o);
    MetInRange(o.payload.claims, 0, sel);
    if o.protectedClaims.Some? {
      MetInRange(o.protectedClaims.value.claims, Base(o), sel);
    }
  }

  /** Nothing stays pending exactly when the selection is ancestor-closed. */
  lemma {:induction false} LeftOver(o: Offer, sel: set<nat>, cfg: Config)
    requires Offers(o) && cfg.mode == Verifier && forall i :: i in sel ==> i < |All(o)|
    ensures PendingOf(sel - MetBoth(o, sel).used, PayloadRun(o, sel, cfg)) == map[] <==> ClosedBoth(o, sel)
  {
    hide PendingOf, MetIn, AncestorClosed;
    var used := MetBoth(o, sel).used;
    OfferFacts(o);
    NonePending(sel - used, PayloadRun(o, sel, cfg));
    MetApart(o, sel);
    MetAllExactlyWhenClosed(o.payload.claims, 0, sel);
    if o.protectedClaims.Some? {
      MetAllExactlyWhenClosed(o.protectedClaims.value.claims, Base(o), sel);
    }
    if ClosedBoth(o, sel) {
      forall i | i in sel ensures i in used {
      }
    }
    if sel - used == {} {
      forall i | i in sel ensures i in used {
        assert i !in sel - used;
      }
    }
  }

  lemma {:induction false} PayloadReturns(o: Offer, sel: set<nat>, cfg: Config, st: RState)
    requires Offers(o) && cfg.mode == Verifier
    requires st.pending == PendingOf(sel - MetInClaims(o, sel).used, PayloadRun(o, sel, cfg)) && st.visited <= cfg.limits.maxItems
    ensures var run := PayloadRun(o, sel, cfg);
            ValueComes(RestoreValue(Tree(o.payload), st, cfg, 0), ShownPayload(o, sel, cfg), st, sel - MetInClaims(o, sel).used,
                       MetIn(o.payload.claims, 0, sel), LoadOf(o.payload.claims, 0, sel, 0, cfg.limits), run)
  {
    hide RestoreValue, PendingOf, Shown, MetIn, LoadOf, ValueComes;
    OfferFacts(o);
    MetApart(o, sel);
    TreeReturns(o.payload, PayloadRun(o, sel, cfg), st, sel - MetInClaims(o, sel).used);
  }

  /** Both restorations and the final test, from the pending map of a selection. */
  lemma {:induction false} PendingReturns(o: Offer, sel: set<nat>, cfg: Config, st: RState)
    requires Offers(o) && cfg.mode == Verifier && forall i :: i in sel ==> i < |All(o)|
    requires st.pending == PendingOf(sel, PayloadRun(o, sel, cfg)) && st.visited <= cfg.limits.maxItems
    ensures RestorePending(Tree(o.payload), ClaimsTree(o), st, cfg) ==
            if !Pays(st, LoadOfBoth(o, sel, cfg.limits), PayloadRun(o, sel, cfg)) then Err(Limit)
            else if !ClosedBoth(o, sel) then Err(Verify)
            else Ok((ShownPayload(o, sel, cfg), ShownClaims(o, sel, cfg),
                     Later(st, sel, MetBoth(o, sel), LoadOfBoth(o, sel, cfg.limits), PayloadRun(o, sel, cfg))))
  {
    hide RestoreValue, RestoreProtected, PendingOf, Shown, MetIn, LoadOf, ClosedBoth, All, Tree, LoadOfClaims, MetInClaims, ShownClaims, ClaimsTree;
    var run, claimsLoad, load := PayloadRun(o, sel, cfg), LoadOfClaims(o, sel, cfg.limits), LoadOf(o.payload.claims, 0, sel, 0, cfg.limits);
    var met, more := MetInClaims(o, sel), MetIn(o.payload.claims, 0, sel);
    ClaimsReturn(o, sel, cfg, st);
    LaterBoth(st, sel, met, more, claimsLoad, load, run);
    if Pays(st, claimsLoad, run) {
      var st1 := Later(st, sel, met, claimsLoad, run);
      PayloadReturns(o, sel, cfg, st1);
      LeftOver(o, sel, cfg);
    }
  }

  /** A Verifier shown any selection of the disclosures: a limit error exactly when the limits do not
      cover the cost, a verification error exactly when the selection is not ancestor-closed, and
      otherwise what the selection shows, with every presented disclosure counted. */
  lemma {:induction false} PresentedRestores(o: Offer, idx: seq<nat>, cfg: Config)
    requires Offers(o) && Selects(idx, All(o)) && cfg.mode == Verifier
    ensures var sel, met := Numbers(idx), MetBoth(o, Numbers(idx));
            RestoreBoth(Tree(o.payload), ClaimsTree(o), Pick(All(o), idx), o.payload.issuer.hash, cfg) ==
            if !Affords(o, idx, cfg.limits) then Err(Limit)
            else if !ClosedBoth(o, sel) then Err(Verify)
            else Ok((ShownPayload(o, sel, cfg), ShownClaims(o, sel, cfg),
                     RState(map[], met.disclosed, met.decoys, met.removed,
                            TotalItems(Pick(All(o), idx)) + LoadOfBoth(o, sel, cfg.limits).visits)))
  {
    hide RestorePending, PendingOf, Shown, MetBoth, LoadOfBoth, ClosedBoth, All, Tree, ShownClaims, ClaimsTree, TakeInAll;
    var ds, sel, run := Pick(All(o), idx), Numbers(idx), PayloadRun(o, Numbers(idx), cfg);
    SelectionTaken(o, idx, cfg);
    if SizesFit(ds, 0, EMPTY_INTAKE, cfg.limits) {
      var st := RState(PendingOf(sel, run), 0, 0, 0, TotalItems(ds));
      PendingReturns(o, sel, cfg, st);
      LeftOver(o, sel, cfg);
    }
  }

  // ---- the plain Verifier -----------------------------------------------------------------------

  function VisibleClaims(o: Offer, sel: set<nat>): Option<Value>
    requires BothIssue(o)
  {
    if o.protectedClaims.Some? then Some(Visible(o.protectedClaims.value.claims, Base(o), sel)) else None
  }

  /** What a Verifier reports of a selection. */
  function VerifierReport(o: Offer, sel: set<nat>): Report
    requires BothIssue(o)
  {
    var met := MetBoth(o, sel);
    Report(Visible(o.payload.claims, 0, sel), VisibleClaims(o, sel), met.disclosed, met.decoys, met.removed)
  }

  function Presented(o: Offer, idx: seq<nat>, canon: Canon, cfg: Config): Result<Report>
    requires BothIssue(o) && forall k :: 0 <= k < |idx| ==> idx[k] < |All(o)|
  {
    Restore(Tree(o.payload), ClaimsTree(o), Pick(All(o), idx), o.payload.issuer.hash, canon, cfg)
  }

  /** Without the structural validator: the exact result of every presentation, for all limits. */
  lemma {:induction false} VerifierCriterion(o: Offer, idx: seq<nat>, canon: Canon, cfg: Config)
    requires Offers(o) && Selects(idx, All(o)) && cfg.mode == Verifier && !cfg.validateClaims
    ensures Presented(o, idx, canon, cfg) ==
            if !Affords(o, idx, cfg.limits) then Err(Limit)
            else if !ClosedBoth(o, Numbers(idx)) then Err(Verify)
            else Ok(VerifierReport(o, Numbers(idx)))
    ensures Presented(o, idx, canon, cfg).Ok? ==>
              VerifierReport(o, Numbers(idx)).disclosed + VerifierReport(o, Numbers(idx)).decoys == |idx|
  {
    hide RestoreBoth, Shown, Visible, MetBoth, Affords, ClosedBoth, All, Tree, ClaimsTree;
    var sel := Numbers(idx);
    PresentedRestores(o, idx, cfg);
    ShownBothAreVisible(o, sel, cfg);
    OfferFacts(o);
    assert Dropping(cfg) == cfg;
    PlainSound(Tree(o.payload), ClaimsTree(o), Pick(All(o), idx), o.payload.issuer.hash, canon, cfg);
  }

  lemma {:induction false} ShownBothAreVisible(o: Offer, sel: set<nat>, cfg: Config)
    requires BothIssue(o) && !cfg.validateClaims
    ensures ShownPayload(o, sel, cfg) == Visible(o.payload.claims, 0, sel) && ShownClaims(o, sel, cfg) == VisibleClaims(o, sel)
  {
    ShownIsVisible(o.payload.claims, 0, PayloadRun(o, sel, cfg));
    if o.protectedClaims.Some? {
      ShownIsVisible(o.protectedClaims.value.claims, Base(o), ClaimsRun(o, sel, cfg));
    }
  }

  // ---- the structural validator -----------------------------------------------------------------

  /** Claims the payload and the protected claims share are originally the same. */
  ghost predicate Honest(o: Offer)
    requires BothIssue(o)
  {
    o.protectedClaims.Some? ==>
      SameWhereShared(Original(o.payload.claims).entries, Original(o.protectedClaims.value.claims).entries)
  }

  ghost predicate SameWhereShared(a: seq<Entry>, b: seq<Entry>) {
    forall i, j :: 0 <= i < |a| && 0 <= j < |b| && a[i].key == b[j].key ==> a[i].val == b[j].val
  }

  lemma {:induction false} DraftIsIssuable(d: Draft)
    requires Issues(d)
    ensures d.claims.Map? && Issuable(d.claims)
  {
    IssuedIsIssuable(d.claims, EMPTY_CONTEXT, d.issuer, 0);
  }

  /** The original claim behind an entry shown of an issued map. */
  lemma {:induction false} ShownOriginal(entries: seq<Entry>, n: nat, run: Run, x: Entry) returns (i: nat, k: nat)
    requires Issuable(Map(entries)) && n + CountEntries(entries) <= |run.all|
    requires x in Shown(Map(entries), n, run).entries && x.key != REDACTED_KEYS_LABEL
    ensures i < |entries| && IssuableEntry(entries[i]) && !IsDecoy(entries[i].key)
    ensures Offset(entries, n, i) + CountEntry(entries[i]) <= |run.all| && x == ShownEntry(entries[i], Offset(entries, n, i), run)
    ensures k < |Original(Map(entries)).entries| && Original(Map(entries)).entries[k] == Entry(x.key, Original(entries[i].val))
  {
    var full := Original(Map(entries)).entries;
    ShownCovered(entries, n, run);
    var at :| 0 <= at < |Shown(Map(entries), n, run).entries| && Shown(Map(entries), n, run).entries[at] == x;
    k :| 0 <= k < |full| && full[k].key == x.key;
    var j;
    i, j := SameOrigin(entries, n, run, x, full[k]);
  }

  /** Two shown copies of an honest token never disagree on a claim both show. */
  lemma {:induction false} HonestMapsMatch(a: seq<Entry>, n: nat, runA: Run, b: seq<Entry>, m: nat, runB: Run, canon: Canon)
    requires Issuable(Map(a)) && runA.cfg.validateClaims && n + CountEntries(a) <= |runA.all|
    requires Issuable(Map(b)) && runB.cfg.validateClaims && m + CountEntries(b) <= |runB.all|
    requires SameWhereShared(Original(Map(a)).entries, Original(Map(b)).entries)
    requires View(Shown(Map(a), n, runA), true) && View(Shown(Map(b), m, runB), true)
    ensures SharedMatch(Shown(Map(a), n, runA).entries, Shown(Map(b), m, runB).entries, canon)
  {
    var xs, ys := Shown(Map(a), n, runA).entries, Shown(Map(b), m, runB).entries;
    forall i, j | 0 <= i < |xs| && 0 <= j < |ys| && ys[j].key == xs[i].key && ys[j].key != REDACTED_KEYS_LABEL
      ensures ClaimValuesMatch(xs[i].val, ys[j].val, canon) == Ok(true)
    {
      EntriesMatchHonestly(a, n, runA, b, m, runB, canon, xs[i], ys[j]);
    }
  }

  lemma {:induction false} EntriesMatchHonestly(a: seq<Entry>, n: nat, runA: Run, b: seq<Entry>, m: nat, runB: Run, canon: Canon, x: Entry, y: Entry)
    requires Issuable(Map(a)) && runA.cfg.validateClaims && n + CountEntries(a) <= |runA.all|
    requires Issuable(Map(b)) && runB.cfg.validateClaims && m + CountEntries(b) <= |runB.all|
    requires SameWhereShared(Original(Map(a)).entries, Original(Map(b)).entries)
    requires View(Shown(Map(a), n, runA), true) && View(Shown(Map(b), m, runB), true)
    requires x in Shown(Map(a), n, runA).entries && y in Shown(Map(b), m, runB).entries
    requires x.key == y.key && x.key != REDACTED_KEYS_LABEL
    ensures ClaimValuesMatch(x.val, y.val, canon) == Ok(true)
  {
    var i, k := ShownOriginal(a, n, runA, x);
    var j, l := ShownOriginal(b, m, runB, y);
    assert ViewEntry(x, true) && ViewEntry(y, true);
    hide Shown, Original, ClaimValuesMatch, View, Issuable;
    CopiesMatch(a[i].val, Offset(a, n, i), runA, b[j].val, Offset(b, m, j), runB, canon);
  }

  /** Every claim shown by both the payload and the protected claims matches. */
  ghost predicate ShownAgree(o: Offer, sel: set<nat>, canon: Canon, cfg: Config)
    requires BothIssue(o)
  {
    MapsMatching(ShownPayload(o, sel, cfg), ShownClaims(o, sel, cfg), canon)
  }

  lemma {:induction false} HonestAgrees(o: Offer, sel: set<nat>, canon: Canon, cfg: Config)
    requires Offers(o) && Honest(o) && cfg.validateClaims
    requires View(ShownPayload(o, sel, cfg), true) && (o.protectedClaims.Some? ==> View(ShownClaims(o, sel, cfg).value, true))
    ensures ShownAgree(o, sel, canon, cfg)
  {
    hide Shown, Original, View, Issuable, SharedMatch, SameWhereShared;
    OfferFacts(o);
    DraftIsIssuable(o.payload);
    if o.protectedClaims.Some? {
      var d := o.protectedClaims.value;
      DraftIsIssuable(d);
      assert Map(o.payload.claims.entries) == o.payload.claims && Map(d.claims.entries) == d.claims;
      HonestMapsMatch(o.payload.claims.entries, 0, PayloadRun(o, sel, cfg), d.claims.entries, Base(o), ClaimsRun(o, sel, cfg), canon);
    }
  }

  /** With the structural validator: the same verdicts, unless a claim shown twice does not match. A
      token whose shared claims are originally the same is never refused for it, whatever is hidden
      on either side, and gets the report of the plain path. */
  lemma {:induction false} StructuralCriterion(o: Offer, idx: seq<nat>, canon: Canon, cfg: Config)
    requires Offers(o) && Selects(idx, All(o)) && cfg.mode == Verifier && cfg.validateClaims && TellsLabels(canon)
    ensures Presented(o, idx, canon, cfg) ==
            if !Affords(o, idx, cfg.limits) then Err(Limit)
            else if !ClosedBoth(o, Numbers(idx)) || !ShownAgree(o, Numbers(idx), canon, cfg) then Err(Verify)
            else Ok(VerifierReport(o, Numbers(idx)))
    ensures Honest(o) ==> Presented(o, idx, canon, cfg) == Presented(o, idx, canon, Dropping(cfg))
  {
    hide RestoreBoth, Shown, Visible, MetBoth, Affords, ClosedBoth, All, Tree, ClaimsTree, Honest, MapsMatching, MatchingClaims, TellsLabels;
    var sel, ds, hash := Numbers(idx), Pick(All(o), idx), o.payload.issuer.hash;
    PresentedRestores(o, idx, cfg);
    PresentedRestores(o, idx, Dropping(cfg));
    VerifierCriterion(o, idx, canon, Dropping(cfg));
    assert Keeping(cfg) == cfg;
    StructuralRefinesPlain(Tree(o.payload), ClaimsTree(o), ds, hash, canon, cfg);
    if Affords(o, idx, cfg.limits) && ClosedBoth(o, sel) {
      OfferFacts(o);
      BothAreViews(Tree(o.payload), ClaimsTree(o), ds, hash, cfg);
      RestoredIsMap(Tree(o.payload), ClaimsTree(o), ds, hash, cfg);
      MatchingDecides(ShownPayload(o, sel, cfg), ShownClaims(o, sel, cfg), canon);
      if Honest(o) {
        HonestAgrees(o, sel, canon, cfg);
      }
    }
  }

  // ---- the Holder -------------------------------------------------------------------------------

  function OriginalClaims(o: Offer): Option<Value> {
    if o.protectedClaims.Some? then Some(Original(o.protectedClaims.value.claims)) else None
  }

  /** The original claims, with every request counted once. */
  function HolderReport(o: Offer): Report {
    var more := if o.protectedClaims.Some? then o.protectedClaims.value.claims else NULL;
    Report(Original(o.payload.claims), OriginalClaims(o),
           Redactions58(o.payload.claims) + Redactions58(more), Decoys62(o.payload.claims) + Decoys62(more), 0)
  }

  lemma {:induction false} EverythingShown(o: Offer, sel: set<nat>)
    requires Offers(o) && Whole(0, |All(o)|, sel)
    ensures ClosedBoth(o, sel) && VerifierReport(o, sel) == HolderReport(o)
  {
    OfferFacts(o);
    var p := o.payload.claims;
    WholeVisible(p, 0, sel);
    WholeMet(p, 0, sel);
    WholeIsClosed(p, 0, sel);
    if o.protectedClaims.Some? {
      var c := o.protectedClaims.value.claims;
      WholeVisible(c, Base(o), sel);
      WholeMet(c, Base(o), sel);
      WholeIsClosed(c, Base(o), sel);
    }
  }

  lemma {:induction false} WholeIsClosed(v: Value, n: nat, sel: set<nat>)
    requires Whole(n, Count(v), sel)
    ensures AncestorClosed(v, n, sel)
  {
    forall i | n <= i < n + Count(v) && i in sel && Parent(v, n, i).Some? ensures Parent(v, n, i).value in sel {
      ParentAbove(v, n, i);
    }
  }

  lemma {:induction false} NothingHidden(o: Offer, sel: set<nat>)
    requires Offers(o) && MetBoth(o, sel).removed == 0
    ensures Whole(0, |All(o)|, sel)
  {
    OfferFacts(o);
    NothingRemoved(o.payload.claims, 0, sel);
    if o.protectedClaims.Some? {
      NothingRemoved(o.protectedClaims.value.claims, Base(o), sel);
    }
  }

  /** A Holder succeeds exactly when every disclosure is presented, in any order, the limits cover the
      cost and, for the structural validator, claims shown twice match, as they do if they were
      originally the same. Then the original claims are back and every request is counted once. */
  lemma {:induction false} HolderCriterion(o: Offer, idx: seq<nat>, canon: Canon, cfg: Config)
    requires Offers(o) && Selects(idx, All(o)) && cfg.mode == Holder
    requires cfg.validateClaims ==> TellsLabels(canon)
    ensures Presented(o, idx, canon, cfg).Ok? <==>
            && |idx| == |All(o)| && Affords(o, idx, cfg.limits)
            && (cfg.validateClaims ==> ShownAgree(o, Numbers(idx), canon, AsVerifier(cfg)))
    ensures !cfg.validateClaims || Honest(o) ==>
              (Presented(o, idx, canon, cfg).Ok? <==> |idx| == |All(o)| && Affords(o, idx, cfg.limits))
    ensures Presented(o, idx, canon, cfg).Ok? ==> Presented(o, idx, canon, cfg).value == HolderReport(o)
  {
    hide Restore, Visible, MetBoth, Affords, ClosedBoth, All, Tree, ClaimsTree, Honest, TellsLabels, ShownAgree, Original;
    var sel, seen := Numbers(idx), AsVerifier(cfg);
    assert AsHolder(cfg) == cfg;
    HolderIsCompleteVerifier(Tree(o.payload), ClaimsTree(o), Pick(All(o), idx), o.payload.issuer.hash, canon, cfg);
    VerifierCriterion(o, idx, canon, Dropping(seen));
    if cfg.validateClaims {
      StructuralCriterion(o, idx, canon, seen);
    } else {
      assert Dropping(seen) == seen;
    }
    if |idx| == |All(o)| {
      EveryNumber(idx, |All(o)|);
      EverythingShown(o, sel);
      assert HolderReport(o).removed == 0;
    }
    if MetBoth(o, sel).removed == 0 {
      NothingHidden(o, sel);
      EverythingShown(o, sel);
      NumbersSize(idx);
      BelowSize(|All(o)|);
      assert Numbers(idx) == Below(|All(o)|);
    }
  }

  /** As many distinct numbers below `n` as there are. */
  lemma {:induction false} EveryNumber(idx: seq<nat>, n: nat)
    requires |idx| == n
    requires forall k :: 0 <= k < |idx| ==> idx[k] < n
    requires forall j, k :: 0 <= j < k < |idx| ==> idx[j] != idx[k]
    ensures Whole(0, n, Numbers(idx))
  {
    NumbersSize(idx);
    BelowSize(n);
    assert Numbers(idx) <= Below(n);
    SubsetOfSameSize(Numbers(idx), Below(n));
  }

  ghost function Below(n: nat): (s: set<nat>)
    ensures forall i: nat :: i in s <==> i < n
  {
    if n == 0 then {} else Below(n - 1) + {n - 1}
  }

  lemma {:induction false} BelowSize(n: nat)
    ensures |Below(n)| == n
  {
    if n != 0 {
      BelowSize(n - 1);
    }
  }

  lemma {:induction false} NumbersSize(idx: seq<nat>)
    requires forall j, k :: 0 <= j < k < |idx| ==> idx[j] != idx[k]
    ensures |Numbers(idx)| == |idx|
  {
    if idx != [] {
      NumbersSize(idx[1..]);
      assert Numbers(idx) == {idx[0]} + Numbers(idx[1..]);
      assert idx[0] !in idx[1..];
    }
  }

  lemma {:induction false} SubsetOfSameSize(a: set<nat>, b: set<nat>)
    requires a <= b && |a| == |b|
    ensures a == b
  {
    assert b == a + (b - a);
  }
}
