/** Partly disclosed copies of issued claims, with the markers of what is hidden kept: each can be
    completed to the original claims, so two copies never disagree (sd-cwt/src/validation.rs). */
module Copies {
  import opened Values
  import opened ClaimMatching
  import opened MatchLaws
  import opened Completions
  import opened Restoration
  import opened Issuance
  import opened Redactions
  import opened IssuanceFacts
  import opened Selections
  import opened Showings
  import opened Originals

  // ---- what issuing accepts ---------------------------------------------------------------------

  /** The claims under one map are told apart, keys are labels, and no reserved tag stands where it
      requests nothing. */
  ghost predicate Issuable(v: Value)
    decreases v, 1
  {
    match v
    case Map(entries) => DistinctNormalKeys(entries) && IssuableEntries(entries)
    case Array(items) => IssuableItems(items)
    case Tag(tag, inner) => !IsReservedTag(tag) && Issuable(inner)
    case _ => v != REDACTED_KEYS_LABEL
  }

  ghost predicate IssuableEntries(entries: seq<Entry>)
    decreases entries, 0
  {
    entries == [] || (IssuableEntry(entries[0]) && IssuableEntries(entries[1..]))
  }

  ghost predicate IssuableEntry(e: Entry)
    decreases e, 0
  {
    IsDecoy(e.key) || (LabelOf(NormalKey(e)).Some? && Issuable(e.val))
  }

  ghost predicate IssuableItems(items: seq<Value>)
    decreases items, 0
  {
    items == [] || (IssuableItem(items[0]) && IssuableItems(items[1..]))
  }

  ghost predicate IssuableItem(item: Value)
    decreases item, 2
  {
    if Redacts(item) then Issuable(item.inner) else IsDecoy(item) || Issuable(item)
  }

  lemma {:induction false} IssuedIsIssuable(v: Value, ctx: Context, env: Issuer, at: nat)
    requires IssueValue(v, ctx, env, at).Ok?
    ensures Issuable(v)
    decreases v, 1
  {
    var ctx1 := EnterIssue(ctx, at, env.limits).value;
    match v
    case Map(entries) =>
      IssuedEntriesAreIssuable(entries, IssueAcc([], {}, [], ctx1), env, at);
      IssueEntriesKeys(entries, IssueAcc([], {}, [], ctx1), env, at);
    case Array(items) => IssuedItemsAreIssuable(items, [], ctx1, env, at);
    case Tag(_, inner) => IssuedIsIssuable(inner, ctx1, env, at + 1);
    case _ =>
  }

  lemma {:induction false} IssuedEntriesAreIssuable(entries: seq<Entry>, acc: IssueAcc, env: Issuer, at: nat)
    requires IssueEntries(entries, acc, env, at).Ok?
    ensures IssuableEntries(entries)
    decreases entries, 0
  {
    if entries != [] {
      IssuedEntryIsIssuable(entries[0], acc, env, at);
      IssuedEntriesAreIssuable(entries[1..], IssueEntry(entries[0], acc, env, at).value, env, at);
    }
  }

  lemma {:induction false} IssuedEntryIsIssuable(e: Entry, acc: IssueAcc, env: Issuer, at: nat)
    requires IssueEntry(e, acc, env, at).Ok?
    ensures IssuableEntry(e)
    decreases e, 0
  {
    IssueEntryKey(e, acc, env, at);
    var ctx := EnterIssue(acc.ctx, at + 1, env.limits).value;
    if Redacts(e.key) {
      IssuedIsIssuable(e.val, EnterIssue(ctx, at + 2, env.limits).value, env, at + 1);
    } else if !IsDecoy(e.key) {
      IssuedIsIssuable(e.val, ctx, env, at + 1);
    }
  }

  lemma {:induction false} IssuedItemsAreIssuable(items: seq<Value>, out: seq<Value>, ctx: Context, env: Issuer, at: nat)
    requires IssueItems(items, out, ctx, env, at).Ok?
    ensures IssuableItems(items)
    decreases items, 0
  {
    if items != [] {
      IssuedItemIsIssuable(items[0], ctx, env, at);
      var (v, ctx1) := IssueItem(items[0], ctx, env, at).value;
      IssuedItemsAreIssuable(items[1..], out + [v], ctx1, env, at);
    }
  }

  lemma {:induction false} IssuedItemIsIssuable(item: Value, ctx: Context, env: Issuer, at: nat)
    requires IssueItem(item, ctx, env, at).Ok?
    ensures IssuableItem(item)
    decreases item, 2
  {
    if Redacts(item) {
      IssuedIsIssuable(item.inner, EnterIssue(ctx, at + 1, env.limits).value, env, at + 2);
    } else if !IsDecoy(item) {
      IssuedIsIssuable(item, ctx, env, at + 1);
    }
  }

  // ---- where the entries of a copy come from ----------------------------------------------------

  /** The number of the first request of entry `i`. */
  function Offset(entries: seq<Entry>, n: nat, i: nat): nat
    requires i < |entries|
  {
    if i == 0 then n else Offset(entries[1..], n + CountEntry(entries[0]), i - 1)
  }

  lemma {:induction false} OffsetInRange(entries: seq<Entry>, n: nat, i: nat)
    requires i < |entries|
    ensures n <= Offset(entries, n, i) && Offset(entries, n, i) + CountEntry(entries[i]) <= n + CountEntries(entries)
  {
    if i != 0 {
      OffsetInRange(entries[1..], n + CountEntry(entries[0]), i - 1);
    }
  }

  lemma {:induction false} EachIssuable(entries: seq<Entry>, i: nat)
    requires IssuableEntries(entries) && i < |entries|
    ensures IssuableEntry(entries[i])
  {
    if i != 0 {
      EachIssuable(entries[1..], i - 1);
    }
  }

  /** The entry of a copy that shows the claim of a request's own entry. */
  function ShownEntry(e: Entry, n: nat, run: Run): Entry {
    Entry(NormalKey(e), Shown(e.val, n, run))
  }

  lemma {:induction false} ShownOrigin(entries: seq<Entry>, n: nat, run: Run, x: Entry) returns (i: nat)
    requires x in ShownPlain(entries, n, run) || x in ShownRedacted(entries, n, run)
    ensures i < |entries| && !IsDecoy(entries[i].key) && x == ShownEntry(entries[i], Offset(entries, n, i), run)
  {
    var m := n + CountEntry(entries[0]);
    if x in ShownPlainPart(entries[0], n, run) || x in ShownRedactedPart(entries[0], n, run) {
      i := 0;
    } else {
      i := ShownOrigin(entries[1..], m, run, x);
      i := i + 1;
    }
  }

  lemma {:induction false} OriginalOrigin(entries: seq<Entry>, y: Entry) returns (j: nat)
    requires y in OriginalPlain(entries) || y in OriginalRedacted(entries)
    ensures j < |entries| && !IsDecoy(entries[j].key) && y == Entry(NormalKey(entries[j]), Original(entries[j].val))
  {
    if y in PlainOriginal(entries[0]) || y in RedactedOriginal(entries[0]) {
      j := 0;
    } else {
      j := OriginalOrigin(entries[1..], y);
      j := j + 1;
    }
  }

  ghost predicate Among(a: seq<Entry>, b: seq<Entry>, key: Value) {
    HasKey(a, key) || HasKey(b, key)
  }

  lemma {:induction false} AmongLater(a: seq<Entry>, b: seq<Entry>, x: seq<Entry>, y: seq<Entry>, key: Value)
    requires Among(a, b, key)
    ensures Among(x + a, y + b, key)
  {
    if HasKey(a, key) {
      var i :| 0 <= i < |a| && a[i].key == key;
      assert (x + a)[|x| + i].key == key;
    } else {
      var i :| 0 <= i < |b| && b[i].key == key;
      assert (y + b)[|y| + i].key == key;
    }
  }

  lemma {:induction false} AmongFirst(a: seq<Entry>, b: seq<Entry>, x: seq<Entry>, y: seq<Entry>, key: Value)
    requires Among(x, y, key)
    ensures Among(x + a, y + b, key)
  {
    if HasKey(x, key) {
      var i :| 0 <= i < |x| && x[i].key == key;
      assert (x + a)[i].key == key;
    } else {
      var i :| 0 <= i < |y| && y[i].key == key;
      assert (y + b)[i].key == key;
    }
  }

  lemma {:induction false} OriginalHas(entries: seq<Entry>, i: nat)
    requires i < |entries| && !IsDecoy(entries[i].key)
    ensures Among(OriginalPlain(entries), OriginalRedacted(entries), NormalKey(entries[i]))
  {
    var p, q := OriginalPlain(entries[1..]), OriginalRedacted(entries[1..]);
    if i == 0 {
      var x := Entry(NormalKey(entries[0]), Original(entries[0].val));
      assert [x][0] == x;
      AmongFirst(p, q, PlainOriginal(entries[0]), RedactedOriginal(entries[0]), NormalKey(entries[0]));
    } else {
      OriginalHas(entries[1..], i - 1);
      AmongLater(p, q, PlainOriginal(entries[0]), RedactedOriginal(entries[0]), NormalKey(entries[i]));
    }
  }

  /** In a map without hidden hashes every claim is shown. */
  lemma {:induction false} ShownHas(entries: seq<Entry>, n: nat, run: Run, i: nat)
    requires i < |entries| && !IsDecoy(entries[i].key) && run.cfg.validateClaims && n + CountEntries(entries) <= |run.all|
    requires HiddenHashes(entries, n, run) == []
    ensures Among(ShownPlain(entries, n, run), ShownRedacted(entries, n, run), NormalKey(entries[i]))
  {
    var m := n + CountEntry(entries[0]);
    var p, q := ShownPlain(entries[1..], m, run), ShownRedacted(entries[1..], m, run);
    if i == 0 {
      var x := ShownEntry(entries[0], n, run);
      assert HiddenPart(entries[0], n, run) == [];
      assert [x][0] == x;
      AmongFirst(p, q, ShownPlainPart(entries[0], n, run), ShownRedactedPart(entries[0], n, run), NormalKey(entries[0]));
    } else {
      ShownHas(entries[1..], m, run, i - 1);
      AmongLater(p, q, ShownPlainPart(entries[0], n, run), ShownRedactedPart(entries[0], n, run), NormalKey(entries[i]));
    }
  }

  lemma AmongBoth(a: seq<Entry>, b: seq<Entry>, c: seq<Entry>, key: Value)
    requires Among(a, b, key)
    ensures HasKey(a + b + c, key)
  {
    if HasKey(a, key) {
      var i :| 0 <= i < |a| && a[i].key == key;
      assert (a + b + c)[i].key == key;
    } else {
      var i :| 0 <= i < |b| && b[i].key == key;
      assert (a + b + c)[|a| + i].key == key;
    }
  }

  // ---- a copy can be completed ------------------------------------------------------------------

  /** What is shown of issued claims, with markers, is a view of the original claims. */
  lemma {:induction false} ShownCompletes(v: Value, n: nat, run: Run)
    requires Issuable(v) && run.cfg.validateClaims && n + Count(v) <= |run.all|
    ensures Completes(Shown(v, n, run), Original(v))
    decreases v, 1
  {
    match v
    case Map(entries) => ShownMapCompletes(entries, n, run);
    case Array(items) => ShownItemsComplete(items, n, run);
    case Tag(_, inner) => ShownCompletes(inner, n, run);
    case _ =>
  }

  lemma {:induction false} ShownItemsComplete(items: seq<Value>, n: nat, run: Run)
    requires IssuableItems(items) && run.cfg.validateClaims && n + CountItems(items) <= |run.all|
    ensures CompletesItems(ShownItems(items, n, run), OriginalItems(items))
    decreases items, 0
  {
    if items != [] {
      ShownItemsComplete(items[1..], n + CountItem(items[0]), run);
      ShownItemCompletes(items[0], n, run);
      FirstCompletes(ShownItem(items[0], n, run), ItemOriginal(items[0]), ShownItems(items[1..], n + CountItem(items[0]), run), OriginalItems(items[1..]));
    }
  }

  /** A marker stands for nothing or for the original item, and a shown item for itself. */
  ghost predicate ItemCompletes(shown: seq<Value>, original: seq<Value>) {
    if shown == [] then original == []
    else if IsRedactedElement(shown[0]) then |shown| == 1 && |original| <= 1
    else |shown| == 1 && |original| == 1 && Completes(shown[0], original[0])
  }

  lemma FirstCompletes(shown: seq<Value>, original: seq<Value>, rest: seq<Value>, originals: seq<Value>)
    requires ItemCompletes(shown, original) && CompletesItems(rest, originals)
    ensures CompletesItems(shown + rest, original + originals)
  {
    if shown == [] {
      assert shown + rest == rest && original + originals == originals;
    } else {
      assert (shown + rest)[1..] == rest;
      if original == [] {
        assert original + originals == originals;
      } else {
        assert (original + originals)[1..] == originals;
      }
    }
  }

  lemma {:induction false} ShownItemCompletes(item: Value, n: nat, run: Run)
    requires IssuableItem(item) && run.cfg.validateClaims && n + CountItem(item) <= |run.all|
    ensures ItemCompletes(ShownItem(item, n, run), ItemOriginal(item))
    decreases item, 2
  {
    if Redacts(item) {
      if n + Count(item.inner) in run.sel {
        ShownCompletes(item.inner, n, run);
        ShownIsNoMarker(item.inner, n, run);
      } else {
        HiddenIsMarker(n + Count(item.inner), run);
        assert ShownRequest(item.inner, n, run) == HiddenElement(n + Count(item.inner), run);
      }
    } else if IsDecoy(item) {
      HiddenIsMarker(n, run);
    } else {
      ShownCompletes(item, n, run);
      ShownIsNoMarker(item, n, run);
    }
  }

  lemma HiddenIsMarker(i: nat, run: Run)
    requires run.cfg.validateClaims && i < |run.all|
    ensures i in run.sel ==> HiddenElement(i, run) == []
    ensures i !in run.sel ==> |HiddenElement(i, run)| == 1 && IsRedactedElement(HiddenElement(i, run)[0])
  {
  }

  lemma ShownIsNoMarker(v: Value, n: nat, run: Run)
    requires Issuable(v)
    ensures !IsRedactedElement(Shown(v, n, run))
  {
  }

  lemma {:induction false} ShownMapCompletes(entries: seq<Entry>, n: nat, run: Run)
    requires DistinctNormalKeys(entries) && IssuableEntries(entries) && run.cfg.validateClaims && n + CountEntries(entries) <= |run.all|
    ensures CompletesMap(Shown(Map(entries), n, run).entries, Original(Map(entries)).entries)
    decreases entries, 1
  {
    var view, full := Shown(Map(entries), n, run).entries, Original(Map(entries)).entries;
    ShownCovered(entries, n, run);
    OriginalCovered(entries, n, run);
    forall i, j | 0 <= i < |view| && 0 <= j < |full| ensures CompletesEntry(view[i], full[j]) {
      if view[i].key == full[j].key && view[i].key != REDACTED_KEYS_LABEL {
        var x, y := SameOrigin(entries, n, run, view[i], full[j]);
        ShownEntryCompletes(entries[x], Offset(entries, n, x), run);
      }
    }
  }

  lemma {:induction false} ShownEntryCompletes(e: Entry, n: nat, run: Run)
    requires IssuableEntry(e) && !IsDecoy(e.key) && run.cfg.validateClaims && n + CountEntry(e) <= |run.all|
    ensures Completes(Shown(e.val, n, run), Original(e.val))
    decreases e, 0
  {
    ShownCompletes(e.val, n, run);
  }

  /** Entries of a copy and of the original under one key come from one entry of the request tree. */
  lemma SameOrigin(entries: seq<Entry>, n: nat, run: Run, x: Entry, y: Entry) returns (i: nat, j: nat)
    requires DistinctNormalKeys(entries) && IssuableEntries(entries) && n + CountEntries(entries) <= |run.all|
    requires x in Shown(Map(entries), n, run).entries && y in Original(Map(entries)).entries
    requires x.key == y.key && x.key != REDACTED_KEYS_LABEL
    ensures i == j < |entries| && !IsDecoy(entries[i].key) && IssuableEntry(entries[i])
    ensures Offset(entries, n, i) + CountEntry(entries[i]) <= |run.all|
    ensures x == ShownEntry(entries[i], Offset(entries, n, i), run) && y.val == Original(entries[i].val)
  {
    assert x in ShownPlain(entries, n, run) || x in ShownRedacted(entries, n, run);
    i := ShownOrigin(entries, n, run, x);
    j := OriginalOrigin(entries, y);
    assert NormalKey(entries[i]) == NormalKey(entries[j]);
    assert i == j;
    EachIssuable(entries, i);
    OffsetInRange(entries, n, i);
  }

  lemma {:induction false} ShownCovered(entries: seq<Entry>, n: nat, run: Run)
    ensures Covered(Shown(Map(entries), n, run).entries, Original(Map(entries)).entries)
  {
    var view, full := Shown(Map(entries), n, run).entries, Original(Map(entries)).entries;
    forall k | 0 <= k < |view| && view[k].key != REDACTED_KEYS_LABEL ensures HasKey(full, view[k].key) {
      assert view[k] in ShownPlain(entries, n, run) || view[k] in ShownRedacted(entries, n, run);
      var i := ShownOrigin(entries, n, run, view[k]);
      OriginalHas(entries, i);
      AmongBoth(OriginalPlain(entries), OriginalRedacted(entries), [], view[k].key);
      assert OriginalPlain(entries) + OriginalRedacted(entries) + [] == full;
    }
  }

  lemma {:induction false} OriginalCovered(entries: seq<Entry>, n: nat, run: Run)
    requires run.cfg.validateClaims && n + CountEntries(entries) <= |run.all|
    ensures HasHidden(Shown(Map(entries), n, run).entries) || Covered(Original(Map(entries)).entries, Shown(Map(entries), n, run).entries)
  {
    var view, full := Shown(Map(entries), n, run).entries, Original(Map(entries)).entries;
    if HiddenHashes(entries, n, run) != [] {
      assert view[|view| - 1].key == REDACTED_KEYS_LABEL;
    } else {
      forall k | 0 <= k < |full| && full[k].key != REDACTED_KEYS_LABEL ensures HasKey(view, full[k].key) {
        assert full[k] in OriginalPlain(entries) || full[k] in OriginalRedacted(entries);
        var j := OriginalOrigin(entries, full[k]);
        ShownHas(entries, n, run, j);
        AmongBoth(ShownPlain(entries, n, run), ShownRedacted(entries, n, run), KeptEntry([]), full[k].key);
      }
    }
  }

  /** Two copies of the same claims, issued and disclosed in whatever way, always match. */
  lemma {:induction false} CopiesMatch(a: Value, n: nat, runA: Run, b: Value, m: nat, runB: Run, canon: Canon)
    requires Issuable(a) && runA.cfg.validateClaims && n + Count(a) <= |runA.all|
    requires Issuable(b) && runB.cfg.validateClaims && m + Count(b) <= |runB.all|
    requires Original(a) == Original(b)
    requires View(Shown(a, n, runA), true) && View(Shown(b, m, runB), true)
    ensures ClaimValuesMatch(Shown(a, n, runA), Shown(b, m, runB), canon) == Ok(true)
  {
    ShownCompletes(a, n, runA);
    ShownCompletes(b, m, runB);
    CommonCompletionMatches(Shown(a, n, runA), Shown(b, m, runB), Original(a), canon);
  }
}
