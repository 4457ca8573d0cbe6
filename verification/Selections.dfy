/** One restoration of issued claims with a selection of all the disclosures presented, and the
    pending map such a restoration goes through. */
module Selections {
  import opened Values
  import opened Disclosures
  import opened Restoration
  import opened Issuance
  import opened Redactions
  import opened IssuanceFacts

  /** The disclosures that may be presented, where those of the tree in question begin among them,
      the numbers of the selected ones, who issued the tree and how a Verifier restores it. */
  datatype Run = Run(all: seq<Disclosure>, base: nat, sel: set<nat>, env: Issuer, cfg: Config)

  ghost predicate Fair(run: Run) {
    DistinctDigests(run.all, run.env.hash) && run.cfg.mode == Verifier
  }

  /** The number of the next request an issuing context discloses. */
  function Start(ctx: Context, run: Run): nat {
    run.base + |ctx.disclosures|
  }

  /** What was issued so far stands among all disclosures, from `base` on. */
  ghost predicate Within(ctx: Context, run: Run) {
    Start(ctx, run) <= |run.all| && run.all[run.base..Start(ctx, run)] == ctx.disclosures
  }

  lemma WithinPrefix(ctx: Context, end: Context, run: Run)
    requires Within(end, run) && ctx.disclosures <= end.disclosures
    ensures Within(ctx, run)
  {
    assert end.disclosures[..|ctx.disclosures|] == ctx.disclosures;
    assert run.all[run.base..Start(ctx, run)] == run.all[run.base..Start(end, run)][..|ctx.disclosures|];
  }

  lemma WithinAt(ctx: Context, run: Run, k: nat)
    requires Within(ctx, run) && k < |ctx.disclosures|
    ensures run.all[run.base + k] == ctx.disclosures[k]
  {
    assert run.all[run.base..Start(ctx, run)][k] == run.all[run.base + k];
  }

  function DigestAt(i: nat, run: Run): Bytes
    requires i < |run.all|
  {
    DigestOf(run.all[i], run.env.hash)
  }

  /** The first `k` disclosures, as far as they are numbered in `r`, under their digests. */
  ghost function PendingBelow(k: nat, r: set<nat>, run: Run): map<Bytes, Disclosure>
    requires k <= |run.all|
  {
    if k == 0 then map[]
    else if k - 1 in r then PendingBelow(k - 1, r, run)[DigestAt(k - 1, run) := run.all[k - 1]]
    else PendingBelow(k - 1, r, run)
  }

  ghost function PendingOf(r: set<nat>, run: Run): map<Bytes, Disclosure> {
    PendingBelow(|run.all|, r, run)
  }

  /** The state after a stretch of restoration that met `met` with `r` pending before it. */
  ghost function After(st: RState, visited: nat, r: set<nat>, met: Met, run: Run): RState {
    RState(PendingOf(r - met.used, run), st.disclosed + met.disclosed, st.decoys + met.decoys, st.removed + met.removed, visited)
  }

  lemma {:induction false} BelowHolds(k: nat, r: set<nat>, run: Run, i: nat)
    requires Fair(run) && k <= |run.all| && i < |run.all|
    ensures DigestAt(i, run) in PendingBelow(k, r, run) <==> i in r && i < k
    ensures i in r && i < k ==> PendingBelow(k, r, run)[DigestAt(i, run)] == run.all[i]
  {
    if k != 0 {
      BelowHolds(k - 1, r, run, i);
      if i < k - 1 {
        assert DigestOf(run.all[i], run.env.hash) != DigestOf(run.all[k - 1], run.env.hash);
      } else if k - 1 < i {
        assert DigestOf(run.all[k - 1], run.env.hash) != DigestOf(run.all[i], run.env.hash);
      }
    }
  }

  lemma {:induction false} BelowOnly(k: nat, r: set<nat>, run: Run, h: Bytes)
    requires k <= |run.all| && h in PendingBelow(k, r, run)
    ensures exists i: nat :: i < k && i in r && h == DigestAt(i, run) && PendingBelow(k, r, run)[h] == run.all[i]
  {
    if k - 1 in r && h == DigestAt(k - 1, run) {
    } else {
      BelowOnly(k - 1, r, run, h);
      var i: nat :| i < k - 1 && i in r && h == DigestAt(i, run) && PendingBelow(k - 1, r, run)[h] == run.all[i];
      assert i < k;
    }
  }

  /** A number is pending exactly when its digest is a key, and taking it takes its number. */
  lemma {:induction false} PendingAt(r: set<nat>, i: nat, run: Run)
    requires Fair(run) && i < |run.all|
    ensures DigestAt(i, run) in PendingOf(r, run) <==> i in r
    ensures i in r ==> PendingOf(r, run)[DigestAt(i, run)] == run.all[i]
    ensures i in r ==> TakePending(PendingOf(r, run), DigestAt(i, run)) == PendingOf(r - {i}, run)
  {
    var k := |run.all|;
    BelowHolds(k, r, run, i);
    if i in r {
      var taken, rest := TakePending(PendingOf(r, run), DigestAt(i, run)), PendingOf(r - {i}, run);
      forall h | h in taken ensures h in rest && rest[h] == taken[h] {
        BelowOnly(k, r, run, h);
        var j: nat :| j < k && j in r && h == DigestAt(j, run) && PendingOf(r, run)[h] == run.all[j];
        BelowHolds(k, r - {i}, run, j);
      }
      forall h | h in rest ensures h in taken {
        BelowOnly(k, r - {i}, run, h);
        var j: nat :| j < k && j in r - {i} && h == DigestAt(j, run) && rest[h] == run.all[j];
        BelowHolds(k, r, run, j);
        BelowHolds(k, r - {i}, run, i);
      }
    }
  }

  /** Nothing is pending exactly when no number is. */
  lemma {:induction false} NonePending(r: set<nat>, run: Run)
    requires Fair(run) && forall i :: i in r ==> i < |run.all|
    ensures PendingOf(r, run) == map[] <==> r == {}
  {
    if r == {} {
      NoneBelow(|run.all|, run);
    } else {
      var i :| i in r;
      PendingAt(r, i, run);
    }
  }

  /** The pending map depends on the disclosures and the hash function only. */
  lemma {:induction false} PendingSame(k: nat, r: set<nat>, a: Run, b: Run)
    requires a.all == b.all && a.env.hash == b.env.hash && k <= |a.all|
    ensures PendingBelow(k, r, a) == PendingBelow(k, r, b)
  {
    if k != 0 {
      PendingSame(k - 1, r, a, b);
    }
  }

  lemma {:induction false} NoneBelow(k: nat, run: Run)
    requires k <= |run.all|
    ensures PendingBelow(k, {}, run) == map[]
  {
    if k != 0 {
      NoneBelow(k - 1, run);
    }
  }

  lemma {:induction false} AfterNothing(st: RState, r: set<nat>, run: Run)
    requires st.pending == PendingOf(r, run)
    ensures st == After(st, st.visited, r, NOTHING_MET, run)
  {
    assert r - {} == r;
  }

  lemma {:induction false} AfterBoth(st: RState, v1: nat, v2: nat, r: set<nat>, a: Met, b: Met, run: Run)
    ensures After(After(st, v1, r, a, run), v2, r - a.used, b, run) == After(st, v2, r, Both(a, b), run)
  {
    assert r - a.used - b.used == r - Both(a, b).used;
  }

  /** Between `n` and `n + k` the pending numbers are the selected ones. */
  ghost predicate Untouched(r: set<nat>, n: nat, k: nat, run: Run) {
    forall i :: n <= i < n + k ==> (i in r <==> i in run.sel)
  }

  // ---- what is met lies in its own range --------------------------------------------------------

  lemma {:induction false} MetInRange(v: Value, n: nat, sel: set<nat>)
    ensures forall i :: i in MetIn(v, n, sel).used ==> i in sel && n <= i < n + Count(v)
    decreases v, 0
  {
    match v
    case Map(entries) =>
      MetPlainInRange(entries, n, sel);
      MetRedactedInRange(entries, n, sel);
    case Array(items) => MetItemsInRange(items, n, sel);
    case Tag(_, inner) => MetInRange(inner, n, sel);
    case _ =>
  }

  lemma {:induction false} MetItemsInRange(items: seq<Value>, n: nat, sel: set<nat>)
    ensures forall i :: i in MetItems(items, n, sel).used ==> i in sel && n <= i < n + CountItems(items)
    decreases items, 1
  {
    if items != [] {
      MetItemInRange(items[0], n, sel);
      MetItemsInRange(items[1..], n + CountItem(items[0]), sel);
    }
  }

  lemma {:induction false} MetItemInRange(item: Value, n: nat, sel: set<nat>)
    ensures forall i :: i in MetItem(item, n, sel).used ==> i in sel && n <= i < n + CountItem(item)
    decreases item, 1
  {
    if Redacts(item) {
      MetInRange(item.inner, n, sel);
    } else if !IsDecoy(item) {
      MetInRange(item, n, sel);
    }
  }

  lemma {:induction false} MetPlainInRange(entries: seq<Entry>, n: nat, sel: set<nat>)
    ensures forall i :: i in MetPlain(entries, n, sel).used ==> i in sel && n <= i < n + CountEntries(entries)
    decreases entries, 1
  {
    if entries != [] {
      MetPlainEntryInRange(entries[0], n, sel);
      MetPlainInRange(entries[1..], n + CountEntry(entries[0]), sel);
    }
  }

  lemma {:induction false} MetPlainEntryInRange(e: Entry, n: nat, sel: set<nat>)
    ensures forall i :: i in MetPlainEntry(e, n, sel).used ==> i in sel && n <= i < n + CountEntry(e)
    decreases e, 0
  {
    if PlainEntry(e) {
      MetInRange(e.val, n, sel);
    }
  }

  lemma {:induction false} MetRedactedInRange(entries: seq<Entry>, n: nat, sel: set<nat>)
    ensures forall i :: i in MetRedacted(entries, n, sel).used ==> i in sel && n <= i < n + CountEntries(entries)
    decreases entries, 1
  {
    if entries != [] {
      MetRedactedEntryInRange(entries[0], n, sel);
      MetRedactedInRange(entries[1..], n + CountEntry(entries[0]), sel);
    }
  }

  lemma {:induction false} MetRedactedEntryInRange(e: Entry, n: nat, sel: set<nat>)
    ensures forall i :: i in MetRedactedEntry(e, n, sel).used ==> i in sel && n <= i < n + CountEntry(e)
    decreases e, 0
  {
    if Redacts(e.key) {
      MetInRange(e.val, n, sel);
    }
  }

  /** Request `i` belongs to a redacted or decoy entry of the map. */
  ghost predicate InRedacted(entries: seq<Entry>, n: nat, i: nat) {
    entries != [] &&
    if i < n + CountEntry(entries[0]) then n <= i && !PlainEntry(entries[0])
    else InRedacted(entries[1..], n + CountEntry(entries[0]), i)
  }

  /** In the ranges of redacted entries the pending numbers are the selected ones. */
  ghost predicate UntouchedRedacted(r: set<nat>, entries: seq<Entry>, n: nat, run: Run) {
    forall i: nat :: InRedacted(entries, n, i) ==> (i in r <==> i in run.sel)
  }

  lemma {:induction false} InRedactedInRange(entries: seq<Entry>, n: nat, i: nat)
    requires InRedacted(entries, n, i)
    ensures n <= i < n + CountEntries(entries)
  {
    if n + CountEntry(entries[0]) <= i {
      InRedactedInRange(entries[1..], n + CountEntry(entries[0]), i);
    }
  }

  lemma {:induction false} PlainMeetsNoRedacted(entries: seq<Entry>, n: nat, sel: set<nat>, i: nat)
    requires i in MetPlain(entries, n, sel).used
    ensures !InRedacted(entries, n, i)
    decreases entries
  {
    MetPlainEntryInRange(entries[0], n, sel);
    MetPlainInRange(entries[1..], n + CountEntry(entries[0]), sel);
    if i in MetPlain(entries[1..], n + CountEntry(entries[0]), sel).used {
      PlainMeetsNoRedacted(entries[1..], n + CountEntry(entries[0]), sel, i);
    }
  }

  lemma {:induction false} UntouchedAfterPlain(r: set<nat>, entries: seq<Entry>, n: nat, run: Run)
    requires Untouched(r, n, CountEntries(entries), run)
    ensures UntouchedRedacted(r - MetPlain(entries, n, run.sel).used, entries, n, run)
  {
    forall i: nat | InRedacted(entries, n, i) ensures i in r - MetPlain(entries, n, run.sel).used <==> i in run.sel {
      InRedactedInRange(entries, n, i);
      if i in MetPlain(entries, n, run.sel).used {
        PlainMeetsNoRedacted(entries, n, run.sel, i);
      }
    }
  }

  lemma {:induction false} UntouchedFirst(r: set<nat>, entries: seq<Entry>, n: nat, run: Run)
    requires entries != [] && UntouchedRedacted(r, entries, n, run)
    ensures !PlainEntry(entries[0]) ==> Untouched(r, n, CountEntry(entries[0]), run)
  {
    forall i: nat | n <= i < n + CountEntry(entries[0]) && !PlainEntry(entries[0]) ensures i in r <==> i in run.sel {
      assert InRedacted(entries, n, i);
    }
  }

  lemma {:induction false} UntouchedTail(r: set<nat>, entries: seq<Entry>, n: nat, run: Run, used: set<nat>)
    requires entries != [] && UntouchedRedacted(r, entries, n, run)
    requires forall i :: i in used ==> i < n + CountEntry(entries[0])
    ensures UntouchedRedacted(r - used, entries[1..], n + CountEntry(entries[0]), run)
  {
    forall i: nat | InRedacted(entries[1..], n + CountEntry(entries[0]), i) ensures i in r - used <==> i in run.sel {
      InRedactedInRange(entries[1..], n + CountEntry(entries[0]), i);
      assert InRedacted(entries, n, i);
    }
  }
}
