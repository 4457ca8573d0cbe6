/** What building the disclosure map accepts and holds, stated without its loop: sizes within the
    limits, no digest and no salt twice, in whatever order the disclosures come. */
module Intakes {
  import opened Values
  import opened Disclosures
  import opened Restoration

  function TotalBytes(ds: seq<Disclosure>): nat {
    if ds == [] then 0 else |ds[0].encoded| + TotalBytes(ds[1..])
  }

  function TotalItems(ds: seq<Disclosure>): nat {
    if ds == [] then 0 else ItemCount(ds[0]) + TotalItems(ds[1..])
  }

  ghost function Digests(ds: seq<Disclosure>, hash: Hasher): set<Bytes> {
    set d | d in ds :: DigestOf(d, hash)
  }

  ghost function Salts(ds: seq<Disclosure>): set<Bytes> {
    set d | d in ds :: d.kind.salt
  }

  /** The conditions on the whole list, none of which mentions its order. */
  ghost predicate Acceptable(ds: seq<Disclosure>, hash: Hasher, limits: Limits) {
    && |ds| <= limits.maxDisclosures
    && TotalBytes(ds) <= limits.maxDisclosureBytes
    && TotalItems(ds) <= limits.maxItems
    && |Digests(ds, hash)| == |ds|
    && |Salts(ds)| == |ds|
  }

  /** The map holds exactly these disclosures under their digests. */
  ghost predicate Holds(m: map<Bytes, Disclosure>, ds: seq<Disclosure>, hash: Hasher) {
    && (forall d :: d in ds ==> DigestOf(d, hash) in m && m[DigestOf(d, hash)] == d)
    && (forall h :: h in m ==> m[h] in ds && DigestOf(m[h], hash) == h)
  }

  lemma {:induction false} DigestsFirst(ds: seq<Disclosure>, hash: Hasher)
    requires ds != []
    ensures Digests(ds, hash) == {DigestOf(ds[0], hash)} + Digests(ds[1..], hash)
    ensures Salts(ds) == {ds[0].kind.salt} + Salts(ds[1..])
  {
    assert forall d :: d in ds <==> d == ds[0] || d in ds[1..];
  }

  lemma {:induction false} AtMostOneEach(ds: seq<Disclosure>, hash: Hasher)
    ensures |Digests(ds, hash)| <= |ds| && |Salts(ds)| <= |ds|
  {
    if ds != [] {
      DigestsFirst(ds, hash);
      AtMostOneEach(ds[1..], hash);
    } else {
      assert Digests(ds, hash) == {} && Salts(ds) == {};
    }
  }

  /** Keys still to come are all new exactly when the first is new and the others stay new after it. */
  lemma {:induction false} FullUnion(a: set<Bytes>, x: Bytes, b: set<Bytes>, n: nat)
    requires |b| <= n
    ensures |a + ({x} + b)| == |a| + 1 + n <==> x !in a && |(a + {x}) + b| == |a| + 1 + n
  {
    if x in a {
      assert a + ({x} + b) == a + (b - a);
      assert b == (b - a) + (b * a);
    } else {
      assert a + ({x} + b) == (a + {x}) + b;
    }
  }

  ghost predicate SizesFit(ds: seq<Disclosure>, index: nat, into: Intake, limits: Limits) {
    && index + |ds| <= limits.maxDisclosures
    && into.bytes + TotalBytes(ds) <= limits.maxDisclosureBytes
    && into.visited + TotalItems(ds) <= limits.maxItems
  }

  ghost predicate NoneRepeats(ds: seq<Disclosure>, into: Intake, hash: Hasher) {
    && |into.entries.Keys + Digests(ds, hash)| == |into.entries.Keys| + |ds|
    && |into.salts + Salts(ds)| == |into.salts| + |ds|
  }

  lemma {:induction false} NoneRepeatsFirst(ds: seq<Disclosure>, into: Intake, next: Intake, hash: Hasher)
    requires ds != []
    requires next.entries.Keys == into.entries.Keys + {DigestOf(ds[0], hash)} && next.salts == into.salts + {ds[0].kind.salt}
    ensures NoneRepeats(ds, into, hash) <==>
            DigestOf(ds[0], hash) !in into.entries && ds[0].kind.salt !in into.salts && NoneRepeats(ds[1..], next, hash)
  {
    DigestsFirst(ds, hash);
    AtMostOneEach(ds[1..], hash);
    FullUnion(into.entries.Keys, DigestOf(ds[0], hash), Digests(ds[1..], hash), |ds| - 1);
    FullUnion(into.salts, ds[0].kind.salt, Salts(ds[1..]), |ds| - 1);
  }

  function Extended(d: Disclosure, into: Intake, hash: Hasher): Intake {
    Intake(into.entries[DigestOf(d, hash) := d], into.salts + {d.kind.salt}, into.bytes + |d.encoded|, into.visited + ItemCount(d))
  }

  lemma {:induction false} TakeInExact(d: Disclosure, index: nat, into: Intake, hash: Hasher, limits: Limits)
    requires SizesFit([], index, into, limits)
    ensures TakeIn(index, d, into, hash, limits).Ok? <==>
            SizesFit([], index + 1, Extended(d, into, hash), limits) && DigestOf(d, hash) !in into.entries && d.kind.salt !in into.salts
    ensures TakeIn(index, d, into, hash, limits).Ok? ==> TakeIn(index, d, into, hash, limits).value == Extended(d, into, hash)
  {
  }

  lemma {:induction false} NoneRepeatsEmpty(into: Intake, hash: Hasher)
    ensures NoneRepeats([], into, hash)
  {
    assert into.entries.Keys + Digests([], hash) == into.entries.Keys;
    assert into.salts + Salts([]) == into.salts;
  }

  /** The intake from any partial state: it accepts exactly when the sums fit and nothing repeats. */
  lemma {:induction false} TakeInAllExact(ds: seq<Disclosure>, index: nat, into: Intake, hash: Hasher, limits: Limits)
    requires SizesFit([], index, into, limits)
    ensures TakeInAll(ds, index, into, hash, limits).Ok? <==> SizesFit(ds, index, into, limits) && NoneRepeats(ds, into, hash)
    ensures TakeInAll(ds, index, into, hash, limits).Ok? ==>
            TakeInAll(ds, index, into, hash, limits).value.visited == into.visited + TotalItems(ds)
    decreases ds
  {
    if ds == [] {
      NoneRepeatsEmpty(into, hash);
    } else {
      var next := Extended(ds[0], into, hash);
      assert next.entries.Keys == into.entries.Keys + {DigestOf(ds[0], hash)};
      NoneRepeatsFirst(ds, into, next, hash);
      TakeInExact(ds[0], index, into, hash, limits);
      SizesFitFirst(ds, index, into, next, limits);
      if SizesFit([], index + 1, next, limits) {
        TakeInAllExact(ds[1..], index + 1, next, hash, limits);
      }
    }
  }

  lemma {:induction false} SizesFitFirst(ds: seq<Disclosure>, index: nat, into: Intake, next: Intake, limits: Limits)
    requires ds != [] && next.bytes == into.bytes + |ds[0].encoded| && next.visited == into.visited + ItemCount(ds[0])
    ensures SizesFit(ds, index, into, limits) <==> SizesFit(ds[1..], index + 1, next, limits)
    ensures SizesFit(ds[1..], index + 1, next, limits) ==> SizesFit([], index + 1, next, limits)
  {
  }

  lemma {:induction false} TakeInAllHolds(done: seq<Disclosure>, ds: seq<Disclosure>, index: nat, into: Intake, hash: Hasher, limits: Limits)
    requires Holds(into.entries, done, hash)
    ensures var r := TakeInAll(ds, index, into, hash, limits);
            r.Ok? ==> Holds(r.value.entries, done + ds, hash)
    decreases ds
  {
    if ds == [] {
      assert done + ds == done;
    } else {
      var r := TakeIn(index, ds[0], into, hash, limits);
      if r.Ok? {
        assert Holds(r.value.entries, done + [ds[0]], hash);
        TakeInAllHolds(done + [ds[0]], ds[1..], index + 1, r.value, hash, limits);
        assert done + [ds[0]] + ds[1..] == done + ds;
      }
    }
  }

  /** Building the map succeeds exactly on acceptable lists and then holds exactly the list. */
  lemma {:induction false} IntakeExact(ds: seq<Disclosure>, hash: Hasher, limits: Limits)
    ensures var r := TakeInAll(ds, 0, EMPTY_INTAKE, hash, limits);
            && (r.Ok? <==> Acceptable(ds, hash, limits))
            && (r.Ok? ==> Holds(r.value.entries, ds, hash) && |r.value.entries| == |ds| && r.value.visited == TotalItems(ds))
  {
    TakeInAllExact(ds, 0, EMPTY_INTAKE, hash, limits);
    TakeInAllHolds([], ds, 0, EMPTY_INTAKE, hash, limits);
    assert EMPTY_INTAKE.entries.Keys + Digests(ds, hash) == Digests(ds, hash);
    assert EMPTY_INTAKE.salts + Salts(ds) == Salts(ds);
    assert [] + ds == ds;
    var r := TakeInAll(ds, 0, EMPTY_INTAKE, hash, limits);
    if r.Ok? {
      HeldCount(r.value.entries, ds, hash);
    }
  }

  lemma {:induction false} HeldCount(m: map<Bytes, Disclosure>, ds: seq<Disclosure>, hash: Hasher)
    requires Holds(m, ds, hash) && |Digests(ds, hash)| == |ds|
    ensures |m| == |ds|
  {
    assert m.Keys == Digests(ds, hash);
    assert |m| == |m.Keys|;
  }

  lemma {:induction false} HeldOnce(a: map<Bytes, Disclosure>, b: map<Bytes, Disclosure>, ds: seq<Disclosure>, es: seq<Disclosure>, hash: Hasher)
    requires Holds(a, ds, hash) && Holds(b, es, hash)
    requires forall d :: d in ds <==> d in es
    ensures a == b
  {
    assert forall h :: h in a <==> h in b;
  }

  lemma {:induction false} TotalsSplit(a: seq<Disclosure>, b: seq<Disclosure>)
    ensures TotalBytes(a + b) == TotalBytes(a) + TotalBytes(b)
    ensures TotalItems(a + b) == TotalItems(a) + TotalItems(b)
  {
    if a == [] {
      assert a + b == b;
    } else {
      assert (a + b)[1..] == a[1..] + b;
      TotalsSplit(a[1..], b);
    }
  }

  function Without(ds: seq<Disclosure>, k: nat): seq<Disclosure>
    requires k < |ds|
  {
    ds[..k] + ds[k + 1..]
  }

  lemma {:induction false} WithoutCounts(ds: seq<Disclosure>, k: nat)
    requires k < |ds|
    ensures multiset(Without(ds, k)) == multiset(ds) - multiset{ds[k]}
    ensures |Without(ds, k)| == |ds| - 1
  {
    assert ds == ds[..k] + ([ds[k]] + ds[k + 1..]);
  }

  lemma {:induction false} WithoutTotals(ds: seq<Disclosure>, k: nat)
    requires k < |ds|
    ensures TotalBytes(ds) == TotalBytes(Without(ds, k)) + |ds[k].encoded|
    ensures TotalItems(ds) == TotalItems(Without(ds, k)) + ItemCount(ds[k])
  {
    TotalsSplit(ds[..k], ds[k + 1..]);
    TotalsSplit(ds[..k], ds[k..]);
    assert ds[..k] + ds[k..] == ds && ds[k..][1..] == ds[k + 1..];
  }

  lemma {:induction false} TotalsPermute(ds: seq<Disclosure>, es: seq<Disclosure>)
    requires multiset(ds) == multiset(es)
    ensures TotalBytes(ds) == TotalBytes(es) && TotalItems(ds) == TotalItems(es) && |ds| == |es|
    decreases |ds|
  {
    if ds == [] {
      assert |es| == |multiset(es)|;
    } else {
      assert ds[0] in multiset(es);
      var k :| 0 <= k < |es| && es[k] == ds[0];
      WithoutCounts(ds, 0);
      WithoutCounts(es, k);
      TotalsPermute(Without(ds, 0), Without(es, k));
      WithoutTotals(ds, 0);
      WithoutTotals(es, k);
    }
  }

  /** Permuting the disclosures changes neither the verdict on them nor the map. */
  lemma {:induction false} IntakePermutes(ds: seq<Disclosure>, es: seq<Disclosure>, hash: Hasher, limits: Limits)
    requires multiset(ds) == multiset(es)
    ensures var r, s := TakeInAll(ds, 0, EMPTY_INTAKE, hash, limits), TakeInAll(es, 0, EMPTY_INTAKE, hash, limits);
            r.Ok? == s.Ok? && (r.Ok? ==> Started(r.value) == Started(s.value))
  {
    IntakeExact(ds, hash, limits);
    IntakeExact(es, hash, limits);
    TotalsPermute(ds, es);
    assert forall d :: d in ds <==> d in multiset(ds);
    assert forall d :: d in es <==> d in multiset(es);
    assert Digests(ds, hash) == Digests(es, hash) && Salts(ds) == Salts(es);
    var r, s := TakeInAll(ds, 0, EMPTY_INTAKE, hash, limits), TakeInAll(es, 0, EMPTY_INTAKE, hash, limits);
    if r.Ok? {
      HeldOnce(r.value.entries, s.value.entries, ds, es, hash);
    }
  }
}
