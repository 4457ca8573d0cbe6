/** What issuing keeps: disclosures are only appended, one per request and in order, with distinct
    digests, distinct salts and valid keys. */
module IssuanceFacts {
  import opened Values
  import opened Disclosures
  import opened ClaimMatching
  import opened RestorationFacts
  import opened Issuance
  import opened Redactions

  ghost predicate DistinctDigests(ds: seq<Disclosure>, hash: Hasher) {
    forall i, j :: 0 <= i < j < |ds| ==> DigestOf(ds[i], hash) != DigestOf(ds[j], hash)
  }

  ghost predicate DistinctSalts(ds: seq<Disclosure>) {
    forall i, j :: 0 <= i < j < |ds| ==> ds[i].kind.salt != ds[j].kind.salt
  }

  /** The context's sets know every digest and salt it has handed out. */
  ghost predicate Consistent(ctx: Context, hash: Hasher) {
    && DistinctDigests(ctx.disclosures, hash)
    && DistinctSalts(ctx.disclosures)
    && (forall i :: 0 <= i < |ctx.disclosures| ==> DigestOf(ctx.disclosures[i], hash) in ctx.digestsUsed)
    && (forall i :: 0 <= i < |ctx.disclosures| ==> ctx.disclosures[i].kind.salt in ctx.saltsUsed)
    && (forall i :: 0 <= i < |ctx.disclosures| ==> ValidDisclosure(ctx.disclosures[i]))
  }

  /** `k` requests were disclosed between the two contexts. */
  ghost predicate Grown(ctx: Context, ctx1: Context, k: nat, hash: Hasher) {
    && ctx.disclosures <= ctx1.disclosures
    && |ctx1.disclosures| == |ctx.disclosures| + k
    && (Consistent(ctx, hash) ==> Consistent(ctx1, hash))
  }

  /** A recorded disclosure is the last one, holds what was asked for, and its digest names it. */
  lemma {:induction false} DiscloseFacts(what: Redaction, ctx: Context, env: Issuer)
    ensures var r := Disclose(what, ctx, env);
            r.Ok? ==>
              && Grown(ctx, r.value.1, 1, env.hash)
              && var d := r.value.1.disclosures[|ctx.disclosures|];
                 DigestOf(d, env.hash) == r.value.0 && exists salt: Salt :: d.kind == KindOf(what, salt)
  {
    var s := NextSalt(ctx, env);
    if s.Ok? {
      var r := AddDisclosure(KindOf(what, s.value.0), s.value.1, env);
      if r.Ok? {
        assert r.value.1.disclosures[|ctx.disclosures|].kind == KindOf(what, s.value.0);
      }
    }
  }

  lemma {:induction false} IssueValueGrows(v: Value, ctx: Context, env: Issuer, depth: nat)
    ensures var r := IssueValue(v, ctx, env, depth);
            r.Ok? ==> Grown(ctx, r.value.1, Count(v), env.hash)
    decreases v, 2
  {
    var entered := EnterIssue(ctx, depth, env.limits);
    if entered.Ok? {
      match v {
        case Map(entries) => IssueEntriesGrows(entries, IssueAcc([], {}, [], entered.value), env, depth);
        case Array(items) => IssueItemsGrows(items, [], entered.value, env, depth);
        case Tag(_, inner) => IssueValueGrows(inner, entered.value, env, depth + 1);
        case _ =>
      }
    }
  }

  lemma {:induction false} IssueEntriesGrows(entries: seq<Entry>, acc: IssueAcc, env: Issuer, depth: nat)
    ensures var r := IssueEntries(entries, acc, env, depth);
            r.Ok? ==> Grown(acc.ctx, r.value.ctx, CountEntries(entries), env.hash) && acc.out <= r.value.out && acc.hashes <= r.value.hashes
    decreases entries, 1
  {
    if entries != [] {
      IssueEntryGrows(entries[0], acc, env, depth);
      var acc1 := IssueEntry(entries[0], acc, env, depth);
      if acc1.Ok? {
        IssueEntriesGrows(entries[1..], acc1.value, env, depth);
      }
    }
  }

  lemma {:induction false} IssueEntryGrows(e: Entry, acc: IssueAcc, env: Issuer, depth: nat)
    ensures var r := IssueEntry(e, acc, env, depth);
            r.Ok? ==> Grown(acc.ctx, r.value.ctx, CountEntry(e), env.hash) && acc.out <= r.value.out && acc.hashes <= r.value.hashes
    decreases e, 1
  {
    var entered := EnterIssue(acc.ctx, depth + 1, env.limits);
    if entered.Ok? {
      var acc1 := acc.(ctx := entered.value);
      if Redacts(e.key) {
        IssueRedactedGrows(e, acc1, env, depth);
      } else if IsDecoy(e.key) {
        IssueMapDecoyGrows(e, acc1, env, depth);
      } else {
        IssueValueGrows(e.val, entered.value, env, depth + 1);
      }
    }
  }

  lemma {:induction false} IssueRedactedGrows(e: Entry, acc: IssueAcc, env: Issuer, depth: nat)
    requires Redacts(e.key)
    ensures var r := IssueRedacted(e, acc, env, depth);
            r.Ok? ==> Grown(acc.ctx, r.value.ctx, CountEntry(e), env.hash) && acc.out <= r.value.out && acc.hashes <= r.value.hashes
    decreases e, 0
  {
    var ctx := EnterIssue(acc.ctx, depth + 2, env.limits);
    if ctx.Ok? && LabelOf(e.key.inner).Some? {
      IssueValueGrows(e.val, ctx.value, env, depth + 1);
      var r := IssueValue(e.val, ctx.value, env, depth + 1);
      if r.Ok? {
        DiscloseFacts(RedactClaim(LabelOf(e.key.inner).value, r.value.0), r.value.1, env);
      }
    }
  }

  lemma {:induction false} IssueMapDecoyGrows(e: Entry, acc: IssueAcc, env: Issuer, depth: nat)
    requires IsDecoy(e.key)
    ensures var r := IssueMapDecoy(e, acc, env, depth);
            r.Ok? ==> Grown(acc.ctx, r.value.ctx, 1, env.hash) && acc.out <= r.value.out && acc.hashes <= r.value.hashes
  {
    var ctx := EnterIssue(acc.ctx, depth + 2, env.limits);
    if ctx.Ok? {
      var ctx1 := RecordDecoyId(e.key.inner, ctx.value);
      if ctx1.Ok? {
        var ctx2 := EnterIssue(ctx1.value, depth + 1, env.limits);
        if ctx2.Ok? {
          DiscloseFacts(AddDecoy, ctx2.value, env);
        }
      }
    }
  }

  lemma {:induction false} IssueItemsGrows(items: seq<Value>, out: seq<Value>, ctx: Context, env: Issuer, depth: nat)
    ensures var r := IssueItems(items, out, ctx, env, depth);
            r.Ok? ==> Grown(ctx, r.value.1, CountItems(items), env.hash) && out <= r.value.0
    decreases items, 1
  {
    if items != [] {
      IssueItemGrows(items[0], ctx, env, depth);
      var r := IssueItem(items[0], ctx, env, depth);
      if r.Ok? {
        IssueItemsGrows(items[1..], out + [r.value.0], r.value.1, env, depth);
      }
    }
  }

  lemma {:induction false} IssueItemGrows(item: Value, ctx: Context, env: Issuer, depth: nat)
    ensures var r := IssueItem(item, ctx, env, depth);
            r.Ok? ==> Grown(ctx, r.value.1, CountItem(item), env.hash)
    decreases item, 3
  {
    if Redacts(item) {
      var ctx1 := EnterIssue(ctx, depth + 1, env.limits);
      if ctx1.Ok? {
        IssueValueGrows(item.inner, ctx1.value, env, depth + 2);
        var r := IssueValue(item.inner, ctx1.value, env, depth + 2);
        if r.Ok? {
          DiscloseFacts(RedactElement(r.value.0), r.value.1, env);
        }
      }
    } else if IsDecoy(item) {
      var ctx1 := EnterIssue(ctx, depth + 1, env.limits);
      if ctx1.Ok? {
        var ctx2 := EnterIssue(ctx1.value, depth + 2, env.limits);
        if ctx2.Ok? {
          var ctx3 := RecordDecoyId(item.inner, ctx2.value);
          if ctx3.Ok? {
            DiscloseFacts(AddDecoy, ctx3.value, env);
          }
        }
      }
    } else {
      IssueValueGrows(item, ctx, env, depth + 1);
    }
  }

  // ---- map keys ---------------------------------------------------------------------------------

  /** The key duplicates are detected by: the claim's own key, or the whole decoy request. */
  function NormalKey(e: Entry): Value {
    if Redacts(e.key) then e.key.inner else e.key
  }

  ghost predicate DistinctNormalKeys(entries: seq<Entry>) {
    forall i, j :: 0 <= i < j < |entries| ==> NormalKey(entries[i]) != NormalKey(entries[j])
  }

  /** No two keys have the same deterministic encoding. */
  ghost predicate DistinctNormalCodes(entries: seq<Entry>, canon: Canon) {
    forall i, j :: 0 <= i < j < |entries| ==> canon(NormalKey(entries[i])) != canon(NormalKey(entries[j]))
  }

  lemma LabelRoundTrip(v: Value)
    ensures LabelOf(v).Some? ==> ValueOfLabel(LabelOf(v).value) == v
  {
  }

  lemma {:induction false} IssueEntryKey(e: Entry, acc: IssueAcc, env: Issuer, depth: nat)
    ensures var r := IssueEntry(e, acc, env, depth);
            r.Ok? ==>
              && env.canon(NormalKey(e)) !in acc.keys
              && r.value.keys == acc.keys + {env.canon(NormalKey(e))}
              && (!IsDecoy(e.key) ==> LabelOf(NormalKey(e)).Some?)
  {
    if Redacts(e.key) {
      LabelRoundTrip(e.key.inner);
    }
  }

  /** An issued map has no two entries for one claim, redacted or not. */
  lemma {:induction false} IssueEntriesKeys(entries: seq<Entry>, acc: IssueAcc, env: Issuer, depth: nat)
    requires IssueEntries(entries, acc, env, depth).Ok?
    ensures DistinctNormalKeys(entries) && DistinctNormalCodes(entries, env.canon)
    ensures forall i :: 0 <= i < |entries| ==> env.canon(NormalKey(entries[i])) !in acc.keys
    ensures forall i :: 0 <= i < |entries| && !IsDecoy(entries[i].key) ==> LabelOf(NormalKey(entries[i])).Some?
  {
    if entries != [] {
      IssueEntryKey(entries[0], acc, env, depth);
      var acc1 := IssueEntry(entries[0], acc, env, depth).value;
      IssueEntriesKeys(entries[1..], acc1, env, depth);
      forall i | 0 <= i < |entries|
        ensures env.canon(NormalKey(entries[i])) !in acc.keys
        ensures 0 < i ==> env.canon(NormalKey(entries[i])) != env.canon(NormalKey(entries[0]))
        ensures !IsDecoy(entries[i].key) ==> LabelOf(NormalKey(entries[i])).Some?
      {
        if 0 < i {
          assert entries[i] == entries[1..][i - 1];
        }
      }
      forall i, j | 0 <= i < j < |entries| ensures env.canon(NormalKey(entries[i])) != env.canon(NormalKey(entries[j])) {
        if 0 < i {
          assert entries[i] == entries[1..][i - 1] && entries[j] == entries[1..][j - 1];
        }
      }
    }
  }
}
