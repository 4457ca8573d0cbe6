/** When issuing succeeds and what it returns, for every tree of requests and every issuer
    (sd-cwt/src/issuance.rs): a condition on the tree, the salts and the limits that mentions no step of
    issuing. */
module IssueExact {
  import opened Values
  import opened Disclosures
  import opened ClaimMatching
  import opened Restoration
  import opened RestorationLimits
  import opened Intakes
  import opened Issuance
  import opened Redactions
  import opened IssuanceFacts
  import opened ClaimKeys
  import opened IssuedValues
  import opened IssueForms

  // ---- well-formed requests ---------------------------------------------------------------------

  /** A positive identifier of 64 bits. */
  predicate DecoyId(v: Value) {
    v.Integer? && 1 <= v.n <= 0xffff_ffff_ffff_ffff
  }

  /** Requests stand only around map keys and array elements; keys are claim keys with codes of their own,
      and at the root some must not be redacted. */
  ghost predicate Requests(v: Value, canon: Canon, root: bool)
    decreases v, 1
  {
    match v
    case Map(entries) => DistinctNormalCodes(entries, canon) && RequestEntries(entries, canon, root)
    case Array(items) => RequestItems(items, canon)
    case Tag(tag, inner) => tag !in {58, 60, 62} && Requests(inner, canon, false)
    case Simple(code) => code != 59
    case _ => true
  }

  ghost predicate RequestEntries(entries: seq<Entry>, canon: Canon, root: bool)
    decreases entries, 0
  {
    entries == [] || (RequestEntry(entries[0], canon, root) && RequestEntries(entries[1..], canon, root))
  }

  ghost predicate RequestEntry(e: Entry, canon: Canon, root: bool)
    decreases e, 0
  {
    if e.key.Tag? && e.key.tag == 58 then
      ClaimKey(e.key.inner) && (root ==> !MustStay(e.key.inner)) && Requests(e.val, canon, false)
    else if e.key.Tag? && e.key.tag == 62 then DecoyId(e.key.inner) && e.val == Simple(22)
    else ClaimKey(e.key) && Requests(e.val, canon, false)
  }

  ghost predicate RequestItems(items: seq<Value>, canon: Canon)
    decreases items, 0
  {
    items == [] || (RequestItem(items[0], canon) && RequestItems(items[1..], canon))
  }

  ghost predicate RequestItem(item: Value, canon: Canon)
    decreases item, 2
  {
    if item.Tag? && item.tag == 58 then Requests(item.inner, canon, false)
    else if item.Tag? && item.tag == 62 then DecoyId(item.inner)
    else Requests(item, canon, false)
  }

  /** The identifiers of the decoys, in order. */
  function DecoyIds(v: Value): seq<int>
    decreases v, 0
  {
    match v
    case Map(entries) => DecoyIdsOfEntries(entries)
    case Array(items) => DecoyIdsOfItems(items)
    case Tag(_, inner) => DecoyIds(inner)
    case _ => []
  }

  function DecoyIdsOfEntries(entries: seq<Entry>): seq<int> {
    if entries == [] then [] else DecoyIdsOfEntry(entries[0]) + DecoyIdsOfEntries(entries[1..])
  }

  function DecoyIdsOfEntry(e: Entry): seq<int> {
    if IsDecoy(e.key) then IdOf(e.key.inner) else DecoyIds(e.val)
  }

  function DecoyIdsOfItems(items: seq<Value>): seq<int> {
    if items == [] then [] else DecoyIdsOfItem(items[0]) + DecoyIdsOfItems(items[1..])
  }

  function DecoyIdsOfItem(item: Value): seq<int>
    decreases item, 1
  {
    if Redacts(item) then DecoyIds(item.inner) else if IsDecoy(item) then IdOf(item.inner) else DecoyIds(item)
  }

  function IdOf(v: Value): seq<int> {
    if v.Integer? then [v.n] else []
  }

  // ---- what a part of the tree asks of the context ----------------------------------------------

  /** Decoy identifiers recorded, disclosures made and values visited. */
  datatype Work = Work(ids: seq<int>, made: seq<Disclosure>, visits: nat)

  const NO_WORK := Work([], [], 0)
  const ONE_VISIT := Work([], [], 1)

  function Join(a: Work, b: Work): Work {
    Work(a.ids + b.ids, a.made + b.made, a.visits + b.visits)
  }

  /** No element comes twice, and none is in `used`. */
  ghost predicate Fresh<T(!new)>(xs: seq<T>, used: set<T>) {
    && (forall i :: 0 <= i < |xs| ==> xs[i] !in used)
    && (forall i, j :: 0 <= i < j < |xs| ==> xs[i] != xs[j])
  }

  ghost function Elements<T(!new)>(xs: seq<T>): set<T> {
    set x | x in xs
  }

  function SaltsOf(ds: seq<Disclosure>): (s: seq<Bytes>)
    ensures |s| == |ds| && forall i :: 0 <= i < |ds| ==> s[i] == ds[i].kind.salt
  {
    seq(|ds|, i requires 0 <= i < |ds| => ds[i].kind.salt)
  }

  function DigestsOf(ds: seq<Disclosure>, hash: Hasher): (s: seq<Bytes>)
    ensures |s| == |ds| && forall i :: 0 <= i < |ds| ==> s[i] == DigestOf(ds[i], hash)
  {
    seq(|ds|, i requires 0 <= i < |ds| => DigestOf(ds[i], hash))
  }

  ghost predicate SaltsThere(n: nat, k: nat, env: Issuer) {
    forall i :: n <= i < n + k ==> env.salts(i).Some?
  }

  ghost predicate AllSound(ds: seq<Disclosure>, env: Issuer) {
    forall i :: 0 <= i < |ds| ==> SoundKind(ds[i].kind, env.canon, env.limits)
  }

  /** The context can take the work. */
  ghost predicate Can(ctx: Context, w: Work, env: Issuer) {
    && ctx.visited + w.visits <= env.limits.maxItems
    && |ctx.disclosures| + |w.made| <= env.limits.maxDisclosures
    && ctx.bytes + TotalBytes(w.made) <= env.limits.maxDisclosureBytes
    && Fresh(w.ids, ctx.decoyIds)
    && Fresh(SaltsOf(w.made), ctx.saltsUsed)
    && Fresh(DigestsOf(w.made, env.hash), ctx.digestsUsed)
    && SaltsThere(ctx.drawn, |w.made|, env)
    && AllSound(w.made, env)
  }

  /** The context after the work. */
  ghost function Then(ctx: Context, w: Work, env: Issuer): Context {
    Context(ctx.drawn + |w.made|, ctx.decoyIds + Elements(w.ids), ctx.saltsUsed + Elements(SaltsOf(w.made)),
            ctx.digestsUsed + Elements(DigestsOf(w.made, env.hash)), ctx.disclosures + w.made,
            ctx.bytes + TotalBytes(w.made), ctx.visited + w.visits)
  }

  ghost predicate Sized(ctx: Context, limits: Limits) {
    ctx.visited <= limits.maxItems && |ctx.disclosures| <= limits.maxDisclosures && ctx.bytes <= limits.maxDisclosureBytes
  }

  lemma FreshJoin<T(!new)>(a: seq<T>, b: seq<T>, used: set<T>)
    ensures Fresh(a + b, used) <==> Fresh(a, used) && Fresh(b, used + Elements(a))
    ensures used + Elements(a) + Elements(b) == used + Elements(a + b)
  {
    var c := a + b;
    assert forall i :: 0 <= i < |a| ==> c[i] == a[i];
    assert forall i :: 0 <= i < |b| ==> c[|a| + i] == b[i];
    if Fresh(c, used) {
      forall i | 0 <= i < |b| ensures b[i] !in used + Elements(a) {
        assert forall j :: 0 <= j < |a| ==> c[j] != c[|a| + i];
      }
      forall i, j | 0 <= i < j < |b| ensures b[i] != b[j] {
        assert c[|a| + i] != c[|a| + j];
      }
    }
    if Fresh(a, used) && Fresh(b, used + Elements(a)) {
      forall i, j | 0 <= i < j < |c| ensures c[i] != c[j] {
        if |a| <= j {
          assert c[j] == b[j - |a|];
          if |a| <= i {
            assert c[i] == b[i - |a|];
          } else {
            assert c[i] in a;
          }
        }
      }
      forall i | 0 <= i < |c| ensures c[i] !in used {
        if |a| <= i {
          assert c[i] == b[i - |a|];
        }
      }
    }
  }

  lemma SaltsJoined(a: seq<Disclosure>, b: seq<Disclosure>, n: nat, env: Issuer)
    ensures SaltsOf(a + b) == SaltsOf(a) + SaltsOf(b) && DigestsOf(a + b, env.hash) == DigestsOf(a, env.hash) + DigestsOf(b, env.hash)
    ensures AllSound(a + b, env) <==> AllSound(a, env) && AllSound(b, env)
    ensures SaltsThere(n, |a + b|, env) <==> SaltsThere(n, |a|, env) && SaltsThere(n + |a|, |b|, env)
  {
    var c := a + b;
    assert forall i :: 0 <= i < |a| ==> c[i] == a[i];
    assert forall i :: 0 <= i < |b| ==> c[|a| + i] == b[i];
    if AllSound(c, env) {
      forall i | 0 <= i < |b| ensures SoundKind(b[i].kind, env.canon, env.limits) {
        assert SoundKind(c[|a| + i].kind, env.canon, env.limits);
      }
    }
  }

  /** Two stretches of work one after the other. */
  lemma CanJoin(ctx: Context, a: Work, b: Work, env: Issuer)
    ensures Can(ctx, Join(a, b), env) ==> Can(ctx, a, env) && Can(Then(ctx, a, env), b, env)
    ensures Can(ctx, a, env) && Can(Then(ctx, a, env), b, env) ==> Can(ctx, Join(a, b), env)
    ensures Then(Then(ctx, a, env), b, env) == Then(ctx, Join(a, b), env)
    ensures Can(ctx, a, env) ==> Sized(Then(ctx, a, env), env.limits)
  {
    hide Fresh, Elements, SaltsThere, AllSound, SaltsOf, DigestsOf, TotalBytes;
    TotalsSplit(a.made, b.made);
    SaltsJoined(a.made, b.made, ctx.drawn, env);
    FreshJoin(a.ids, b.ids, ctx.decoyIds);
    FreshJoin(SaltsOf(a.made), SaltsOf(b.made), ctx.saltsUsed);
    FreshJoin(DigestsOf(a.made, env.hash), DigestsOf(b.made, env.hash), ctx.digestsUsed);
    assert ctx.disclosures + a.made + b.made == ctx.disclosures + (a.made + b.made);
  }

  /** Work that makes no disclosure. */
  lemma Unmade(ctx: Context, ids: seq<int>, visits: nat, env: Issuer)
    requires Sized(ctx, env.limits)
    ensures Can(ctx, Work(ids, [], visits), env) <==> ctx.visited + visits <= env.limits.maxItems && Fresh(ids, ctx.decoyIds)
    ensures Then(ctx, Work(ids, [], visits), env) == ctx.(decoyIds := ctx.decoyIds + Elements(ids), visited := ctx.visited + visits)
  {
    assert ctx.disclosures + [] == ctx.disclosures;
    assert SaltsOf([]) == [] && DigestsOf([], env.hash) == [];
    assert ctx.saltsUsed + Elements<Bytes>([]) == ctx.saltsUsed && ctx.digestsUsed + Elements<Bytes>([]) == ctx.digestsUsed;
  }

  lemma NoIds(used: set<int>)
    ensures Fresh<int>([], used) && used + Elements<int>([]) == used
  {
  }

  lemma CanNothing(ctx: Context, env: Issuer)
    requires Sized(ctx, env.limits)
    ensures Can(ctx, NO_WORK, env) && Then(ctx, NO_WORK, env) == ctx
  {
    hide Can, Then;
    Unmade(ctx, [], 0, env);
    NoIds(ctx.decoyIds);
  }

  // ---- single steps -----------------------------------------------------------------------------

  lemma VisitExact(ctx: Context, depth: nat, env: Issuer)
    requires Sized(ctx, env.limits)
    ensures EnterIssue(ctx, depth, env.limits)
         == if depth <= env.limits.maxDepth && Can(ctx, ONE_VISIT, env) then Ok(Then(ctx, ONE_VISIT, env)) else Err(Limit)
  {
    hide Can, Then;
    Unmade(ctx, [], 1, env);
    NoIds(ctx.decoyIds);
  }

  /** One decoy identifier. */
  function IdWork(v: Value): Work {
    Work(IdOf(v), [], 0)
  }

  lemma IdExact(v: Value, ctx: Context, env: Issuer)
    requires Sized(ctx, env.limits)
    ensures var r := RecordDecoyId(v, ctx);
            if DecoyId(v) && Can(ctx, IdWork(v), env) then r == Ok(Then(ctx, IdWork(v), env)) else r.Err?
  {
    hide Can, Then;
    Unmade(ctx, IdOf(v), 0, env);
    if v.Integer? {
      FreshOne(v.n, ctx.decoyIds);
    }
  }

  function MakeWork(d: Disclosure): Work {
    Work([], [d], 0)
  }

  lemma FreshOne<T(!new)>(x: T, used: set<T>)
    ensures Fresh([x], used) <==> x !in used
    ensures Elements([x]) == {x}
  {
    assert [x][0] == x;
  }

  /** What a request discloses when it is the next. */
  function Next(what: Redaction, ctx: Context, env: Issuer): Disclosure {
    Made(KindOf(what, SaltAt(ctx.drawn, env)), env)
  }

  lemma CanMake(ctx: Context, d: Disclosure, env: Issuer)
    requires Sized(ctx, env.limits)
    ensures Can(ctx, MakeWork(d), env) <==>
            && |ctx.disclosures| < env.limits.maxDisclosures && ctx.bytes + |d.encoded| <= env.limits.maxDisclosureBytes
            && d.kind.salt !in ctx.saltsUsed && DigestOf(d, env.hash) !in ctx.digestsUsed
            && env.salts(ctx.drawn).Some? && SoundKind(d.kind, env.canon, env.limits)
    ensures Then(ctx, MakeWork(d), env) ==
            Context(ctx.drawn + 1, ctx.decoyIds, ctx.saltsUsed + {d.kind.salt}, ctx.digestsUsed + {DigestOf(d, env.hash)},
                    ctx.disclosures + [d], ctx.bytes + |d.encoded|, ctx.visited)
  {
    hide SoundKind, DigestOf;
    FreshOne(d.kind.salt, ctx.saltsUsed);
    FreshOne(DigestOf(d, env.hash), ctx.digestsUsed);
    assert SaltsOf([d]) == [d.kind.salt] && DigestsOf([d], env.hash) == [DigestOf(d, env.hash)];
    assert [d][1..] == [] && TotalBytes([d]) == |d.encoded|;
    assert AllSound([d], env) <==> SoundKind(d.kind, env.canon, env.limits) by { assert [d][0] == d; }
    assert SaltsThere(ctx.drawn, 1, env) <==> env.salts(ctx.drawn).Some?;
    assert Elements<int>([]) == {};
  }

  lemma DiscloseExact(what: Redaction, ctx: Context, env: Issuer)
    requires Sized(ctx, env.limits)
    ensures var r, d := Disclose(what, ctx, env), Next(what, ctx, env);
            if Can(ctx, MakeWork(d), env) then r == Ok((DigestOf(d, env.hash), Then(ctx, MakeWork(d), env))) else r.Err?
  {
    hide SoundKind, CheckKind, Can, Then;
    var d := Next(what, ctx, env);
    CanMake(ctx, d, env);
    KindExact(d.kind, env.canon, env.limits);
  }

  // ---- the work of a tree -----------------------------------------------------------------------

  function WorkOf(v: Value, n: nat, env: Issuer): Work {
    Work(DecoyIds(v), MadeOf(v, n, env), Nodes(v))
  }

  function EntriesWork(entries: seq<Entry>, n: nat, env: Issuer): Work {
    Work(DecoyIdsOfEntries(entries), MadeOfEntries(entries, n, env), NodesOfEntries(entries))
  }

  function EntryWork(e: Entry, n: nat, env: Issuer): Work {
    Work(DecoyIdsOfEntry(e), MadeOfEntry(e, n, env), NodesOfEntry(e))
  }

  function ItemsWork(items: seq<Value>, n: nat, env: Issuer): Work {
    Work(DecoyIdsOfItems(items), MadeOfItems(items, n, env), NodesOfItems(items))
  }

  function ItemWork(item: Value, n: nat, env: Issuer): Work {
    Work(DecoyIdsOfItem(item), MadeOfItem(item, n, env), Nodes(item))
  }

  /** What a value holds besides itself. */
  function ContentWork(v: Value, n: nat, env: Issuer): Work {
    match v
    case Map(entries) => EntriesWork(entries, n, env)
    case Array(items) => ItemsWork(items, n, env)
    case Tag(_, inner) => WorkOf(inner, n, env)
    case _ => NO_WORK
  }

  lemma WorkSplits(v: Value, n: nat, env: Issuer)
    ensures WorkOf(v, n, env) == Join(ONE_VISIT, ContentWork(v, n, env))
  {
    assert [] + ContentWork(v, n, env).ids == ContentWork(v, n, env).ids && [] + ContentWork(v, n, env).made == ContentWork(v, n, env).made;
  }

  lemma EntriesWorkFirst(entries: seq<Entry>, n: nat, env: Issuer)
    requires entries != []
    ensures EntriesWork(entries, n, env) == Join(EntryWork(entries[0], n, env), EntriesWork(entries[1..], n + CountEntry(entries[0]), env))
  {
    hide MadeOfEntry, DecoyIdsOfEntry, NodesOfEntry, CountEntry;
  }

  lemma ItemsWorkFirst(items: seq<Value>, n: nat, env: Issuer)
    requires items != []
    ensures ItemsWork(items, n, env) == Join(ItemWork(items[0], n, env), ItemsWork(items[1..], n + CountItem(items[0]), env))
  {
    hide MadeOfItem, DecoyIdsOfItem, Nodes, CountItem;
  }

  /** How many disclosures the parts make. */
  lemma Counts(v: Value, e: Entry, item: Value, n: nat, env: Issuer)
    ensures |WorkOf(v, n, env).made| == Count(v) && |EntryWork(e, n, env).made| == CountEntry(e) && |ItemWork(item, n, env).made| == CountItem(item)
  {
    MadeSalts(v, n, env);
    MadeSaltsOfEntry(e, n, env);
    MadeSaltsOfItem(item, n, env);
  }

  // ---- the conditions on a tree -----------------------------------------------------------------

  ghost predicate FineValue(v: Value, env: Issuer, at: nat) {
    Requests(v, env.canon, at == 0) && Narrow(v, env.limits) && at + Height(v) <= env.limits.maxDepth
  }

  ghost predicate FineEntries(entries: seq<Entry>, keys: set<Bytes>, env: Issuer, at: nat) {
    && NewNormalCodes(entries, keys, env.canon) && RequestEntries(entries, env.canon, at == 0)
    && NarrowEntries(entries, env.limits) && at + HeightOfEntries(entries) <= env.limits.maxDepth
  }

  ghost predicate FineEntry(e: Entry, keys: set<Bytes>, env: Issuer, at: nat) {
    && env.canon(NormalKey(e)) !in keys && RequestEntry(e, env.canon, at == 0)
    && NarrowEntry(e, env.limits) && at + 1 + HeightOfEntry(e) <= env.limits.maxDepth
  }

  ghost predicate FineItems(items: seq<Value>, env: Issuer, at: nat) {
    RequestItems(items, env.canon) && NarrowItems(items, env.limits) && at + HeightOfItems(items) <= env.limits.maxDepth
  }

  ghost predicate FineItem(item: Value, env: Issuer, at: nat) {
    RequestItem(item, env.canon) && Narrow(item, env.limits) && at + 1 + Height(item) <= env.limits.maxDepth
  }

  /** The normalized keys have codes of their own, none of them in `keys`. */
  ghost predicate NewNormalCodes(entries: seq<Entry>, keys: set<Bytes>, canon: Canon) {
    DistinctNormalCodes(entries, canon) && forall i :: 0 <= i < |entries| ==> canon(NormalKey(entries[i])) !in keys
  }

  lemma NewNormalFirst(entries: seq<Entry>, keys: set<Bytes>, canon: Canon)
    requires entries != []
    ensures NewNormalCodes(entries, keys, canon) <==>
            canon(NormalKey(entries[0])) !in keys && NewNormalCodes(entries[1..], keys + {canon(NormalKey(entries[0]))}, canon)
  {
    var rest, code := entries[1..], canon(NormalKey(entries[0]));
    assert forall i :: 0 <= i < |rest| ==> rest[i] == entries[i + 1];
    if NewNormalCodes(entries, keys, canon) {
      forall i | 0 <= i < |rest| ensures canon(NormalKey(rest[i])) !in keys + {code} {
        assert code != canon(NormalKey(entries[i + 1]));
      }
    }
    if code !in keys && NewNormalCodes(rest, keys + {code}, canon) {
      forall i, j | 0 <= i < j < |entries| ensures canon(NormalKey(entries[i])) != canon(NormalKey(entries[j])) {
        assert entries[j] == rest[j - 1];
        if i > 0 {
          assert entries[i] == rest[i - 1];
        }
      }
      forall i | 0 <= i < |entries| ensures canon(NormalKey(entries[i])) !in keys {
        if i > 0 {
          assert entries[i] == rest[i - 1];
        }
      }
    }
  }

  lemma FineEntriesFirst(entries: seq<Entry>, keys: set<Bytes>, env: Issuer, at: nat)
    requires entries != []
    ensures FineEntries(entries, keys, env, at) <==>
            FineEntry(entries[0], keys, env, at) && FineEntries(entries[1..], keys + {env.canon(NormalKey(entries[0]))}, env, at)
  {
    hide NewNormalCodes, RequestEntry, NarrowEntry, HeightOfEntry;
    NewNormalFirst(entries, keys, env.canon);
  }

  lemma FineItemsFirst(items: seq<Value>, env: Issuer, at: nat)
    requires items != []
    ensures FineItems(items, env, at) <==> FineItem(items[0], env, at) && FineItems(items[1..], env, at)
  {
    hide RequestItem, Narrow, Height;
  }

  lemma FineNothing(keys: set<Bytes>, env: Issuer, at: nat)
    requires at <= env.limits.maxDepth
    ensures FineEntries([], keys, env, at) && FineItems([], env, at)
  {
  }

  // ---- what issuing returns ---------------------------------------------------------------------

  ghost predicate ValueIs(res: Result<(Value, Context)>, v: Value, ctx: Context, env: Issuer, at: nat) {
    var w := WorkOf(v, ctx.drawn, env);
    if FineValue(v, env, at) && Can(ctx, w, env) then res == Ok((Form(v, ctx.drawn, env), Then(ctx, w, env))) else res.Err?
  }

  ghost predicate EntriesAre(res: Result<IssueAcc>, entries: seq<Entry>, acc: IssueAcc, env: Issuer, at: nat) {
    var n := acc.ctx.drawn;
    var w := EntriesWork(entries, n, env);
    if FineEntries(entries, acc.keys, env, at) && Can(acc.ctx, w, env) then
      && res.Ok? && res.value.out == acc.out + FormPlain(entries, n, env) && res.value.hashes == acc.hashes + FormHashes(entries, n, env)
      && res.value.ctx == Then(acc.ctx, w, env)
    else res.Err?
  }

  ghost predicate EntryIs(res: Result<IssueAcc>, e: Entry, acc: IssueAcc, env: Issuer, at: nat) {
    var n := acc.ctx.drawn;
    var w := EntryWork(e, n, env);
    if FineEntry(e, acc.keys, env, at) && Can(acc.ctx, w, env) then
      res == Ok(IssueAcc(acc.out + PlainForm(e, n, env), acc.keys + {env.canon(NormalKey(e))}, acc.hashes + HashForm(e, n, env), Then(acc.ctx, w, env)))
    else res.Err?
  }

  ghost predicate ItemsAre(res: Result<(seq<Value>, Context)>, items: seq<Value>, out: seq<Value>, ctx: Context, env: Issuer, at: nat) {
    var w := ItemsWork(items, ctx.drawn, env);
    if FineItems(items, env, at) && Can(ctx, w, env) then res == Ok((out + FormItems(items, ctx.drawn, env), Then(ctx, w, env))) else res.Err?
  }

  ghost predicate ItemIs(res: Result<(Value, Context)>, item: Value, ctx: Context, env: Issuer, at: nat) {
    var w := ItemWork(item, ctx.drawn, env);
    if FineItem(item, env, at) && Can(ctx, w, env) then res == Ok((ItemForm(item, ctx.drawn, env), Then(ctx, w, env))) else res.Err?
  }

  lemma {:induction false} ValueExact(v: Value, ctx: Context, env: Issuer, at: nat)
    requires Sized(ctx, env.limits)
    ensures ValueIs(IssueValue(v, ctx, env, at), v, ctx, env, at)
    decreases v, 3
  {
    hide Can, Then, WorkOf, EntriesWork, ItemsWork, IssueEntries, IssueItems, FormPlain, FormHashes, FormItems, Sized, Join;
    var n := ctx.drawn;
    WorkSplits(v, n, env);
    CanJoin(ctx, ONE_VISIT, ContentWork(v, n, env), env);
    VisitExact(ctx, at, env);
    if at <= env.limits.maxDepth && Can(ctx, ONE_VISIT, env) {
      var ctx1 := Then(ctx, ONE_VISIT, env);
      ThenDrawn(ctx, ONE_VISIT, env);
      match v
      case Map(entries) =>
        EntriesExact(entries, IssueAcc([], {}, [], ctx1), env, at);
        MapFine(entries, n, env, at);
      case Array(items) =>
        ItemsExact(items, [], ctx1, env, at);
        assert [] + FormItems(items, n, env) == FormItems(items, n, env);
      case Tag(_, inner) => ValueExact(inner, ctx1, env, at + 1);
      case _ => CanNothing(ctx1, env);
    }
  }

  lemma MapFine(entries: seq<Entry>, n: nat, env: Issuer, at: nat)
    ensures FineEntries(entries, {}, env, at) && ContainerFits(|entries|, env.limits) <==> FineValue(Map(entries), env, at)
    ensures [] + FormPlain(entries, n, env) == FormPlain(entries, n, env) && [] + FormHashes(entries, n, env) == FormHashes(entries, n, env)
  {
    hide RequestEntries, NarrowEntries, HeightOfEntries, FormPlain, FormHashes;
  }

  lemma ThenDrawn(ctx: Context, w: Work, env: Issuer)
    ensures Then(ctx, w, env).drawn == ctx.drawn + |w.made|
  {
  }

  lemma {:induction false} EntriesExact(entries: seq<Entry>, acc: IssueAcc, env: Issuer, at: nat)
    requires Sized(acc.ctx, env.limits) && at <= env.limits.maxDepth
    ensures EntriesAre(IssueEntries(entries, acc, env, at), entries, acc, env, at)
    decreases entries, 2
  {
    hide Can, Then, EntriesWork, EntryWork, FineEntries, FineEntry, IssueEntry, PlainForm, HashForm, Sized, Join, CountEntry;
    var n := acc.ctx.drawn;
    if entries == [] {
      CanNothing(acc.ctx, env);
      FineNothing(acc.keys, env, at);
      NoEntriesWork(n, env);
    } else {
      EntriesWorkFirst(entries, n, env);
      FineEntriesFirst(entries, acc.keys, env, at);
      CanJoin(acc.ctx, EntryWork(entries[0], n, env), EntriesWork(entries[1..], n + CountEntry(entries[0]), env), env);
      EntryExact(entries[0], acc, env, at);
      var r := IssueEntry(entries[0], acc, env, at);
      if r.Ok? {
        ThenDrawn(acc.ctx, EntryWork(entries[0], n, env), env);
        Counts(NULL, entries[0], NULL, n, env);
        EntriesExact(entries[1..], r.value, env, at);
      }
    }
  }

  lemma NoEntriesWork(n: nat, env: Issuer)
    ensures EntriesWork([], n, env) == NO_WORK && ItemsWork([], n, env) == NO_WORK
  {
  }

  lemma {:induction false} ItemsExact(items: seq<Value>, out: seq<Value>, ctx: Context, env: Issuer, at: nat)
    requires Sized(ctx, env.limits) && at <= env.limits.maxDepth
    ensures ItemsAre(IssueItems(items, out, ctx, env, at), items, out, ctx, env, at)
    decreases items, 2
  {
    hide Can, Then, ItemsWork, ItemWork, FineItems, FineItem, IssueItem, ItemForm, Sized, Join, CountItem;
    var n := ctx.drawn;
    if items == [] {
      assert out + [] == out;
      CanNothing(ctx, env);
      FineNothing({}, env, at);
      NoEntriesWork(n, env);
    } else {
      ItemsWorkFirst(items, n, env);
      FineItemsFirst(items, env, at);
      CanJoin(ctx, ItemWork(items[0], n, env), ItemsWork(items[1..], n + CountItem(items[0]), env), env);
      ItemExact(items[0], ctx, env, at);
      var r := IssueItem(items[0], ctx, env, at);
      if r.Ok? {
        ThenDrawn(ctx, ItemWork(items[0], n, env), env);
        Counts(NULL, Entry(NULL, NULL), items[0], n, env);
        ItemsExact(items[1..], out + [r.value.0], r.value.1, env, at);
        var rest := FormItems(items[1..], n + CountItem(items[0]), env);
        assert out + [r.value.0] + rest == out + ([r.value.0] + rest);
      }
    }
  }

  // ---- one entry --------------------------------------------------------------------------------

  lemma {:induction false} EntryExact(e: Entry, acc: IssueAcc, env: Issuer, at: nat)
    requires Sized(acc.ctx, env.limits) && at <= env.limits.maxDepth
    ensures EntryIs(IssueEntry(e, acc, env, at), e, acc, env, at)
    decreases e, 1
  {
    hide EntryIs, IssueEntry;
    if Redacts(e.key) {
      RedactedExact(e, acc, env, at);
    } else if IsDecoy(e.key) {
      MapDecoyExact(e, acc, env, at);
    } else {
      PlainExact(e, acc, env, at);
    }
  }

  lemma {:induction false} PlainExact(e: Entry, acc: IssueAcc, env: Issuer, at: nat)
    requires Sized(acc.ctx, env.limits) && at <= env.limits.maxDepth && PlainEntry(e)
    ensures EntryIs(IssueEntry(e, acc, env, at), e, acc, env, at)
    decreases e, 0
  {
    hide Can, Then, WorkOf, IssueValue, Form, Sized, Requests, Narrow, Join;
    var n := acc.ctx.drawn;
    ClaimKeyIs(e.key);
    assert acc.hashes + [] == acc.hashes;
    VisitExact(acc.ctx, at + 1, env);
    CanJoin(acc.ctx, ONE_VISIT, WorkOf(e.val, n, env), env);
    PlainWork(e, n, env);
    if at + 1 <= env.limits.maxDepth && Can(acc.ctx, ONE_VISIT, env) {
      ThenDrawn(acc.ctx, ONE_VISIT, env);
      ValueExact(e.val, Then(acc.ctx, ONE_VISIT, env), env, at + 1);
    }
  }

  lemma PlainWork(e: Entry, n: nat, env: Issuer)
    requires PlainEntry(e)
    ensures ClaimKey(e.key) ==> EntryWork(e, n, env) == Join(ONE_VISIT, WorkOf(e.val, n, env)) && Height(e.key) == 0
  {
    hide MadeOf, DecoyIds;
    var w := Join(ONE_VISIT, WorkOf(e.val, n, env));
    assert w.ids == DecoyIds(e.val);
    assert w.made == MadeOf(e.val, n, env);
    assert MadeOfEntry(e, n, env) == MadeOf(e.val, n, env);
    assert DecoyIdsOfEntry(e) == DecoyIds(e.val);
    assert ClaimKey(e.key) ==> NodesOfEntry(e) == w.visits;
  }

  /** Four stretches of work in a row. */
  lemma CanFour(ctx: Context, a: Work, b: Work, c: Work, d: Work, env: Issuer)
    ensures var ctx1, ctx2 := Then(ctx, a, env), Then(Then(ctx, a, env), b, env);
            var ctx3 := Then(ctx2, c, env);
            && (Can(ctx, Join(Join(Join(a, b), c), d), env) <==> Can(ctx, a, env) && Can(ctx1, b, env) && Can(ctx2, c, env) && Can(ctx3, d, env))
            && Then(ctx3, d, env) == Then(ctx, Join(Join(Join(a, b), c), d), env)
            && (Can(ctx, a, env) ==> Sized(ctx1, env.limits)) && (Can(ctx1, b, env) ==> Sized(ctx2, env.limits))
            && (Can(ctx2, c, env) ==> Sized(ctx3, env.limits))
  {
    hide Can, Then, Join, Sized;
    CanJoin(ctx, a, b, env);
    CanJoin(ctx, Join(a, b), c, env);
    CanJoin(ctx, Join(Join(a, b), c), d, env);
    CanJoin(Then(ctx, a, env), b, NO_WORK, env);
    CanJoin(Then(Then(ctx, a, env), b, env), c, NO_WORK, env);
  }

  lemma {:induction false} RedactedExact(e: Entry, acc: IssueAcc, env: Issuer, at: nat)
    requires Sized(acc.ctx, env.limits) && at <= env.limits.maxDepth && Redacts(e.key)
    ensures EntryIs(IssueEntry(e, acc, env, at), e, acc, env, at)
    decreases e, 0
  {
    hide Can, Then, WorkOf, MakeWork, EntryWork, IssueValue, Form, Sized, Requests, Narrow, Join, Disclose, Next, ClaimAt, Made, Height, Nodes;
    var n, ctx := acc.ctx.drawn, acc.ctx;
    var d := ClaimAt(e, n, env);
    assert acc.out + [] == acc.out;
    ClaimKeyIs(e.key.inner);
    LabelRoundTrip(e.key.inner);
    RootPolicyIs(e.key.inner);
    RedactedWork(e, n, env);
    CanFour(ctx, ONE_VISIT, ONE_VISIT, WorkOf(e.val, n, env), MakeWork(d), env);
    VisitExact(ctx, at + 1, env);
    if at + 1 <= env.limits.maxDepth && Can(ctx, ONE_VISIT, env) {
      var ctx1 := Then(ctx, ONE_VISIT, env);
      VisitExact(ctx1, at + 2, env);
      if at + 2 <= env.limits.maxDepth && Can(ctx1, ONE_VISIT, env) {
        var ctx2 := Then(ctx1, ONE_VISIT, env);
        ThenDrawn(ctx, ONE_VISIT, env);
        ThenDrawn(ctx1, ONE_VISIT, env);
        ValueExact(e.val, ctx2, env, at + 1);
        if FineValue(e.val, env, at + 1) && Can(ctx2, WorkOf(e.val, n, env), env) && ClaimKey(e.key.inner) {
          var ctx3 := Then(ctx2, WorkOf(e.val, n, env), env);
          ThenDrawn(ctx2, WorkOf(e.val, n, env), env);
          Counts(e.val, e, NULL, n, env);
          var what := RedactClaim(LabelOf(e.key.inner).value, Form(e.val, n, env));
          NextClaim(e, n, ctx3, env);
          DiscloseExact(what, ctx3, env);
        }
      }
    }
  }

  lemma NextClaim(e: Entry, n: nat, ctx: Context, env: Issuer)
    requires Redacts(e.key) && ClaimKey(e.key.inner) && ctx.drawn == n + Count(e.val)
    ensures LabelOf(e.key.inner).Some?
    ensures Next(RedactClaim(LabelOf(e.key.inner).value, Form(e.val, n, env)), ctx, env) == ClaimAt(e, n, env)
  {
    hide Form, Made;
  }

  lemma RedactedWork(e: Entry, n: nat, env: Issuer)
    requires Redacts(e.key)
    ensures ClaimKey(e.key.inner) ==>
              && EntryWork(e, n, env) == Join(Join(Join(ONE_VISIT, ONE_VISIT), WorkOf(e.val, n, env)), MakeWork(ClaimAt(e, n, env)))
              && Height(e.key) == 1
  {
    hide MadeOf, DecoyIds, ClaimAt;
    var w := Join(Join(Join(ONE_VISIT, ONE_VISIT), WorkOf(e.val, n, env)), MakeWork(ClaimAt(e, n, env)));
    assert w.ids == DecoyIds(e.val);
    assert w.made == MadeOf(e.val, n, env) + [ClaimAt(e, n, env)];
    assert DecoyIdsOfEntry(e) == DecoyIds(e.val);
    if ClaimKey(e.key.inner) {
      assert Nodes(e.key.inner) == 1 && Height(e.key.inner) == 0;
      assert NodesOfEntry(e) == w.visits;
    }
  }

  lemma {:induction false} MapDecoyExact(e: Entry, acc: IssueAcc, env: Issuer, at: nat)
    requires Sized(acc.ctx, env.limits) && at <= env.limits.maxDepth && IsDecoy(e.key)
    ensures EntryIs(IssueEntry(e, acc, env, at), e, acc, env, at)
  {
    hide Can, Then, MakeWork, EntryWork, IdWork, Sized, Join, Disclose, Next, DecoyAt, Made, Height, Nodes, RecordDecoyId, DecoyId;
    var n, ctx := acc.ctx.drawn, acc.ctx;
    var d := DecoyAt(n, env);
    assert acc.out + [] == acc.out;
    MapDecoyWork(e, n, env);
    CanFour(ctx, ONE_VISIT, ONE_VISIT, IdWork(e.key.inner), ONE_VISIT, env);
    var four := Join(Join(Join(ONE_VISIT, ONE_VISIT), IdWork(e.key.inner)), ONE_VISIT);
    CanJoin(ctx, four, MakeWork(d), env);
    VisitExact(ctx, at + 1, env);
    if at + 1 <= env.limits.maxDepth && Can(ctx, ONE_VISIT, env) {
      var ctx1 := Then(ctx, ONE_VISIT, env);
      VisitExact(ctx1, at + 2, env);
      if at + 2 <= env.limits.maxDepth && Can(ctx1, ONE_VISIT, env) {
        var ctx2 := Then(ctx1, ONE_VISIT, env);
        IdExact(e.key.inner, ctx2, env);
        if DecoyId(e.key.inner) && Can(ctx2, IdWork(e.key.inner), env) {
          var ctx3 := Then(ctx2, IdWork(e.key.inner), env);
          VisitExact(ctx3, at + 1, env);
          if Can(ctx3, ONE_VISIT, env) {
            MapDecoyDrawn(ctx, e.key.inner, env);
            DiscloseExact(AddDecoy, Then(ctx3, ONE_VISIT, env), env);
            NextDecoy(n, Then(ctx3, ONE_VISIT, env), env);
          }
        }
      }
    }
  }

  lemma MapDecoyDrawn(ctx: Context, v: Value, env: Issuer)
    ensures Then(Then(Then(Then(ctx, ONE_VISIT, env), ONE_VISIT, env), IdWork(v), env), ONE_VISIT, env).drawn == ctx.drawn
  {
  }

  lemma NextDecoy(n: nat, ctx: Context, env: Issuer)
    requires ctx.drawn == n
    ensures Next(AddDecoy, ctx, env) == DecoyAt(n, env)
  {
  }

  lemma MapDecoyWork(e: Entry, n: nat, env: Issuer)
    requires IsDecoy(e.key)
    ensures DecoyId(e.key.inner) && e.val == Simple(22) ==>
              && EntryWork(e, n, env)
                 == Join(Join(Join(Join(ONE_VISIT, ONE_VISIT), IdWork(e.key.inner)), ONE_VISIT), MakeWork(DecoyAt(n, env)))
              && Height(e.key) == 1 && Height(e.val) == 0 && Narrow(e.val, env.limits)
  {
    hide DecoyAt;
    var w := Join(Join(Join(Join(ONE_VISIT, ONE_VISIT), IdWork(e.key.inner)), ONE_VISIT), MakeWork(DecoyAt(n, env)));
    assert w.ids == IdOf(e.key.inner) && w.made == [DecoyAt(n, env)];
    if DecoyId(e.key.inner) && e.val == Simple(22) {
      assert Nodes(e.key.inner) == 1 && Height(e.key.inner) == 0 && Nodes(e.val) == 1;
      assert NodesOfEntry(e) == w.visits;
    }
  }

  // ---- one item ---------------------------------------------------------------------------------

  lemma {:induction false} ItemExact(item: Value, ctx: Context, env: Issuer, at: nat)
    requires Sized(ctx, env.limits) && at <= env.limits.maxDepth
    ensures ItemIs(IssueItem(item, ctx, env, at), item, ctx, env, at)
    decreases item, 5
  {
    hide ItemIs, IssueItem;
    if Redacts(item) {
      RedactedItemExact(item, ctx, env, at);
    } else if IsDecoy(item) {
      DecoyItemExact(item, ctx, env, at);
    } else {
      OtherItemExact(item, ctx, env, at);
    }
  }

  lemma {:induction false} OtherItemExact(item: Value, ctx: Context, env: Issuer, at: nat)
    requires Sized(ctx, env.limits) && !Redacts(item) && !IsDecoy(item)
    ensures ItemIs(IssueItem(item, ctx, env, at), item, ctx, env, at)
    decreases item, 4
  {
    hide Can, Then, IssueValue, Form, Sized, Requests, Narrow, Height, MadeOf, DecoyIds, Nodes;
    ValueExact(item, ctx, env, at + 1);
  }

  lemma {:induction false} RedactedItemExact(item: Value, ctx: Context, env: Issuer, at: nat)
    requires Sized(ctx, env.limits) && at <= env.limits.maxDepth && Redacts(item)
    ensures ItemIs(IssueItem(item, ctx, env, at), item, ctx, env, at)
    decreases item, 4
  {
    hide Can, Then, WorkOf, MakeWork, ItemWork, IssueValue, Form, Sized, Requests, Join, Disclose, Next, ElementAt, Made, Narrow, Height;
    var n := ctx.drawn;
    var d := ElementAt(item.inner, n, env);
    RedactedItemWork(item, n, env);
    CanFour(ctx, ONE_VISIT, WorkOf(item.inner, n, env), MakeWork(d), NO_WORK, env);
    NothingMore(Join(Join(ONE_VISIT, WorkOf(item.inner, n, env)), MakeWork(d)));
    VisitExact(ctx, at + 1, env);
    if at + 1 <= env.limits.maxDepth && Can(ctx, ONE_VISIT, env) {
      var ctx1 := Then(ctx, ONE_VISIT, env);
      ThenDrawn(ctx, ONE_VISIT, env);
      ValueExact(item.inner, ctx1, env, at + 2);
      if FineValue(item.inner, env, at + 2) && Can(ctx1, WorkOf(item.inner, n, env), env) {
        var ctx2 := Then(ctx1, WorkOf(item.inner, n, env), env);
        ThenDrawn(ctx1, WorkOf(item.inner, n, env), env);
        Counts(item.inner, Entry(NULL, NULL), NULL, n, env);
        NextElement(item.inner, n, ctx2, env);
        DiscloseExact(RedactElement(Form(item.inner, n, env)), ctx2, env);
        if Can(ctx2, MakeWork(d), env) {
          CanNothing(Then(ctx2, MakeWork(d), env), env);
        }
      }
    }
  }

  lemma NothingMore(w: Work)
    ensures Join(w, NO_WORK) == w
  {
  }

  lemma NextElement(content: Value, n: nat, ctx: Context, env: Issuer)
    requires ctx.drawn == n + Count(content)
    ensures Next(RedactElement(Form(content, n, env)), ctx, env) == ElementAt(content, n, env)
  {
    hide Form, Made;
  }

  lemma RedactedItemWork(item: Value, n: nat, env: Issuer)
    requires Redacts(item)
    ensures ItemWork(item, n, env) == Join(Join(ONE_VISIT, WorkOf(item.inner, n, env)), MakeWork(ElementAt(item.inner, n, env)))
    ensures Height(item) == 1 + Height(item.inner) && (Narrow(item, env.limits) <==> Narrow(item.inner, env.limits))
  {
    hide MadeOf, DecoyIds, ElementAt;
    assert [] + DecoyIds(item.inner) + [] == DecoyIds(item.inner);
    assert [] + MadeOf(item.inner, n, env) == MadeOf(item.inner, n, env);
  }

  lemma {:induction false} DecoyItemExact(item: Value, ctx: Context, env: Issuer, at: nat)
    requires Sized(ctx, env.limits) && at <= env.limits.maxDepth && IsDecoy(item)
    ensures ItemIs(IssueItem(item, ctx, env, at), item, ctx, env, at)
  {
    hide Can, Then, MakeWork, ItemWork, IdWork, Sized, Join, Disclose, Next, DecoyAt, Made, Narrow, Height, RecordDecoyId, DecoyId;
    var n := ctx.drawn;
    var d := DecoyAt(n, env);
    DecoyItemWork(item, n, env);
    CanFour(ctx, ONE_VISIT, ONE_VISIT, IdWork(item.inner), MakeWork(d), env);
    VisitExact(ctx, at + 1, env);
    if at + 1 <= env.limits.maxDepth && Can(ctx, ONE_VISIT, env) {
      var ctx1 := Then(ctx, ONE_VISIT, env);
      VisitExact(ctx1, at + 2, env);
      if at + 2 <= env.limits.maxDepth && Can(ctx1, ONE_VISIT, env) {
        var ctx2 := Then(ctx1, ONE_VISIT, env);
        IdExact(item.inner, ctx2, env);
        if DecoyId(item.inner) && Can(ctx2, IdWork(item.inner), env) {
          DecoyDrawn(ctx, item.inner, env);
          DiscloseExact(AddDecoy, Then(ctx2, IdWork(item.inner), env), env);
          NextDecoy(n, Then(ctx2, IdWork(item.inner), env), env);
        }
      }
    }
  }

  lemma DecoyDrawn(ctx: Context, v: Value, env: Issuer)
    ensures Then(Then(Then(ctx, ONE_VISIT, env), ONE_VISIT, env), IdWork(v), env).drawn == ctx.drawn
  {
  }

  lemma DecoyItemWork(item: Value, n: nat, env: Issuer)
    requires IsDecoy(item)
    ensures DecoyId(item.inner) ==>
              && ItemWork(item, n, env) == Join(Join(Join(ONE_VISIT, ONE_VISIT), IdWork(item.inner)), MakeWork(DecoyAt(n, env)))
              && Height(item) == 1 && Narrow(item, env.limits)
  {
    hide DecoyAt;
    if DecoyId(item.inner) {
      assert Nodes(item.inner) == 1 && Height(item.inner) == 0 && Narrow(item.inner, env.limits);
    }
  }

  // ---- the whole issuance -----------------------------------------------------------------------

  /** No element comes twice. */
  ghost predicate Apart<T(!new)>(xs: seq<T>) {
    forall i, j :: 0 <= i < j < |xs| ==> xs[i] != xs[j]
  }

  /** Exactly the claims that can be issued: a map of well-formed requests with different decoy identifiers,
      within the item, depth and container limits; a fresh salt for every request; and disclosures that
      are sound, have different digests, and are within their own limits. */
  ghost predicate MayIssue(v: Value, env: Issuer) {
    var ds := MadeOf(v, 0, env);
    && v.Map? && Requests(v, env.canon, true) && Apart(DecoyIds(v))
    && Nodes(v) <= env.limits.maxItems && Height(v) <= env.limits.maxDepth && Narrow(v, env.limits)
    && (forall i :: 0 <= i < Count(v) ==> env.salts(i).Some?)
    && (forall i, j :: 0 <= i < j < Count(v) ==> env.salts(i) != env.salts(j))
    && Count(v) <= env.limits.maxDisclosures && TotalBytes(ds) <= env.limits.maxDisclosureBytes
    && DistinctDigests(ds, env.hash)
    && (forall d :: d in ds ==> SoundKind(d.kind, env.canon, env.limits))
  }

  lemma EmptyCan(v: Value, env: Issuer)
    ensures v.Map? && FineValue(v, env, 0) && Can(EMPTY_CONTEXT, WorkOf(v, 0, env), env) <==> MayIssue(v, env)
  {
    hide Requests, Narrow, Height, Nodes, MadeOf, DecoyIds, SoundKind, DigestOf;
    var ds := MadeOf(v, 0, env);
    MadeSalts(v, 0, env);
    SaltsApart(ds, Count(v), env);
    assert Fresh(DigestsOf(ds, env.hash), {}) <==> DistinctDigests(ds, env.hash) by {
      DigestsApart(ds, env.hash);
    }
    assert AllSound(ds, env) <==> forall d :: d in ds ==> SoundKind(d.kind, env.canon, env.limits);
  }

  lemma DigestsApart(ds: seq<Disclosure>, hash: Hasher)
    ensures Fresh(DigestsOf(ds, hash), {}) <==> DistinctDigests(ds, hash)
  {
    hide DigestOf;
    var xs := DigestsOf(ds, hash);
    if DistinctDigests(ds, hash) {
      forall i, j | 0 <= i < j < |xs| ensures xs[i] != xs[j] {
        assert DigestOf(ds[i], hash) != DigestOf(ds[j], hash);
      }
    }
    if Fresh(xs, {}) {
      forall i, j | 0 <= i < j < |ds| ensures DigestOf(ds[i], hash) != DigestOf(ds[j], hash) {
        assert xs[i] != xs[j];
      }
    }
  }

  lemma SaltsApart(ds: seq<Disclosure>, k: nat, env: Issuer)
    requires SaltsFrom(ds, 0, k, env)
    ensures SaltsThere(0, k, env) && Fresh(SaltsOf(ds), {}) <==>
            (forall i :: 0 <= i < k ==> env.salts(i).Some?) && (forall i, j :: 0 <= i < j < k ==> env.salts(i) != env.salts(j))
  {
    var xs := SaltsOf(ds);
    if SaltsThere(0, k, env) {
      assert forall i :: 0 <= i < k ==> env.salts(i) == Some(xs[i]);
    }
  }

  /** Issuing succeeds exactly on what can be issued, and returns the issued form and the disclosures. */
  lemma IssueExactly(v: Value, env: Issuer)
    ensures Issue(v, env).Ok? <==> MayIssue(v, env)
    ensures Issue(v, env).Ok? ==> Issue(v, env).value == Issued(Form(v, 0, env), MadeOf(v, 0, env))
  {
    hide Can, FineValue, MayIssue, IssueValue, Form, MadeOf;
    EmptyCan(v, env);
    ValueExact(v, EMPTY_CONTEXT, env, 0);
    assert [] + MadeOf(v, 0, env) == MadeOf(v, 0, env);
  }
}
