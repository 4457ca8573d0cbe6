/** What issuing a claims value computes: sd-cwt/src/issuance.rs as functions over the issuing
    context, with the validation each new disclosure passes. The salt source, the hash and the
    deterministic encoder are arbitrary functions. */
module Issuance {
  import opened Values
  import opened Disclosures
  import opened ClaimMatching
  import opened Restoration

  type Salt = s: Bytes | |s| == 16 witness seq(16, _ => 0)

  datatype Issuer = Issuer(salts: nat -> Option<Salt>, hash: Hasher, canon: Canon, limits: Limits)

  datatype Context = Context(
    drawn: nat,
    decoyIds: set<int>,
    saltsUsed: set<Bytes>,
    digestsUsed: set<Bytes>,
    disclosures: seq<Disclosure>,
    bytes: nat,
    visited: nat)

  const EMPTY_CONTEXT := Context(0, {}, {}, {}, [], 0, 0)

  // ---- validation of an issued value ------------------------------------------------------------

  function ValidateIssued(v: Value, visited: nat, canon: Canon, limits: Limits, depth: nat): Result<nat>
    decreases v, 2
  {
    var visited1 :- Enter(visited, depth, limits);
    match v
    case Map(entries) =>
      if !ContainerFits(|entries|, limits) then Err(Limit)
      else ValidateIssuedEntries(entries, {}, visited1, canon, limits, depth)
    case Array(items) =>
      if !ContainerFits(|items|, limits) then Err(Limit)
      else ValidateIssuedItems(items, visited1, canon, limits, depth)
    case Tag(tag, inner) =>
      if IsReservedTag(tag) then Err(UnexpectedType) else ValidateIssued(inner, visited1, canon, limits, depth + 1)
    case Simple(code) =>
      if code == REDACTED_CLAIM_KEYS_SIMPLE then Err(UnexpectedType) else Ok(visited1)
    case _ => Ok(visited1)
  }

  function ValidateIssuedEntries(entries: seq<Entry>, keys: set<Bytes>, visited: nat, canon: Canon, limits: Limits, depth: nat): Result<nat>
    decreases entries, 1
  {
    if entries == [] then Ok(visited) else
    var visited1 :- ValidateIssuedEntry(entries[0], keys, visited, canon, limits, depth);
    ValidateIssuedEntries(entries[1..], keys + {canon(entries[0].key)}, visited1, canon, limits, depth)
  }

  function ValidateIssuedEntry(e: Entry, keys: set<Bytes>, visited: nat, canon: Canon, limits: Limits, depth: nat): Result<nat>
    decreases e, 0
  {
    var visited1 :- Enter(visited, depth + 1, limits);
    if canon(e.key) in keys then Err(Verify) else
    if e.key == REDACTED_KEYS_LABEL then ValidateHashList(e.val, visited1, limits, depth) else
    if LabelOf(e.key).None? then Err(UnexpectedType) else
    ValidateIssued(e.val, visited1, canon, limits, depth + 1)
  }

  function ValidateHashList(v: Value, visited: nat, limits: Limits, depth: nat): Result<nat> {
    if !v.Array? then Err(UnexpectedType) else
    var visited1 :- Enter(visited, depth + 1, limits);
    if !ContainerFits(|v.items|, limits) then Err(Limit) else
    ValidateHashes(v.items, visited1, limits, depth)
  }

  function ValidateHashes(items: seq<Value>, visited: nat, limits: Limits, depth: nat): Result<nat> {
    if items == [] then Ok(visited) else
    var visited1 :- Enter(visited, depth + 2, limits);
    if !items[0].ByteString? then Err(UnexpectedType) else ValidateHashes(items[1..], visited1, limits, depth)
  }

  function ValidateIssuedItems(items: seq<Value>, visited: nat, canon: Canon, limits: Limits, depth: nat): Result<nat>
    decreases items, 1
  {
    if items == [] then Ok(visited) else
    var visited1 :- ValidateIssuedItem(items[0], visited, canon, limits, depth);
    ValidateIssuedItems(items[1..], visited1, canon, limits, depth)
  }

  function ValidateIssuedItem(item: Value, visited: nat, canon: Canon, limits: Limits, depth: nat): Result<nat>
    decreases item, 3
  {
    if IsRedactedElement(item) then
      var visited1 :- Enter(visited, depth + 1, limits);
      var visited2 :- Enter(visited1, depth + 2, limits);
      if item.inner.ByteString? then Ok(visited2) else Err(UnexpectedType)
    else ValidateIssued(item, visited, canon, limits, depth + 1)
  }

  /** What every disclosure must satisfy: a salt of 16 bytes, a proper key, and an issued value whose
      items, with the fixed ones around it, stay within the limits. */
  function CheckKind(kind: Kind, canon: Canon, limits: Limits): Result<()> {
    if |kind.salt| != 16 then Err(UnexpectedType) else
    if kind.Claim? && LabelOf(ValueOfLabel(kind.key)) != Some(kind.key) then Err(UnexpectedType) else
    if kind.Decoy? then Ok(()) else
    var visited :- Consume(0, if kind.Claim? then 3 else 2, limits);
    var _ :- ValidateIssued(kind.value, visited, canon, limits, 0);
    Ok(())
  }

  /** Checks a new disclosure and encodes it. */
  function FromKind(kind: Kind, canon: Canon, limits: Limits): (r: Result<Disclosure>)
    ensures r.Ok? ==> r.value.kind == kind && r.value.encoded == canon(KindToValue(kind))
  {
    var _ :- CheckKind(kind, canon, limits);
    Ok(Disclosure(kind, canon(KindToValue(kind))))
  }

  // ---- the context ------------------------------------------------------------------------------

  function EnterIssue(ctx: Context, depth: nat, limits: Limits): (r: Result<Context>)
    ensures r.Ok? ==> r.value == ctx.(visited := ctx.visited + 1)
  {
    var visited :- Enter(ctx.visited, depth, limits);
    Ok(ctx.(visited := visited))
  }

  function NextSalt(ctx: Context, env: Issuer): Result<(Salt, Context)> {
    match env.salts(ctx.drawn)
    case None => Err(Custom)
    case Some(salt) =>
      if salt in ctx.saltsUsed then Err(Custom)
      else Ok((salt, ctx.(drawn := ctx.drawn + 1, saltsUsed := ctx.saltsUsed + {salt})))
  }

  function AddDisclosure(kind: Kind, ctx: Context, env: Issuer): Result<(Bytes, Context)> {
    var d :- FromKind(kind, env.canon, env.limits);
    if |ctx.disclosures| >= env.limits.maxDisclosures then Err(Limit) else
    var bytes := ctx.bytes + |d.encoded|;
    if bytes > env.limits.maxDisclosureBytes then Err(Limit) else
    var digest := DigestOf(d, env.hash);
    if digest in ctx.digestsUsed then Err(Verify) else
    Ok((digest, ctx.(bytes := bytes, digestsUsed := ctx.digestsUsed + {digest}, disclosures := ctx.disclosures + [d])))
  }

  /** Draws a salt and records the disclosure built from it. */
  function Disclose(what: Redaction, ctx: Context, env: Issuer): Result<(Bytes, Context)> {
    var (salt, ctx1) :- NextSalt(ctx, env);
    AddDisclosure(KindOf(what, salt), ctx1, env)
  }

  datatype Redaction = RedactClaim(key: Label, value: Value) | RedactElement(value: Value) | AddDecoy

  function KindOf(what: Redaction, salt: Salt): Kind {
    match what
    case RedactClaim(key, value) => Claim(salt, key, value)
    case RedactElement(value) => Element(salt, value)
    case AddDecoy => Decoy(salt)
  }

  const U64_MAX: int := 0xffff_ffff_ffff_ffff

  function RecordDecoyId(v: Value, ctx: Context): Result<Context> {
    if !v.Integer? || !(0 <= v.n <= U64_MAX) then Err(UnexpectedType) else
    if v.n == 0 then Err(UnexpectedType) else
    if v.n in ctx.decoyIds then Err(Verify) else
    Ok(ctx.(decoyIds := ctx.decoyIds + {v.n}))
  }

  // ---- the claims tree --------------------------------------------------------------------------

  datatype IssueAcc = IssueAcc(out: seq<Entry>, keys: set<Bytes>, hashes: seq<Value>, ctx: Context)

  function IssueValue(v: Value, ctx: Context, env: Issuer, depth: nat): Result<(Value, Context)>
    decreases v, 2
  {
    var ctx1 :- EnterIssue(ctx, depth, env.limits);
    match v
    case Map(entries) =>
      if !ContainerFits(|entries|, env.limits) then Err(Limit) else
      var acc :- IssueEntries(entries, IssueAcc([], {}, [], ctx1), env, depth);
      Ok((Map(acc.out + HashEntry(acc.hashes)), acc.ctx))
    case Array(items) =>
      if !ContainerFits(|items|, env.limits) then Err(Limit) else
      var (out, ctx2) :- IssueItems(items, [], ctx1, env, depth);
      Ok((Array(out), ctx2))
    case Tag(tag, inner) =>
      if IsReservedTag(tag) then Err(Custom) else
      var (out, ctx2) :- IssueValue(inner, ctx1, env, depth + 1);
      Ok((Tag(tag, out), ctx2))
    case Simple(code) => if code == REDACTED_CLAIM_KEYS_SIMPLE then Err(Custom) else Ok((v, ctx1))
    case _ => Ok((v, ctx1))
  }

  /** The redacted-keys entry closing an issued map. */
  function HashEntry(hashes: seq<Value>): seq<Entry> {
    if hashes == [] then [] else [Entry(REDACTED_KEYS_LABEL, Array(hashes))]
  }

  function IssueEntries(entries: seq<Entry>, acc: IssueAcc, env: Issuer, depth: nat): Result<IssueAcc>
    decreases entries, 1
  {
    if entries == [] then Ok(acc) else
    var acc1 :- IssueEntry(entries[0], acc, env, depth);
    IssueEntries(entries[1..], acc1, env, depth)
  }

  function IssueEntry(e: Entry, acc: IssueAcc, env: Issuer, depth: nat): Result<IssueAcc>
    decreases e, 1
  {
    var ctx :- EnterIssue(acc.ctx, depth + 1, env.limits);
    var acc1 := acc.(ctx := ctx);
    if e.key.Tag? && e.key.tag == TO_BE_REDACTED_TAG then IssueRedacted(e, acc1, env, depth)
    else if e.key.Tag? && e.key.tag == TO_BE_DECOY_TAG then IssueMapDecoy(e, acc1, env, depth)
    else if e.key == REDACTED_KEYS_LABEL then Err(Custom)
    else if LabelOf(e.key).None? then Err(UnexpectedType)
    else
      var keys :- InsertKey(e.key, acc.keys, env.canon);
      var (out, ctx1) :- IssueValue(e.val, ctx, env, depth + 1);
      Ok(IssueAcc(acc.out + [Entry(e.key, out)], keys, acc.hashes, ctx1))
  }

  function InsertKey(key: Value, keys: set<Bytes>, canon: Canon): Result<set<Bytes>> {
    if canon(key) in keys then Err(Verify) else Ok(keys + {canon(key)})
  }

  function IssueRedacted(e: Entry, acc: IssueAcc, env: Issuer, depth: nat): Result<IssueAcc>
    requires e.key.Tag?
    decreases e, 0
  {
    var ctx :- EnterIssue(acc.ctx, depth + 2, env.limits);
    match LabelOf(e.key.inner)
    case None => Err(UnexpectedType)
    case Some(key) =>
      if depth == 0 && !RootKeyAllowed(key) then Err(Custom) else
      var keys :- InsertKey(ValueOfLabel(key), acc.keys, env.canon);
      var (out, ctx1) :- IssueValue(e.val, ctx, env, depth + 1);
      var (digest, ctx2) :- Disclose(RedactClaim(key, out), ctx1, env);
      Ok(IssueAcc(acc.out, keys, acc.hashes + [ByteString(digest)], ctx2))
  }

  function IssueMapDecoy(e: Entry, acc: IssueAcc, env: Issuer, depth: nat): Result<IssueAcc>
    requires e.key.Tag?
  {
    var ctx :- EnterIssue(acc.ctx, depth + 2, env.limits);
    var keys :- InsertKey(e.key, acc.keys, env.canon);
    var ctx1 :- RecordDecoyId(e.key.inner, ctx);
    if e.val != NULL then Err(Custom) else
    var ctx2 :- EnterIssue(ctx1, depth + 1, env.limits);
    var (digest, ctx3) :- Disclose(AddDecoy, ctx2, env);
    Ok(IssueAcc(acc.out, keys, acc.hashes + [ByteString(digest)], ctx3))
  }

  function IssueItems(items: seq<Value>, out: seq<Value>, ctx: Context, env: Issuer, depth: nat): Result<(seq<Value>, Context)>
    decreases items, 1
  {
    if items == [] then Ok((out, ctx)) else
    var (v, ctx1) :- IssueItem(items[0], ctx, env, depth);
    IssueItems(items[1..], out + [v], ctx1, env, depth)
  }

  function IssueItem(item: Value, ctx: Context, env: Issuer, depth: nat): Result<(Value, Context)>
    decreases item, 3
  {
    if item.Tag? && item.tag == TO_BE_REDACTED_TAG then
      var ctx1 :- EnterIssue(ctx, depth + 1, env.limits);
      var (out, ctx2) :- IssueValue(item.inner, ctx1, env, depth + 2);
      var (digest, ctx3) :- Disclose(RedactElement(out), ctx2, env);
      Ok((Tag(REDACTED_ELEMENT_TAG, ByteString(digest)), ctx3))
    else if item.Tag? && item.tag == TO_BE_DECOY_TAG then
      var ctx1 :- EnterIssue(ctx, depth + 1, env.limits);
      var ctx2 :- EnterIssue(ctx1, depth + 2, env.limits);
      var ctx3 :- RecordDecoyId(item.inner, ctx2);
      var (digest, ctx4) :- Disclose(AddDecoy, ctx3, env);
      Ok((Tag(REDACTED_ELEMENT_TAG, ByteString(digest)), ctx4))
    else IssueValue(item, ctx, env, depth + 1)
  }

  datatype Issued = Issued(value: Value, disclosures: seq<Disclosure>)

  /** Issues pre-issuance claims, which must be a map. */
  function Issue(v: Value, env: Issuer): Result<Issued> {
    if !v.Map? then Err(UnexpectedType) else
    var (out, ctx) :- IssueValue(v, EMPTY_CONTEXT, env, 0);
    Ok(Issued(out, ctx.disclosures))
  }
}
