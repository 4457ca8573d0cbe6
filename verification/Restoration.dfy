/** What restoring a claims value computes: the meaning of sd-cwt/src/restore.rs as functions that
    thread the pending disclosures, the statistics and the traversal budget. `RestoreRun` runs the
    source's own loops against these functions. */
module Restoration {
  import opened Values
  import opened Disclosures
  import opened ClaimMatching

  datatype Mode = Holder | Verifier

  datatype Config = Config(mode: Mode, validateClaims: bool, limits: Limits)

  datatype RState = RState(
    pending: map<Bytes, Disclosure>,
    disclosed: nat,
    decoys: nat,
    removed: nat,
    visited: nat)

  /** The locals of the map loops: output so far, labels written, hashes collected, whether the
      redacted-keys entry was met, and the hashes kept because nothing disclosed them. */
  datatype MapAcc = MapAcc(
    out: seq<Entry>,
    labels: set<Label>,
    hashes: seq<Bytes>,
    saw: bool,
    kept: seq<Value>,
    st: RState)

  function EnterAt(st: RState, depth: nat, limits: Limits): (r: Result<RState>)
    ensures r.Ok? ==> r.value == st.(visited := st.visited + 1)
  {
    var visited :- Enter(st.visited, depth, limits);
    Ok(st.(visited := visited))
  }

  predicate ContainerFits(length: nat, limits: Limits) {
    length <= limits.maxContainerEntries
  }

  const NEVER_REDACTED: set<int> := {1, 3, 4, 5, 6, 7, 8, 39}

  /** Registered claims that must stay visible at the root of the claims map. */
  predicate RootKeyAllowed(key: Label) {
    key.IntLabel? ==> key.n !in NEVER_REDACTED
  }

  /** Takes one disclosure out of the pending set. */
  function TakePending(pending: map<Bytes, Disclosure>, hash: Bytes): (rest: map<Bytes, Disclosure>)
    requires hash in pending
    ensures |rest| == |pending| - 1
  {
    var rest := pending - {hash};
    assert rest.Keys == pending.Keys - {hash};
    assert |rest| == |rest.Keys|;
    rest
  }

  function RestoreValue(v: Value, st: RState, cfg: Config, depth: nat): (r: Result<(Value, RState)>)
    ensures r.Ok? ==> |r.value.1.pending| <= |st.pending|
    decreases |st.pending|, 1, v, 2
  {
    var st1 :- EnterAt(st, depth, cfg.limits);
    match v
    case Map(entries) => RestoreMap(entries, st1, cfg, depth)
    case Array(items) =>
      if !ContainerFits(|items|, cfg.limits) then Err(Limit) else
      var (out, st2) :- RestoreItems(items, [], st1, cfg, depth);
      Ok((Array(out), st2))
    case Tag(tag, inner) =>
      if IsReservedTag(tag) then Err(UnexpectedType) else
      var (out, st2) :- RestoreValue(inner, st1, cfg, depth + 1);
      Ok((Tag(tag, out), st2))
    case Simple(code) =>
      if code == REDACTED_CLAIM_KEYS_SIMPLE then Err(UnexpectedType) else Ok((v, st1))
    case _ => Ok((v, st1))
  }

  function RestoreMap(entries: seq<Entry>, st: RState, cfg: Config, depth: nat): (r: Result<(Value, RState)>)
    ensures r.Ok? ==> |r.value.1.pending| <= |st.pending| && r.value.0.Map?
    decreases |st.pending|, 1, entries, 2
  {
    if !ContainerFits(|entries|, cfg.limits) then Err(Limit) else
    var acc :- RestoreEntries(entries, MapAcc([], {}, [], false, [], st), cfg, depth);
    var done :- RestoreHashes(acc.hashes, acc, cfg, depth);
    Ok((Map(done.out + KeptEntry(done.kept)), done.st))
  }

  /** The redacted-keys entry that carries the hashes kept for the structural validator. */
  function KeptEntry(kept: seq<Value>): seq<Entry> {
    if kept == [] then [] else [Entry(REDACTED_KEYS_LABEL, Array(kept))]
  }

  function RestoreEntries(entries: seq<Entry>, acc: MapAcc, cfg: Config, depth: nat): (r: Result<MapAcc>)
    ensures r.Ok? ==> |r.value.st.pending| <= |acc.st.pending|
    decreases |acc.st.pending|, 1, entries, 1
  {
    if entries == [] then Ok(acc) else
    var acc1 :- RestoreEntry(entries[0], acc, cfg, depth);
    RestoreEntries(entries[1..], acc1, cfg, depth)
  }

  function RestoreEntry(e: Entry, acc: MapAcc, cfg: Config, depth: nat): (r: Result<MapAcc>)
    ensures r.Ok? ==> |r.value.st.pending| <= |acc.st.pending|
    decreases |acc.st.pending|, 1, e, 0
  {
    var st :- EnterAt(acc.st, depth + 1, cfg.limits);
    if e.key == REDACTED_KEYS_LABEL then
      CollectRedactedKeys(e.val, acc.(st := st), cfg.limits, depth)
    else
      match LabelOf(e.key)
      case None => Err(UnexpectedType)
      case Some(key) =>
        if key in acc.labels then Err(Verify) else
        var (out, st1) :- RestoreValue(e.val, st, cfg, depth + 1);
        Ok(acc.(out := acc.out + [Entry(e.key, out)], labels := acc.labels + {key}, st := st1))
  }

  /** Reads the value of a redacted-keys entry. */
  function CollectRedactedKeys(v: Value, acc: MapAcc, limits: Limits, depth: nat): (r: Result<MapAcc>)
    ensures r.Ok? ==> r.value.st.pending == acc.st.pending
  {
    if acc.saw then Err(Verify) else
    if !v.Array? then Err(UnexpectedType) else
    var st :- EnterAt(acc.st, depth + 1, limits);
    if !ContainerFits(|v.items|, limits) then Err(Limit) else
    CollectHashes(v.items, acc.(saw := true, st := st), limits, depth)
  }

  function CollectHashes(items: seq<Value>, acc: MapAcc, limits: Limits, depth: nat): (r: Result<MapAcc>)
    ensures r.Ok? ==> r.value.st.pending == acc.st.pending
  {
    if items == [] then Ok(acc) else
    var st :- EnterAt(acc.st, depth + 2, limits);
    if !items[0].ByteString? then Err(UnexpectedType) else
    CollectHashes(items[1..], acc.(hashes := acc.hashes + [items[0].bytes], st := st), limits, depth)
  }

  function RestoreHashes(hashes: seq<Bytes>, acc: MapAcc, cfg: Config, depth: nat): (r: Result<MapAcc>)
    ensures r.Ok? ==> |r.value.st.pending| <= |acc.st.pending|
    decreases |acc.st.pending|, 0, |hashes| + 1
  {
    if hashes == [] then Ok(acc) else
    var acc1 :- RestoreHash(hashes[0], acc, cfg, depth);
    RestoreHashes(hashes[1..], acc1, cfg, depth)
  }

  function RestoreHash(hash: Bytes, acc: MapAcc, cfg: Config, depth: nat): (r: Result<MapAcc>)
    ensures r.Ok? ==> |r.value.st.pending| <= |acc.st.pending|
    decreases |acc.st.pending|, 0, 0
  {
    if hash !in acc.st.pending then
      if cfg.mode == Holder then Err(Verify) else
      var st := acc.st.(removed := acc.st.removed + 1);
      Ok(acc.(kept := if cfg.validateClaims then acc.kept + [ByteString(hash)] else acc.kept, st := st))
    else
      var st := acc.st.(pending := TakePending(acc.st.pending, hash));
      match acc.st.pending[hash].kind
      case Element(_, _) => Err(Verify)
      case Decoy(_) => Ok(acc.(st := st.(decoys := st.decoys + 1)))
      case Claim(_, key, value) =>
        if cfg.validateClaims && depth == 0 && !RootKeyAllowed(key) then Err(Custom) else
        if key in acc.labels then Err(Verify) else
        var (out, st1) :- RestoreValue(value, st, cfg, depth + 1);
        Ok(acc.(out := acc.out + [Entry(ValueOfLabel(key), out)], labels := acc.labels + {key},
                st := st1.(disclosed := st1.disclosed + 1)))
  }

  function RestoreItems(items: seq<Value>, out: seq<Value>, st: RState, cfg: Config, depth: nat)
    : (r: Result<(seq<Value>, RState)>)
    ensures r.Ok? ==> |r.value.1.pending| <= |st.pending|
    decreases |st.pending|, 1, items, 1
  {
    if items == [] then Ok((out, st)) else
    var (out1, st1) :- RestoreItem(items[0], out, st, cfg, depth);
    RestoreItems(items[1..], out1, st1, cfg, depth)
  }

  function RestoreItem(item: Value, out: seq<Value>, st: RState, cfg: Config, depth: nat)
    : (r: Result<(seq<Value>, RState)>)
    ensures r.Ok? ==> |r.value.1.pending| <= |st.pending|
    decreases |st.pending|, 1, item, 3
  {
    if IsRedactedElement(item) then
      var st1 :- EnterAt(st, depth + 1, cfg.limits);
      var st2 :- EnterAt(st1, depth + 2, cfg.limits);
      if !item.inner.ByteString? then Err(UnexpectedType) else
      RestoreElement(item.inner.bytes, out, st2, cfg, depth)
    else
      var (v, st1) :- RestoreValue(item, st, cfg, depth + 1);
      Ok((out + [v], st1))
  }

  function RestoreElement(hash: Bytes, out: seq<Value>, st: RState, cfg: Config, depth: nat)
    : (r: Result<(seq<Value>, RState)>)
    ensures r.Ok? ==> |r.value.1.pending| <= |st.pending|
    decreases |st.pending|, 0, 0
  {
    if hash !in st.pending then
      if cfg.mode == Holder then Err(Verify) else
      Ok((if cfg.validateClaims then out + [Tag(REDACTED_ELEMENT_TAG, ByteString(hash))] else out,
          st.(removed := st.removed + 1)))
    else
      var st1 := st.(pending := TakePending(st.pending, hash));
      match st.pending[hash].kind
      case Claim(_, _, _) => Err(Verify)
      case Decoy(_) => Ok((out, st1.(decoys := st1.decoys + 1)))
      case Element(_, value) =>
        var (v, st2) :- RestoreValue(value, st1, cfg, depth + 1);
        Ok((out + [v], st2.(disclosed := st2.disclosed + 1)))
  }

  /** The disclosure map under construction, with the salts and sizes it has accepted. */
  datatype Intake = Intake(entries: map<Bytes, Disclosure>, salts: set<Bytes>, bytes: nat, visited: nat)

  const EMPTY_INTAKE := Intake(map[], {}, 0, 0)

  function TakeIn(index: nat, d: Disclosure, into: Intake, hash: Hasher, limits: Limits): Result<Intake> {
    if index >= limits.maxDisclosures then Err(Limit) else
    var bytes := into.bytes + |d.encoded|;
    if bytes > limits.maxDisclosureBytes then Err(Limit) else
    var visited :- Consume(into.visited, ItemCount(d), limits);
    var digest := DigestOf(d, hash);
    if digest in into.entries then Err(Verify) else
    if d.kind.salt in into.salts then Err(Verify) else
    Ok(Intake(into.entries[digest := d], into.salts + {d.kind.salt}, bytes, visited))
  }

  function TakeInAll(ds: seq<Disclosure>, index: nat, into: Intake, hash: Hasher, limits: Limits): Result<Intake> {
    if ds == [] then Ok(into) else
    var into1 :- TakeIn(index, ds[0], into, hash, limits);
    TakeInAll(ds[1..], index + 1, into1, hash, limits)
  }

  datatype Report = Report(
    value: Value,
    protectedClaims: Option<Value>,
    disclosed: nat,
    decoys: nat,
    removed: nat)

  /** The protected claims are restored before the payload, from the same pending disclosures. */
  function RestoreProtected(claims: Option<Value>, st: RState, cfg: Config): Result<(Option<Value>, RState)> {
    match claims
    case None => Ok((None, st))
    case Some(v) =>
      var (out, st1) :- RestoreValue(v, st, cfg, 0);
      Ok((Some(out), st1))
  }

  function Started(intake: Intake): RState {
    RState(intake.entries, 0, 0, 0, intake.visited)
  }

  /** Both restored values and the final state, once every disclosure found its place. */
  function RestoreBoth(value: Value, claims: Option<Value>, ds: seq<Disclosure>, hash: Hasher, cfg: Config)
    : Result<(Value, Option<Value>, RState)>
  {
    var intake :- TakeInAll(ds, 0, EMPTY_INTAKE, hash, cfg.limits);
    RestorePending(value, claims, Started(intake), cfg)
  }

  function RestorePending(value: Value, claims: Option<Value>, st: RState, cfg: Config)
    : Result<(Value, Option<Value>, RState)>
  {
    var (restoredClaims, st1) :- RestoreProtected(claims, st, cfg);
    var (restored, st2) :- RestoreValue(value, st1, cfg, 0);
    if st2.pending != map[] then Err(Verify) else
    Ok((restored, restoredClaims, st2))
  }

  function ClaimMaps(value: Value, claims: Option<Value>): seq<seq<Entry>>
    requires value.Map?
  {
    [value.entries] + if claims.Some? && claims.value.Map? then [claims.value.entries] else []
  }

  function StripOption(claims: Option<Value>): Option<Value> {
    match claims
    case None => None
    case Some(v) => Some(Strip(v))
  }

  /** The structural validator hands over a claims map only. */
  predicate Restorable(value: Value, cfg: Config) {
    cfg.validateClaims ==> value.Map?
  }

  function Restore(value: Value, claims: Option<Value>, ds: seq<Disclosure>, hash: Hasher, canon: Canon, cfg: Config)
    : Result<Report>
    requires Restorable(value, cfg)
  {
    var (v, c, st) :- RestoreBoth(value, claims, ds, hash, cfg);
    if !cfg.validateClaims then Ok(Report(v, c, st.disclosed, st.decoys, st.removed)) else
    var _ :- MatchingClaims(ClaimMaps(v, c), 0, map[], canon);
    Ok(Report(Strip(v), StripOption(c), st.disclosed, st.decoys, st.removed))
  }
}
