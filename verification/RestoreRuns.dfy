/** The loops of sd-cwt/src/restore.rs over mutable state: the pending disclosures, the statistics and
    the traversal budget that one restoration threads through its recursion. Every method is proved
    to compute what `Restoration` says. */
module RestoreRuns {
  import opened Values
  import opened Disclosures
  import opened ClaimMatching
  import opened Restoration
  import opened MatchRuns

  /** The locals of the two map loops. */
  datatype Locals = Locals(out: seq<Entry>, labels: set<Label>, hashes: seq<Bytes>, saw: bool, kept: seq<Value>)

  const NO_LOCALS := Locals([], {}, [], false, [])

  function Acc(locals: Locals, st: RState): MapAcc {
    MapAcc(locals.out, locals.labels, locals.hashes, locals.saw, locals.kept, st)
  }

  class RestoreRun {
    const cfg: Config
    var pending: map<Bytes, Disclosure>
    var disclosed: nat
    var decoys: nat
    var removed: nat
    var visited: nat

    function State(): RState
      reads this
    {
      RState(pending, disclosed, decoys, removed, visited)
    }

    /** Starts with nothing pending; the disclosures are taken in afterwards. */
    constructor (cfg: Config)
      ensures this.cfg == cfg && State() == Started(EMPTY_INTAKE)
    {
      this.cfg := cfg;
      pending, disclosed, decoys, removed, visited := map[], 0, 0, 0, 0;
    }

    method Enter(depth: nat) returns (r: Result<()>)
      modifies this`visited
      ensures match EnterAt(old(State()), depth, cfg.limits)
              case Ok(st) => r == Ok(()) && State() == st
              case Err(e) => r == Err(e)
    {
      if depth > cfg.limits.maxDepth || visited + 1 > cfg.limits.maxItems {
        return Err(Limit);
      }
      visited := visited + 1;
      return Ok(());
    }

    /** Builds the pending map from the presented disclosures. */
    method TakeInDisclosures(ds: seq<Disclosure>, hash: Hasher) returns (r: Result<()>)
      requires pending == map[] && visited == 0
      modifies this`pending, this`visited
      ensures match TakeInAll(ds, 0, EMPTY_INTAKE, hash, cfg.limits)
              case Ok(intake) => r == Ok(()) && pending == intake.entries && visited == intake.visited
              case Err(e) => r == Err(e)
    {
      var salts: set<Bytes> := {};
      var totalBytes: nat := 0;
      var index := 0;
      while index < |ds|
        invariant 0 <= index <= |ds|
        invariant TakeInAll(ds[index..], index, Intake(pending, salts, totalBytes, visited), hash, cfg.limits)
               == TakeInAll(ds, 0, EMPTY_INTAKE, hash, cfg.limits)
      {
        assert ds[index..][0] == ds[index] && ds[index..][1..] == ds[index + 1..];
        var bytes :- TakeInDisclosure(index, ds[index], salts, totalBytes, hash);
        salts, totalBytes := salts + {ds[index].kind.salt}, bytes;
        index := index + 1;
      }
      return Ok(());
    }

    /** One round of that loop; returns the bytes taken in so far. */
    method TakeInDisclosure(index: nat, d: Disclosure, salts: set<Bytes>, totalBytes: nat, hash: Hasher) returns (r: Result<nat>)
      modifies this`pending, this`visited
      ensures match TakeIn(index, d, Intake(old(pending), salts, totalBytes, old(visited)), hash, cfg.limits)
              case Ok(intake) => r == Ok(intake.bytes) && intake == Intake(pending, salts + {d.kind.salt}, intake.bytes, visited)
              case Err(e) => r == Err(e)
    {
      if index >= cfg.limits.maxDisclosures {
        return Err(Limit);
      }
      var bytes := totalBytes + |d.encoded|;
      if bytes > cfg.limits.maxDisclosureBytes {
        return Err(Limit);
      }
      var count := DisclosureItemCount(d);
      if visited + count > cfg.limits.maxItems {
        return Err(Limit);
      }
      visited := visited + count;
      var digest := hash(d.encoded);
      if digest in pending || d.kind.salt in salts {
        return Err(Verify);
      }
      pending := pending[digest := d];
      return Ok(bytes);
    }

    method RestoreValue(v: Value, depth: nat) returns (r: Result<Value>)
      modifies this
      ensures match Restoration.RestoreValue(v, old(State()), cfg, depth)
              case Ok((out, st)) => r == Ok(out) && State() == st
              case Err(e) => r == Err(e)
      decreases |pending|, 1, v, 2
    {
      var _ :- Enter(depth);
      match v {
        case Map(entries) =>
          r := RestoreMap(entries, depth);
        case Array(items) =>
          r := RestoreArray(items, depth);
        case Tag(tag, inner) =>
          if IsReservedTag(tag) {
            return Err(UnexpectedType);
          }
          var restored :- RestoreValue(inner, depth + 1);
          r := Ok(Tag(tag, restored));
        case Simple(code) =>
          r := if code == REDACTED_CLAIM_KEYS_SIMPLE then Err(UnexpectedType) else Ok(v);
        case _ =>
          r := Ok(v);
      }
    }

    method RestoreMap(entries: seq<Entry>, depth: nat) returns (r: Result<Value>)
      modifies this
      ensures match Restoration.RestoreMap(entries, old(State()), cfg, depth)
              case Ok((out, st)) => r == Ok(out) && State() == st
              case Err(e) => r == Err(e)
      decreases |pending|, 1, entries, 2
    {
      if |entries| > cfg.limits.maxContainerEntries {
        return Err(Limit);
      }
      var locals := NO_LOCALS;
      ghost var st0 := State();
      var i := 0;
      while i < |entries|
        invariant 0 <= i <= |entries| && |pending| <= |old(pending)|
        invariant RestoreEntries(entries[i..], Acc(locals, State()), cfg, depth) == RestoreEntries(entries, Acc(NO_LOCALS, st0), cfg, depth)
      {
        assert entries[i..][0] == entries[i] && entries[i..][1..] == entries[i + 1..];
        locals :- RestoreEntry(entries[i], locals, depth);
        i := i + 1;
      }
      assert entries[i..] == [];
      r := RestoreRedacted(locals, depth);
    }

    method RestoreEntry(e: Entry, locals: Locals, depth: nat) returns (r: Result<Locals>)
      modifies this
      ensures match Restoration.RestoreEntry(e, Acc(locals, old(State())), cfg, depth)
              case Ok(acc) => r.Ok? && Acc(r.value, State()) == acc
              case Err(e) => r == Err(e)
      decreases |pending|, 1, e, 0
    {
      var _ :- Enter(depth + 1);
      if e.key == REDACTED_KEYS_LABEL {
        r := ReadRedactedKeys(e.val, locals, depth);
        return;
      }
      match LabelOf(e.key) {
        case None =>
          r := Err(UnexpectedType);
        case Some(key) =>
          if key in locals.labels {
            return Err(Verify);
          }
          var restored :- RestoreValue(e.val, depth + 1);
          r := Ok(locals.(out := locals.out + [Entry(e.key, restored)], labels := locals.labels + {key}));
      }
    }

    method ReadRedactedKeys(v: Value, locals: Locals, depth: nat) returns (r: Result<Locals>)
      modifies this`visited
      ensures match CollectRedactedKeys(v, Acc(locals, old(State())), cfg.limits, depth)
              case Ok(acc) => r.Ok? && Acc(r.value, State()) == acc
              case Err(e) => r == Err(e)
    {
      if locals.saw {
        return Err(Verify);
      }
      if !v.Array? {
        return Err(UnexpectedType);
      }
      var _ :- Enter(depth + 1);
      if |v.items| > cfg.limits.maxContainerEntries {
        return Err(Limit);
      }
      var hashes := locals.hashes;
      ghost var acc0 := Acc(locals.(saw := true), State());
      var i := 0;
      while i < |v.items|
        invariant 0 <= i <= |v.items|
        invariant pending == old(pending) && disclosed == old(disclosed) && decoys == old(decoys) && removed == old(removed)
        invariant CollectHashes(v.items[i..], Acc(locals.(saw := true, hashes := hashes), State()), cfg.limits, depth)
               == CollectHashes(v.items, acc0, cfg.limits, depth)
      {
        assert v.items[i..][0] == v.items[i] && v.items[i..][1..] == v.items[i + 1..];
        var _ :- Enter(depth + 2);
        if !v.items[i].ByteString? {
          return Err(UnexpectedType);
        }
        hashes := hashes + [v.items[i].bytes];
        i := i + 1;
      }
      return Ok(locals.(saw := true, hashes := hashes));
    }

    /** The second loop of a map: the collected hashes. */
    method RestoreRedacted(collected: Locals, depth: nat) returns (r: Result<Value>)
      modifies this
      ensures match RestoreHashes(collected.hashes, Acc(collected, old(State())), cfg, depth)
              case Ok(acc) => r == Ok(Map(acc.out + KeptEntry(acc.kept))) && State() == acc.st
              case Err(e) => r == Err(e)
      decreases |pending|, 0, 2
    {
      var locals := collected;
      ghost var st0 := State();
      var i := 0;
      while i < |collected.hashes|
        invariant 0 <= i <= |collected.hashes| && |pending| <= |old(pending)|
        invariant RestoreHashes(collected.hashes[i..], Acc(locals, State()), cfg, depth)
               == RestoreHashes(collected.hashes, Acc(collected, st0), cfg, depth)
      {
        assert collected.hashes[i..][0] == collected.hashes[i] && collected.hashes[i..][1..] == collected.hashes[i + 1..];
        locals :- RestoreHash(collected.hashes[i], locals, depth);
        i := i + 1;
      }
      assert collected.hashes[i..] == [];
      if locals.kept != [] {
        locals := locals.(out := locals.out + [Entry(REDACTED_KEYS_LABEL, Array(locals.kept))]);
      } else {
        assert locals.out + [] == locals.out;
      }
      return Ok(Map(locals.out));
    }

    method RestoreHash(hash: Bytes, locals: Locals, depth: nat) returns (r: Result<Locals>)
      modifies this
      ensures match Restoration.RestoreHash(hash, Acc(locals, old(State())), cfg, depth)
              case Ok(acc) => r.Ok? && Acc(r.value, State()) == acc
              case Err(e) => r == Err(e)
      decreases |pending|, 0, 0
    {
      hide Restoration.RestoreValue, TakePending;
      if hash !in pending {
        if cfg.mode == Holder {
          return Err(Verify);
        }
        removed := removed + 1;
        return Ok(if cfg.validateClaims then locals.(kept := locals.kept + [ByteString(hash)]) else locals);
      }
      var kind := pending[hash].kind;
      pending := TakePending(pending, hash);
      match kind {
        case Element(_, _) =>
          r := Err(Verify);
        case Decoy(_) =>
          decoys := decoys + 1;
          r := Ok(locals);
        case Claim(_, key, value) =>
          if cfg.validateClaims && depth == 0 && !RootKeyAllowed(key) {
            return Err(Custom);
          }
          if key in locals.labels {
            return Err(Verify);
          }
          var restored :- RestoreValue(value, depth + 1);
          disclosed := disclosed + 1;
          r := Ok(locals.(out := locals.out + [Entry(ValueOfLabel(key), restored)], labels := locals.labels + {key}));
      }
    }

    method RestoreArray(items: seq<Value>, depth: nat) returns (r: Result<Value>)
      modifies this
      ensures if !ContainerFits(|items|, cfg.limits) then r == Err(Limit) else
              match RestoreItems(items, [], old(State()), cfg, depth)
              case Ok((out, st)) => r == Ok(Array(out)) && State() == st
              case Err(e) => r == Err(e)
      decreases |pending|, 1, items, 1
    {
      if |items| > cfg.limits.maxContainerEntries {
        return Err(Limit);
      }
      var output: seq<Value> := [];
      ghost var st0 := State();
      var i := 0;
      while i < |items|
        invariant 0 <= i <= |items| && |pending| <= |old(pending)|
        invariant RestoreItems(items[i..], output, State(), cfg, depth) == RestoreItems(items, [], st0, cfg, depth)
      {
        assert items[i..][0] == items[i] && items[i..][1..] == items[i + 1..];
        output :- RestoreItem(items[i], output, depth);
        i := i + 1;
      }
      assert items[i..] == [];
      return Ok(Array(output));
    }

    method RestoreItem(item: Value, output: seq<Value>, depth: nat) returns (r: Result<seq<Value>>)
      modifies this
      ensures match Restoration.RestoreItem(item, output, old(State()), cfg, depth)
              case Ok((out, st)) => r == Ok(out) && State() == st
              case Err(e) => r == Err(e)
      decreases |pending|, 1, item, 3
    {
      if !IsRedactedElement(item) {
        var restored :- RestoreValue(item, depth + 1);
        return Ok(output + [restored]);
      }
      var _ :- Enter(depth + 1);
      var _ :- Enter(depth + 2);
      if !item.inner.ByteString? {
        return Err(UnexpectedType);
      }
      r := RestoreElement(item.inner.bytes, output, depth);
    }

    method RestoreElement(hash: Bytes, output: seq<Value>, depth: nat) returns (r: Result<seq<Value>>)
      modifies this
      ensures match Restoration.RestoreElement(hash, output, old(State()), cfg, depth)
              case Ok((out, st)) => r == Ok(out) && State() == st
              case Err(e) => r == Err(e)
      decreases |pending|, 0, 0
    {
      if hash !in pending {
        if cfg.mode == Holder {
          return Err(Verify);
        }
        removed := removed + 1;
        return Ok(if cfg.validateClaims then output + [Tag(REDACTED_ELEMENT_TAG, ByteString(hash))] else output);
      }
      var kind := pending[hash].kind;
      pending := TakePending(pending, hash);
      match kind {
        case Claim(_, _, _) =>
          r := Err(Verify);
        case Decoy(_) =>
          decoys := decoys + 1;
          r := Ok(output);
        case Element(_, value) =>
          var restored :- RestoreValue(value, depth + 1);
          disclosed := disclosed + 1;
          r := Ok(output + [restored]);
      }
    }

    /** Restores protected claims, when there are any, and then the payload. */
    method RestoreAll(value: Value, claims: Option<Value>) returns (r: Result<(Value, Option<Value>)>)
      modifies this
      ensures match RestorePending(value, claims, old(State()), cfg)
              case Ok((v, c, st)) => r == Ok((v, c)) && State() == st
              case Err(e) => r == Err(e)
    {
      var restoredClaims: Option<Value> := None;
      if claims.Some? {
        var c :- RestoreValue(claims.value, 0);
        restoredClaims := Some(c);
      }
      var restored :- RestoreValue(value, 0);
      if |pending| != 0 {
        assert pending != map[];
        return Err(Verify);
      }
      assert pending == map[];
      return Ok((restored, restoredClaims));
    }
  }

  method DisclosureItemCount(d: Disclosure) returns (count: nat)
    ensures count == ItemCount(d)
  {
    match d.kind {
      case Claim(_, _, value) =>
        count := ValueItemCount(value);
        count := 3 + count;
      case Element(_, value) =>
        count := ValueItemCount(value);
        count := 2 + count;
      case Decoy(_) =>
        count := 2;
    }
  }

  /** A whole restoration, as `restore_with_protected_claims` runs it. */
  method RestoreWithProtectedClaims(value: Value, claims: Option<Value>, ds: seq<Disclosure>, hash: Hasher, canon: Canon, cfg: Config)
    returns (r: Result<Report>)
    requires Restorable(value, cfg)
    ensures r == Restore(value, claims, ds, hash, canon, cfg)
  {
    var run := new RestoreRun(cfg);
    var _ :- run.TakeInDisclosures(ds, hash);
    assert RestoreBoth(value, claims, ds, hash, cfg) == RestorePending(value, claims, run.State(), cfg);
    var both :- run.RestoreAll(value, claims);
    var (restored, restoredClaims) := both;
    if cfg.validateClaims {
      var _ :- ValidateMatchingClaims(ClaimMaps(restored, restoredClaims), canon);
      restored := RemoveUndisclosedRedactions(restored);
      if restoredClaims.Some? {
        var c := RemoveUndisclosedRedactions(restoredClaims.value);
        restoredClaims := Some(c);
      }
    }
    return Ok(Report(restored, restoredClaims, run.disclosed, run.decoys, run.removed));
  }
}
