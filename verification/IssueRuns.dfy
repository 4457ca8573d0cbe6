/** The loops of sd-cwt/src/issuance.rs over the mutable issuing context, and the validation of an
    issued value over a mutable traversal budget (sd-cwt/src/validation.rs). Every method is proved
    to compute what `Issuance` says. */
module IssueRuns {
  import opened Values
  import opened Disclosures
  import opened ClaimMatching
  import opened Restoration
  import opened Issuance
  import F = IssueForms
  import X = IssueExact

  class TraversalBudget {
    const limits: Limits
    var visited: nat

    constructor (limits: Limits)
      ensures this.limits == limits && visited == 0
    {
      this.limits := limits;
      visited := 0;
    }

    method Consume(count: nat) returns (r: Result<()>)
      modifies this
      ensures match Disclosures.Consume(old(visited), count, limits)
              case Ok(v) => r == Ok(()) && visited == v
              case Err(e) => r == Err(e)
    {
      visited := visited + count;
      r := if visited > limits.maxItems then Err(Limit) else Ok(());
    }

    method Enter(depth: nat) returns (r: Result<()>)
      modifies this
      ensures match Disclosures.Enter(old(visited), depth, limits)
              case Ok(v) => r == Ok(()) && visited == v
              case Err(e) => r == Err(e)
    {
      if depth > limits.maxDepth {
        return Err(Limit);
      }
      r := Consume(1);
    }

    /** Checks the shape of an issued value: labels, hash lists and markers where they belong. */
    method ValidateIssuedValue(v: Value, canon: Canon, depth: nat) returns (r: Result<()>)
      modifies this
      ensures match ValidateIssued(v, old(visited), canon, limits, depth)
              case Ok(n) => r == Ok(()) && visited == n
              case Err(e) => r == Err(e)
      decreases v, 2
    {
      var _ :- Enter(depth);
      match v {
        case Map(entries) =>
          if |entries| > limits.maxContainerEntries {
            return Err(Limit);
          }
          r := ValidateEntries(entries, canon, depth);
        case Array(items) =>
          if |items| > limits.maxContainerEntries {
            return Err(Limit);
          }
          r := ValidateItems(items, canon, depth);
        case Tag(tag, inner) =>
          if IsReservedTag(tag) {
            return Err(UnexpectedType);
          }
          r := ValidateIssuedValue(inner, canon, depth + 1);
        case Simple(code) =>
          r := if code == REDACTED_CLAIM_KEYS_SIMPLE then Err(UnexpectedType) else Ok(());
        case _ =>
          r := Ok(());
      }
    }

    method ValidateEntries(entries: seq<Entry>, canon: Canon, depth: nat) returns (r: Result<()>)
      modifies this
      ensures match ValidateIssuedEntries(entries, {}, old(visited), canon, limits, depth)
              case Ok(n) => r == Ok(()) && visited == n
              case Err(e) => r == Err(e)
      decreases entries, 1
    {
      var keys: set<Bytes> := {};
      var i := 0;
      while i < |entries|
        invariant 0 <= i <= |entries|
        invariant ValidateIssuedEntries(entries[i..], keys, visited, canon, limits, depth)
               == ValidateIssuedEntries(entries, {}, old(visited), canon, limits, depth)
      {
        assert entries[i..][0] == entries[i] && entries[i..][1..] == entries[i + 1..];
        var _ :- ValidateEntry(entries[i], keys, canon, depth);
        keys := keys + {canon(entries[i].key)};
        i := i + 1;
      }
      return Ok(());
    }

    method ValidateEntry(e: Entry, keys: set<Bytes>, canon: Canon, depth: nat) returns (r: Result<()>)
      modifies this
      ensures match ValidateIssuedEntry(e, keys, old(visited), canon, limits, depth)
              case Ok(n) => r == Ok(()) && visited == n
              case Err(e) => r == Err(e)
      decreases e, 0
    {
      var _ :- Enter(depth + 1);
      if canon(e.key) in keys {
        return Err(Verify);
      }
      if e.key == REDACTED_KEYS_LABEL {
        r := ValidateRedactedKeys(e.val, depth);
      } else if LabelOf(e.key).None? {
        r := Err(UnexpectedType);
      } else {
        r := ValidateIssuedValue(e.val, canon, depth + 1);
      }
    }

    method ValidateRedactedKeys(v: Value, depth: nat) returns (r: Result<()>)
      modifies this
      ensures match ValidateHashList(v, old(visited), limits, depth)
              case Ok(n) => r == Ok(()) && visited == n
              case Err(e) => r == Err(e)
    {
      if !v.Array? {
        return Err(UnexpectedType);
      }
      var _ :- Enter(depth + 1);
      if |v.items| > limits.maxContainerEntries {
        return Err(Limit);
      }
      ghost var start := visited;
      var i := 0;
      while i < |v.items|
        invariant 0 <= i <= |v.items|
        invariant ValidateHashes(v.items[i..], visited, limits, depth) == ValidateHashes(v.items, start, limits, depth)
      {
        assert v.items[i..][0] == v.items[i] && v.items[i..][1..] == v.items[i + 1..];
        var _ :- Enter(depth + 2);
        if !v.items[i].ByteString? {
          return Err(UnexpectedType);
        }
        i := i + 1;
      }
      return Ok(());
    }

    method ValidateItems(items: seq<Value>, canon: Canon, depth: nat) returns (r: Result<()>)
      modifies this
      ensures match ValidateIssuedItems(items, old(visited), canon, limits, depth)
              case Ok(n) => r == Ok(()) && visited == n
              case Err(e) => r == Err(e)
      decreases items, 1
    {
      var i := 0;
      while i < |items|
        invariant 0 <= i <= |items|
        invariant ValidateIssuedItems(items[i..], visited, canon, limits, depth) == ValidateIssuedItems(items, old(visited), canon, limits, depth)
      {
        assert items[i..][0] == items[i] && items[i..][1..] == items[i + 1..];
        var item := items[i];
        if IsRedactedElement(item) {
          var _ :- Enter(depth + 1);
          var _ :- Enter(depth + 2);
          if !item.inner.ByteString? {
            return Err(UnexpectedType);
          }
        } else {
          var _ :- ValidateIssuedValue(item, canon, depth + 1);
        }
        i := i + 1;
      }
      return Ok(());
    }
  }

  /** Validates a new disclosure under a budget of its own, then encodes it. */
  method DisclosureFromKind(kind: Kind, canon: Canon, limits: Limits) returns (r: Result<Disclosure>)
    ensures r == FromKind(kind, canon, limits)
  {
    if |kind.salt| != 16 {
      return Err(UnexpectedType);
    }
    if kind.Claim? && LabelOf(ValueOfLabel(kind.key)) != Some(kind.key) {
      return Err(UnexpectedType);
    }
    if !kind.Decoy? {
      var budget := new TraversalBudget(limits);
      var _ :- budget.Consume(if kind.Claim? then 3 else 2);
      var _ :- budget.ValidateIssuedValue(kind.value, canon, 0);
    }
    return Ok(Disclosure(kind, canon(KindToValue(kind))));
  }

  /** The locals of the map loop. */
  datatype Locals = Locals(out: seq<Entry>, keys: set<Bytes>, hashes: seq<Value>)

  function Acc(locals: Locals, ctx: Context): IssueAcc {
    IssueAcc(locals.out, locals.keys, locals.hashes, ctx)
  }

  class IssueRun {
    const env: Issuer
    var drawn: nat
    var decoyIds: set<int>
    var saltsUsed: set<Bytes>
    var digestsUsed: set<Bytes>
    var disclosures: seq<Disclosure>
    var disclosureBytes: nat
    var visited: nat

    function State(): Context
      reads this
    {
      Context(drawn, decoyIds, saltsUsed, digestsUsed, disclosures, disclosureBytes, visited)
    }

    constructor (env: Issuer)
      ensures this.env == env && State() == EMPTY_CONTEXT
    {
      this.env := env;
      drawn, decoyIds, saltsUsed, digestsUsed := 0, {}, {}, {};
      disclosures, disclosureBytes, visited := [], 0, 0;
    }

    method Enter(depth: nat) returns (r: Result<()>)
      modifies this`visited
      ensures match EnterIssue(old(State()), depth, env.limits)
              case Ok(ctx) => r == Ok(()) && State() == ctx
              case Err(e) => r == Err(e)
    {
      if depth > env.limits.maxDepth || visited + 1 > env.limits.maxItems {
        return Err(Limit);
      }
      visited := visited + 1;
      return Ok(());
    }

    method DrawSalt() returns (r: Result<Salt>)
      modifies this`drawn, this`saltsUsed
      ensures match NextSalt(old(State()), env)
              case Ok((salt, ctx)) => r == Ok(salt) && State() == ctx
              case Err(e) => r == Err(e)
    {
      match env.salts(drawn) {
        case None =>
          r := Err(Custom);
        case Some(salt) =>
          if salt in saltsUsed {
            return Err(Custom);
          }
          drawn, saltsUsed := drawn + 1, saltsUsed + {salt};
          r := Ok(salt);
      }
    }

    method AddDisclosure(kind: Kind) returns (r: Result<Bytes>)
      modifies this`disclosures, this`disclosureBytes, this`digestsUsed
      ensures match Issuance.AddDisclosure(kind, old(State()), env)
              case Ok((digest, ctx)) => r == Ok(digest) && State() == ctx
              case Err(e) => r == Err(e)
    {
      var d :- DisclosureFromKind(kind, env.canon, env.limits);
      if |disclosures| >= env.limits.maxDisclosures {
        return Err(Limit);
      }
      disclosureBytes := disclosureBytes + |d.encoded|;
      if disclosureBytes > env.limits.maxDisclosureBytes {
        return Err(Limit);
      }
      var digest := env.hash(d.encoded);
      if digest in digestsUsed {
        return Err(Verify);
      }
      digestsUsed := digestsUsed + {digest};
      disclosures := disclosures + [d];
      return Ok(digest);
    }

    method DiscloseWithSalt(what: Redaction) returns (r: Result<Bytes>)
      modifies this
      ensures match Disclose(what, old(State()), env)
              case Ok((digest, ctx)) => r == Ok(digest) && State() == ctx
              case Err(e) => r == Err(e)
    {
      var salt :- DrawSalt();
      r := AddDisclosure(KindOf(what, salt));
    }

    method RecordDecoyId(v: Value) returns (r: Result<()>)
      modifies this`decoyIds
      ensures match Issuance.RecordDecoyId(v, old(State()))
              case Ok(ctx) => r == Ok(()) && State() == ctx
              case Err(e) => r == Err(e)
    {
      if !v.Integer? || !(0 <= v.n <= U64_MAX) || v.n == 0 {
        return Err(UnexpectedType);
      }
      if v.n in decoyIds {
        return Err(Verify);
      }
      decoyIds := decoyIds + {v.n};
      return Ok(());
    }

    method IssueValue(v: Value, depth: nat) returns (r: Result<Value>)
      modifies this
      ensures match Issuance.IssueValue(v, old(State()), env, depth)
              case Ok((out, ctx)) => r == Ok(out) && State() == ctx
              case Err(e) => r == Err(e)
      decreases v, 2
    {
      var _ :- Enter(depth);
      match v {
        case Map(entries) =>
          if |entries| > env.limits.maxContainerEntries {
            return Err(Limit);
          }
          r := IssueMap(entries, depth);
        case Array(items) =>
          if |items| > env.limits.maxContainerEntries {
            return Err(Limit);
          }
          r := IssueArray(items, depth);
        case Tag(tag, inner) =>
          if IsReservedTag(tag) {
            return Err(Custom);
          }
          var issued :- IssueValue(inner, depth + 1);
          r := Ok(Tag(tag, issued));
        case Simple(code) =>
          r := if code == REDACTED_CLAIM_KEYS_SIMPLE then Err(Custom) else Ok(v);
        case _ =>
          r := Ok(v);
      }
    }

    method IssueMap(entries: seq<Entry>, depth: nat) returns (r: Result<Value>)
      modifies this
      ensures match IssueEntries(entries, IssueAcc([], {}, [], old(State())), env, depth)
              case Ok(acc) => r == Ok(Map(acc.out + HashEntry(acc.hashes))) && State() == acc.ctx
              case Err(e) => r == Err(e)
      decreases entries, 2
    {
      var locals := Locals([], {}, []);
      var i := 0;
      while i < |entries|
        invariant 0 <= i <= |entries|
        invariant IssueEntries(entries[i..], Acc(locals, State()), env, depth) == IssueEntries(entries, IssueAcc([], {}, [], old(State())), env, depth)
      {
        assert entries[i..][0] == entries[i] && entries[i..][1..] == entries[i + 1..];
        locals :- IssueEntry(entries[i], locals, depth);
        i := i + 1;
      }
      assert entries[i..] == [];
      if locals.hashes != [] {
        return Ok(Map(locals.out + [Entry(REDACTED_KEYS_LABEL, Array(locals.hashes))]));
      }
      assert locals.out + [] == locals.out;
      return Ok(Map(locals.out));
    }

    method IssueEntry(e: Entry, locals: Locals, depth: nat) returns (r: Result<Locals>)
      modifies this
      ensures match Issuance.IssueEntry(e, Acc(locals, old(State())), env, depth)
              case Ok(acc) => r.Ok? && Acc(r.value, State()) == acc
              case Err(e) => r == Err(e)
      decreases e, 1
    {
      var _ :- Enter(depth + 1);
      if e.key.Tag? && e.key.tag == TO_BE_REDACTED_TAG {
        r := IssueRedactedEntry(e, locals, depth);
      } else if e.key.Tag? && e.key.tag == TO_BE_DECOY_TAG {
        r := IssueDecoyEntry(e, locals, depth);
      } else if e.key == REDACTED_KEYS_LABEL {
        r := Err(Custom);
      } else if LabelOf(e.key).None? {
        r := Err(UnexpectedType);
      } else {
        var keys :- InsertKey(e.key, locals.keys, env.canon);
        var issued :- IssueValue(e.val, depth + 1);
        r := Ok(Locals(locals.out + [Entry(e.key, issued)], keys, locals.hashes));
      }
    }

    method IssueRedactedEntry(e: Entry, locals: Locals, depth: nat) returns (r: Result<Locals>)
      requires e.key.Tag?
      modifies this
      ensures match IssueRedacted(e, Acc(locals, old(State())), env, depth)
              case Ok(acc) => r.Ok? && Acc(r.value, State()) == acc
              case Err(e) => r == Err(e)
      decreases e, 0
    {
      var _ :- Enter(depth + 2);
      match LabelOf(e.key.inner) {
        case None =>
          r := Err(UnexpectedType);
        case Some(key) =>
          if depth == 0 && !RootKeyAllowed(key) {
            return Err(Custom);
          }
          var keys :- InsertKey(ValueOfLabel(key), locals.keys, env.canon);
          var issued :- IssueValue(e.val, depth + 1);
          var digest :- DiscloseWithSalt(RedactClaim(key, issued));
          r := Ok(Locals(locals.out, keys, locals.hashes + [ByteString(digest)]));
      }
    }

    method IssueDecoyEntry(e: Entry, locals: Locals, depth: nat) returns (r: Result<Locals>)
      requires e.key.Tag?
      modifies this
      ensures match IssueMapDecoy(e, Acc(locals, old(State())), env, depth)
              case Ok(acc) => r.Ok? && Acc(r.value, State()) == acc
              case Err(e) => r == Err(e)
    {
      var _ :- Enter(depth + 2);
      var keys :- InsertKey(e.key, locals.keys, env.canon);
      var _ :- RecordDecoyId(e.key.inner);
      if e.val != NULL {
        return Err(Custom);
      }
      var _ :- Enter(depth + 1);
      var digest :- DiscloseWithSalt(AddDecoy);
      return Ok(Locals(locals.out, keys, locals.hashes + [ByteString(digest)]));
    }

    method IssueArray(items: seq<Value>, depth: nat) returns (r: Result<Value>)
      modifies this
      ensures match IssueItems(items, [], old(State()), env, depth)
              case Ok((out, ctx)) => r == Ok(Array(out)) && State() == ctx
              case Err(e) => r == Err(e)
      decreases items, 2
    {
      var output: seq<Value> := [];
      var i := 0;
      while i < |items|
        invariant 0 <= i <= |items|
        invariant IssueItems(items[i..], output, State(), env, depth) == IssueItems(items, [], old(State()), env, depth)
      {
        assert items[i..][0] == items[i] && items[i..][1..] == items[i + 1..];
        var v :- IssueItem(items[i], depth);
        output := output + [v];
        i := i + 1;
      }
      assert items[i..] == [];
      return Ok(Array(output));
    }

    method IssueItem(item: Value, depth: nat) returns (r: Result<Value>)
      modifies this
      ensures match Issuance.IssueItem(item, old(State()), env, depth)
              case Ok((out, ctx)) => r == Ok(out) && State() == ctx
              case Err(e) => r == Err(e)
      decreases item, 3
    {
      if item.Tag? && item.tag == TO_BE_REDACTED_TAG {
        var _ :- Enter(depth + 1);
        var issued :- IssueValue(item.inner, depth + 2);
        var digest :- DiscloseWithSalt(RedactElement(issued));
        r := Ok(Tag(REDACTED_ELEMENT_TAG, ByteString(digest)));
      } else if item.Tag? && item.tag == TO_BE_DECOY_TAG {
        var _ :- Enter(depth + 1);
        var _ :- Enter(depth + 2);
        var _ :- RecordDecoyId(item.inner);
        var digest :- DiscloseWithSalt(AddDecoy);
        r := Ok(Tag(REDACTED_ELEMENT_TAG, ByteString(digest)));
      } else {
        r := IssueValue(item, depth + 1);
      }
    }
  }

  /** A whole issuance, as `issue_from_preissuance_with_limits` runs it. */
  method IssueFromPreissuance(v: Value, env: Issuer) returns (r: Result<Issued>)
    ensures r == Issue(v, env)
    ensures r.Ok? <==> X.MayIssue(v, env)
    ensures r.Ok? ==> r.value == Issued(F.Form(v, 0, env), F.MadeOf(v, 0, env))
  {
    X.IssueExactly(v, env);
    if !v.Map? {
      return Err(UnexpectedType);
    }
    var run := new IssueRun(env);
    var out :- run.IssueValue(v, 0);
    return Ok(Issued(out, run.disclosures));
  }
}
