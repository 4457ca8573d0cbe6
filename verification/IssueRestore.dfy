/** Restoring what issuance produced. Whatever the hash, salts and encoder are, a Verifier with any
    selection of the disclosures rebuilds exactly what the selection shows of the original claims, or
    reports a limit, and it reports a limit exactly when the limits do not cover the cost. */
module IssueRestore {
  import opened Values
  import opened Disclosures
  import opened Restoration
  import opened Issuance
  import opened Redactions
  import opened IssuanceFacts
  import opened Selections
  import opened Showings

  /** The restored value is `v` and the run went on from `r` pending as `met` says, at the cost of
      `load`; if the limits do not cover that, it stopped. */
  ghost predicate ValueComes(res: Result<(Value, RState)>, v: Value, st: RState, r: set<nat>, met: Met, load: Load, run: Run) {
    res == if Pays(st, load, run) then Ok((v, Later(st, r, met, load, run))) else Err(Limit)
  }

  ghost predicate ItemsCome(res: Result<(seq<Value>, RState)>, items: seq<Value>, st: RState, r: set<nat>, met: Met, load: Load, run: Run) {
    res == if Pays(st, load, run) then Ok((items, Later(st, r, met, load, run))) else Err(Limit)
  }

  /** The first map loop went on with more entries and labels. */
  ghost predicate EntriesCome(res: Result<MapAcc>, acc: MapAcc, entries: seq<Entry>, labels: set<Label>, r: set<nat>, met: Met, load: Load, run: Run) {
    res == if Pays(acc.st, load, run) then
             Ok(acc.(out := acc.out + entries, labels := acc.labels + labels, st := Later(acc.st, r, met, load, run)))
           else Err(Limit)
  }

  /** The second map loop went on with more entries, labels and hashes nobody presented. */
  ghost predicate HashesCome(res: Result<MapAcc>, acc: MapAcc, entries: seq<Entry>, labels: set<Label>, kept: seq<Value>,
                             r: set<nat>, met: Met, load: Load, run: Run) {
    res == if Pays(acc.st, load, run) then
             Ok(acc.(out := acc.out + entries, labels := acc.labels + labels, kept := acc.kept + kept, st := Later(acc.st, r, met, load, run)))
           else Err(Limit)
  }

  /** The state before a stretch that holds requests `n` to `n + k`. */
  ghost predicate Ready(st: RState, r: set<nat>, n: nat, k: nat, run: Run) {
    st.pending == PendingOf(r, run) && Untouched(r, n, k, run) && st.visited <= run.cfg.limits.maxItems
  }

  lemma ReadyPart(st: RState, r: set<nat>, n: nat, k: nat, m: nat, j: nat, run: Run)
    requires Ready(st, r, n, k, run) && n <= m && m + j <= n + k
    ensures Ready(st, r, m, j, run)
  {
  }

  /** The state after a stretch is ready for what lies beyond the numbers it used. */
  lemma ReadyRest(st: RState, r: set<nat>, n: nat, k: nat, m: nat, j: nat, met: Met, load: Load, run: Run)
    requires Ready(st, r, n, k, run) && n <= m && m + j <= n + k && Pays(st, load, run)
    requires forall i :: i in met.used ==> i < m || m + j <= i
    ensures Ready(Later(st, r, met, load, run), r - met.used, m, j, run)
  {
  }

  /** Entering charges one visit. */
  lemma Entered(st: RState, r: set<nat>, met: Met, load: Load, depth: nat, run: Run)
    requires st.visited <= run.cfg.limits.maxItems
    ensures EnterAt(st, depth, run.cfg.limits)
         == if Pays(st, Visit(1, depth, run.cfg.limits), run) then Ok(st.(visited := st.visited + 1)) else Err(Limit)
    ensures Pays(st, Plus(Visit(1, depth, run.cfg.limits), load), run)
         <==> Pays(st, Visit(1, depth, run.cfg.limits), run) && Pays(st.(visited := st.visited + 1), load, run)
    ensures Later(st.(visited := st.visited + 1), r, met, load, run) == Later(st, r, met, Plus(Visit(1, depth, run.cfg.limits), load), run)
  {
  }

  // ---- issuing, one step at a time --------------------------------------------------------------

  lemma {:induction false} IssueItemsShift(items: seq<Value>, out: seq<Value>, ctx: Context, env: Issuer, at: nat)
    ensures var r, s := IssueItems(items, out, ctx, env, at), IssueItems(items, [], ctx, env, at);
            r.Ok? == s.Ok? && (r.Ok? ==> r.value == (out + s.value.0, s.value.1))
    decreases items
  {
    if items == [] {
      assert out + [] == out;
    } else {
      var r := IssueItem(items[0], ctx, env, at);
      if r.Ok? {
        var (v, ctx1) := r.value;
        IssueItemsShift(items[1..], out + [v], ctx1, env, at);
        IssueItemsShift(items[1..], [] + [v], ctx1, env, at);
        var s := IssueItems(items[1..], [], ctx1, env, at);
        if s.Ok? {
          assert out + [v] + s.value.0 == out + ([] + [v] + s.value.0);
        }
      }
    }
  }

  /** The first item and the others of an issued array. */
  lemma {:induction false} IssueItemsFirst(items: seq<Value>, ctx: Context, env: Issuer, at: nat, issued: seq<Value>, end: Context)
    returns (v: Value, rest: seq<Value>, ctx1: Context)
    requires items != [] && IssueItems(items, [], ctx, env, at) == Ok((issued, end))
    ensures IssueItem(items[0], ctx, env, at) == Ok((v, ctx1))
    ensures IssueItems(items[1..], [], ctx1, env, at) == Ok((rest, end))
    ensures issued == [v] + rest
    ensures ctx1.disclosures <= end.disclosures && |ctx1.disclosures| == |ctx.disclosures| + CountItem(items[0])
  {
    v, ctx1 := IssueItem(items[0], ctx, env, at).value.0, IssueItem(items[0], ctx, env, at).value.1;
    IssueItemsShift(items[1..], [] + [v], ctx1, env, at);
    rest := IssueItems(items[1..], [], ctx1, env, at).value.0;
    IssueItemGrows(items[0], ctx, env, at);
    IssueItemsGrows(items[1..], [], ctx1, env, at);
  }

  // ---- values and arrays ------------------------------------------------------------------------

  /** `v`, issued with requests from `n` on, is restored. */
  ghost predicate ValueBack(res: Result<(Value, RState)>, v: Value, n: nat, st: RState, r: set<nat>, run: Run, depth: nat) {
    ValueComes(res, Shown(v, n, run), st, r, MetIn(v, n, run.sel), LoadOf(v, n, run.sel, depth, run.cfg.limits), run)
  }

  lemma {:induction false} ValueReturns(v: Value, ctx: Context, issued: Value, end: Context, at: nat, st: RState, r: set<nat>, run: Run, depth: nat)
    requires Fair(run) && IssueValue(v, ctx, run.env, at) == Ok((issued, end)) && Within(end, run) && (depth == 0 ==> at == 0)
    requires Ready(st, r, Start(ctx, run), Count(v), run)
    ensures var n := Start(ctx, run);
            ValueComes(RestoreValue(issued, st, run.cfg, depth), Shown(v, n, run), st, r, MetIn(v, n, run.sel),
                       LoadOf(v, n, run.sel, depth, run.cfg.limits), run)
    decreases v, 5
  {
    hide RestoreValue, IssueValue, PendingOf, Shown, MetIn, LoadOf, Ready, ValueComes, Within, Fair;
    match v
    case Map(entries) => MapValueReturns(entries, ctx, issued, end, at, st, r, run, depth);
    case Array(items) => ArrayValueReturns(items, ctx, issued, end, at, st, r, run, depth);
    case Tag(tag, inner) => TagValueReturns(tag, inner, ctx, issued, end, at, st, r, run, depth);
    case _ => ScalarReturns(v, ctx, issued, end, at, st, r, run, depth);
  }

  /** The visit of the value itself, and then its content. */
  lemma VisitedThen(v: Value, n: nat, issued: Value, st: RState, r: set<nat>, run: Run, depth: nat, content: Result<(Value, RState)>)
    requires st.visited <= run.cfg.limits.maxItems
    requires RestoreValue(issued, st, run.cfg, depth) ==
             if EnterAt(st, depth, run.cfg.limits).Ok? then content else Err(Limit)
    requires EnterAt(st, depth, run.cfg.limits).Ok? ==>
               ValueComes(content, Shown(v, n, run), st.(visited := st.visited + 1), r, MetIn(v, n, run.sel),
                          ContentLoad(v, n, run.sel, depth, run.cfg.limits), run)
    ensures ValueBack(RestoreValue(issued, st, run.cfg, depth), v, n, st, r, run, depth)
  {
    hide RestoreValue, Shown, MetIn, ContentLoad;
    Entered(st, r, MetIn(v, n, run.sel), ContentLoad(v, n, run.sel, depth, run.cfg.limits), depth, run);
    LoadSplits(v, n, run.sel, depth, run.cfg.limits);
  }

  lemma {:induction false} MapValueReturns(entries: seq<Entry>, ctx: Context, issued: Value, end: Context, at: nat, st: RState, r: set<nat>, run: Run, depth: nat)
    requires Fair(run) && IssueValue(Map(entries), ctx, run.env, at) == Ok((issued, end)) && Within(end, run) && (depth == 0 ==> at == 0)
    requires Ready(st, r, Start(ctx, run), Count(Map(entries)), run)
    ensures ValueBack(RestoreValue(issued, st, run.cfg, depth), Map(entries), Start(ctx, run), st, r, run, depth)
    decreases entries, 4
  {
    hide RestoreMap, PendingOf, Shown, MetIn, LoadOf, LoadOfMap, Later, IssueEntries, Untouched;
    var ctx1 := EnterIssue(ctx, at, run.env.limits).value;
    var acc := IssueEntries(entries, Blank({}, ctx1), run.env, at).value;
    var st1 := st.(visited := st.visited + 1);
    if EnterAt(st, depth, run.cfg.limits).Ok? {
      MapReturns(entries, ctx1, acc, at, st1, r, run, depth);
    }
    VisitedThen(Map(entries), Start(ctx, run), issued, st, r, run, depth, RestoreMap(acc.out + HashEntry(acc.hashes), st1, run.cfg, depth));
  }

  lemma {:induction false} ArrayValueReturns(items: seq<Value>, ctx: Context, issued: Value, end: Context, at: nat, st: RState, r: set<nat>, run: Run, depth: nat)
    requires Fair(run) && IssueValue(Array(items), ctx, run.env, at) == Ok((issued, end)) && Within(end, run) && (depth == 0 ==> at == 0)
    requires Ready(st, r, Start(ctx, run), Count(Array(items)), run)
    ensures ValueBack(RestoreValue(issued, st, run.cfg, depth), Array(items), Start(ctx, run), st, r, run, depth)
    decreases items, 4
  {
    hide RestoreItems, PendingOf, MetItems, LoadOf, LoadOfItems, ShownItems, Later, IssueItems, Untouched;
    var ctx1 := EnterIssue(ctx, at, run.env.limits).value;
    var st1 := st.(visited := st.visited + 1);
    var all := IssueItems(items, [], ctx1, run.env, at);
    assert all.value == (issued.items, end);
    if EnterAt(st, depth, run.cfg.limits).Ok? {
      ArrayReturns(items, ctx1, issued, end, at, st1, r, run, depth);
    } else {
      IssuedLength(items, [], ctx1, run.env, at);
    }
    var inside := RestoreItems(issued.items, [], st1, run.cfg, depth);
    VisitedThen(Array(items), Start(ctx, run), issued, st, r, run, depth,
                if !ContainerFits(|items|, run.cfg.limits) then Err(Limit)
                else if inside.Err? then Err(inside.error) else Ok((Array(inside.value.0), inside.value.1)));
  }

  lemma {:induction false} TagValueReturns(tag: nat, inner: Value, ctx: Context, issued: Value, end: Context, at: nat, st: RState, r: set<nat>, run: Run, depth: nat)
    requires Fair(run) && IssueValue(Tag(tag, inner), ctx, run.env, at) == Ok((issued, end)) && Within(end, run) && (depth == 0 ==> at == 0)
    requires Ready(st, r, Start(ctx, run), Count(Tag(tag, inner)), run)
    ensures ValueBack(RestoreValue(issued, st, run.cfg, depth), Tag(tag, inner), Start(ctx, run), st, r, run, depth)
    decreases inner, 6
  {
    hide PendingOf, Later, Untouched, RestoreMap, RestoreItems, IssueEntries, IssueItems;
    var ctx1 := EnterIssue(ctx, at, run.env.limits).value;
    var st1 := st.(visited := st.visited + 1);
    if EnterAt(st, depth, run.cfg.limits).Ok? {
      ValueReturns(inner, ctx1, issued.inner, end, at + 1, st1, r, run, depth + 1);
    }
    var inside := RestoreValue(issued.inner, st1, run.cfg, depth + 1);
    VisitedThen(Tag(tag, inner), Start(ctx, run), issued, st, r, run, depth,
                if inside.Err? then Err(inside.error) else Ok((Tag(tag, inside.value.0), inside.value.1)));
  }

  lemma ScalarReturns(v: Value, ctx: Context, issued: Value, end: Context, at: nat, st: RState, r: set<nat>, run: Run, depth: nat)
    requires !v.Map? && !v.Array? && !v.Tag?
    requires Fair(run) && IssueValue(v, ctx, run.env, at) == Ok((issued, end)) && Within(end, run) && (depth == 0 ==> at == 0)
    requires Ready(st, r, Start(ctx, run), Count(v), run)
    ensures ValueBack(RestoreValue(issued, st, run.cfg, depth), v, Start(ctx, run), st, r, run, depth)
  {
    hide PendingOf;
    LaterNothing(st.(visited := st.visited + 1), r, run);
    VisitedThen(v, Start(ctx, run), issued, st, r, run, depth, Ok((v, st.(visited := st.visited + 1))));
  }

  /** What a value costs besides its own visit. */
  function ContentLoad(v: Value, n: nat, sel: set<nat>, depth: nat, limits: Limits): Load {
    match v
    case Map(entries) => LoadOfMap(entries, n, sel, depth, limits)
    case Array(items) => Plus(Holding(|items|, limits), LoadOfItems(items, n, sel, depth, limits))
    case Tag(_, inner) => LoadOf(inner, n, sel, depth + 1, limits)
    case _ => NO_LOAD
  }

  lemma LoadSplits(v: Value, n: nat, sel: set<nat>, depth: nat, limits: Limits)
    ensures LoadOf(v, n, sel, depth, limits) == Plus(Visit(1, depth, limits), ContentLoad(v, n, sel, depth, limits))
  {
  }

  lemma {:induction false} ArrayReturns(items: seq<Value>, ctx: Context, issued: Value, end: Context, at: nat, st: RState, r: set<nat>, run: Run, depth: nat)
    requires Fair(run) && issued.Array? && IssueItems(items, [], ctx, run.env, at) == Ok((issued.items, end)) && Within(end, run)
    requires Ready(st, r, Start(ctx, run), CountItems(items), run)
    ensures |issued.items| == |items|
    ensures var n := Start(ctx, run);
            ItemsCome(RestoreItems(issued.items, [], st, run.cfg, depth), ShownItems(items, n, run), st, r, MetItems(items, n, run.sel),
                      LoadOfItems(items, n, run.sel, depth, run.cfg.limits), run)
    decreases items, 2
  {
    ItemsReturn(items, ctx, issued.items, end, at, [], st, r, run, depth);
    assert [] + ShownItems(items, Start(ctx, run), run) == ShownItems(items, Start(ctx, run), run);
  }

  lemma {:induction false} ItemsReturn(items: seq<Value>, ctx: Context, issued: seq<Value>, end: Context, at: nat,
                                       out: seq<Value>, st: RState, r: set<nat>, run: Run, depth: nat)
    requires Fair(run) && IssueItems(items, [], ctx, run.env, at) == Ok((issued, end)) && Within(end, run)
    requires Ready(st, r, Start(ctx, run), CountItems(items), run)
    ensures |issued| == |items|
    ensures var n := Start(ctx, run);
            ItemsCome(RestoreItems(issued, out, st, run.cfg, depth), out + ShownItems(items, n, run), st, r, MetItems(items, n, run.sel),
                      LoadOfItems(items, n, run.sel, depth, run.cfg.limits), run)
    decreases items, 1
  {
    hide *;
    var n := Start(ctx, run);
    if items == [] {
      NoItems(ctx, end, at, issued, out, st, r, run, depth);
    } else {
      var v, rest, ctx1 := ItemsSplit(items, ctx, issued, end, at, run);
      var k, met, load := CountItem(items[0]), MetItem(items[0], n, run.sel), LoadOfItem(items[0], n, run.sel, depth, run.cfg.limits);
      ReadyPart(st, r, n, CountItems(items), n, k, run);
      ItemReturns(items[0], ctx, v, ctx1, at, out, st, r, run, depth);
      if Pays(st, load, run) {
        MetItemInRange(items[0], n, run.sel);
        ReadyRest(st, r, n, CountItems(items), n + k, CountItems(items[1..]), met, load, run);
        ItemsReturn(items[1..], ctx1, rest, end, at, out + ShownItem(items[0], n, run), Later(st, r, met, load, run), r - met.used, run, depth);
      } else {
        IssuedLength(items[1..], [], ctx1, run.env, at);
      }
      ItemsThen(items, v, rest, n, out, st, r, run, depth);
    }
  }

  /** The first item and the others, and where the others' requests begin. */
  lemma {:induction false} ItemsSplit(items: seq<Value>, ctx: Context, issued: seq<Value>, end: Context, at: nat, run: Run)
    returns (v: Value, rest: seq<Value>, ctx1: Context)
    requires items != [] && IssueItems(items, [], ctx, run.env, at) == Ok((issued, end)) && Within(end, run)
    ensures IssueItem(items[0], ctx, run.env, at) == Ok((v, ctx1)) && IssueItems(items[1..], [], ctx1, run.env, at) == Ok((rest, end))
    ensures issued == [v] + rest && Within(ctx1, run) && Start(ctx1, run) == Start(ctx, run) + CountItem(items[0])
    ensures CountItems(items) == CountItem(items[0]) + CountItems(items[1..])
  {
    hide IssueItem, IssueItems, Within;
    v, rest, ctx1 := IssueItemsFirst(items, ctx, run.env, at, issued, end);
    WithinPrefix(ctx1, end, run);
  }

  lemma NoItems(ctx: Context, end: Context, at: nat, issued: seq<Value>, out: seq<Value>, st: RState, r: set<nat>, run: Run, depth: nat)
    requires IssueItems([], [], ctx, run.env, at) == Ok((issued, end)) && Ready(st, r, Start(ctx, run), CountItems([]), run)
    ensures issued == []
    ensures ItemsCome(RestoreItems(issued, out, st, run.cfg, depth), out + ShownItems([], Start(ctx, run), run), st, r,
                      MetItems([], Start(ctx, run), run.sel), LoadOfItems([], Start(ctx, run), run.sel, depth, run.cfg.limits), run)
  {
    LaterNothing(st, r, run);
    assert out + [] == out;
  }

  lemma {:induction false} IssuedLength(items: seq<Value>, out: seq<Value>, ctx: Context, env: Issuer, at: nat)
    ensures var s := IssueItems(items, out, ctx, env, at);
            s.Ok? ==> |s.value.0| == |out| + |items|
    decreases items
  {
    if items != [] {
      var s := IssueItem(items[0], ctx, env, at);
      if s.Ok? {
        IssuedLength(items[1..], out + [s.value.0], s.value.1, env, at);
      }
    }
  }

  /** Joins the first item's outcome with the outcome of the others. */
  lemma {:induction false} ItemsThen(items: seq<Value>, v: Value, rest: seq<Value>, n: nat, out: seq<Value>, st: RState, r: set<nat>, run: Run, depth: nat)
    requires items != []
    requires ItemsCome(RestoreItem(v, out, st, run.cfg, depth), out + ShownItem(items[0], n, run), st, r, MetItem(items[0], n, run.sel),
                       LoadOfItem(items[0], n, run.sel, depth, run.cfg.limits), run)
    requires var met, load := MetItem(items[0], n, run.sel), LoadOfItem(items[0], n, run.sel, depth, run.cfg.limits);
             var st1, out1 := Later(st, r, met, load, run), out + ShownItem(items[0], n, run);
             var m := n + CountItem(items[0]);
             Pays(st, load, run) ==>
               ItemsCome(RestoreItems(rest, out1, st1, run.cfg, depth), out1 + ShownItems(items[1..], m, run), st1, r - met.used,
                         MetItems(items[1..], m, run.sel), LoadOfItems(items[1..], m, run.sel, depth, run.cfg.limits), run)
    ensures ItemsCome(RestoreItems([v] + rest, out, st, run.cfg, depth), out + ShownItems(items, n, run), st, r, MetItems(items, n, run.sel),
                      LoadOfItems(items, n, run.sel, depth, run.cfg.limits), run)
  {
    hide RestoreItem, MetItem, LoadOfItem, ShownItem, CountItem;
    var m := n + CountItem(items[0]);
    assert ([v] + rest)[1..] == rest;
    LaterBoth(st, r, MetItem(items[0], n, run.sel), MetItems(items[1..], m, run.sel), LoadOfItem(items[0], n, run.sel, depth, run.cfg.limits),
              LoadOfItems(items[1..], m, run.sel, depth, run.cfg.limits), run);
    assert out + ShownItem(items[0], n, run) + ShownItems(items[1..], m, run) == out + ShownItems(items, n, run);
  }

  lemma {:induction false} ItemReturns(item: Value, ctx: Context, issued: Value, end: Context, at: nat,
                                       out: seq<Value>, st: RState, r: set<nat>, run: Run, depth: nat)
    requires Fair(run) && IssueItem(item, ctx, run.env, at) == Ok((issued, end)) && Within(end, run)
    requires Ready(st, r, Start(ctx, run), CountItem(item), run)
    ensures var n := Start(ctx, run);
            ItemsCome(RestoreItem(issued, out, st, run.cfg, depth), out + ShownItem(item, n, run), st, r, MetItem(item, n, run.sel),
                      LoadOfItem(item, n, run.sel, depth, run.cfg.limits), run)
    decreases item, 7
  {
    hide RestoreItem, IssueItem, PendingOf, ItemsCome, ShownItem, MetItem, LoadOfItem, Ready;
    if Redacts(item) {
      RedactedItemReturns(item, ctx, issued, end, at, out, st, r, run, depth);
    } else if IsDecoy(item) {
      DecoyItemReturns(item, ctx, issued, end, at, out, st, r, run, depth);
    } else {
      OtherItemReturns(item, ctx, issued, end, at, out, st, r, run, depth);
    }
  }

  lemma {:induction false} OtherItemReturns(item: Value, ctx: Context, issued: Value, end: Context, at: nat,
                                            out: seq<Value>, st: RState, r: set<nat>, run: Run, depth: nat)
    requires !Redacts(item) && !IsDecoy(item)
    requires Fair(run) && IssueItem(item, ctx, run.env, at) == Ok((issued, end)) && Within(end, run)
    requires Ready(st, r, Start(ctx, run), CountItem(item), run)
    ensures var n := Start(ctx, run);
            ItemsCome(RestoreItem(issued, out, st, run.cfg, depth), out + ShownItem(item, n, run), st, r, MetItem(item, n, run.sel),
                      LoadOfItem(item, n, run.sel, depth, run.cfg.limits), run)
    decreases item, 6
  {
    hide RestoreValue, IssueValue, PendingOf, Shown, MetIn, LoadOf, Ready, Later;
    assert CountItem(item) == Count(item);
    ValueReturns(item, ctx, issued, end, at + 1, st, r, run, depth + 1);
    IssuedIsNoMarker(item, ctx, run.env, at + 1);
  }

  lemma {:induction false} IssuedIsNoMarker(v: Value, ctx: Context, env: Issuer, at: nat)
    ensures var r := IssueValue(v, ctx, env, at);
            r.Ok? ==> !IsRedactedElement(r.value.0)
  {
  }

  // ---- one request ------------------------------------------------------------------------------

  /** The outcome for a redacted node holding `content` at `depth`: its disclosure is pending exactly
      when it is selected; restoring what it holds then gives what is shown of the content. */
  ghost predicate RequestComes(content: Value, n: nat, issued: Value, st: RState, r: set<nat>, run: Run, depth: nat)
    requires n + Count(content) < |run.all|
  {
    var own := n + Count(content);
    var digest := DigestAt(own, run);
    if digest in st.pending then
      own in run.sel && st.pending[digest] == run.all[own] &&
      PresentComes(RestoreValue(issued, st.(pending := TakePending(st.pending, digest)), run.cfg, depth + 1), content, n, st, r, run, depth)
    else
      own !in run.sel && st.visited <= run.cfg.limits.maxItems &&
      st.(removed := st.removed + 1) == Later(st, r, MetRequest(content, n, run.sel), LoadOfRequest(content, n, run.sel, depth, run.cfg.limits), run)
  }

  /** The content comes; counting its node as disclosed gives the state after the request. */
  ghost predicate PresentComes(res: Result<(Value, RState)>, content: Value, n: nat, st: RState, r: set<nat>, run: Run, depth: nat) {
    var load := LoadOfRequest(content, n, run.sel, depth, run.cfg.limits);
    if Pays(st, load, run) then
      && res.Ok? && res.value.0 == Shown(content, n, run)
      && res.value.1.(disclosed := res.value.1.disclosed + 1) == Later(st, r, MetRequest(content, n, run.sel), load, run)
    else res == Err(Limit)
  }

  lemma {:induction false} RequestReturns(content: Value, ctx: Context, issued: Value, end: Context, at: nat,
                                          st: RState, r: set<nat>, run: Run, depth: nat)
    requires Fair(run) && IssueValue(content, ctx, run.env, at) == Ok((issued, end)) && Within(end, run)
    requires Start(ctx, run) + Count(content) < |run.all| && Ready(st, r, Start(ctx, run), Count(content) + 1, run)
    ensures RequestComes(content, Start(ctx, run), issued, st, r, run, depth)
    decreases content, 6
  {
    hide *;
    var n := Start(ctx, run);
    var own := n + Count(content);
    PendingAt(r, own, run);
    ReadyGives(st, r, n, Count(content), run);
    if own in r {
      var st1 := st.(pending := PendingOf(r - {own}, run));
      ReadyTaken(st, r, n, Count(content), run);
      ValueReturns(content, ctx, issued, end, at, st1, r - {own}, run, depth + 1);
      PresentThen(RestoreValue(issued, st1, run.cfg, depth + 1), content, n, st, st1, r, run, depth);
    } else {
      AbsentThen(content, n, st, r, run, depth);
    }
    RequestJoins(content, n, issued, st, r, run, depth);
  }

  /** Before a request its number is pending exactly when it is selected. */
  lemma ReadyGives(st: RState, r: set<nat>, n: nat, k: nat, run: Run)
    requires Ready(st, r, n, k + 1, run)
    ensures st.pending == PendingOf(r, run) && st.visited <= run.cfg.limits.maxItems && (n + k in r <==> n + k in run.sel)
  {
    hide PendingOf;
  }

  lemma RequestJoins(content: Value, n: nat, issued: Value, st: RState, r: set<nat>, run: Run, depth: nat)
    requires n + Count(content) < |run.all| && st.visited <= run.cfg.limits.maxItems
    requires DigestAt(n + Count(content), run) in st.pending <==> n + Count(content) in run.sel
    requires n + Count(content) in run.sel ==>
               && st.pending[DigestAt(n + Count(content), run)] == run.all[n + Count(content)]
               && PresentComes(RestoreValue(issued, st.(pending := TakePending(st.pending, DigestAt(n + Count(content), run))), run.cfg, depth + 1),
                               content, n, st, r, run, depth)
    requires n + Count(content) !in run.sel ==>
               st.(removed := st.removed + 1) == Later(st, r, MetRequest(content, n, run.sel), LoadOfRequest(content, n, run.sel, depth, run.cfg.limits), run)
    ensures RequestComes(content, n, issued, st, r, run, depth)
  {
    hide Count, DigestAt, TakePending, RestoreValue, PresentComes, Later, MetRequest, LoadOfRequest;
  }

  lemma ReadyTaken(st: RState, r: set<nat>, n: nat, k: nat, run: Run)
    requires Ready(st, r, n, k + 1, run)
    ensures Ready(st.(pending := PendingOf(r - {n + k}, run)), r - {n + k}, n, k, run)
  {
  }

  lemma {:induction false} AbsentThen(content: Value, n: nat, st: RState, r: set<nat>, run: Run, depth: nat)
    requires st.pending == PendingOf(r, run) && n + Count(content) !in run.sel
    ensures st.(removed := st.removed + 1)
         == Later(st, r, MetRequest(content, n, run.sel), LoadOfRequest(content, n, run.sel, depth, run.cfg.limits), run)
  {
    assert r - {} == r;
  }

  lemma {:induction false} PresentThen(res: Result<(Value, RState)>, content: Value, n: nat, st: RState, st1: RState, r: set<nat>, run: Run, depth: nat)
    requires n + Count(content) in run.sel && st1 == st.(pending := st1.pending)
    requires ValueComes(res, Shown(content, n, run), st1, r - {n + Count(content)}, MetIn(content, n, run.sel),
                        LoadOf(content, n, run.sel, depth + 1, run.cfg.limits), run)
    ensures PresentComes(res, content, n, st, r, run, depth)
  {
    hide Shown, LoadOf, MetIn, PendingOf;
    assert r - {n + Count(content)} - MetIn(content, n, run.sel).used == r - MetRequest(content, n, run.sel).used;
  }

  /** The outcome for a decoy: its disclosure is pending exactly when it is selected. */
  ghost predicate DecoyComes(n: nat, st: RState, r: set<nat>, run: Run)
    requires n < |run.all|
  {
    var digest := DigestAt(n, run);
    if digest in st.pending then
      && n in run.sel && st.pending[digest] == run.all[n]
      && st.(pending := TakePending(st.pending, digest), decoys := st.decoys + 1) == Later(st, r, MetDecoy(n, run.sel), NO_LOAD, run)
    else n !in run.sel && st.(removed := st.removed + 1) == Later(st, r, MetDecoy(n, run.sel), NO_LOAD, run)
  }

  /** Taking the disclosure of a decoy. */
  lemma {:induction false} DecoyTaken(n: nat, st: RState, r: set<nat>, run: Run)
    requires Fair(run) && n < |run.all| && Ready(st, r, n, 1, run)
    ensures DecoyComes(n, st, r, run)
  {
    PendingAt(r, n, run);
    if n !in r {
      assert r - {} == r;
    }
  }

  // ---- redacted elements ------------------------------------------------------------------------

  lemma {:induction false} MarkerRestores(digest: Bytes, out: seq<Value>, st: RState, run: Run, depth: nat)
    requires st.visited <= run.cfg.limits.maxItems
    ensures RestoreItem(Tag(REDACTED_ELEMENT_TAG, ByteString(digest)), out, st, run.cfg, depth) ==
            if Pays(st, LoadOfMarker(depth, run.cfg.limits), run) then RestoreElement(digest, out, st.(visited := st.visited + 2), run.cfg, depth)
            else Err(Limit)
  {
    hide RestoreElement;
  }

  /** What issuing a redacted element did. */
  lemma {:induction false} RedactedItemIssued(item: Value, ctx: Context, issued: Value, end: Context, run: Run, at: nat)
    returns (ctx1: Context, content: Value, ctx2: Context)
    requires Redacts(item) && IssueItem(item, ctx, run.env, at) == Ok((issued, end)) && Within(end, run)
    ensures IssueValue(item.inner, ctx1, run.env, at + 2) == Ok((content, ctx2)) && Within(ctx2, run)
    ensures Start(ctx1, run) == Start(ctx, run)
    ensures var own := Start(ctx, run) + Count(item.inner);
            && own < |run.all|
            && issued == Tag(REDACTED_ELEMENT_TAG, ByteString(DigestAt(own, run)))
            && run.all[own].kind.Element? && run.all[own].kind.value == content
  {
    ctx1 := EnterIssue(ctx, at + 1, run.env.limits).value;
    content, ctx2 := IssueValue(item.inner, ctx1, run.env, at + 2).value.0, IssueValue(item.inner, ctx1, run.env, at + 2).value.1;
    IssueValueGrows(item.inner, ctx1, run.env, at + 2);
    DiscloseFacts(RedactElement(content), ctx2, run.env);
    WithinPrefix(ctx2, end, run);
    WithinAt(end, run, |ctx2.disclosures|);
  }

  lemma {:induction false} RedactedItemReturns(item: Value, ctx: Context, issued: Value, end: Context, at: nat,
                                               out: seq<Value>, st: RState, r: set<nat>, run: Run, depth: nat)
    requires Redacts(item)
    requires Fair(run) && IssueItem(item, ctx, run.env, at) == Ok((issued, end)) && Within(end, run)
    requires Ready(st, r, Start(ctx, run), CountItem(item), run)
    ensures var n := Start(ctx, run);
            ItemsCome(RestoreItem(issued, out, st, run.cfg, depth), out + ShownItem(item, n, run), st, r, MetItem(item, n, run.sel),
                      LoadOfItem(item, n, run.sel, depth, run.cfg.limits), run)
    decreases item, 0
  {
    hide RestoreElement, RestoreItem, ItemsCome, RequestComes, IssueItem, IssueValue, ShownRequest, MetRequest, LoadOfRequest, PendingOf;
    var n := Start(ctx, run);
    var ctx1, content, ctx2 := RedactedItemIssued(item, ctx, issued, end, run, at);
    var own := n + Count(item.inner);
    MarkerRestores(DigestAt(own, run), out, st, run, depth);
    var st1 := st.(visited := st.visited + 2);
    if Pays(st, LoadOfMarker(depth, run.cfg.limits), run) {
      ReadyVisited(st, r, n, Count(item.inner) + 1, run);
      RequestReturns(item.inner, ctx1, content, ctx2, at + 2, st1, r, run, depth);
      ElementThen(item.inner, n, content, out, st1, r, run, depth);
    }
    MarkerThen(item, n, out, st, r, run, depth, RestoreElement(DigestAt(own, run), out, st1, run.cfg, depth), RestoreItem(issued, out, st, run.cfg, depth));
  }

  lemma ReadyVisited(st: RState, r: set<nat>, n: nat, k: nat, run: Run)
    requires Ready(st, r, n, k, run) && st.visited + 2 <= run.cfg.limits.maxItems
    ensures Ready(st.(visited := st.visited + 2), r, n, k, run)
  {
  }

  /** The marker's own cost in front of what its request costs. */
  lemma MarkerThen(item: Value, n: nat, out: seq<Value>, st: RState, r: set<nat>, run: Run, depth: nat,
                   inner: Result<(seq<Value>, RState)>, res: Result<(seq<Value>, RState)>)
    requires Redacts(item)
    requires res == if Pays(st, LoadOfMarker(depth, run.cfg.limits), run) then inner else Err(Limit)
    requires Pays(st, LoadOfMarker(depth, run.cfg.limits), run) ==>
               ItemsCome(inner, out + ShownRequest(item.inner, n, run), st.(visited := st.visited + 2), r, MetRequest(item.inner, n, run.sel),
                         LoadOfRequest(item.inner, n, run.sel, depth, run.cfg.limits), run)
    ensures ItemsCome(res, out + ShownItem(item, n, run), st, r, MetItem(item, n, run.sel), LoadOfItem(item, n, run.sel, depth, run.cfg.limits), run)
  {
    hide ShownRequest, MetRequest, LoadOfRequest, PendingOf;
  }

  /** A redacted element comes as its node does. */
  lemma {:induction false} ElementThen(content: Value, n: nat, issued: Value, out: seq<Value>, st: RState, r: set<nat>, run: Run, depth: nat)
    requires n + Count(content) < |run.all| && RequestComes(content, n, issued, st, r, run, depth) && Fair(run)
    requires run.all[n + Count(content)].kind.Element? && run.all[n + Count(content)].kind.value == issued
    ensures ItemsCome(RestoreElement(DigestAt(n + Count(content), run), out, st, run.cfg, depth), out + ShownRequest(content, n, run), st, r,
                      MetRequest(content, n, run.sel), LoadOfRequest(content, n, run.sel, depth, run.cfg.limits), run)
  {
    if DigestAt(n + Count(content), run) in st.pending {
      PresentElement(content, n, issued, out, st, r, run, depth);
    } else {
      AbsentElement(content, n, out, st, r, run, depth);
    }
  }

  lemma PresentElement(content: Value, n: nat, issued: Value, out: seq<Value>, st: RState, r: set<nat>, run: Run, depth: nat)
    requires n + Count(content) < |run.all| && RequestComes(content, n, issued, st, r, run, depth)
    requires DigestAt(n + Count(content), run) in st.pending
    requires run.all[n + Count(content)].kind.Element? && run.all[n + Count(content)].kind.value == issued
    ensures ItemsCome(RestoreElement(DigestAt(n + Count(content), run), out, st, run.cfg, depth), out + ShownRequest(content, n, run), st, r,
                      MetRequest(content, n, run.sel), LoadOfRequest(content, n, run.sel, depth, run.cfg.limits), run)
  {
    hide RestoreValue, Shown, LoadOf, MetIn, PendingOf, DigestAt, TakePending, Count, Pays, LoadOfRequest, MetRequest, Later;
  }

  lemma AbsentElement(content: Value, n: nat, out: seq<Value>, st: RState, r: set<nat>, run: Run, depth: nat)
    requires n + Count(content) < |run.all| && run.cfg.mode == Verifier
    requires DigestAt(n + Count(content), run) !in st.pending && n + Count(content) !in run.sel && st.visited <= run.cfg.limits.maxItems
    requires st.(removed := st.removed + 1)
          == Later(st, r, MetRequest(content, n, run.sel), LoadOfRequest(content, n, run.sel, depth, run.cfg.limits), run)
    ensures ItemsCome(RestoreElement(DigestAt(n + Count(content), run), out, st, run.cfg, depth), out + ShownRequest(content, n, run), st, r,
                      MetRequest(content, n, run.sel), LoadOfRequest(content, n, run.sel, depth, run.cfg.limits), run)
  {
    hide RestoreElement, HiddenElement, DigestAt, Shown, ShownRequest, LoadOf, LoadOfRequest, Later, MetRequest, Count;
    AbsentRestores(n + Count(content), out, st, run, depth);
    AbsentCosts(content, n, run, depth);
  }

  lemma AbsentCosts(content: Value, n: nat, run: Run, depth: nat)
    requires n + Count(content) !in run.sel
    ensures ShownRequest(content, n, run) == HiddenElement(n + Count(content), run)
    ensures LoadOfRequest(content, n, run.sel, depth, run.cfg.limits) == NO_LOAD
  {
    hide HiddenElement, Count, Shown, LoadOf;
  }

  lemma AbsentRestores(own: nat, out: seq<Value>, st: RState, run: Run, depth: nat)
    requires own < |run.all| && run.cfg.mode == Verifier && own !in run.sel && DigestAt(own, run) !in st.pending
    ensures RestoreElement(DigestAt(own, run), out, st, run.cfg, depth) == Ok((out + HiddenElement(own, run), st.(removed := st.removed + 1)))
  {
    hide DigestAt, RestoreValue;
    assert out + [] == out;
  }

  /** What issuing a decoy element did. */
  lemma {:induction false} DecoyItemIssued(item: Value, ctx: Context, issued: Value, end: Context, run: Run, at: nat)
    requires IsDecoy(item) && IssueItem(item, ctx, run.env, at) == Ok((issued, end)) && Within(end, run)
    ensures var n := Start(ctx, run);
            n < |run.all| && issued == Tag(REDACTED_ELEMENT_TAG, ByteString(DigestAt(n, run))) && run.all[n].kind.Decoy?
  {
    var ctx1 := EnterIssue(ctx, at + 1, run.env.limits).value;
    var ctx2 := EnterIssue(ctx1, at + 2, run.env.limits).value;
    DiscloseFacts(AddDecoy, RecordDecoyId(item.inner, ctx2).value, run.env);
    WithinAt(end, run, |ctx.disclosures|);
  }

  lemma {:induction false} DecoyItemReturns(item: Value, ctx: Context, issued: Value, end: Context, at: nat,
                                            out: seq<Value>, st: RState, r: set<nat>, run: Run, depth: nat)
    requires IsDecoy(item)
    requires Fair(run) && IssueItem(item, ctx, run.env, at) == Ok((issued, end)) && Within(end, run)
    requires Ready(st, r, Start(ctx, run), CountItem(item), run)
    ensures var n := Start(ctx, run);
            ItemsCome(RestoreItem(issued, out, st, run.cfg, depth), out + ShownItem(item, n, run), st, r, MetItem(item, n, run.sel),
                      LoadOfItem(item, n, run.sel, depth, run.cfg.limits), run)
  {
    hide RestoreItem, RestoreElement, IssueItem, PendingOf, HiddenElement, DigestAt;
    var n := Start(ctx, run);
    DecoyItemIssued(item, ctx, issued, end, run, at);
    MarkerRestores(DigestAt(n, run), out, st, run, depth);
    if Pays(st, LoadOfMarker(depth, run.cfg.limits), run) {
      ReadyVisited(st, r, n, 1, run);
      DecoyTaken(n, st.(visited := st.visited + 2), r, run);
      DecoyElement(item, n, out, st.(visited := st.visited + 2), r, run, depth);
    }
  }

  lemma DecoyElement(item: Value, n: nat, out: seq<Value>, st: RState, r: set<nat>, run: Run, depth: nat)
    requires n < |run.all| && run.all[n].kind.Decoy? && DecoyComes(n, st, r, run) && run.cfg.mode == Verifier
    ensures RestoreElement(DigestAt(n, run), out, st, run.cfg, depth) == Ok((out + HiddenElement(n, run), Later(st, r, MetDecoy(n, run.sel), NO_LOAD, run)))
  {
    hide PendingOf;
    assert out + [] == out;
  }

  // ---- the keys of a map ------------------------------------------------------------------------

  ghost function PlainLabels(entries: seq<Entry>): set<Label> {
    if entries == [] then {} else PlainLabel(entries[0]) + PlainLabels(entries[1..])
  }

  ghost function PlainLabel(e: Entry): set<Label> {
    if PlainEntry(e) && LabelOf(e.key).Some? then {LabelOf(e.key).value} else {}
  }

  /** None of the labels still to be written by plain entries has been written. */
  ghost predicate FreshPlain(entries: seq<Entry>, labels: set<Label>) {
    forall i :: 0 <= i < |entries| ==> PlainLabel(entries[i]) !! labels
  }

  ghost function RedactedLabel(e: Entry): set<Label> {
    if Redacts(e.key) && LabelOf(e.key.inner).Some? then {LabelOf(e.key.inner).value} else {}
  }

  /** None of the labels still to be written by redacted entries has been written. */
  ghost predicate FreshRedacted(entries: seq<Entry>, labels: set<Label>) {
    forall i :: 0 <= i < |entries| ==> RedactedLabel(entries[i]) !! labels
  }

  /** Entries with different keys write different labels. */
  lemma {:induction false} LabelsApart(a: Entry, b: Entry)
    requires NormalKey(a) != NormalKey(b)
    ensures PlainLabel(a) + RedactedLabel(a) !! PlainLabel(b) + RedactedLabel(b)
  {
    LabelRoundTrip(a.key);
    LabelRoundTrip(b.key);
    if Redacts(a.key) { LabelRoundTrip(a.key.inner); }
    if Redacts(b.key) { LabelRoundTrip(b.key.inner); }
  }

  lemma {:induction false} FreshTail(entries: seq<Entry>, labels: set<Label>, written: set<Label>)
    requires entries != [] && DistinctNormalKeys(entries)
    requires written <= PlainLabel(entries[0]) + RedactedLabel(entries[0])
    ensures FreshPlain(entries, labels) ==> FreshPlain(entries[1..], labels + written)
    ensures FreshRedacted(entries, labels) ==> FreshRedacted(entries[1..], labels + written)
  {
    forall i | 0 <= i < |entries[1..]|
      ensures FreshPlain(entries, labels) ==> PlainLabel(entries[1..][i]) !! labels + written
      ensures FreshRedacted(entries, labels) ==> RedactedLabel(entries[1..][i]) !! labels + written
    {
      assert entries[1..][i] == entries[i + 1];
      LabelsApart(entries[0], entries[i + 1]);
    }
  }

  lemma {:induction false} ApartFromPlain(e: Entry, entries: seq<Entry>)
    requires forall j :: 0 <= j < |entries| ==> entries[j] == e || NormalKey(entries[j]) != NormalKey(e)
    ensures RedactedLabel(e) !! PlainLabels(entries)
  {
    if entries != [] {
      if entries[0] != e {
        LabelsApart(e, entries[0]);
      }
      ApartFromPlain(e, entries[1..]);
    }
  }

  /** A redacted claim never shares its label with a plain one of the same map. */
  lemma {:induction false} RedactedStaysFresh(entries: seq<Entry>)
    requires DistinctNormalKeys(entries)
    ensures FreshRedacted(entries, PlainLabels(entries))
  {
    forall i | 0 <= i < |entries| ensures RedactedLabel(entries[i]) !! PlainLabels(entries) {
      ApartFromPlain(entries[i], entries);
    }
  }

  // ---- issuing a map, one entry at a time -------------------------------------------------------

  function Blank(keys: set<Bytes>, ctx: Context): IssueAcc {
    IssueAcc([], keys, [], ctx)
  }

  function Prefixed(out: seq<Entry>, hashes: seq<Value>, acc: IssueAcc): IssueAcc {
    acc.(out := out + acc.out, hashes := hashes + acc.hashes)
  }

  ghost predicate ShiftsTo(r: Result<IssueAcc>, s: Result<IssueAcc>, acc: IssueAcc) {
    r.Ok? == s.Ok? && (r.Ok? ==> r.value == Prefixed(acc.out, acc.hashes, s.value))
  }

  lemma {:induction false} IssueRedactedShift(e: Entry, acc: IssueAcc, env: Issuer, at: nat)
    requires e.key.Tag?
    ensures ShiftsTo(IssueRedacted(e, acc, env, at), IssueRedacted(e, Blank(acc.keys, acc.ctx), env, at), acc)
  {
    assert acc.out + [] == acc.out;
    assert forall h: Value :: acc.hashes + ([] + [h]) == acc.hashes + [h];
  }

  lemma {:induction false} IssueMapDecoyShift(e: Entry, acc: IssueAcc, env: Issuer, at: nat)
    requires e.key.Tag?
    ensures ShiftsTo(IssueMapDecoy(e, acc, env, at), IssueMapDecoy(e, Blank(acc.keys, acc.ctx), env, at), acc)
  {
    assert acc.out + [] == acc.out;
    assert forall h: Value :: acc.hashes + ([] + [h]) == acc.hashes + [h];
  }

  lemma {:induction false} IssueEntryShift(e: Entry, acc: IssueAcc, env: Issuer, at: nat)
    ensures ShiftsTo(IssueEntry(e, acc, env, at), IssueEntry(e, Blank(acc.keys, acc.ctx), env, at), acc)
  {
    var ctx := EnterIssue(acc.ctx, at + 1, env.limits);
    if ctx.Ok? {
      var acc1 := acc.(ctx := ctx.value);
      if Redacts(e.key) {
        IssueRedactedShift(e, acc1, env, at);
      } else if IsDecoy(e.key) {
        IssueMapDecoyShift(e, acc1, env, at);
      } else {
        assert acc.hashes + [] == acc.hashes;
        assert forall x: Entry :: acc.out + ([] + [x]) == acc.out + [x];
      }
    }
  }

  lemma {:induction false} PrefixedTwice(out: seq<Entry>, hashes: seq<Value>, a: IssueAcc, b: IssueAcc)
    ensures Prefixed(out + a.out, hashes + a.hashes, b) == Prefixed(out, hashes, Prefixed(a.out, a.hashes, b))
  {
    assert out + a.out + b.out == out + (a.out + b.out);
    assert hashes + a.hashes + b.hashes == hashes + (a.hashes + b.hashes);
  }

  lemma {:induction false} IssueEntriesShift(entries: seq<Entry>, acc: IssueAcc, env: Issuer, at: nat)
    ensures ShiftsTo(IssueEntries(entries, acc, env, at), IssueEntries(entries, Blank(acc.keys, acc.ctx), env, at), acc)
    decreases entries
  {
    if entries == [] {
      assert acc.out + [] == acc.out && acc.hashes + [] == acc.hashes;
    } else {
      IssueEntryShift(entries[0], acc, env, at);
      var first := IssueEntry(entries[0], Blank(acc.keys, acc.ctx), env, at);
      if first.Ok? {
        var a := first.value;
        IssueEntriesShift(entries[1..], Prefixed(acc.out, acc.hashes, a), env, at);
        IssueEntriesShift(entries[1..], a, env, at);
        var rest := IssueEntries(entries[1..], Blank(a.keys, a.ctx), env, at);
        if rest.Ok? {
          PrefixedTwice(acc.out, acc.hashes, a, rest.value);
        }
      }
    }
  }

  /** The first entry and the others of an issued map. */
  lemma {:induction false} IssueEntriesFirst(entries: seq<Entry>, keys: set<Bytes>, ctx: Context, env: Issuer, at: nat, issued: IssueAcc)
    returns (first: IssueAcc, rest: IssueAcc)
    requires entries != [] && IssueEntries(entries, Blank(keys, ctx), env, at) == Ok(issued)
    ensures IssueEntry(entries[0], Blank(keys, ctx), env, at) == Ok(first)
    ensures IssueEntries(entries[1..], Blank(first.keys, first.ctx), env, at) == Ok(rest)
    ensures issued == Prefixed(first.out, first.hashes, rest)
    ensures first.ctx.disclosures <= rest.ctx.disclosures && |first.ctx.disclosures| == |ctx.disclosures| + CountEntry(entries[0])
    ensures DistinctNormalKeys(entries)
  {
    first := IssueEntry(entries[0], Blank(keys, ctx), env, at).value;
    IssueEntriesShift(entries[1..], first, env, at);
    rest := IssueEntries(entries[1..], Blank(first.keys, first.ctx), env, at).value;
    IssueEntryGrows(entries[0], Blank(keys, ctx), env, at);
    IssueEntriesGrows(entries[1..], Blank(first.keys, first.ctx), env, at);
    IssueEntriesKeys(entries, Blank(keys, ctx), env, at);
  }

  // ---- the plain entries of a map ---------------------------------------------------------------

  lemma {:induction false} RestoreEntriesConcat(a: seq<Entry>, b: seq<Entry>, acc: MapAcc, cfg: Config, depth: nat)
    ensures RestoreEntries(a + b, acc, cfg, depth) ==
            var first := RestoreEntries(a, acc, cfg, depth);
            if first.Err? then first else RestoreEntries(b, first.value, cfg, depth)
    decreases a
  {
    if a == [] {
      assert a + b == b;
    } else {
      assert (a + b)[0] == a[0] && (a + b)[1..] == a[1..] + b;
      var acc1 := RestoreEntry(a[0], acc, cfg, depth);
      if acc1.Ok? {
        RestoreEntriesConcat(a[1..], b, acc1.value, cfg, depth);
      }
    }
  }

  /** Where the first loop stands before `entries`: they were issued to `issued`, none of their
      disclosures is taken yet, and their labels are free. */
  ghost predicate PlainReady(entries: seq<Entry>, keys: set<Bytes>, ctx: Context, issued: IssueAcc, at: nat, acc: MapAcc, r: set<nat>, run: Run) {
    && IssueEntries(entries, Blank(keys, ctx), run.env, at) == Ok(issued) && Within(issued.ctx, run)
    && Ready(acc.st, r, Start(ctx, run), CountEntries(entries), run)
    && FreshPlain(entries, acc.labels)
  }

  lemma {:induction false} PlainFirstReady(entries: seq<Entry>, keys: set<Bytes>, ctx: Context, issued: IssueAcc, at: nat,
                                           acc: MapAcc, r: set<nat>, run: Run)
    returns (first: IssueAcc, rest: IssueAcc)
    requires entries != [] && PlainReady(entries, keys, ctx, issued, at, acc, r, run)
    ensures IssueEntry(entries[0], Blank(keys, ctx), run.env, at) == Ok(first) && Within(first.ctx, run)
    ensures IssueEntries(entries[1..], Blank(first.keys, first.ctx), run.env, at) == Ok(rest) && Within(rest.ctx, run)
    ensures issued.out == first.out + rest.out && Start(first.ctx, run) == Start(ctx, run) + CountEntry(entries[0])
    ensures Ready(acc.st, r, Start(ctx, run), CountEntry(entries[0]), run) && PlainLabel(entries[0]) !! acc.labels
    ensures DistinctNormalKeys(entries)
  {
    first, rest := IssueEntriesFirst(entries, keys, ctx, run.env, at, issued);
    WithinPrefix(first.ctx, rest.ctx, run);
    ReadyPart(acc.st, r, Start(ctx, run), CountEntries(entries), Start(ctx, run), CountEntry(entries[0]), run);
  }

  lemma {:induction false} PlainRestReady(entries: seq<Entry>, keys: set<Bytes>, ctx: Context, issued: IssueAcc, at: nat,
                                          acc: MapAcc, r: set<nat>, run: Run, first: IssueAcc, rest: IssueAcc, acc1: MapAcc, depth: nat)
    requires entries != [] && PlainReady(entries, keys, ctx, issued, at, acc, r, run) && DistinctNormalKeys(entries)
    requires IssueEntries(entries[1..], Blank(first.keys, first.ctx), run.env, at) == Ok(rest) && Within(rest.ctx, run)
    requires Start(first.ctx, run) == Start(ctx, run) + CountEntry(entries[0])
    requires var n := Start(ctx, run);
             EntriesCome(Ok(acc1), acc, ShownPlainPart(entries[0], n, run), PlainLabel(entries[0]), r, MetPlainEntry(entries[0], n, run.sel),
                         LoadOfPlainEntry(entries[0], n, run.sel, depth, run.cfg.limits), run)
    ensures PlainReady(entries[1..], first.keys, first.ctx, rest, at, acc1, r - MetPlainEntry(entries[0], Start(ctx, run), run.sel).used, run)
  {
    var n, k := Start(ctx, run), CountEntry(entries[0]);
    var met, load := MetPlainEntry(entries[0], n, run.sel), LoadOfPlainEntry(entries[0], n, run.sel, depth, run.cfg.limits);
    MetPlainEntryInRange(entries[0], n, run.sel);
    ReadyRest(acc.st, r, n, CountEntries(entries), n + k, CountEntries(entries[1..]), met, load, run);
    FreshTail(entries, acc.labels, PlainLabel(entries[0]));
  }

  /** The first loop of a map, over what the plain entries were issued to. */
  lemma {:induction false} PlainReturns(entries: seq<Entry>, keys: set<Bytes>, ctx: Context, issued: IssueAcc, at: nat,
                                        acc: MapAcc, r: set<nat>, run: Run, depth: nat)
    requires Fair(run) && PlainReady(entries, keys, ctx, issued, at, acc, r, run)
    ensures var n := Start(ctx, run);
            EntriesCome(RestoreEntries(issued.out, acc, run.cfg, depth), acc, ShownPlain(entries, n, run), PlainLabels(entries), r,
                        MetPlain(entries, n, run.sel), LoadOfPlain(entries, n, run.sel, depth, run.cfg.limits), run)
    decreases entries, 1
  {
    hide *;
    var n := Start(ctx, run);
    if entries == [] {
      NoPlain(keys, ctx, issued, at, acc, r, run, depth);
    } else {
      var first, rest := PlainFirstReady(entries, keys, ctx, issued, at, acc, r, run);
      FirstPlainReturns(entries[0], keys, ctx, first, at, acc, r, run, depth);
      RestoreEntriesConcat(first.out, rest.out, acc, run.cfg, depth);
      var step := RestoreEntries(first.out, acc, run.cfg, depth);
      var last := if step.Ok? then RestoreEntries(rest.out, step.value, run.cfg, depth) else step;
      if step.Ok? {
        PlainRestReady(entries, keys, ctx, issued, at, acc, r, run, first, rest, step.value, depth);
        PlainReturns(entries[1..], first.keys, first.ctx, rest, at, step.value, r - MetPlainEntry(entries[0], n, run.sel).used, run, depth);
      }
      PlainThen(entries, step, last, acc, n, r, run, depth);
    }
  }

  lemma NoPlain(keys: set<Bytes>, ctx: Context, issued: IssueAcc, at: nat, acc: MapAcc, r: set<nat>, run: Run, depth: nat)
    requires PlainReady([], keys, ctx, issued, at, acc, r, run)
    ensures var n := Start(ctx, run);
            EntriesCome(RestoreEntries(issued.out, acc, run.cfg, depth), acc, ShownPlain([], n, run), PlainLabels([]), r,
                        MetPlain([], n, run.sel), LoadOfPlain([], n, run.sel, depth, run.cfg.limits), run)
  {
    LaterNothing(acc.st, r, run);
    assert acc.out + [] == acc.out && acc.labels + {} == acc.labels;
  }

  /** Joins the first entry's outcome with the outcome of the others. */
  lemma {:induction false} PlainThen(entries: seq<Entry>, step: Result<MapAcc>, last: Result<MapAcc>, acc: MapAcc, n: nat, r: set<nat>, run: Run, depth: nat)
    requires entries != []
    requires EntriesCome(step, acc, ShownPlainPart(entries[0], n, run), PlainLabel(entries[0]), r, MetPlainEntry(entries[0], n, run.sel),
                         LoadOfPlainEntry(entries[0], n, run.sel, depth, run.cfg.limits), run)
    requires if step.Err? then last == step else
             var m := n + CountEntry(entries[0]);
             EntriesCome(last, step.value, ShownPlain(entries[1..], m, run), PlainLabels(entries[1..]),
                         r - MetPlainEntry(entries[0], n, run.sel).used, MetPlain(entries[1..], m, run.sel),
                         LoadOfPlain(entries[1..], m, run.sel, depth, run.cfg.limits), run)
    ensures EntriesCome(last, acc, ShownPlain(entries, n, run), PlainLabels(entries), r, MetPlain(entries, n, run.sel),
                        LoadOfPlain(entries, n, run.sel, depth, run.cfg.limits), run)
  {
    hide ShownPlainPart, PlainLabel, MetPlainEntry, LoadOfPlainEntry, PendingOf, CountEntry;
    var m := n + CountEntry(entries[0]);
    LaterBoth(acc.st, r, MetPlainEntry(entries[0], n, run.sel), MetPlain(entries[1..], m, run.sel),
              LoadOfPlainEntry(entries[0], n, run.sel, depth, run.cfg.limits), LoadOfPlain(entries[1..], m, run.sel, depth, run.cfg.limits), run);
    assert acc.labels + PlainLabel(entries[0]) + PlainLabels(entries[1..]) == acc.labels + PlainLabels(entries);
    assert acc.out + ShownPlainPart(entries[0], n, run) + ShownPlain(entries[1..], m, run) == acc.out + ShownPlain(entries, n, run);
  }

  lemma {:induction false} FirstPlainReturns(e: Entry, keys: set<Bytes>, ctx: Context, first: IssueAcc, at: nat,
                                             acc: MapAcc, r: set<nat>, run: Run, depth: nat)
    requires Fair(run) && IssueEntry(e, Blank(keys, ctx), run.env, at) == Ok(first) && Within(first.ctx, run)
    requires Ready(acc.st, r, Start(ctx, run), CountEntry(e), run) && PlainLabel(e) !! acc.labels
    ensures var n := Start(ctx, run);
            EntriesCome(RestoreEntries(first.out, acc, run.cfg, depth), acc, ShownPlainPart(e, n, run), PlainLabel(e), r,
                        MetPlainEntry(e, n, run.sel), LoadOfPlainEntry(e, n, run.sel, depth, run.cfg.limits), run)
    decreases e, 1
  {
    if PlainEntry(e) {
      var issued := PlainEntryIssued(e, keys, ctx, first, run, at);
      var ctx1 := EnterIssue(ctx, at + 1, run.env.limits).value;
      assert CountEntry(e) == Count(e.val) && Start(ctx1, run) == Start(ctx, run);
      hide *;
      PlainEntryReturns(e, ctx1, issued, first.ctx, at + 1, acc, r, run, depth);
      OneEntry(Entry(e.key, issued), acc, run.cfg, depth);
    } else {
      NotPlain(e, keys, ctx, first, at, acc, r, run, depth);
    }
  }

  lemma NotPlain(e: Entry, keys: set<Bytes>, ctx: Context, first: IssueAcc, at: nat, acc: MapAcc, r: set<nat>, run: Run, depth: nat)
    requires !PlainEntry(e) && IssueEntry(e, Blank(keys, ctx), run.env, at) == Ok(first)
    requires acc.st.pending == PendingOf(r, run) && acc.st.visited <= run.cfg.limits.maxItems
    ensures var n := Start(ctx, run);
            EntriesCome(RestoreEntries(first.out, acc, run.cfg, depth), acc, ShownPlainPart(e, n, run), PlainLabel(e), r,
                        MetPlainEntry(e, n, run.sel), LoadOfPlainEntry(e, n, run.sel, depth, run.cfg.limits), run)
  {
    IssuedCount(e, Blank(keys, ctx), run.env, at);
    hide IssueEntry, PendingOf;
    LaterNothing(acc.st, r, run);
    assert acc.out + [] == acc.out && acc.labels + {} == acc.labels;
  }

  lemma OneEntry(e: Entry, acc: MapAcc, cfg: Config, depth: nat)
    ensures RestoreEntries([e], acc, cfg, depth) == RestoreEntry(e, acc, cfg, depth)
  {
    assert [e][1..] == [];
    var s := RestoreEntry(e, acc, cfg, depth);
    if s.Ok? {
      assert RestoreEntries([], s.value, cfg, depth) == s;
    }
  }

  lemma {:induction false} PlainEntryIssued(e: Entry, keys: set<Bytes>, ctx: Context, first: IssueAcc, run: Run, at: nat) returns (issued: Value)
    requires PlainEntry(e) && IssueEntry(e, Blank(keys, ctx), run.env, at) == Ok(first)
    ensures EnterIssue(ctx, at + 1, run.env.limits).Ok?
    ensures IssueValue(e.val, EnterIssue(ctx, at + 1, run.env.limits).value, run.env, at + 1) == Ok((issued, first.ctx))
    ensures first.out == [Entry(e.key, issued)] && LabelOf(e.key).Some? && e.key != REDACTED_KEYS_LABEL
  {
    var ctx1 := EnterIssue(ctx, at + 1, run.env.limits).value;
    issued := IssueValue(e.val, ctx1, run.env, at + 1).value.0;
    assert [] + [Entry(e.key, issued)] == [Entry(e.key, issued)];
  }

  lemma {:induction false} PlainEntryReturns(e: Entry, ctx: Context, issued: Value, end: Context, at: nat,
                                             acc: MapAcc, r: set<nat>, run: Run, depth: nat)
    requires Fair(run) && PlainEntry(e) && LabelOf(e.key).Some? && e.key != REDACTED_KEYS_LABEL
    requires IssueValue(e.val, ctx, run.env, at) == Ok((issued, end)) && Within(end, run)
    requires Ready(acc.st, r, Start(ctx, run), Count(e.val), run) && PlainLabel(e) !! acc.labels
    ensures var n := Start(ctx, run);
            EntriesCome(RestoreEntry(Entry(e.key, issued), acc, run.cfg, depth), acc, ShownPlainPart(e, n, run), PlainLabel(e), r,
                        MetPlainEntry(e, n, run.sel), LoadOfPlainEntry(e, n, run.sel, depth, run.cfg.limits), run)
    decreases e, 0
  {
    hide RestoreValue, RestoreEntry, IssueValue, Shown, MetIn, LoadOf, Later, PendingOf, EntriesCome, Untouched;
    var n := Start(ctx, run);
    assert LabelOf(e.key).value in PlainLabel(e);
    var st1 := acc.st.(visited := acc.st.visited + 1);
    Entered(acc.st, r, MetIn(e.val, n, run.sel), LoadOf(e.val, n, run.sel, depth + 1, run.cfg.limits), depth + 1, run);
    if EnterAt(acc.st, depth + 1, run.cfg.limits).Ok? {
      ValueReturns(e.val, ctx, issued, end, at, st1, r, run, depth + 1);
    }
    PlainEntryThen(e, issued, acc, n, r, run, depth);
  }

  lemma PlainEntryThen(e: Entry, issued: Value, acc: MapAcc, n: nat, r: set<nat>, run: Run, depth: nat)
    requires PlainEntry(e) && LabelOf(e.key).Some? && e.key != REDACTED_KEYS_LABEL
    requires LabelOf(e.key).value !in acc.labels
    requires var st1 := acc.st.(visited := acc.st.visited + 1);
             var load := LoadOf(e.val, n, run.sel, depth + 1, run.cfg.limits);
             && EnterAt(acc.st, depth + 1, run.cfg.limits) == (if Pays(acc.st, Visit(1, depth + 1, run.cfg.limits), run) then Ok(st1) else Err(Limit))
             && (Pays(acc.st, Plus(Visit(1, depth + 1, run.cfg.limits), load), run)
                 <==> Pays(acc.st, Visit(1, depth + 1, run.cfg.limits), run) && Pays(st1, load, run))
             && Later(st1, r, MetIn(e.val, n, run.sel), load, run) == Later(acc.st, r, MetIn(e.val, n, run.sel), Plus(Visit(1, depth + 1, run.cfg.limits), load), run)
             && (EnterAt(acc.st, depth + 1, run.cfg.limits).Ok? ==>
                   ValueComes(RestoreValue(issued, st1, run.cfg, depth + 1), Shown(e.val, n, run), st1, r, MetIn(e.val, n, run.sel), load, run))
    ensures EntriesCome(RestoreEntry(Entry(e.key, issued), acc, run.cfg, depth), acc, ShownPlainPart(e, n, run), PlainLabel(e), r,
                        MetPlainEntry(e, n, run.sel), LoadOfPlainEntry(e, n, run.sel, depth, run.cfg.limits), run)
  {
    hide RestoreValue, Shown, MetIn, LoadOf, Later, EnterAt, Pays, Visit, Plus;
  }

  // ---- the redacted entries of a map ------------------------------------------------------------

  function BytesOf(hashes: seq<Value>): seq<Bytes> {
    if hashes == [] then [] else (if hashes[0].ByteString? then [hashes[0].bytes] else []) + BytesOf(hashes[1..])
  }

  lemma {:induction false} BytesOfConcat(a: seq<Value>, b: seq<Value>)
    ensures BytesOf(a + b) == BytesOf(a) + BytesOf(b)
  {
    if a == [] {
      assert a + b == b;
    } else {
      assert (a + b)[1..] == a[1..] + b;
      BytesOfConcat(a[1..], b);
    }
  }

  lemma {:induction false} RestoreHashesConcat(a: seq<Bytes>, b: seq<Bytes>, acc: MapAcc, cfg: Config, depth: nat)
    ensures RestoreHashes(a + b, acc, cfg, depth) ==
            var first := RestoreHashes(a, acc, cfg, depth);
            if first.Err? then first else RestoreHashes(b, first.value, cfg, depth)
    decreases a
  {
    if a == [] {
      assert a + b == b;
    } else {
      assert (a + b)[0] == a[0] && (a + b)[1..] == a[1..] + b;
      var acc1 := RestoreHash(a[0], acc, cfg, depth);
      if acc1.Ok? {
        RestoreHashesConcat(a[1..], b, acc1.value, cfg, depth);
      }
    }
  }

  /** The labels the presented redacted entries write. */
  ghost function WrittenLabel(e: Entry, n: nat, sel: set<nat>): set<Label> {
    if Redacts(e.key) && n + Count(e.val) in sel then RedactedLabel(e) else {}
  }

  ghost function WrittenLabels(entries: seq<Entry>, n: nat, sel: set<nat>): set<Label> {
    if entries == [] then {} else WrittenLabel(entries[0], n, sel) + WrittenLabels(entries[1..], n + CountEntry(entries[0]), sel)
  }

  /** Where the second loop stands before `entries`. */
  ghost predicate RedactedReady(entries: seq<Entry>, keys: set<Bytes>, ctx: Context, issued: IssueAcc, at: nat, acc: MapAcc, r: set<nat>, run: Run) {
    && IssueEntries(entries, Blank(keys, ctx), run.env, at) == Ok(issued) && Within(issued.ctx, run)
    && acc.st.pending == PendingOf(r, run) && UntouchedRedacted(r, entries, Start(ctx, run), run) && acc.st.visited <= run.cfg.limits.maxItems
    && FreshRedacted(entries, acc.labels)
  }

  lemma {:induction false} RedactedFirstReady(entries: seq<Entry>, keys: set<Bytes>, ctx: Context, issued: IssueAcc, at: nat,
                                              acc: MapAcc, r: set<nat>, run: Run)
    returns (first: IssueAcc, rest: IssueAcc)
    requires entries != [] && RedactedReady(entries, keys, ctx, issued, at, acc, r, run)
    ensures IssueEntry(entries[0], Blank(keys, ctx), run.env, at) == Ok(first) && Within(first.ctx, run)
    ensures IssueEntries(entries[1..], Blank(first.keys, first.ctx), run.env, at) == Ok(rest) && Within(rest.ctx, run)
    ensures BytesOf(issued.hashes) == BytesOf(first.hashes) + BytesOf(rest.hashes)
    ensures Start(first.ctx, run) == Start(ctx, run) + CountEntry(entries[0])
    ensures !PlainEntry(entries[0]) ==> Ready(acc.st, r, Start(ctx, run), CountEntry(entries[0]), run)
    ensures acc.st.pending == PendingOf(r, run) && acc.st.visited <= run.cfg.limits.maxItems
    ensures RedactedLabel(entries[0]) !! acc.labels && DistinctNormalKeys(entries)
  {
    first, rest := IssueEntriesFirst(entries, keys, ctx, run.env, at, issued);
    WithinPrefix(first.ctx, rest.ctx, run);
    UntouchedFirst(r, entries, Start(ctx, run), run);
    BytesOfConcat(first.hashes, rest.hashes);
  }

  lemma {:induction false} RedactedRestReady(entries: seq<Entry>, keys: set<Bytes>, ctx: Context, issued: IssueAcc, at: nat,
                                             acc: MapAcc, r: set<nat>, run: Run, first: IssueAcc, rest: IssueAcc, acc1: MapAcc, depth: nat)
    requires entries != [] && RedactedReady(entries, keys, ctx, issued, at, acc, r, run) && DistinctNormalKeys(entries)
    requires IssueEntries(entries[1..], Blank(first.keys, first.ctx), run.env, at) == Ok(rest) && Within(rest.ctx, run)
    requires Start(first.ctx, run) == Start(ctx, run) + CountEntry(entries[0])
    requires FirstHashComes(Ok(acc1), entries[0], acc, Start(ctx, run), r, run, depth)
    ensures RedactedReady(entries[1..], first.keys, first.ctx, rest, at, acc1, r - MetRedactedEntry(entries[0], Start(ctx, run), run.sel).used, run)
  {
    var met := MetRedactedEntry(entries[0], Start(ctx, run), run.sel);
    MetRedactedEntryInRange(entries[0], Start(ctx, run), run.sel);
    UntouchedTail(r, entries, Start(ctx, run), run, met.used);
    FreshAfterFirst(entries, acc.labels, acc1.labels);
  }

  /** The outcome for the hash of one entry, if it has one. */
  ghost predicate FirstHashComes(res: Result<MapAcc>, e: Entry, acc: MapAcc, n: nat, r: set<nat>, run: Run, depth: nat) {
    HashesCome(res, acc, ShownRedactedPart(e, n, run), WrittenLabel(e, n, run.sel), HiddenPart(e, n, run), r,
               MetRedactedEntry(e, n, run.sel), LoadOfRedactedEntry(e, n, run.sel, depth, run.cfg.limits), run)
  }

  ghost predicate AllHashesCome(res: Result<MapAcc>, entries: seq<Entry>, acc: MapAcc, n: nat, r: set<nat>, run: Run, depth: nat) {
    HashesCome(res, acc, ShownRedacted(entries, n, run), WrittenLabels(entries, n, run.sel), HiddenHashes(entries, n, run), r,
               MetRedacted(entries, n, run.sel), LoadOfRedacted(entries, n, run.sel, depth, run.cfg.limits), run)
  }

  lemma NoHashes(keys: set<Bytes>, ctx: Context, issued: IssueAcc, at: nat, acc: MapAcc, r: set<nat>, run: Run, depth: nat)
    requires RedactedReady([], keys, ctx, issued, at, acc, r, run)
    ensures AllHashesCome(RestoreHashes(BytesOf(issued.hashes), acc, run.cfg, depth), [], acc, Start(ctx, run), r, run, depth)
  {
    LaterNothing(acc.st, r, run);
    assert acc.out + [] == acc.out && acc.labels + {} == acc.labels && acc.kept + [] == acc.kept;
  }

  /** The second loop of a map, over the hashes its redacted entries were issued to. */
  lemma {:induction false} RedactedReturn(entries: seq<Entry>, keys: set<Bytes>, ctx: Context, issued: IssueAcc, at: nat,
                                          acc: MapAcc, r: set<nat>, run: Run, depth: nat)
    requires Fair(run) && RedactedReady(entries, keys, ctx, issued, at, acc, r, run) && (depth == 0 ==> at == 0)
    ensures AllHashesCome(RestoreHashes(BytesOf(issued.hashes), acc, run.cfg, depth), entries, acc, Start(ctx, run), r, run, depth)
    decreases entries, 1
  {
    hide *;
    var n := Start(ctx, run);
    if entries == [] {
      NoHashes(keys, ctx, issued, at, acc, r, run, depth);
    } else {
      var first, rest := RedactedFirstReady(entries, keys, ctx, issued, at, acc, r, run);
      FirstRedactedReturns(entries[0], keys, ctx, first, at, acc, r, run, depth);
      RestoreHashesConcat(BytesOf(first.hashes), BytesOf(rest.hashes), acc, run.cfg, depth);
      var step := RestoreHashes(BytesOf(first.hashes), acc, run.cfg, depth);
      var last := if step.Ok? then RestoreHashes(BytesOf(rest.hashes), step.value, run.cfg, depth) else step;
      if step.Ok? {
        RedactedRestReady(entries, keys, ctx, issued, at, acc, r, run, first, rest, step.value, depth);
        RedactedReturn(entries[1..], first.keys, first.ctx, rest, at, step.value, r - MetRedactedEntry(entries[0], n, run.sel).used, run, depth);
      }
      RedactedThen(entries, step, last, acc, n, r, run, depth);
    }
  }

  lemma {:induction false} FreshAfterFirst(entries: seq<Entry>, labels: set<Label>, labels1: set<Label>)
    requires entries != [] && DistinctNormalKeys(entries) && FreshRedacted(entries, labels)
    requires labels <= labels1 <= labels + RedactedLabel(entries[0])
    ensures FreshRedacted(entries[1..], labels1)
  {
    FreshTail(entries, labels, labels1 - labels);
    assert labels + (labels1 - labels) == labels1;
  }

  lemma {:induction false} RedactedThen(entries: seq<Entry>, step: Result<MapAcc>, last: Result<MapAcc>, acc: MapAcc, n: nat, r: set<nat>, run: Run, depth: nat)
    requires entries != [] && FirstHashComes(step, entries[0], acc, n, r, run, depth)
    requires if step.Err? then last == step else
             AllHashesCome(last, entries[1..], step.value, n + CountEntry(entries[0]), r - MetRedactedEntry(entries[0], n, run.sel).used, run, depth)
    ensures AllHashesCome(last, entries, acc, n, r, run, depth)
  {
    hide ShownRedactedPart, WrittenLabel, HiddenPart, MetRedactedEntry, LoadOfRedactedEntry, PendingOf, CountEntry;
    var m := n + CountEntry(entries[0]);
    LaterBoth(acc.st, r, MetRedactedEntry(entries[0], n, run.sel), MetRedacted(entries[1..], m, run.sel),
              LoadOfRedactedEntry(entries[0], n, run.sel, depth, run.cfg.limits), LoadOfRedacted(entries[1..], m, run.sel, depth, run.cfg.limits), run);
    assert acc.labels + WrittenLabel(entries[0], n, run.sel) + WrittenLabels(entries[1..], m, run.sel) == acc.labels + WrittenLabels(entries, n, run.sel);
    assert acc.out + ShownRedactedPart(entries[0], n, run) + ShownRedacted(entries[1..], m, run) == acc.out + ShownRedacted(entries, n, run);
    assert acc.kept + HiddenPart(entries[0], n, run) + HiddenHashes(entries[1..], m, run) == acc.kept + HiddenHashes(entries, n, run);
  }

  lemma {:induction false} FirstRedactedReturns(e: Entry, keys: set<Bytes>, ctx: Context, first: IssueAcc, at: nat,
                                                acc: MapAcc, r: set<nat>, run: Run, depth: nat)
    requires Fair(run) && IssueEntry(e, Blank(keys, ctx), run.env, at) == Ok(first) && Within(first.ctx, run) && (depth == 0 ==> at == 0)
    requires acc.st.pending == PendingOf(r, run) && acc.st.visited <= run.cfg.limits.maxItems
    requires !PlainEntry(e) ==> Ready(acc.st, r, Start(ctx, run), CountEntry(e), run)
    requires RedactedLabel(e) !! acc.labels
    ensures FirstHashComes(RestoreHashes(BytesOf(first.hashes), acc, run.cfg, depth), e, acc, Start(ctx, run), r, run, depth)
    decreases e, 2
  {
    if PlainEntry(e) {
      assert first.hashes == [];
      LaterNothing(acc.st, r, run);
      assert acc.out + [] == acc.out && acc.labels + {} == acc.labels && acc.kept + [] == acc.kept;
    } else if Redacts(e.key) {
      ClaimReturns(e, keys, ctx, first, at, acc, r, run, depth);
    } else {
      DecoyReturns(e, keys, ctx, first, at, acc, r, run, depth);
    }
  }

  /** What issuing a redacted claim did. */
  lemma {:induction false} ClaimIssued(e: Entry, keys: set<Bytes>, ctx: Context, first: IssueAcc, run: Run, at: nat)
    returns (ctx1: Context, key: Label, content: Value, ctx2: Context)
    requires Redacts(e.key) && IssueEntry(e, Blank(keys, ctx), run.env, at) == Ok(first) && Within(first.ctx, run)
    ensures IssueValue(e.val, ctx1, run.env, at + 1) == Ok((content, ctx2)) && Within(ctx2, run)
    ensures Start(ctx1, run) == Start(ctx, run) && (at == 0 ==> RootKeyAllowed(key))
    ensures LabelOf(e.key.inner) == Some(key) && ValueOfLabel(key) == e.key.inner
    ensures var own := Start(ctx, run) + Count(e.val);
            && own < |run.all|
            && first.hashes == [ByteString(DigestAt(own, run))]
            && run.all[own].kind == Claim(run.all[own].kind.salt, key, content)
  {
    hide IssueValue, RootKeyAllowed, IssueMapDecoy;
    ctx1 := EnterIssue(EnterIssue(ctx, at + 1, run.env.limits).value, at + 2, run.env.limits).value;
    key := LabelOf(e.key.inner).value;
    content, ctx2 := IssueValue(e.val, ctx1, run.env, at + 1).value.0, IssueValue(e.val, ctx1, run.env, at + 1).value.1;
    IssueValueGrows(e.val, ctx1, run.env, at + 1);
    DiscloseFacts(RedactClaim(key, content), ctx2, run.env);
    LabelRoundTrip(e.key.inner);
    WithinPrefix(ctx2, first.ctx, run);
    WithinAt(first.ctx, run, |ctx2.disclosures|);
  }

  lemma {:induction false} OneHash(digest: Bytes, acc: MapAcc, cfg: Config, depth: nat)
    ensures RestoreHashes(BytesOf([ByteString(digest)]), acc, cfg, depth) == RestoreHash(digest, acc, cfg, depth)
  {
    assert [ByteString(digest)][1..] == [] && [digest] + [] == [digest] && [digest][1..] == [];
    assert BytesOf([ByteString(digest)]) == [digest];
    var r := RestoreHash(digest, acc, cfg, depth);
    if r.Ok? {
      assert RestoreHashes([], r.value, cfg, depth) == Ok(r.value);
    }
  }

  lemma {:induction false} ClaimReturns(e: Entry, keys: set<Bytes>, ctx: Context, first: IssueAcc, at: nat,
                                        acc: MapAcc, r: set<nat>, run: Run, depth: nat)
    requires Redacts(e.key)
    requires Fair(run) && IssueEntry(e, Blank(keys, ctx), run.env, at) == Ok(first) && Within(first.ctx, run) && (depth == 0 ==> at == 0)
    requires Ready(acc.st, r, Start(ctx, run), CountEntry(e), run) && RedactedLabel(e) !! acc.labels
    ensures FirstHashComes(RestoreHashes(BytesOf(first.hashes), acc, run.cfg, depth), e, acc, Start(ctx, run), r, run, depth)
    decreases e, 1
  {
    hide *;
    ClaimCount(e);
    var n := Start(ctx, run);
    var ctx1, key, content, ctx2 := ClaimIssued(e, keys, ctx, first, run, at);
    OneHash(DigestAt(n + Count(e.val), run), acc, run.cfg, depth);
    ClaimRequest(e, ctx1, content, ctx2, at + 1, acc.st, r, run, depth);
    ClaimThen(e, n, key, content, acc, r, run, depth);
  }

  lemma ClaimCount(e: Entry)
    requires Redacts(e.key)
    ensures CountEntry(e) == Count(e.val) + 1
  {
  }

  lemma {:induction false} ClaimRequest(e: Entry, ctx: Context, content: Value, end: Context, at: nat, st: RState, r: set<nat>, run: Run, depth: nat)
    requires Fair(run) && IssueValue(e.val, ctx, run.env, at) == Ok((content, end)) && Within(end, run)
    requires Start(ctx, run) + Count(e.val) < |run.all| && Ready(st, r, Start(ctx, run), Count(e.val) + 1, run)
    ensures RequestComes(e.val, Start(ctx, run), content, st, r, run, depth)
    decreases e, 0
  {
    RequestReturns(e.val, ctx, content, end, at, st, r, run, depth);
  }

  /** A redacted claim comes as its node does. */
  lemma {:induction false} ClaimThen(e: Entry, n: nat, key: Label, content: Value, acc: MapAcc, r: set<nat>, run: Run, depth: nat)
    requires Redacts(e.key) && LabelOf(e.key.inner) == Some(key) && ValueOfLabel(key) == e.key.inner && (depth == 0 ==> RootKeyAllowed(key))
    requires n + Count(e.val) < |run.all| && RedactedLabel(e) !! acc.labels && Fair(run)
    requires run.all[n + Count(e.val)].kind == Claim(run.all[n + Count(e.val)].kind.salt, key, content)
    requires RequestComes(e.val, n, content, acc.st, r, run, depth)
    ensures FirstHashComes(RestoreHash(DigestAt(n + Count(e.val), run), acc, run.cfg, depth), e, acc, n, r, run, depth)
  {
    hide RestoreHash, FirstHashComes, Shown, LoadOf, Later, MetRequest, PresentComes, PendingOf, RestoreValue, LoadOfRequest, DigestAt, Count;
    assert key in RedactedLabel(e) && RedactedLabel(e) == {key};
    if DigestAt(n + Count(e.val), run) in acc.st.pending {
      PresentClaim(e, n, key, content, acc, r, run, depth);
    } else {
      AbsentClaim(e, n, acc, r, run, depth);
    }
  }

  lemma PresentClaim(e: Entry, n: nat, key: Label, content: Value, acc: MapAcc, r: set<nat>, run: Run, depth: nat)
    requires Redacts(e.key) && ValueOfLabel(key) == e.key.inner && (depth == 0 ==> RootKeyAllowed(key))
    requires n + Count(e.val) < |run.all| && key !in acc.labels && RedactedLabel(e) == {key}
    requires run.all[n + Count(e.val)].kind == Claim(run.all[n + Count(e.val)].kind.salt, key, content)
    requires RequestComes(e.val, n, content, acc.st, r, run, depth) && DigestAt(n + Count(e.val), run) in acc.st.pending
    ensures FirstHashComes(RestoreHash(DigestAt(n + Count(e.val), run), acc, run.cfg, depth), e, acc, n, r, run, depth)
  {
    hide RestoreValue, Shown, LoadOf, MetIn, PendingOf, DigestAt, TakePending, Count, Pays, LoadOfRequest, MetRequest, RedactedLabel, RootKeyAllowed, Later;
    assert acc.kept + [] == acc.kept;
  }

  lemma AbsentClaim(e: Entry, n: nat, acc: MapAcc, r: set<nat>, run: Run, depth: nat)
    requires Redacts(e.key) && n + Count(e.val) < |run.all| && run.cfg.mode == Verifier
    requires DigestAt(n + Count(e.val), run) !in acc.st.pending && n + Count(e.val) !in run.sel && acc.st.visited <= run.cfg.limits.maxItems
    requires acc.st.(removed := acc.st.removed + 1)
          == Later(acc.st, r, MetRequest(e.val, n, run.sel), LoadOfRequest(e.val, n, run.sel, depth, run.cfg.limits), run)
    ensures FirstHashComes(RestoreHash(DigestAt(n + Count(e.val), run), acc, run.cfg, depth), e, acc, n, r, run, depth)
  {
    hide RestoreHash, HiddenHash, DigestAt, Shown, LoadOf, Later, MetRequest, Count, RedactedLabel, LabelOf;
    AbsentHash(n + Count(e.val), acc, run, depth);
    assert acc.out + [] == acc.out && acc.labels + {} == acc.labels;
  }

  lemma AbsentHash(own: nat, acc: MapAcc, run: Run, depth: nat)
    requires own < |run.all| && run.cfg.mode == Verifier && own !in run.sel && DigestAt(own, run) !in acc.st.pending
    ensures RestoreHash(DigestAt(own, run), acc, run.cfg, depth)
         == Ok(acc.(kept := acc.kept + HiddenHash(own, run), st := acc.st.(removed := acc.st.removed + 1)))
  {
    hide DigestAt, RestoreValue;
    assert acc.kept + [] == acc.kept;
  }

  /** What issuing a map decoy did. */
  lemma {:induction false} DecoyIssued(e: Entry, keys: set<Bytes>, ctx: Context, first: IssueAcc, run: Run, at: nat)
    requires IsDecoy(e.key) && IssueEntry(e, Blank(keys, ctx), run.env, at) == Ok(first) && Within(first.ctx, run)
    ensures var n := Start(ctx, run);
            n < |run.all| && first.hashes == [ByteString(DigestAt(n, run))] && run.all[n].kind.Decoy?
  {
    var ctx1 := EnterIssue(EnterIssue(ctx, at + 1, run.env.limits).value, at + 2, run.env.limits).value;
    var ctx2 := EnterIssue(RecordDecoyId(e.key.inner, ctx1).value, at + 1, run.env.limits).value;
    DiscloseFacts(AddDecoy, ctx2, run.env);
    WithinAt(first.ctx, run, |ctx.disclosures|);
  }

  lemma {:induction false} DecoyReturns(e: Entry, keys: set<Bytes>, ctx: Context, first: IssueAcc, at: nat,
                                        acc: MapAcc, r: set<nat>, run: Run, depth: nat)
    requires IsDecoy(e.key)
    requires Fair(run) && IssueEntry(e, Blank(keys, ctx), run.env, at) == Ok(first) && Within(first.ctx, run)
    requires Ready(acc.st, r, Start(ctx, run), CountEntry(e), run)
    ensures FirstHashComes(RestoreHashes(BytesOf(first.hashes), acc, run.cfg, depth), e, acc, Start(ctx, run), r, run, depth)
  {
    var n := Start(ctx, run);
    DecoyIssued(e, keys, ctx, first, run, at);
    OneHash(DigestAt(n, run), acc, run.cfg, depth);
    DecoyTaken(n, acc.st, r, run);
    DecoyHash(e, n, acc, r, run, depth);
  }

  lemma DecoyHash(e: Entry, n: nat, acc: MapAcc, r: set<nat>, run: Run, depth: nat)
    requires IsDecoy(e.key) && n < |run.all| && run.all[n].kind.Decoy? && DecoyComes(n, acc.st, r, run) && run.cfg.mode == Verifier
    requires acc.st.visited <= run.cfg.limits.maxItems
    ensures FirstHashComes(RestoreHash(DigestAt(n, run), acc, run.cfg, depth), e, acc, n, r, run, depth)
  {
    hide PendingOf;
    assert acc.out + [] == acc.out && acc.labels + {} == acc.labels && acc.kept + [] == acc.kept;
  }

  // ---- whole maps -------------------------------------------------------------------------------

  ghost predicate AllHashes(hashes: seq<Value>) {
    forall i :: 0 <= i < |hashes| ==> hashes[i].ByteString?
  }

  function Charged(st: RState, load: Load): RState {
    st.(visited := st.visited + load.visits)
  }

  /** The state after reading hashes off the map. */
  ghost predicate Collected(res: Result<MapAcc>, acc: MapAcc, hashes: seq<Bytes>, saw: bool, load: Load, run: Run) {
    res == if Pays(acc.st, load, run) then
             Ok(acc.(hashes := acc.hashes + hashes, saw := saw, st := Charged(acc.st, load)))
           else Err(Limit)
  }

  lemma {:induction false} CollectGives(hashes: seq<Value>, acc: MapAcc, run: Run, depth: nat)
    requires AllHashes(hashes) && acc.st.visited <= run.cfg.limits.maxItems
    ensures Collected(CollectHashes(hashes, acc, run.cfg.limits, depth), acc, BytesOf(hashes), acc.saw,
                      Visit(|hashes|, depth + 2, run.cfg.limits), run)
    decreases hashes
  {
    if hashes == [] {
      assert acc.hashes + [] == acc.hashes;
    } else {
      var entered := EnterAt(acc.st, depth + 2, run.cfg.limits);
      if entered.Ok? {
        var acc1 := acc.(hashes := acc.hashes + [hashes[0].bytes], st := entered.value);
        CollectGives(hashes[1..], acc1, run, depth);
        assert acc.hashes + [hashes[0].bytes] + BytesOf(hashes[1..]) == acc.hashes + BytesOf(hashes);
      }
    }
  }

  lemma {:induction false} EntryHashes(e: Entry, acc: IssueAcc, env: Issuer, at: nat)
    requires AllHashes(acc.hashes) && IssueEntry(e, acc, env, at).Ok?
    ensures AllHashes(IssueEntry(e, acc, env, at).value.hashes)
  {
  }

  lemma {:induction false} IssuedHashes(entries: seq<Entry>, acc: IssueAcc, env: Issuer, at: nat)
    requires AllHashes(acc.hashes) && IssueEntries(entries, acc, env, at).Ok?
    ensures AllHashes(IssueEntries(entries, acc, env, at).value.hashes)
    decreases entries
  {
    if entries != [] {
      EntryHashes(entries[0], acc, env, at);
      IssuedHashes(entries[1..], IssueEntry(entries[0], acc, env, at).value, env, at);
    }
  }

  /** The entry carrying the hashes, met after every plain entry. */
  lemma {:induction false} HashEntryCollected(hashes: seq<Value>, acc: MapAcc, run: Run, depth: nat)
    requires AllHashes(hashes) && !acc.saw && acc.hashes == [] && acc.st.visited <= run.cfg.limits.maxItems
    ensures Collected(RestoreEntries(HashEntry(hashes), acc, run.cfg, depth), acc, BytesOf(hashes), hashes != [],
                      LoadOfHashes(|hashes|, depth, run.cfg.limits), run)
  {
    if hashes == [] {
      assert acc.hashes + [] == acc.hashes;
    } else {
      OneEntry(Entry(REDACTED_KEYS_LABEL, Array(hashes)), acc, run.cfg, depth);
      HashEntryRead(hashes, acc, run, depth);
    }
  }

  lemma {:induction false} HashEntryRead(hashes: seq<Value>, acc: MapAcc, run: Run, depth: nat)
    requires hashes != [] && AllHashes(hashes) && !acc.saw && acc.st.visited <= run.cfg.limits.maxItems
    ensures Collected(RestoreEntry(Entry(REDACTED_KEYS_LABEL, Array(hashes)), acc, run.cfg, depth), acc, BytesOf(hashes), true,
                      LoadOfHashes(|hashes|, depth, run.cfg.limits), run)
  {
    hide CollectHashes, BytesOf, AllHashes;
    var acc2 := acc.(saw := true, st := acc.st.(visited := acc.st.visited + 2));
    if Pays(acc.st, Visit(2, depth + 1, run.cfg.limits), run) {
      CollectGives(hashes, acc2, run, depth);
    }
  }

  lemma {:induction false} IssuedCounts(entries: seq<Entry>, acc: IssueAcc, env: Issuer, at: nat)
    requires IssueEntries(entries, acc, env, at).Ok?
    ensures var s := IssueEntries(entries, acc, env, at).value;
            |s.out| == |acc.out| + PlainCount(entries) && |s.hashes| == |acc.hashes| + HashCount(entries)
    decreases entries
  {
    if entries != [] {
      IssuedCount(entries[0], acc, env, at);
      IssuedCounts(entries[1..], IssueEntry(entries[0], acc, env, at).value, env, at);
    }
  }

  lemma {:induction false} IssuedCount(e: Entry, acc: IssueAcc, env: Issuer, at: nat)
    requires IssueEntry(e, acc, env, at).Ok?
    ensures var s := IssueEntry(e, acc, env, at).value;
            if PlainEntry(e) then |s.out| == |acc.out| + 1 && s.hashes == acc.hashes
            else s.out == acc.out && |s.hashes| == |acc.hashes| + 1
  {
  }

  lemma {:induction false} MapReturns(entries: seq<Entry>, ctx: Context, issued: IssueAcc, at: nat, st: RState, r: set<nat>, run: Run, depth: nat)
    requires Fair(run) && IssueEntries(entries, Blank({}, ctx), run.env, at) == Ok(issued) && Within(issued.ctx, run) && (depth == 0 ==> at == 0)
    requires Ready(st, r, Start(ctx, run), CountEntries(entries), run)
    ensures var n := Start(ctx, run);
            ValueComes(RestoreMap(issued.out + HashEntry(issued.hashes), st, run.cfg, depth), Shown(Map(entries), n, run), st, r,
                       MetIn(Map(entries), n, run.sel), LoadOfMap(entries, n, run.sel, depth, run.cfg.limits), run)
    decreases entries, 3
  {
    hide RestoreEntries, RestoreHashes, RestoreMap, IssueEntries, PendingOf, AllHashesCome, RedactedReady, PlainReady, Collected, EntriesCome, BytesOf;
    var n := Start(ctx, run);
    var acc0 := MapAcc([], {}, [], false, [], st);
    FirstReady(entries, ctx, issued, at, st, r, run);
    IssuedCounts(entries, Blank({}, ctx), run.env, at);
    PlainReturns(entries, {}, ctx, issued, at, acc0, r, run, depth);
    var first := RestoreEntries(issued.out, acc0, run.cfg, depth);
    var second, last := LaterLoops(entries, ctx, issued, at, st, first, r, run, depth);
    RestoreEntriesConcat(issued.out, HashEntry(issued.hashes), acc0, run.cfg, depth);
    MapThen(entries, issued, first, second, last, n, st, r, run, depth);
    MapRuns(issued.out + HashEntry(issued.hashes), st, run.cfg, depth, second, last);
  }

  /** The entry with the hashes and the second loop. */
  lemma {:induction false} LaterLoops(entries: seq<Entry>, ctx: Context, issued: IssueAcc, at: nat, st: RState, first: Result<MapAcc>,
                                      r: set<nat>, run: Run, depth: nat)
    returns (second: Result<MapAcc>, last: Result<MapAcc>)
    requires Fair(run) && IssueEntries(entries, Blank({}, ctx), run.env, at) == Ok(issued) && Within(issued.ctx, run) && (depth == 0 ==> at == 0)
    requires Ready(st, r, Start(ctx, run), CountEntries(entries), run)
    requires FirstLoop(first, entries, Start(ctx, run), st, r, run, depth)
    ensures second == if first.Ok? then RestoreEntries(HashEntry(issued.hashes), first.value, run.cfg, depth) else first
    ensures last == if second.Ok? then RestoreHashes(second.value.hashes, second.value, run.cfg, depth) else second
    ensures first.Ok? ==> Collected(second, first.value, BytesOf(issued.hashes), issued.hashes != [], LoadOfHashes(|issued.hashes|, depth, run.cfg.limits), run)
    ensures second.Ok? ==> AllHashesCome(last, entries, second.value, Start(ctx, run), r - MetPlain(entries, Start(ctx, run), run.sel).used, run, depth)
    decreases entries, 2
  {
    hide RestoreEntries, RestoreHashes, IssueEntries, PendingOf, AllHashesCome, RedactedReady, LoadOfPlain, MetPlain, ShownPlain, LoadOfHashes;
    IssuedHashes(entries, Blank({}, ctx), run.env, at);
    IssueEntriesKeys(entries, Blank({}, ctx), run.env, at);
    second := if first.Ok? then RestoreEntries(HashEntry(issued.hashes), first.value, run.cfg, depth) else first;
    last := if second.Ok? then RestoreHashes(second.value.hashes, second.value, run.cfg, depth) else second;
    if first.Ok? {
      HashEntryCollected(issued.hashes, first.value, run, depth);
      assert [] + BytesOf(issued.hashes) == BytesOf(issued.hashes);
      if second.Ok? {
        SecondReady(entries, ctx, issued, at, st, first.value, second.value, r, run, depth);
        RedactedReturn(entries, {}, ctx, issued, at, second.value, r - MetPlain(entries, Start(ctx, run), run.sel).used, run, depth);
      }
    }
  }

  /** How the first loop of a map ends. */
  ghost predicate FirstLoop(res: Result<MapAcc>, entries: seq<Entry>, n: nat, st: RState, r: set<nat>, run: Run, depth: nat) {
    EntriesCome(res, MapAcc([], {}, [], false, [], st), ShownPlain(entries, n, run), PlainLabels(entries), r,
                MetPlain(entries, n, run.sel), LoadOfPlain(entries, n, run.sel, depth, run.cfg.limits), run)
  }

  lemma FirstReady(entries: seq<Entry>, ctx: Context, issued: IssueAcc, at: nat, st: RState, r: set<nat>, run: Run)
    requires IssueEntries(entries, Blank({}, ctx), run.env, at) == Ok(issued) && Within(issued.ctx, run)
    requires Ready(st, r, Start(ctx, run), CountEntries(entries), run)
    ensures PlainReady(entries, {}, ctx, issued, at, MapAcc([], {}, [], false, [], st), r, run)
    ensures AllHashes(Blank({}, ctx).hashes)
  {
  }

  /** What restoring a map is, its two loops given. */
  lemma MapRuns(entries: seq<Entry>, st: RState, cfg: Config, depth: nat, second: Result<MapAcc>, last: Result<MapAcc>)
    requires second == RestoreEntries(entries, MapAcc([], {}, [], false, [], st), cfg, depth)
    requires last == if second.Ok? then RestoreHashes(second.value.hashes, second.value, cfg, depth) else second
    ensures RestoreMap(entries, st, cfg, depth) ==
            if !ContainerFits(|entries|, cfg.limits) then Err(Limit)
            else if last.Err? then Err(last.error)
            else Ok((Map(last.value.out + KeptEntry(last.value.kept)), last.value.st))
  {
  }

  lemma {:induction false} SecondReady(entries: seq<Entry>, ctx: Context, issued: IssueAcc, at: nat, st: RState, acc1: MapAcc, acc2: MapAcc, r: set<nat>, run: Run, depth: nat)
    requires IssueEntries(entries, Blank({}, ctx), run.env, at) == Ok(issued) && Within(issued.ctx, run) && DistinctNormalKeys(entries)
    requires Ready(st, r, Start(ctx, run), CountEntries(entries), run)
    requires FirstLoop(Ok(acc1), entries, Start(ctx, run), st, r, run, depth)
    requires Collected(Ok(acc2), acc1, BytesOf(issued.hashes), issued.hashes != [], LoadOfHashes(|issued.hashes|, depth, run.cfg.limits), run)
    ensures RedactedReady(entries, {}, ctx, issued, at, acc2, r - MetPlain(entries, Start(ctx, run), run.sel).used, run)
  {
    RedactedStaysFresh(entries);
    UntouchedAfterPlain(r, entries, Start(ctx, run), run);
    assert {} + PlainLabels(entries) == PlainLabels(entries);
  }

  /** Joins both loops of a map. */
  lemma {:induction false} MapThen(entries: seq<Entry>, issued: IssueAcc, first: Result<MapAcc>, second: Result<MapAcc>, last: Result<MapAcc>,
                                   n: nat, st: RState, r: set<nat>, run: Run, depth: nat)
    requires |issued.hashes| == HashCount(entries) && |issued.out| == PlainCount(entries)
    requires FirstLoop(first, entries, n, st, r, run, depth)
    requires if first.Err? then second == first else
             Collected(second, first.value, BytesOf(issued.hashes), issued.hashes != [], LoadOfHashes(|issued.hashes|, depth, run.cfg.limits), run)
    requires if second.Err? then last == second else
             AllHashesCome(last, entries, second.value, n, r - MetPlain(entries, n, run.sel).used, run, depth)
    ensures ValueComes(if !ContainerFits(|issued.out + HashEntry(issued.hashes)|, run.cfg.limits) then Err(Limit)
                       else if last.Err? then Err(last.error)
                       else Ok((Map(last.value.out + KeptEntry(last.value.kept)), last.value.st)),
                       Shown(Map(entries), n, run), st, r, MetIn(Map(entries), n, run.sel), LoadOfMap(entries, n, run.sel, depth, run.cfg.limits), run)
  {
    hide ShownPlain, ShownRedacted, HiddenHashes, MetPlain, MetRedacted, LoadOfPlain, LoadOfRedacted, LoadOfHashes, PendingOf, PlainCount, HashCount, WrittenLabels;
    var plain, hashes, redacted := LoadOfPlain(entries, n, run.sel, depth, run.cfg.limits), LoadOfHashes(HashCount(entries), depth, run.cfg.limits),
                                   LoadOfRedacted(entries, n, run.sel, depth, run.cfg.limits);
    if Pays(st, Plus(plain, Plus(hashes, redacted)), run) {
      assert last.Ok?;
      MapState(entries, n, st, r, run, plain, hashes, redacted);
      assert [] + ShownPlain(entries, n, run) + ShownRedacted(entries, n, run) == ShownPlain(entries, n, run) + ShownRedacted(entries, n, run);
      assert [] + HiddenHashes(entries, n, run) == HiddenHashes(entries, n, run);
    }
  }

  lemma MapState(entries: seq<Entry>, n: nat, st: RState, r: set<nat>, run: Run, plain: Load, hashes: Load, redacted: Load)
    ensures Later(Charged(Later(st, r, MetPlain(entries, n, run.sel), plain, run), hashes), r - MetPlain(entries, n, run.sel).used,
                  MetRedacted(entries, n, run.sel), redacted, run)
         == Later(st, r, MetIn(Map(entries), n, run.sel), Plus(plain, Plus(hashes, redacted)), run)
  {
    hide MetPlain, MetRedacted;
    var a, b := MetPlain(entries, n, run.sel), MetRedacted(entries, n, run.sel);
    assert r - a.used - b.used == r - Both(a, b).used;
  }
}
