/** The loops of sd-cwt/src/validation.rs that compare restored claims and strip what stays hidden,
    proved against `ClaimMatching`. */
module MatchRuns {
  import opened Values
  import opened ClaimMatching

  /** Strips undisclosed markers, keeping every other entry and element in place. */
  method RemoveUndisclosedRedactions(v: Value) returns (out: Value)
    ensures out == Strip(v)
    decreases v, 1
  {
    match v {
      case Map(entries) =>
        var kept := RetainEntries(entries);
        out := Map(kept);
      case Array(items) =>
        var kept := RetainItems(items);
        out := Array(kept);
      case Tag(tag, inner) =>
        var stripped := RemoveUndisclosedRedactions(inner);
        out := Tag(tag, stripped);
      case _ =>
        out := v;
    }
  }

  method RetainEntries(entries: seq<Entry>) returns (kept: seq<Entry>)
    ensures kept == StripEntries(entries)
    decreases entries, 0
  {
    kept := [];
    var i := 0;
    while i < |entries|
      invariant 0 <= i <= |entries|
      invariant kept + StripEntries(entries[i..]) == StripEntries(entries)
    {
      assert entries[i..][0] == entries[i] && entries[i..][1..] == entries[i + 1..];
      if entries[i].key != REDACTED_KEYS_LABEL {
        var e := StripOne(entries[i]);
        kept := kept + [e];
      }
      i := i + 1;
    }
    assert entries[i..] == [];
  }

  method StripOne(e: Entry) returns (out: Entry)
    ensures out == Entry(e.key, Strip(e.val))
    decreases e, 0
  {
    var v := RemoveUndisclosedRedactions(e.val);
    out := Entry(e.key, v);
  }

  method RetainItems(items: seq<Value>) returns (kept: seq<Value>)
    ensures kept == StripItems(items)
    decreases items, 0
  {
    kept := [];
    var i := 0;
    while i < |items|
      invariant 0 <= i <= |items|
      invariant kept + StripItems(items[i..]) == StripItems(items)
    {
      assert items[i..][0] == items[i] && items[i..][1..] == items[i + 1..];
      if !IsRedactedElement(items[i]) {
        var v := RemoveUndisclosedRedactions(items[i]);
        kept := kept + [v];
      }
      i := i + 1;
    }
    assert items[i..] == [];
  }

  /** Compares the visible parts of two restored values. */
  method MatchClaimValues(left: Value, right: Value, canon: Canon) returns (r: Result<bool>)
    ensures r == ClaimValuesMatch(left, right, canon)
    decreases left, 3
  {
    if left.Map? && right.Map? {
      r := MatchMaps(left.entries, right.entries, canon);
    } else if left.Array? && right.Array? {
      r := MatchArrays(left.items, right.items, canon);
    } else if left.Tag? && right.Tag? && left.tag == right.tag {
      r := MatchClaimValues(left.inner, right.inner, canon);
    } else {
      r := Ok(canon(left) == canon(right));
    }
  }

  method AnyHidden(entries: seq<Entry>) returns (hidden: bool)
    ensures hidden == HasHidden(entries)
  {
    var i := 0;
    while i < |entries|
      invariant 0 <= i <= |entries|
      invariant forall j :: 0 <= j < i ==> entries[j].key != REDACTED_KEYS_LABEL
    {
      if entries[i].key == REDACTED_KEYS_LABEL {
        return true;
      }
      i := i + 1;
    }
    return false;
  }

  method CollectVisible(entries: seq<Entry>) returns (r: Result<map<Label, Value>>)
    ensures r == VisibleByLabel(entries, map[])
  {
    var values: map<Label, Value> := map[];
    var i := 0;
    while i < |entries|
      invariant 0 <= i <= |entries|
      invariant VisibleByLabel(entries[i..], values) == VisibleByLabel(entries, map[])
    {
      assert entries[i..][0] == entries[i] && entries[i..][1..] == entries[i + 1..];
      if entries[i].key != REDACTED_KEYS_LABEL {
        match LabelOf(entries[i].key) {
          case None => return Err(UnexpectedType);
          case Some(key) => values := values[key := entries[i].val];
        }
      }
      i := i + 1;
    }
    return Ok(values);
  }

  method MatchMaps(left: seq<Entry>, right: seq<Entry>, canon: Canon) returns (r: Result<bool>)
    ensures r == MapsMatch(left, right, canon)
    decreases left, 2
  {
    var leftHidden := AnyHidden(left);
    var rightHidden := AnyHidden(right);
    var values :- CollectVisible(right);
    ghost var values0 := values;
    var i := 0;
    while i < |left|
      invariant 0 <= i <= |left|
      invariant EntriesMatch(left[i..], values, rightHidden, canon) == EntriesMatch(left, values0, rightHidden, canon)
    {
      assert left[i..][0] == left[i] && left[i..][1..] == left[i + 1..];
      var found :- MatchEntry(left[i], values, rightHidden, canon);
      match found {
        case None => return Ok(false);
        case Some(rest) => values := rest;
      }
      i := i + 1;
    }
    return Ok(leftHidden || values == map[]);
  }

  method MatchEntry(e: Entry, values: map<Label, Value>, rightHidden: bool, canon: Canon) returns (r: Result<Option<map<Label, Value>>>)
    ensures r == EntryMatches(e, values, rightHidden, canon)
    decreases e, 0
  {
    if e.key == REDACTED_KEYS_LABEL {
      return Ok(Some(values));
    }
    match LabelOf(e.key) {
      case None =>
        r := Err(UnexpectedType);
      case Some(key) =>
        if key !in values {
          return Ok(if rightHidden then Some(values) else None);
        }
        var same :- MatchClaimValues(e.val, values[key], canon);
        r := Ok(if same then Some(values - {key}) else None);
    }
  }

  method CountKnown(items: seq<Value>) returns (n: nat)
    ensures n == KnownCount(items)
  {
    n := 0;
    var i := |items|;
    while i > 0
      invariant 0 <= i <= |items|
      invariant n == KnownCount(items[i..])
    {
      i := i - 1;
      assert items[i..][0] == items[i] && items[i..][1..] == items[i + 1..];
      if !IsRedactedElement(items[i]) {
        n := n + 1;
      }
    }
    assert items[0..] == items;
  }

  method MatchArrays(left: seq<Value>, right: seq<Value>, canon: Canon) returns (r: Result<bool>)
    ensures r == ArraysMatch(left, right, canon)
    decreases left, 2
  {
    var leftKnown := CountKnown(left);
    var rightKnown := CountKnown(right);
    if leftKnown > |right| || rightKnown > |left| {
      return Ok(false);
    }
    if leftKnown == |left| && rightKnown == |right| {
      r := MatchFronts(left, right, Min(|left|, |right|), canon);
    } else {
      var front :- MatchFronts(left, right, Min(KnownFront(left), KnownFront(right)), canon);
      if !front {
        return Ok(false);
      }
      r := MatchBacks(left, right, Min(KnownBack(left), KnownBack(right)), canon);
    }
  }

  method MatchFronts(left: seq<Value>, right: seq<Value>, n: nat, canon: Canon) returns (r: Result<bool>)
    requires n <= |left| && n <= |right|
    ensures r == FrontsMatch(left, right, 0, n, canon)
    decreases left, 1
  {
    var i := 0;
    while i < n
      invariant 0 <= i <= n
      invariant FrontsMatch(left, right, i, n, canon) == FrontsMatch(left, right, 0, n, canon)
    {
      var same :- MatchClaimValues(left[i], right[i], canon);
      if !same {
        return Ok(false);
      }
      i := i + 1;
    }
    return Ok(true);
  }

  method MatchBacks(left: seq<Value>, right: seq<Value>, n: nat, canon: Canon) returns (r: Result<bool>)
    requires n <= |left| && n <= |right|
    ensures r == BacksMatch(left, right, 0, n, canon)
    decreases left, 1
  {
    var i := 0;
    while i < n
      invariant 0 <= i <= n
      invariant BacksMatch(left, right, i, n, canon) == BacksMatch(left, right, 0, n, canon)
    {
      var same :- MatchClaimValues(left[|left| - 1 - i], right[|right| - 1 - i], canon);
      if !same {
        return Ok(false);
      }
      i := i + 1;
    }
    return Ok(true);
  }

  /** Checks that the claims maps agree wherever they share a claim. */
  method ValidateMatchingClaims(maps: seq<seq<Entry>>, canon: Canon) returns (r: Result<()>)
    ensures r.Ok? == MatchingClaims(maps, 0, map[], canon).Ok?
    ensures r.Err? ==> r.error == MatchingClaims(maps, 0, map[], canon).error
  {
    var seen: map<Bytes, Seen> := map[];
    var index := 0;
    while index < |maps|
      invariant 0 <= index <= |maps|
      invariant MatchingClaims(maps[index..], index, seen, canon) == MatchingClaims(maps, 0, map[], canon)
    {
      assert maps[index..][0] == maps[index] && maps[index..][1..] == maps[index + 1..];
      seen :- CheckEntries(maps[index], index, seen, canon);
      index := index + 1;
    }
    return Ok(());
  }

  method CheckEntries(entries: seq<Entry>, index: nat, before: map<Bytes, Seen>, canon: Canon) returns (r: Result<map<Bytes, Seen>>)
    ensures r == MatchingEntries(entries, index, before, canon)
  {
    var seen := before;
    var i := 0;
    while i < |entries|
      invariant 0 <= i <= |entries|
      invariant MatchingEntries(entries[i..], index, seen, canon) == MatchingEntries(entries, index, before, canon)
    {
      assert entries[i..][0] == entries[i] && entries[i..][1..] == entries[i + 1..];
      var e := entries[i];
      if e.key != REDACTED_KEYS_LABEL {
        var key :- SafeMapKey(e.key, canon);
        if key in seen {
          if seen[key].map_ == index {
            return Err(Verify);
          }
          var same :- MatchClaimValues(seen[key].val, e.val, canon);
          if !same {
            return Err(Verify);
          }
        }
        seen := seen[key := Seen(index, e.val)];
      }
      i := i + 1;
    }
    return Ok(seen);
  }
}
