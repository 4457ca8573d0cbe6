/** What the validation of an issued value accepts (sd-cwt/src/validation.rs), and so which disclosures can
    be made: a condition on the value and the limits, without the traversal. */
module IssuedValues {
  import opened Values
  import opened Disclosures
  import opened ClaimMatching
  import opened Restoration
  import opened RestorationLimits
  import opened Issuance
  import opened ClaimKeys

  // ---- the shape of an issued value -------------------------------------------------------------

  /** Redacted hashes stand only where they may: under the key simple(59) as a list, and as array elements
      of tag 60. Otherwise no reserved value occurs, and no two keys of a map have one code. */
  ghost predicate IssuedShape(v: Value, canon: Canon)
    decreases v, 1
  {
    match v
    case Map(entries) => CodesApart(entries, canon) && IssuedEntries(entries, canon)
    case Array(items) => IssuedItems(items, canon)
    case Tag(tag, inner) => tag !in {58, 60, 62} && IssuedShape(inner, canon)
    case Simple(code) => code != 59
    case _ => true
  }

  ghost predicate IssuedEntries(entries: seq<Entry>, canon: Canon)
    decreases entries, 0
  {
    entries == [] || (IssuedEntry(entries[0], canon) && IssuedEntries(entries[1..], canon))
  }

  ghost predicate IssuedEntry(e: Entry, canon: Canon)
    decreases e, 0
  {
    if e.key == Simple(59) then e.val.Array? && ByteStringsOnly(e.val.items)
    else ClaimKey(e.key) && IssuedShape(e.val, canon)
  }

  ghost predicate IssuedItems(items: seq<Value>, canon: Canon)
    decreases items, 0
  {
    items == [] || (IssuedItem(items[0], canon) && IssuedItems(items[1..], canon))
  }

  ghost predicate IssuedItem(item: Value, canon: Canon)
    decreases item, 2
  {
    if item.Tag? && item.tag == 60 then item.inner.ByteString? else IssuedShape(item, canon)
  }

  ghost predicate ByteStringsOnly(items: seq<Value>) {
    items == [] || (items[0].ByteString? && ByteStringsOnly(items[1..]))
  }

  ghost predicate CodesApart(entries: seq<Entry>, canon: Canon) {
    forall i, j :: 0 <= i < j < |entries| ==> canon(entries[i].key) != canon(entries[j].key)
  }

  /** The keys have codes of their own, none of them in `keys`. */
  ghost predicate NewCodes(entries: seq<Entry>, keys: set<Bytes>, canon: Canon) {
    CodesApart(entries, canon) && forall i :: 0 <= i < |entries| ==> canon(entries[i].key) !in keys
  }

  lemma NewCodesFirst(entries: seq<Entry>, keys: set<Bytes>, canon: Canon)
    requires entries != []
    ensures NewCodes(entries, keys, canon) <==>
            canon(entries[0].key) !in keys && NewCodes(entries[1..], keys + {canon(entries[0].key)}, canon)
  {
    var rest, keys1 := entries[1..], keys + {canon(entries[0].key)};
    assert forall i :: 0 <= i < |rest| ==> rest[i] == entries[i + 1];
    if NewCodes(entries, keys, canon) {
      forall i | 0 <= i < |rest| ensures canon(rest[i].key) !in keys1 {
        assert canon(entries[0].key) != canon(entries[i + 1].key);
      }
    }
    if canon(entries[0].key) !in keys && NewCodes(rest, keys1, canon) {
      forall i, j | 0 <= i < j < |entries| ensures canon(entries[i].key) != canon(entries[j].key) {
        assert entries[j] == rest[j - 1];
        if i > 0 {
          assert entries[i] == rest[i - 1];
        }
      }
      forall i | 0 <= i < |entries| ensures canon(entries[i].key) !in keys {
        if i > 0 {
          assert entries[i] == rest[i - 1];
        }
      }
    }
  }

  // ---- the traversal ----------------------------------------------------------------------------

  /** The traversal ended well exactly if `good`, having visited `nodes` more values. */
  ghost predicate Traversed(r: Result<nat>, visited: nat, nodes: nat, good: bool, limits: Limits) {
    if good && visited + nodes <= limits.maxItems then r == Ok(visited + nodes) else r.Err?
  }

  lemma {:induction false} ValidateExact(v: Value, visited: nat, canon: Canon, limits: Limits, depth: nat)
    ensures Traversed(ValidateIssued(v, visited, canon, limits, depth), visited, Nodes(v),
                      IssuedShape(v, canon) && Narrow(v, limits) && depth + Height(v) <= limits.maxDepth, limits)
    decreases v, 1
  {
    hide ValidateIssuedEntries, ValidateIssuedItems, NewCodes;
    if Enter(visited, depth, limits).Ok? {
      match v
      case Map(entries) =>
        ValidateEntriesExact(entries, {}, visited + 1, canon, limits, depth);
        NoCodes(entries, canon);
      case Array(items) => ValidateItemsExact(items, visited + 1, canon, limits, depth);
      case Tag(_, inner) => ValidateExact(inner, visited + 1, canon, limits, depth + 1);
      case _ =>
    }
  }

  lemma NoCodes(entries: seq<Entry>, canon: Canon)
    ensures NewCodes(entries, {}, canon) <==> CodesApart(entries, canon)
  {
  }

  lemma {:induction false} ValidateEntriesExact(entries: seq<Entry>, keys: set<Bytes>, visited: nat, canon: Canon, limits: Limits, depth: nat)
    requires depth <= limits.maxDepth && visited <= limits.maxItems
    ensures Traversed(ValidateIssuedEntries(entries, keys, visited, canon, limits, depth), visited, NodesOfEntries(entries),
                      NewCodes(entries, keys, canon) && IssuedEntries(entries, canon) && NarrowEntries(entries, limits)
                      && depth + HeightOfEntries(entries) <= limits.maxDepth, limits)
    decreases entries, 0
  {
    hide ValidateIssuedEntry, IssuedEntry, NewCodes, NarrowEntry, NodesOfEntry, HeightOfEntry;
    if entries != [] {
      NewCodesFirst(entries, keys, canon);
      ValidateEntryExact(entries[0], keys, visited, canon, limits, depth);
      var r := ValidateIssuedEntry(entries[0], keys, visited, canon, limits, depth);
      if r.Ok? {
        ValidateEntriesExact(entries[1..], keys + {canon(entries[0].key)}, r.value, canon, limits, depth);
      }
    } else {
      assert NewCodes([], keys, canon) by { NoEntries(keys, canon); }
    }
  }

  lemma NoEntries(keys: set<Bytes>, canon: Canon)
    ensures NewCodes([], keys, canon)
  {
  }

  lemma {:induction false} ValidateEntryExact(e: Entry, keys: set<Bytes>, visited: nat, canon: Canon, limits: Limits, depth: nat)
    requires depth <= limits.maxDepth && visited <= limits.maxItems
    ensures Traversed(ValidateIssuedEntry(e, keys, visited, canon, limits, depth), visited, NodesOfEntry(e),
                      canon(e.key) !in keys && IssuedEntry(e, canon) && NarrowEntry(e, limits)
                      && depth + 1 + HeightOfEntry(e) <= limits.maxDepth, limits)
    decreases e, 0
  {
    hide ValidateIssued, IssuedShape, ValidateHashes, ByteStringsOnly, NarrowItems;
    ClaimKeyIs(e.key);
    if Enter(visited, depth + 1, limits).Ok? {
      if e.key == REDACTED_KEYS_LABEL {
        if e.val.Array? && Enter(visited + 1, depth + 1, limits).Ok? {
          ValidateHashesExact(e.val.items, visited + 2, limits, depth);
          HashesNarrow(e.val.items, limits);
        }
      } else {
        ValidateExact(e.val, visited + 1, canon, limits, depth + 1);
      }
    }
  }

  lemma {:induction false} HashesNarrow(items: seq<Value>, limits: Limits)
    ensures ByteStringsOnly(items) ==> NarrowItems(items, limits) && HeightOfItems(items) == if items == [] then 0 else 1
  {
    if items != [] {
      HashesNarrow(items[1..], limits);
    }
  }

  lemma {:induction false} ValidateHashesExact(items: seq<Value>, visited: nat, limits: Limits, depth: nat)
    requires visited <= limits.maxItems
    ensures Traversed(ValidateHashes(items, visited, limits, depth), visited, NodesOfItems(items),
                      ByteStringsOnly(items) && (items == [] || depth + 2 <= limits.maxDepth), limits)
  {
    if items != [] && Enter(visited, depth + 2, limits).Ok? && items[0].ByteString? {
      ValidateHashesExact(items[1..], visited + 1, limits, depth);
    }
  }

  lemma {:induction false} ValidateItemsExact(items: seq<Value>, visited: nat, canon: Canon, limits: Limits, depth: nat)
    requires depth <= limits.maxDepth && visited <= limits.maxItems
    ensures Traversed(ValidateIssuedItems(items, visited, canon, limits, depth), visited, NodesOfItems(items),
                      IssuedItems(items, canon) && NarrowItems(items, limits) && depth + HeightOfItems(items) <= limits.maxDepth, limits)
    decreases items, 0
  {
    hide ValidateIssuedItem, IssuedItem, Narrow, Nodes, Height;
    if items != [] {
      ValidateItemExact(items[0], visited, canon, limits, depth);
      var r := ValidateIssuedItem(items[0], visited, canon, limits, depth);
      if r.Ok? {
        ValidateItemsExact(items[1..], r.value, canon, limits, depth);
      }
    }
  }

  lemma {:induction false} ValidateItemExact(item: Value, visited: nat, canon: Canon, limits: Limits, depth: nat)
    requires depth <= limits.maxDepth && visited <= limits.maxItems
    ensures Traversed(ValidateIssuedItem(item, visited, canon, limits, depth), visited, Nodes(item),
                      IssuedItem(item, canon) && Narrow(item, limits) && depth + 1 + Height(item) <= limits.maxDepth, limits)
    decreases item, 2
  {
    hide ValidateIssued, IssuedShape;
    if IsRedactedElement(item) {
      assert item.inner.ByteString? ==> Nodes(item.inner) == 1 && Height(item.inner) == 0 && Narrow(item.inner, limits);
    } else {
      ValidateExact(item, visited, canon, limits, depth + 1);
    }
  }

  // ---- one disclosure ---------------------------------------------------------------------------

  /** What a disclosure must satisfy: a salt of 16 bytes, a claim key, and an issued value that with its
      salt, key and array is within the item limit and nests within the depth limit. */
  ghost predicate SoundKind(kind: Kind, canon: Canon, limits: Limits) {
    && |kind.salt| == 16
    && (kind.Claim? ==> ClaimKey(ValueOfLabel(kind.key)))
    && (!kind.Decoy? ==>
          && (if kind.Claim? then 3 else 2) + Nodes(kind.value) <= limits.maxItems
          && Height(kind.value) <= limits.maxDepth
          && Narrow(kind.value, limits) && IssuedShape(kind.value, canon))
  }

  lemma KindExact(kind: Kind, canon: Canon, limits: Limits)
    ensures CheckKind(kind, canon, limits).Ok? <==> SoundKind(kind, canon, limits)
  {
    hide ValidateIssued, IssuedShape, Narrow;
    if kind.Claim? {
      ClaimKeyIs(ValueOfLabel(kind.key));
    }
    if !kind.Decoy? {
      ValidateExact(kind.value, if kind.Claim? then 3 else 2, canon, limits, 0);
    }
  }
}
