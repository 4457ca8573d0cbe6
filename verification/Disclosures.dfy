/** Processing limits, the traversal budget, and salted disclosures
    (sd-cwt/src/lib.rs and sd-cwt/src/disclosure.rs). */
module Disclosures {
  import opened Values

  datatype Limits = Limits(
    maxDepth: nat,
    maxItems: nat,
    maxDisclosures: nat,
    maxDisclosureBytes: nat,
    maxContainerEntries: nat)

  /** Charges `count` visited values. A count past `usize` is past `maxItems` as well. */
  function Consume(visited: nat, count: nat, limits: Limits): (r: Result<nat>)
    ensures r.Ok? ==> r.value == visited + count <= limits.maxItems
  {
    if visited + count > limits.maxItems then Err(Limit) else Ok(visited + count)
  }

  /** Charges one value found at `depth`. */
  function Enter(visited: nat, depth: nat, limits: Limits): (r: Result<nat>)
    ensures r.Ok? ==> r.value == visited + 1 <= limits.maxItems && depth <= limits.maxDepth
  {
    if depth > limits.maxDepth then Err(Limit) else Consume(visited, 1, limits)
  }

  datatype Kind =
    | Claim(salt: Bytes, key: Label, value: Value)
    | Element(salt: Bytes, value: Value)
    | Decoy(salt: Bytes)

  /** A disclosure together with the exact bytes that are hashed. */
  datatype Disclosure = Disclosure(kind: Kind, encoded: Bytes)

  type Hasher = Bytes -> Bytes

  function DigestOf(d: Disclosure, hash: Hasher): Bytes {
    hash(d.encoded)
  }

  function ItemCount(d: Disclosure): nat {
    match d.kind
    case Claim(_, _, value) => 3 + Nodes(value)
    case Element(_, value) => 2 + Nodes(value)
    case Decoy(_) => 2
  }

  function KindToValue(kind: Kind): Value {
    match kind
    case Claim(salt, key, value) => Array([ByteString(salt), value, ValueOfLabel(key)])
    case Element(salt, value) => Array([ByteString(salt), value])
    case Decoy(salt) => Array([ByteString(salt)])
  }

  /** Counts a tree's values with an explicit worklist. */
  method ValueItemCount(value: Value) returns (count: nat)
    ensures count == Nodes(value)
  {
    count := 0;
    var pending := [value];
    while pending != []
      invariant count + NodesOfItems(pending) == Nodes(value)
      decreases NodesOfItems(pending)
    {
      var last := |pending| - 1;
      var v := pending[last];
      NodesOfItemsConcat(pending[..last], [v]);
      assert pending[..last] + [v] == pending;
      pending := pending[..last];
      count := count + 1;
      match v {
        case Array(items) =>
          NodesOfItemsConcat(pending, items);
          pending := pending + items;
        case Map(entries) =>
          NodesOfItemsConcat(pending, Flatten(entries));
          NodesOfFlatten(entries);
          pending := pending + Flatten(entries);
        case Tag(_, inner) =>
          NodesOfItemsConcat(pending, [inner]);
          pending := pending + [inner];
        case _ =>
      }
    }
  }

  /** The keys and values of a map in the order the worklist receives them. */
  function Flatten(entries: seq<Entry>): seq<Value> {
    if entries == [] then [] else [entries[0].key, entries[0].val] + Flatten(entries[1..])
  }

  lemma NodesOfFlatten(entries: seq<Entry>)
    ensures NodesOfItems(Flatten(entries)) == NodesOfEntries(entries)
  {
    if entries != [] {
      var pair := [entries[0].key, entries[0].val];
      NodesOfItemsConcat(pair, Flatten(entries[1..]));
      NodesOfItemsConcat([entries[0].key], [entries[0].val]);
      assert pair == [entries[0].key] + [entries[0].val];
    }
  }
}
