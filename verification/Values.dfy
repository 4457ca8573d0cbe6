/** CBOR values as the crates manipulate them, claim labels, and the errors both crates report. */
module Values {

  type byte = x: int | 0 <= x < 256
  type Bytes = seq<byte>

  /** The error classes of the source. Message texts are not modelled. */
  datatype Error = Limit | Verify | UnexpectedType | Custom | Cbor | InvalidState | AlgorithmMismatch

  datatype Option<+T> = None | Some(value: T)

  datatype Result<+T> = Ok(value: T) | Err(error: Error) {
    predicate IsFailure() { Err? }

    function PropagateFailure<U>(): Result<U>
      requires Err?
    {
      Err(error)
    }

    function Extract(): T
      requires Ok?
    {
      value
    }
  }

  /** `false`, `true` and `null` are the simple values 20, 21 and 22. A float is the bytes of its
      preferred serialization, so that equal floats are equal values. */
  datatype Value =
    | Integer(n: int)
    | ByteString(bytes: Bytes)
    | TextString(text: Bytes)
    | Array(items: seq<Value>)
    | Map(entries: seq<Entry>)
    | Tag(tag: nat, inner: Value)
    | Simple(code: byte)
    | Float(wire: Bytes)

  datatype Entry = Entry(key: Value, val: Value)

  datatype Label = IntLabel(n: int) | TextLabel(text: Bytes)

  const REDACTED_CLAIM_KEYS_SIMPLE: byte := 59
  const REDACTED_ELEMENT_TAG: nat := 60
  const TO_BE_REDACTED_TAG: nat := 58
  const TO_BE_DECOY_TAG: nat := 62

  const REDACTED_KEYS_LABEL: Value := Simple(REDACTED_CLAIM_KEYS_SIMPLE)
  const NULL: Value := Simple(22)

  const I64_MIN: int := -0x8000_0000_0000_0000
  const I64_MAX: int := 0x7fff_ffff_ffff_ffff

  /** The claim label a map key denotes, when it is one. */
  function LabelOf(v: Value): Option<Label> {
    match v
    case Integer(n) => if I64_MIN <= n <= I64_MAX then Some(IntLabel(n)) else None
    case TextString(t) => if 1 <= |t| <= 255 then Some(TextLabel(t)) else None
    case _ => None
  }

  function ValueOfLabel(l: Label): Value {
    match l
    case IntLabel(n) => Integer(n)
    case TextLabel(t) => TextString(t)
  }

  predicate IsReservedTag(tag: nat) {
    tag == TO_BE_REDACTED_TAG || tag == REDACTED_ELEMENT_TAG || tag == TO_BE_DECOY_TAG
  }

  predicate IsRedactedElement(v: Value) {
    v.Tag? && v.tag == REDACTED_ELEMENT_TAG
  }

  /** The number of values in a tree, keys included. */
  function Nodes(v: Value): (n: nat)
    ensures n >= 1
  {
    match v
    case Array(items) => 1 + NodesOfItems(items)
    case Map(entries) => 1 + NodesOfEntries(entries)
    case Tag(_, inner) => 1 + Nodes(inner)
    case _ => 1
  }

  function NodesOfItems(items: seq<Value>): nat {
    if items == [] then 0 else Nodes(items[0]) + NodesOfItems(items[1..])
  }

  function NodesOfEntries(entries: seq<Entry>): nat {
    if entries == [] then 0 else NodesOfEntry(entries[0]) + NodesOfEntries(entries[1..])
  }

  function NodesOfEntry(e: Entry): nat {
    Nodes(e.key) + Nodes(e.val)
  }

  function Max(a: nat, b: nat): nat {
    if a < b then b else a
  }

  /** The nesting of a tree: 0 for a scalar, one more for each container or tag around it. */
  function Height(v: Value): nat {
    match v
    case Array(items) => HeightOfItems(items)
    case Map(entries) => HeightOfEntries(entries)
    case Tag(_, inner) => 1 + Height(inner)
    case _ => 0
  }

  /** The height items add to the array holding them. */
  function HeightOfItems(items: seq<Value>): nat {
    if items == [] then 0 else Max(1 + Height(items[0]), HeightOfItems(items[1..]))
  }

  function HeightOfEntries(entries: seq<Entry>): nat {
    if entries == [] then 0 else Max(1 + HeightOfEntry(entries[0]), HeightOfEntries(entries[1..]))
  }

  function HeightOfEntry(e: Entry): nat {
    Max(Height(e.key), Height(e.val))
  }

  lemma NodesOfItemsConcat(a: seq<Value>, b: seq<Value>)
    ensures NodesOfItems(a + b) == NodesOfItems(a) + NodesOfItems(b)
  {
    if a == [] {
      assert a + b == b;
    } else {
      assert (a + b)[1..] == a[1..] + b;
    }
  }

  lemma NodesOfEntriesConcat(a: seq<Entry>, b: seq<Entry>)
    ensures NodesOfEntries(a + b) == NodesOfEntries(a) + NodesOfEntries(b)
  {
    if a == [] {
      assert a + b == b;
    } else {
      assert (a + b)[1..] == a[1..] + b;
    }
  }

  lemma HeightOfItemsConcat(a: seq<Value>, b: seq<Value>)
    ensures HeightOfItems(a + b) == Max(HeightOfItems(a), HeightOfItems(b))
  {
    if a == [] {
      assert a + b == b;
    } else {
      assert (a + b)[1..] == a[1..] + b;
    }
  }

  lemma HeightOfEntriesConcat(a: seq<Entry>, b: seq<Entry>)
    ensures HeightOfEntries(a + b) == Max(HeightOfEntries(a), HeightOfEntries(b))
  {
    if a == [] {
      assert a + b == b;
    } else {
      assert (a + b)[1..] == a[1..] + b;
    }
  }

  lemma SingleEntry(e: Entry)
    ensures NodesOfEntries([e]) == Nodes(e.key) + Nodes(e.val)
    ensures HeightOfEntries([e]) == 1 + Max(Height(e.key), Height(e.val))
  {
    assert [e][1..] == [];
  }
}
