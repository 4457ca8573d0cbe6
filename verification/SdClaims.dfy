/** Reading the disclosures of the `sd_claims` header parameter under one item budget
    (sd-cwt/src/disclosure.rs). Decoding accepted bytes to a value is the function `decode`. */
module SdClaims {
  import opened Values
  import opened Disclosures
  import opened ClaimMatching
  import opened Issuance
  import opened StrictParser
  import B = MessageBodies

  datatype Reader = Reader(decode: Bytes -> Result<Value>, reencode: Bytes -> Result<Bytes>, canon: Canon)

  function DefiniteLimits(limits: Limits): CborLimits {
    CborLimits(limits.maxDepth, limits.maxItems, true)
  }

  function BytesIn(v: Value): Result<Bytes> {
    if v.ByteString? then Ok(v.bytes) else Err(UnexpectedType)
  }

  /** The disclosure an array of one to three members stands for. */
  function DecodeKind(v: Value): Result<Disclosures.Kind> {
    if !v.Array? then Err(UnexpectedType)
    else if |v.items| == 1 then
      var salt :- BytesIn(v.items[0]);
      Ok(Decoy(salt))
    else if |v.items| == 2 then
      var salt :- BytesIn(v.items[0]);
      Ok(Element(salt, v.items[1]))
    else if |v.items| == 3 then
      var salt :- BytesIn(v.items[0]);
      match LabelOf(v.items[2])
      case None => Err(UnexpectedType)
      case Some(key) => Ok(Claim(salt, key, v.items[1]))
    else Err(UnexpectedType)
  }

  function FromEncoded(encoded: Bytes, limits: Limits, reader: Reader): Result<Disclosure> {
    if |encoded| > limits.maxDisclosureBytes then Err(Limit) else
    var _ :- Root(encoded, B.Strict(DefiniteLimits(limits), reader.reencode));
    var value :- reader.decode(encoded);
    var kind :- DecodeKind(value);
    var _ :- CheckKind(kind, reader.canon, limits);
    Ok(Disclosure(kind, encoded))
  }

  /** One entry, given the salts seen, the bytes so far and the items still allowed. */
  function ReadEntry(item: Value, salts: set<Bytes>, bytes: nat, remaining: nat, limits: Limits, reader: Reader): (r: Result<Disclosure>)
    ensures r.Ok? ==> ItemCount(r.value) <= remaining
  {
    var encoded :- BytesIn(item);
    if bytes + |encoded| > limits.maxDisclosureBytes then Err(Limit) else
    var d :- FromEncoded(encoded, limits.(maxItems := remaining), reader);
    if d.kind.salt in salts then Err(Verify) else
    if remaining < ItemCount(d) then Err(Limit) else Ok(d)
  }

  /** The loop over the entries. */
  function ReadEntries(items: seq<Value>, salts: set<Bytes>, bytes: nat, remaining: nat, limits: Limits, reader: Reader)
    : Result<seq<Disclosure>>
  {
    if items == [] then Ok([]) else
    var d :- ReadEntry(items[0], salts, bytes, remaining, limits, reader);
    var rest :- ReadEntries(items[1..], salts + {d.kind.salt}, bytes + |d.encoded|, remaining - ItemCount(d), limits, reader);
    Ok([d] + rest)
  }

  function FromUnprotected(header: Option<Value>, limits: Limits, reader: Reader): Result<seq<Disclosure>> {
    match header
    case None => Ok([])
    case Some(value) =>
      if !value.Array? then Err(UnexpectedType)
      else if value.items == [] then Err(Custom)
      else if |value.items| > limits.maxDisclosures then Err(Limit)
      else if |value.items| + 1 > limits.maxItems then Err(Limit)
      else ReadEntries(value.items, {}, 0, limits.maxItems - (|value.items| + 1), limits, reader)
  }

  /** What the loop returns that already holds `done`. */
  function Joined(done: seq<Disclosure>, rest: Result<seq<Disclosure>>): Result<seq<Disclosure>> {
    match rest
    case Ok(more) => Ok(done + more)
    case Err(e) => Err(e)
  }

  /** `whole` is `done` followed by `rest`. */
  ghost predicate Joins(whole: Result<seq<Disclosure>>, done: seq<Disclosure>, rest: Result<seq<Disclosure>>) {
    whole == Joined(done, rest)
  }

  lemma JoinsOneMore(whole: Result<seq<Disclosure>>, done: seq<Disclosure>, d: Disclosure, more: Result<seq<Disclosure>>)
    requires Joins(whole, done, Joined([d], more))
    ensures Joins(whole, done + [d], more)
  {
    if more.Ok? {
      assert done + ([d] + more.value) == done + [d] + more.value;
    }
  }

  /** The source's loop. */
  method RunFromUnprotected(header: Option<Value>, limits: Limits, reader: Reader) returns (r: Result<seq<Disclosure>>)
    ensures r == FromUnprotected(header, limits, reader)
  {
    if header.None? {
      return Ok([]);
    }
    var value := header.value;
    if !value.Array? {
      return Err(UnexpectedType);
    }
    var items := value.items;
    if items == [] {
      return Err(Custom);
    }
    if |items| > limits.maxDisclosures || |items| + 1 > limits.maxItems {
      return Err(Limit);
    }
    r := RunEntries(items, limits.maxItems - (|items| + 1), limits, reader);
  }

  lemma ReadStep(whole: Result<seq<Disclosure>>, done: seq<Disclosure>, items: seq<Value>, i: nat, salts: set<Bytes>, bytes: nat,
                 remaining: nat, limits: Limits, reader: Reader, d: Disclosure)
    requires i < |items| && ReadEntry(items[i], salts, bytes, remaining, limits, reader) == Ok(d)
    requires Joins(whole, done, ReadEntries(items[i..], salts, bytes, remaining, limits, reader))
    ensures Joins(whole, done + [d], ReadEntries(items[i + 1..], salts + {d.kind.salt}, bytes + |d.encoded|, remaining - ItemCount(d), limits, reader))
  {
    assert items[i..][1..] == items[i + 1..];
    var more := ReadEntries(items[i + 1..], salts + {d.kind.salt}, bytes + |d.encoded|, remaining - ItemCount(d), limits, reader);
    assert ReadEntries(items[i..], salts, bytes, remaining, limits, reader) == Joined([d], more);
    JoinsOneMore(whole, done, d, more);
  }

  lemma ReadFails(whole: Result<seq<Disclosure>>, done: seq<Disclosure>, items: seq<Value>, i: nat, salts: set<Bytes>, bytes: nat,
                  remaining: nat, limits: Limits, reader: Reader)
    requires i < |items| && ReadEntry(items[i], salts, bytes, remaining, limits, reader).Err?
    requires Joins(whole, done, ReadEntries(items[i..], salts, bytes, remaining, limits, reader))
    ensures whole == Err(ReadEntry(items[i], salts, bytes, remaining, limits, reader).error)
  {
    hide ReadEntry;
  }

  lemma ReadsNoMore(whole: Result<seq<Disclosure>>, done: seq<Disclosure>, salts: set<Bytes>, bytes: nat, remaining: nat, limits: Limits, reader: Reader)
    requires Joins(whole, done, ReadEntries([], salts, bytes, remaining, limits, reader))
    ensures whole == Ok(done)
  {
    assert done + [] == done;
  }

  lemma JoinsNothing(whole: Result<seq<Disclosure>>)
    ensures Joins(whole, [], whole)
  {
    assert whole.Ok? ==> [] + whole.value == whole.value;
  }

  method RunEntries(items: seq<Value>, allowed: nat, limits: Limits, reader: Reader) returns (r: Result<seq<Disclosure>>)
    ensures r == ReadEntries(items, {}, 0, allowed, limits, reader)
  {
    hide ReadEntry, ReadEntries, Joins;
    var disclosures: seq<Disclosure> := [];
    var salts: set<Bytes> := {};
    var bytes: nat := 0;
    var remaining: nat := allowed;
    ghost var whole := ReadEntries(items, salts, bytes, remaining, limits, reader);
    var i := 0;
    JoinsNothing(whole);
    assert items[0..] == items;
    while i < |items|
      invariant 0 <= i <= |items|
      invariant Joins(whole, disclosures, ReadEntries(items[i..], salts, bytes, remaining, limits, reader))
    {
      var entry := ReadEntry(items[i], salts, bytes, remaining, limits, reader);
      if entry.Err? {
        ReadFails(whole, disclosures, items, i, salts, bytes, remaining, limits, reader);
        return Err(entry.error);
      }
      var d := entry.value;
      ReadStep(whole, disclosures, items, i, salts, bytes, remaining, limits, reader, d);
      bytes := bytes + |d.encoded|;
      salts := salts + {d.kind.salt};
      remaining := remaining - ItemCount(d);
      disclosures := disclosures + [d];
      i := i + 1;
    }
    assert items[i..] == [];
    ReadsNoMore(whole, disclosures, salts, bytes, remaining, limits, reader);
    r := Ok(disclosures);
  }
}
