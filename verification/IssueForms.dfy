/** What issuing turns a tree of requests into, read off the tree alone: request number `i` has salt `i`,
    and its hash is computed from what its own requests became. Nothing is threaded. */
module IssueForms {
  import opened Values
  import opened Disclosures
  import opened Issuance
  import opened Redactions

  /** The salt drawn for request `i`; zeros stand for one the source of salts does not give. */
  function SaltAt(i: nat, env: Issuer): Salt {
    match env.salts(i)
    case Some(salt) => salt
    case None => seq(16, _ => 0)
  }

  /** The claim a key names; any key that names none counts as zero. */
  function KeyLabel(v: Value): Label {
    match v
    case Integer(n) => IntLabel(n)
    case TextString(t) => TextLabel(t)
    case _ => IntLabel(0)
  }

  function Made(kind: Kind, env: Issuer): Disclosure {
    Disclosure(kind, env.canon(KindToValue(kind)))
  }

  function Digest(d: Disclosure, env: Issuer): Value {
    ByteString(env.hash(d.encoded))
  }

  // ---- the issued tree --------------------------------------------------------------------------

  function Form(v: Value, n: nat, env: Issuer): Value
    decreases v, 0
  {
    match v
    case Map(entries) => Map(FormPlain(entries, n, env) + HashList(FormHashes(entries, n, env)))
    case Array(items) => Array(FormItems(items, n, env))
    case Tag(tag, inner) => Tag(tag, Form(inner, n, env))
    case _ => v
  }

  /** The hashes of a map, if there are any, under the key simple(59). */
  function HashList(hashes: seq<Value>): seq<Entry> {
    if hashes == [] then [] else [Entry(Simple(59), Array(hashes))]
  }

  function FormPlain(entries: seq<Entry>, n: nat, env: Issuer): seq<Entry>
    decreases entries, 0
  {
    if entries == [] then [] else PlainForm(entries[0], n, env) + FormPlain(entries[1..], n + CountEntry(entries[0]), env)
  }

  function PlainForm(e: Entry, n: nat, env: Issuer): seq<Entry>
    decreases e, 0
  {
    if PlainEntry(e) then [Entry(e.key, Form(e.val, n, env))] else []
  }

  function FormHashes(entries: seq<Entry>, n: nat, env: Issuer): seq<Value>
    decreases entries, 0
  {
    if entries == [] then [] else HashForm(entries[0], n, env) + FormHashes(entries[1..], n + CountEntry(entries[0]), env)
  }

  function HashForm(e: Entry, n: nat, env: Issuer): seq<Value>
    decreases e, 2
  {
    if Redacts(e.key) then [Digest(ClaimAt(e, n, env), env)]
    else if IsDecoy(e.key) then [Digest(DecoyAt(n, env), env)]
    else []
  }

  function FormItems(items: seq<Value>, n: nat, env: Issuer): seq<Value>
    decreases items, 0
  {
    if items == [] then [] else [ItemForm(items[0], n, env)] + FormItems(items[1..], n + CountItem(items[0]), env)
  }

  function ItemForm(item: Value, n: nat, env: Issuer): Value
    decreases item, 2
  {
    if Redacts(item) then Tag(60, Digest(ElementAt(item.inner, n, env), env))
    else if IsDecoy(item) then Tag(60, Digest(DecoyAt(n, env), env))
    else Form(item, n, env)
  }

  // ---- the disclosures --------------------------------------------------------------------------

  /** The disclosure of a redacted entry whose requests begin at `n`. */
  function ClaimAt(e: Entry, n: nat, env: Issuer): Disclosure
    requires Redacts(e.key)
    decreases e, 1
  {
    Made(Claim(SaltAt(n + Count(e.val), env), KeyLabel(e.key.inner), Form(e.val, n, env)), env)
  }

  function ElementAt(content: Value, n: nat, env: Issuer): Disclosure
    decreases content, 1
  {
    Made(Element(SaltAt(n + Count(content), env), Form(content, n, env)), env)
  }

  function DecoyAt(n: nat, env: Issuer): Disclosure {
    Made(Decoy(SaltAt(n, env)), env)
  }

  /** All disclosures of a tree, what a redacted node contains before the node. */
  function MadeOf(v: Value, n: nat, env: Issuer): seq<Disclosure>
    decreases v, 0
  {
    match v
    case Map(entries) => MadeOfEntries(entries, n, env)
    case Array(items) => MadeOfItems(items, n, env)
    case Tag(_, inner) => MadeOf(inner, n, env)
    case _ => []
  }

  function MadeOfEntries(entries: seq<Entry>, n: nat, env: Issuer): seq<Disclosure>
    decreases entries, 0
  {
    if entries == [] then [] else MadeOfEntry(entries[0], n, env) + MadeOfEntries(entries[1..], n + CountEntry(entries[0]), env)
  }

  function MadeOfEntry(e: Entry, n: nat, env: Issuer): seq<Disclosure>
    decreases e, 2
  {
    if Redacts(e.key) then MadeOf(e.val, n, env) + [ClaimAt(e, n, env)]
    else if IsDecoy(e.key) then [DecoyAt(n, env)]
    else MadeOf(e.val, n, env)
  }

  function MadeOfItems(items: seq<Value>, n: nat, env: Issuer): seq<Disclosure>
    decreases items, 0
  {
    if items == [] then [] else MadeOfItem(items[0], n, env) + MadeOfItems(items[1..], n + CountItem(items[0]), env)
  }

  function MadeOfItem(item: Value, n: nat, env: Issuer): seq<Disclosure>
    decreases item, 2
  {
    if Redacts(item) then MadeOf(item.inner, n, env) + [ElementAt(item.inner, n, env)]
    else if IsDecoy(item) then [DecoyAt(n, env)]
    else MadeOf(item, n, env)
  }

  /** One disclosure for each request, with the request's salt. */
  ghost predicate SaltsFrom(ds: seq<Disclosure>, n: nat, k: nat, env: Issuer) {
    |ds| == k && forall i :: 0 <= i < k ==> ds[i].kind.salt == SaltAt(n + i, env)
  }

  lemma SaltsJoin(a: seq<Disclosure>, b: seq<Disclosure>, n: nat, k: nat, m: nat, env: Issuer)
    requires SaltsFrom(a, n, k, env) && SaltsFrom(b, n + k, m, env)
    ensures SaltsFrom(a + b, n, k + m, env)
  {
    forall i | 0 <= i < k + m ensures (a + b)[i].kind.salt == SaltAt(n + i, env) {
      if k <= i {
        assert (a + b)[i] == b[i - k];
      }
    }
  }

  lemma {:induction false} MadeSalts(v: Value, n: nat, env: Issuer)
    ensures SaltsFrom(MadeOf(v, n, env), n, Count(v), env)
    decreases v, 0
  {
    match v
    case Map(entries) => MadeSaltsOfEntries(entries, n, env);
    case Array(items) => MadeSaltsOfItems(items, n, env);
    case Tag(_, inner) => MadeSalts(inner, n, env);
    case _ =>
  }

  lemma {:induction false} MadeSaltsOfEntries(entries: seq<Entry>, n: nat, env: Issuer)
    ensures SaltsFrom(MadeOfEntries(entries, n, env), n, CountEntries(entries), env)
    decreases entries, 0
  {
    hide SaltsFrom, MadeOfEntry;
    if entries != [] {
      MadeSaltsOfEntry(entries[0], n, env);
      MadeSaltsOfEntries(entries[1..], n + CountEntry(entries[0]), env);
      SaltsJoin(MadeOfEntry(entries[0], n, env), MadeOfEntries(entries[1..], n + CountEntry(entries[0]), env),
                n, CountEntry(entries[0]), CountEntries(entries[1..]), env);
    } else {
      NoSalts(n, env);
    }
  }

  lemma NoSalts(n: nat, env: Issuer)
    ensures SaltsFrom([], n, 0, env)
  {
  }

  lemma OneSalt(d: Disclosure, n: nat, env: Issuer)
    requires d.kind.salt == SaltAt(n, env)
    ensures SaltsFrom([d], n, 1, env)
  {
  }

  lemma {:induction false} MadeSaltsOfEntry(e: Entry, n: nat, env: Issuer)
    ensures SaltsFrom(MadeOfEntry(e, n, env), n, CountEntry(e), env)
    decreases e, 0
  {
    hide SaltsFrom, MadeOf, Form;
    if Redacts(e.key) {
      MadeSalts(e.val, n, env);
      OneSalt(ClaimAt(e, n, env), n + Count(e.val), env);
      SaltsJoin(MadeOf(e.val, n, env), [ClaimAt(e, n, env)], n, Count(e.val), 1, env);
    } else if IsDecoy(e.key) {
      OneSalt(DecoyAt(n, env), n, env);
    } else {
      MadeSalts(e.val, n, env);
    }
  }

  lemma {:induction false} MadeSaltsOfItems(items: seq<Value>, n: nat, env: Issuer)
    ensures SaltsFrom(MadeOfItems(items, n, env), n, CountItems(items), env)
    decreases items, 0
  {
    hide SaltsFrom, MadeOfItem;
    if items != [] {
      MadeSaltsOfItem(items[0], n, env);
      MadeSaltsOfItems(items[1..], n + CountItem(items[0]), env);
      SaltsJoin(MadeOfItem(items[0], n, env), MadeOfItems(items[1..], n + CountItem(items[0]), env),
                n, CountItem(items[0]), CountItems(items[1..]), env);
    } else {
      NoSalts(n, env);
    }
  }

  lemma {:induction false} MadeSaltsOfItem(item: Value, n: nat, env: Issuer)
    ensures SaltsFrom(MadeOfItem(item, n, env), n, CountItem(item), env)
    decreases item, 2
  {
    hide SaltsFrom, MadeOf, Form;
    if Redacts(item) {
      MadeSalts(item.inner, n, env);
      OneSalt(ElementAt(item.inner, n, env), n + Count(item.inner), env);
      SaltsJoin(MadeOf(item.inner, n, env), [ElementAt(item.inner, n, env)], n, Count(item.inner), 1, env);
    } else if IsDecoy(item) {
      OneSalt(DecoyAt(n, env), n, env);
    } else {
      MadeSalts(item, n, env);
    }
  }
}
