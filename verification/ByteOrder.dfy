/** Bytewise lexicographic order and sorting by it (RFC 8949, section 4.2.1). */
module ByteOrder {
  import opened Values

  predicate Less(a: Bytes, b: Bytes) {
    b != [] && (a == [] || a[0] < b[0] || (a[0] == b[0] && Less(a[1..], b[1..])))
  }

  /** The first `i` bytes agree, and then `a` ends or goes on with the smaller byte. */
  predicate Before(a: Bytes, b: Bytes, i: nat) {
    i <= |a| && i < |b| && a[..i] == b[..i] && (i == |a| || a[i] < b[i])
  }

  lemma LessAtOnce(a: Bytes, b: Bytes, i: nat)
    requires Before(a, b, i) && !(a != [] && a[0] == b[0])
    ensures Less(a, b)
  {
    assert i == 0;
  }

  /** `a` comes before `b` if it is a proper beginning of `b`, or smaller at the first byte they differ in. */
  lemma {:induction false} LessExact(a: Bytes, b: Bytes)
    ensures Less(a, b) <==> exists i: nat :: Before(a, b, i)
  {
    if a != [] && b != [] && a[0] == b[0] {
      LessExact(a[1..], b[1..]);
      if Less(a, b) {
        var i: nat :| Before(a[1..], b[1..], i);
        assert a[..i + 1] == [a[0]] + a[1..][..i] && b[..i + 1] == [b[0]] + b[1..][..i];
        assert Before(a, b, i + 1);
      }
      forall i: nat | Before(a, b, i) ensures Less(a, b) {
        assert a[1..][..i - 1] == a[..i][1..] && b[1..][..i - 1] == b[..i][1..];
        assert Before(a[1..], b[1..], i - 1);
      }
    } else if b != [] {
      assert Less(a, b) ==> Before(a, b, 0);
      forall i: nat | Before(a, b, i) ensures Less(a, b) {
        LessAtOnce(a, b, i);
      }
    }
  }

  lemma {:induction false} LessIrreflexive(a: Bytes)
    ensures !Less(a, a)
  {
    if a != [] {
      LessIrreflexive(a[1..]);
    }
  }

  lemma {:induction false} LessTransitive(a: Bytes, b: Bytes, c: Bytes)
    requires Less(a, b) && Less(b, c)
    ensures Less(a, c)
  {
    if a != [] && a[0] == b[0] && b[0] == c[0] {
      LessTransitive(a[1..], b[1..], c[1..]);
    }
  }

  lemma {:induction false} LessTotal(a: Bytes, b: Bytes)
    ensures Less(a, b) || a == b || Less(b, a)
  {
    if a != [] && b != [] && a[0] == b[0] {
      LessTotal(a[1..], b[1..]);
      assert a == [a[0]] + a[1..] && b == [b[0]] + b[1..];
    }
  }

  /** Something to sort with the bytes it is sorted by. */
  datatype Keyed<T> = Keyed(code: Bytes, item: T)

  function Insert<T>(x: Keyed<T>, sorted: seq<Keyed<T>>): (r: seq<Keyed<T>>)
    ensures |r| == |sorted| + 1
  {
    if sorted == [] || Less(x.code, sorted[0].code) then [x] + sorted
    else [sorted[0]] + Insert(x, sorted[1..])
  }

  function Sort<T>(s: seq<Keyed<T>>): (r: seq<Keyed<T>>)
    ensures |r| == |s|
  {
    if s == [] then [] else Insert(s[0], Sort(s[1..]))
  }

  /** Strictly ascending, so no code occurs twice. */
  predicate Ascending<T>(s: seq<Keyed<T>>) {
    forall i, j :: 0 <= i < j < |s| ==> Less(s[i].code, s[j].code)
  }

  predicate DistinctCodes<T>(s: seq<Keyed<T>>) {
    forall i, j :: 0 <= i < j < |s| ==> s[i].code != s[j].code
  }

  lemma {:induction false} InsertPermutes<T>(x: Keyed<T>, s: seq<Keyed<T>>)
    ensures multiset(Insert(x, s)) == multiset(s) + multiset{x}
  {
    if s == [] || Less(x.code, s[0].code) {
    } else {
      InsertPermutes(x, s[1..]);
      assert s == [s[0]] + s[1..];
    }
  }

  lemma {:induction false} SortPermutes<T>(s: seq<Keyed<T>>)
    ensures multiset(Sort(s)) == multiset(s)
  {
    if s != [] {
      SortPermutes(s[1..]);
      InsertPermutes(s[0], Sort(s[1..]));
      assert s == [s[0]] + s[1..];
    }
  }

  lemma {:induction false} InsertAscends<T>(x: Keyed<T>, s: seq<Keyed<T>>)
    requires Ascending(s) && forall i :: 0 <= i < |s| ==> s[i].code != x.code
    ensures Ascending(Insert(x, s))
  {
    if s == [] {
    } else if Less(x.code, s[0].code) {
      forall j | 0 < j < |s| ensures Less(x.code, s[j].code) {
        LessTransitive(x.code, s[0].code, s[j].code);
      }
    } else {
      LessTotal(x.code, s[0].code);
      InsertAscends(x, s[1..]);
      InsertPermutes(x, s[1..]);
      var rest := Insert(x, s[1..]);
      forall j | 0 <= j < |rest| ensures Less(s[0].code, rest[j].code) {
        assert rest[j] in multiset(rest);
        assert rest[j] == x || rest[j] in s[1..];
      }
    }
  }

  /** Sorting by distinct codes ascends strictly. */
  lemma {:induction false} SortAscends<T>(s: seq<Keyed<T>>)
    requires DistinctCodes(s)
    ensures Ascending(Sort(s))
  {
    if s != [] {
      var rest := s[1..];
      assert DistinctCodes(rest);
      SortAscends(rest);
      SortPermutes(rest);
      forall i | 0 <= i < |Sort(rest)| ensures Sort(rest)[i].code != s[0].code {
        assert Sort(rest)[i] in multiset(Sort(rest));
        assert Sort(rest)[i] in rest;
      }
      InsertAscends(s[0], Sort(rest));
    }
  }

  /** No code comes before one that stands before it. */
  predicate NotDescending<T>(s: seq<Keyed<T>>) {
    forall i, j :: 0 <= i < j < |s| ==> !Less(s[j].code, s[i].code)
  }

  lemma {:induction false} InsertDoesNotDescend<T>(x: Keyed<T>, s: seq<Keyed<T>>)
    requires NotDescending(s)
    ensures NotDescending(Insert(x, s))
  {
    LessIrreflexive(x.code);
    if s == [] {
    } else if Less(x.code, s[0].code) {
      forall j | 0 <= j < |s| ensures !Less(s[j].code, x.code) {
        if Less(s[j].code, x.code) {
          LessTransitive(s[j].code, x.code, s[0].code);
          LessIrreflexive(s[0].code);
        }
      }
    } else {
      InsertDoesNotDescend(x, s[1..]);
      InsertPermutes(x, s[1..]);
      var rest := Insert(x, s[1..]);
      forall j | 0 <= j < |rest| ensures !Less(rest[j].code, s[0].code) {
        assert rest[j] in multiset(rest);
        assert rest[j] == x || rest[j] in s[1..];
      }
    }
  }

  lemma {:induction false} SortDoesNotDescend<T>(s: seq<Keyed<T>>)
    ensures NotDescending(Sort(s))
  {
    if s != [] {
      SortDoesNotDescend(s[1..]);
      InsertDoesNotDescend(s[0], Sort(s[1..]));
    }
  }

  ghost predicate SameElements<T(!new)>(a: seq<T>, b: seq<T>) {
    forall x :: x in a <==> x in b
  }

  lemma SomeElement<T(!new)>(s: seq<T>)
    ensures s != [] ==> exists x :: x in s
  {
    if s != [] {
      assert s[0] in s;
    }
  }

  lemma AscendingTail<T>(s: seq<Keyed<T>>)
    requires Ascending(s) && s != []
    ensures Ascending(s[1..]) && s[0] !in s[1..]
  {
    LessIrreflexive(s[0].code);
    forall i | 0 <= i < |s[1..]| ensures s[1..][i] != s[0] {
      assert Less(s[0].code, s[i + 1].code);
    }
  }

  /** Strictly ascending sequences of the same elements are the same sequence. */
  lemma {:induction false} AscendingUnique<T(!new)>(a: seq<Keyed<T>>, b: seq<Keyed<T>>)
    requires Ascending(a) && Ascending(b) && SameElements(a, b)
    ensures a == b
  {
    if a == [] {
      SomeElement(b);
    } else {
      assert a[0] in b;
      FirstAgrees(a, b);
      AscendingTail(a);
      AscendingTail(b);
      assert a == [a[0]] + a[1..] && b == [b[0]] + b[1..];
      forall x ensures x in a[1..] <==> x in b[1..] {
        assert x in a <==> x in b;
      }
      AscendingUnique(a[1..], b[1..]);
    }
  }

  lemma {:induction false} FirstAgrees<T(!new)>(a: seq<Keyed<T>>, b: seq<Keyed<T>>)
    requires Ascending(a) && Ascending(b) && SameElements(a, b) && a != [] && b != []
    ensures a[0] == b[0]
  {
    assert a[0] in b && b[0] in a;
    var i :| 0 <= i < |b| && b[i] == a[0];
    var j :| 0 <= j < |a| && a[j] == b[0];
    if i != 0 && j != 0 {
      LessTransitive(a[0].code, b[0].code, a[0].code);
      LessIrreflexive(a[0].code);
    }
  }

  lemma SortKeeps<T(!new)>(s: seq<Keyed<T>>)
    ensures SameElements(Sort(s), s)
  {
    SortPermutes(s);
    forall x ensures x in Sort(s) <==> x in s {
      assert x in Sort(s) <==> x in multiset(Sort(s));
      assert x in s <==> x in multiset(s);
    }
  }

  /** The order things arrive in does not matter when their codes differ. */
  lemma SortIgnoresOrder<T(!new)>(a: seq<Keyed<T>>, b: seq<Keyed<T>>)
    requires DistinctCodes(a) && DistinctCodes(b) && SameElements(a, b)
    ensures Sort(a) == Sort(b)
  {
    SortAscends(a);
    SortAscends(b);
    SortKeeps(a);
    SortKeeps(b);
    forall x ensures x in Sort(a) <==> x in Sort(b) {
      assert x in a <==> x in b;
    }
    AscendingUnique(Sort(a), Sort(b));
  }

  // ---- sorting commutes with what leaves the codes alone ----------------------------------------

  function Mapped<T, U>(s: seq<Keyed<T>>, f: T -> U): (r: seq<Keyed<U>>)
    ensures |r| == |s|
    ensures forall i :: 0 <= i < |s| ==> r[i] == Keyed(s[i].code, f(s[i].item))
  {
    if s == [] then [] else [Keyed(s[0].code, f(s[0].item))] + Mapped(s[1..], f)
  }

  lemma {:induction false} InsertMapped<T, U>(x: Keyed<T>, s: seq<Keyed<T>>, f: T -> U)
    ensures Mapped(Insert(x, s), f) == Insert(Keyed(x.code, f(x.item)), Mapped(s, f))
  {
    if s == [] || Less(x.code, s[0].code) {
      assert ([x] + s)[1..] == s;
    } else {
      InsertMapped(x, s[1..], f);
      assert Mapped(s, f)[1..] == Mapped(s[1..], f);
      assert ([s[0]] + Insert(x, s[1..]))[1..] == Insert(x, s[1..]);
    }
  }

  lemma {:induction false} SortMapped<T, U>(s: seq<Keyed<T>>, f: T -> U)
    ensures Mapped(Sort(s), f) == Sort(Mapped(s, f))
  {
    if s != [] {
      SortMapped(s[1..], f);
      InsertMapped(s[0], Sort(s[1..]), f);
      assert Mapped(s, f)[1..] == Mapped(s[1..], f);
    }
  }
}
