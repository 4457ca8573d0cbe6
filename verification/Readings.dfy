/** Bytes can be read as a serialization in one way only (RFC 8949, section 3): a serialization and
    what follows it are determined by the bytes. */
module Readings {
  import opened Values
  import opened Heads
  import opened Syntax

  function MajorOf(s: Syn): (m: nat)
    ensures m < 8
  {
    match s
    case Number(negative, _, _) => if negative then 1 else 0
    case Str(text, _) => StringMajor(text)
    case Chunked(text, _) => StringMajor(text)
    case List(_, _) => 4
    case Table(_, _) => 5
    case Tagged(_, _, _) => 6
    case SimpleCode(_, _) => 7
    case FloatBits(_, _) => 7
  }

  /** The head of a serialization: its width and argument, or the indefinite marker. */
  function HeadForm(s: Syn): Form {
    match s
    case Number(_, w, _) => Definite(w)
    case Str(_, c) => Definite(c.width)
    case Chunked(_, _) => Indefinite
    case List(form, _) => form
    case Table(form, _) => form
    case Tagged(w, _, _) => Definite(w)
    case SimpleCode(w, _) => Definite(w)
    case FloatBits(w, _) => Definite(w)
  }

  function HeadArg(s: Syn): nat {
    match s
    case Number(_, _, arg) => arg
    case Str(_, c) => |c.content|
    case Chunked(_, _) => 0
    case List(_, items) => |items|
    case Table(_, pairs) => |pairs|
    case Tagged(_, tag, _) => tag
    case SimpleCode(_, code) => code
    case FloatBits(_, bits) => bits
  }

  /** What follows the head. */
  function Tail(s: Syn): Bytes
    requires WellFormed(s)
  {
    match s
    case Str(_, c) => c.content
    case Chunked(text, chunks) => SerChunks(text, chunks) + [BREAK]
    case List(form, items) => SerItems(items) + Closing(form)
    case Table(form, pairs) => SerPairs(pairs) + Closing(form)
    case Tagged(_, _, inner) => Ser(inner)
    case _ => []
  }

  lemma HeadAndTail(s: Syn)
    requires WellFormed(s)
    ensures FormFits(HeadForm(s), HeadArg(s))
    ensures Ser(s) == Opening(MajorOf(s), HeadForm(s), HeadArg(s)) + Tail(s)
  {
  }

  /** Equal bytes begin with equal heads. */
  lemma OpeningsAgree(m1: nat, f1: Form, a1: nat, m2: nat, f2: Form, a2: nat, rest1: Bytes, rest2: Bytes)
    requires m1 < 8 && m2 < 8 && FormFits(f1, a1) && FormFits(f2, a2)
    requires Opening(m1, f1, a1) + rest1 == Opening(m2, f2, a2) + rest2
    ensures m1 == m2 && f1 == f2 && (f1.Definite? ==> a1 == a2) && rest1 == rest2
  {
    var data := Opening(m1, f1, a1) + rest1;
    assert data[0] == Opening(m1, f1, a1)[0] == Opening(m2, f2, a2)[0];
    if f1.Definite? && f2.Definite? {
      HeadsAgree(m1, a1, f1.width, m2, a2, f2.width, rest1, rest2);
    } else {
      assert f1.Indefinite? && f2.Indefinite?;
      assert rest1 == data[1..] && rest2 == data[1..];
    }
  }

  lemma Regroup(a: Bytes, b: Bytes, c: Bytes)
    ensures a + b + c == a + (b + c)
  {
  }

  lemma Empty(a: Bytes)
    ensures [] + a == a && a + [] == a
  {
  }

  lemma Split(a: Bytes, x: Bytes, b: Bytes, y: Bytes)
    requires a + x == b + y && |a| == |b|
    ensures a == b && x == y
  {
    assert a == (a + x)[..|a|] && b == (b + y)[..|b|];
    assert x == (a + x)[|a|..] && y == (b + y)[|b|..];
  }

  lemma {:induction false} SameReading(s: Syn, t: Syn, a: Bytes, b: Bytes)
    requires WellFormed(s) && WellFormed(t) && Ser(s) + a == Ser(t) + b
    ensures s == t && a == b
    decreases s, 1
  {
    HeadAndTail(s);
    HeadAndTail(t);
    var so, to := Opening(MajorOf(s), HeadForm(s), HeadArg(s)), Opening(MajorOf(t), HeadForm(t), HeadArg(t));
    Regroup(so, Tail(s), a);
    Regroup(to, Tail(t), b);
    OpeningsAgree(MajorOf(s), HeadForm(s), HeadArg(s), MajorOf(t), HeadForm(t), HeadArg(t), Tail(s) + a, Tail(t) + b);
    SameConstructor(s, t);
    match s {
      case Str(_, c) => Split(c.content, a, t.chunk.content, b);
      case Chunked(text, chunks) =>
        Regroup(SerChunks(text, chunks), [BREAK], a);
        Regroup(SerChunks(text, t.chunks), [BREAK], b);
        SameChunks(text, chunks, t.chunks, a, b);
      case List(form, items) =>
        Regroup(SerItems(items), Closing(form), a);
        Regroup(SerItems(t.items), Closing(form), b);
        SameItems(form, items, t.items, a, b);
      case Table(form, pairs) =>
        Regroup(SerPairs(pairs), Closing(form), a);
        Regroup(SerPairs(t.pairs), Closing(form), b);
        SamePairs(form, pairs, t.pairs, a, b);
      case Tagged(_, _, inner) => SameReading(inner, t.inner, a, b);
      case _ => Split([], a, [], b);
    }
  }

  lemma SameConstructor(s: Syn, t: Syn)
    requires WellFormed(s) && WellFormed(t)
    requires MajorOf(s) == MajorOf(t) && HeadForm(s) == HeadForm(t)
    ensures (s.Number? <==> t.Number?) && (s.Str? <==> t.Str?) && (s.Chunked? <==> t.Chunked?) && (s.List? <==> t.List?)
    ensures (s.Table? <==> t.Table?) && (s.Tagged? <==> t.Tagged?) && (s.SimpleCode? <==> t.SimpleCode?)
    ensures s.Number? ==> s.negative == t.negative
    ensures s.Str? || s.Chunked? ==> s.text == t.text
  {
  }

  lemma NotBreakFirst(s: Syn, a: Bytes, b: Bytes)
    requires WellFormed(s)
    ensures Ser(s) + a != [BREAK] + b
  {
    assert (Ser(s) + a)[0] == Ser(s)[0];
  }

  /** A chunk does not begin with the break. */
  lemma ChunkFirst(text: bool, chunks: seq<Chunk>, rest: Bytes, b: Bytes)
    requires chunks != [] && forall i :: 0 <= i < |chunks| ==> ChunkFits(chunks[i])
    ensures SerChunks(text, chunks) + rest != [BREAK] + b
  {
    hide SerChunks;
    if SerChunks(text, chunks) + rest == [BREAK] + b {
      ChunksSplit(text, chunks);
      Regroup(SerChunk(text, chunks[0]), SerChunks(text, chunks[1..]), rest);
      NotBreakFirst(Str(text, chunks[0]), SerChunks(text, chunks[1..]) + rest, b);
    }
  }

  lemma ChunksSplit(text: bool, chunks: seq<Chunk>)
    requires chunks != [] && forall i :: 0 <= i < |chunks| ==> ChunkFits(chunks[i])
    ensures SerChunks(text, chunks) == SerChunk(text, chunks[0]) + SerChunks(text, chunks[1..])
  {
    hide SerChunk;
  }

  lemma {:induction false} SameChunks(text: bool, xs: seq<Chunk>, ys: seq<Chunk>, a: Bytes, b: Bytes)
    requires forall i :: 0 <= i < |xs| ==> ChunkFits(xs[i])
    requires forall i :: 0 <= i < |ys| ==> ChunkFits(ys[i])
    requires SerChunks(text, xs) + ([BREAK] + a) == SerChunks(text, ys) + ([BREAK] + b)
    ensures xs == ys && a == b
    decreases |xs|
  {
    hide SerChunk, Ser;
    if xs == [] && ys == [] {
      Empty([BREAK] + a);
      Empty([BREAK] + b);
      Split([BREAK], a, [BREAK], b);
    } else if xs == [] {
      Empty([BREAK] + a);
      ChunkFirst(text, ys, [BREAK] + b, a);
    } else if ys == [] {
      Empty([BREAK] + b);
      ChunkFirst(text, xs, [BREAK] + a, b);
    } else {
      Regroup(SerChunk(text, xs[0]), SerChunks(text, xs[1..]), [BREAK] + a);
      Regroup(SerChunk(text, ys[0]), SerChunks(text, ys[1..]), [BREAK] + b);
      SameChunk(text, xs[0], ys[0], SerChunks(text, xs[1..]) + ([BREAK] + a), SerChunks(text, ys[1..]) + ([BREAK] + b));
      SameChunks(text, xs[1..], ys[1..], a, b);
      assert xs == [xs[0]] + xs[1..] && ys == [ys[0]] + ys[1..];
    }
  }

  lemma {:induction false} SameChunk(text: bool, x: Chunk, y: Chunk, a: Bytes, b: Bytes)
    requires ChunkFits(x) && ChunkFits(y) && SerChunk(text, x) + a == SerChunk(text, y) + b
    ensures x == y && a == b
  {
    var xh, yh := Head(StringMajor(text), |x.content|, x.width), Head(StringMajor(text), |y.content|, y.width);
    Regroup(xh, x.content, a);
    Regroup(yh, y.content, b);
    HeadsAgree(StringMajor(text), |x.content|, x.width, StringMajor(text), |y.content|, y.width, x.content + a, y.content + b);
    Split(x.content, a, y.content, b);
  }

  lemma {:induction false} SameItems(form: Form, xs: seq<Syn>, ys: seq<Syn>, a: Bytes, b: Bytes)
    requires WellFormedItems(xs) && WellFormedItems(ys) && (form.Definite? ==> |xs| == |ys|)
    requires SerItems(xs) + (Closing(form) + a) == SerItems(ys) + (Closing(form) + b)
    ensures xs == ys && a == b
    decreases xs, 0
  {
    if xs == [] && ys == [] {
      Empty(Closing(form) + a);
      Empty(Closing(form) + b);
      Split(Closing(form), a, Closing(form), b);
    } else if xs == [] {
      Regroup(Ser(ys[0]), SerItems(ys[1..]), [BREAK] + b);
      NotBreakFirst(ys[0], SerItems(ys[1..]) + ([BREAK] + b), a);
    } else if ys == [] {
      Regroup(Ser(xs[0]), SerItems(xs[1..]), [BREAK] + a);
      NotBreakFirst(xs[0], SerItems(xs[1..]) + ([BREAK] + a), b);
    } else {
      Regroup(Ser(xs[0]), SerItems(xs[1..]), Closing(form) + a);
      Regroup(Ser(ys[0]), SerItems(ys[1..]), Closing(form) + b);
      SameReading(xs[0], ys[0], SerItems(xs[1..]) + (Closing(form) + a), SerItems(ys[1..]) + (Closing(form) + b));
      SameItems(form, xs[1..], ys[1..], a, b);
      assert xs == [xs[0]] + xs[1..] && ys == [ys[0]] + ys[1..];
    }
  }

  lemma {:induction false} SamePairs(form: Form, xs: seq<Pair>, ys: seq<Pair>, a: Bytes, b: Bytes)
    requires WellFormedPairs(xs) && WellFormedPairs(ys) && (form.Definite? ==> |xs| == |ys|)
    requires SerPairs(xs) + (Closing(form) + a) == SerPairs(ys) + (Closing(form) + b)
    ensures xs == ys && a == b
    decreases xs, 0
  {
    if xs == [] && ys == [] {
      Empty(Closing(form) + a);
      Empty(Closing(form) + b);
      Split(Closing(form), a, Closing(form), b);
    } else if xs == [] {
      PairNotBreak(ys[0], SerPairs(ys[1..]), [BREAK] + b, a);
    } else if ys == [] {
      PairNotBreak(xs[0], SerPairs(xs[1..]), [BREAK] + a, b);
    } else {
      Regroup(SerPair(xs[0]), SerPairs(xs[1..]), Closing(form) + a);
      Regroup(SerPair(ys[0]), SerPairs(ys[1..]), Closing(form) + b);
      SamePair(xs[0], ys[0], SerPairs(xs[1..]) + (Closing(form) + a), SerPairs(ys[1..]) + (Closing(form) + b));
      SamePairs(form, xs[1..], ys[1..], a, b);
      assert xs == [xs[0]] + xs[1..] && ys == [ys[0]] + ys[1..];
    }
  }

  lemma PairNotBreak(p: Pair, rest: Bytes, a: Bytes, b: Bytes)
    requires WellFormedPair(p)
    ensures SerPair(p) + rest + a != [BREAK] + b
  {
    assert (SerPair(p) + rest + a)[0] == Ser(p.key)[0];
  }

  lemma {:induction false} SamePair(p: Pair, q: Pair, a: Bytes, b: Bytes)
    requires WellFormedPair(p) && WellFormedPair(q) && SerPair(p) + a == SerPair(q) + b
    ensures p == q && a == b
    decreases p, 2
  {
    Regroup(Ser(p.key), Ser(p.val), a);
    Regroup(Ser(q.key), Ser(q.val), b);
    SameReading(p.key, q.key, Ser(p.val) + a, Ser(q.val) + b);
    SameReading(p.val, q.val, a, b);
  }

  /** Two serializations with the same bytes are the same serialization. */
  lemma SerInjective(s: Syn, t: Syn)
    requires WellFormed(s) && WellFormed(t) && Ser(s) == Ser(t)
    ensures s == t
  {
    assert Ser(s) + [] == Ser(s) && Ser(t) + [] == Ser(t);
    SameReading(s, t, [], []);
  }
}
