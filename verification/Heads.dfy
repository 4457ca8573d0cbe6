/** CBOR heads (RFC 8949, sections 3 and 4.2.1): a major type and an argument, in one of five widths. */
module Heads {
  import opened Values

  const TWO_64: int := 0x1_0000_0000_0000_0000

  function Pow256(k: nat): (r: nat)
    ensures r >= 1
  {
    if k == 0 then 1 else 256 * Pow256(k - 1)
  }

  lemma {:induction false} Pow256Grows(a: nat, b: nat)
    requires a <= b
    ensures Pow256(a) <= Pow256(b)
  {
    if a < b {
      Pow256Grows(a, b - 1);
    }
  }

  lemma Pow256Values()
    ensures Pow256(1) == 0x100 && Pow256(2) == 0x1_0000 && Pow256(4) == 0x1_0000_0000 && Pow256(8) == TWO_64
  {
    assert Pow256(2) == 0x1_0000;
    assert Pow256(3) == 0x100_0000;
    assert Pow256(4) == 0x1_0000_0000;
    assert Pow256(5) == 0x100_0000_0000;
    assert Pow256(6) == 0x1_0000_0000_0000;
    assert Pow256(7) == 0x100_0000_0000_0000;
  }

  /** The number a byte string denotes, most significant byte first. */
  function Unsigned(bytes: Bytes): (n: nat)
    ensures n < Pow256(|bytes|)
  {
    if bytes == [] then 0 else Unsigned(bytes[..|bytes| - 1]) * 256 + bytes[|bytes| - 1]
  }

  function BigEndian(n: nat, width: nat): (bytes: Bytes)
    requires n < Pow256(width)
    ensures |bytes| == width
  {
    if width == 0 then [] else BigEndian(n / 256, width - 1) + [n % 256]
  }

  lemma {:induction false} BigEndianReads(n: nat, width: nat)
    requires n < Pow256(width)
    ensures Unsigned(BigEndian(n, width)) == n
  {
    if width != 0 {
      BigEndianReads(n / 256, width - 1);
      var bytes := BigEndian(n, width);
      assert bytes[..|bytes| - 1] == BigEndian(n / 256, width - 1);
    }
  }

  lemma DivMod(n: nat, last: byte)
    ensures (n * 256 + last) / 256 == n && (n * 256 + last) % 256 == last
  {
  }

  lemma {:induction false} BigEndianWrites(bytes: Bytes)
    ensures BigEndian(Unsigned(bytes), |bytes|) == bytes
  {
    if bytes != [] {
      var init, last := bytes[..|bytes| - 1], bytes[|bytes| - 1];
      BigEndianWrites(init);
      DivMod(Unsigned(init), last);
      assert bytes == init + [last];
    }
  }

  /** How many bytes follow the initial byte. `Direct` keeps the argument in the initial byte. */
  datatype Width = Direct | One | Two | Four | Eight

  function Extra(w: Width): nat {
    match w
    case Direct => 0
    case One => 1
    case Two => 2
    case Four => 4
    case Eight => 8
  }

  predicate Fits(arg: nat, w: Width) {
    if w == Direct then arg < 24 else arg < Pow256(Extra(w))
  }

  function Additional(w: Width, arg: nat): (r: byte)
    requires Fits(arg, w)
    ensures r < 28
  {
    match w
    case Direct => arg
    case One => 24
    case Two => 25
    case Four => 26
    case Eight => 27
  }

  function ArgumentBytes(arg: nat, w: Width): Bytes
    requires Fits(arg, w)
  {
    if w == Direct then [] else BigEndian(arg, Extra(w))
  }

  function Initial(major: nat, additional: byte): byte
    requires major < 8 && additional < 32
  {
    32 * major + additional
  }

  function Head(major: nat, arg: nat, w: Width): (h: Bytes)
    requires major < 8 && Fits(arg, w)
    ensures |h| == 1 + Extra(w)
  {
    [Initial(major, Additional(w, arg))] + ArgumentBytes(arg, w)
  }

  /** The shortest width that holds the argument. */
  function Preferred(arg: nat): (w: Width)
    requires arg < TWO_64
    ensures Fits(arg, w)
    ensures forall v: Width :: Fits(arg, v) ==> Extra(w) <= Extra(v)
  {
    Pow256Values();
    if arg < 24 then Direct
    else if arg <= 0xff then One
    else if arg <= 0xffff then Two
    else if arg <= 0xffff_ffff then Four
    else Eight
  }

  function ShortHead(major: nat, arg: nat): Bytes
    requires major < 8 && arg < TWO_64
  {
    Head(major, arg, Preferred(arg))
  }

  // ---- reading ----------------------------------------------------------------------------------

  /** The width additional information announces; `None` is the indefinite-length marker. */
  function WidthOf(additional: byte): Result<Option<Width>>
    requires additional < 32
  {
    if additional < 24 then Ok(Some(Direct))
    else if additional == 24 then Ok(Some(One))
    else if additional == 25 then Ok(Some(Two))
    else if additional == 26 then Ok(Some(Four))
    else if additional == 27 then Ok(Some(Eight))
    else if additional == 31 then Ok(None)
    else Err(Cbor)
  }

  /** Reads the argument after an initial byte; the result is the argument, if the length is
      definite, and the position behind it. */
  function ReadArgument(data: Bytes, pos: nat, additional: byte): (r: Result<(Option<nat>, nat)>)
    requires pos <= |data| && additional < 32
    ensures r.Ok? ==> pos <= r.value.1 <= |data|
  {
    match WidthOf(additional)
    case Err(e) => Err(e)
    case Ok(None) => Ok((None, pos))
    case Ok(Some(w)) =>
      if w == Direct then Ok((Some(additional), pos))
      else if pos + Extra(w) > |data| then Err(Cbor)
      else Ok((Some(Unsigned(data[pos..pos + Extra(w)])), pos + Extra(w)))
  }

  /** `part` stands in `data` at `pos`. */
  predicate At(data: Bytes, pos: nat, part: Bytes): (r: bool)
    ensures r ==> pos + |part| <= |data|
    decreases |part|
  {
    if part == [] then pos <= |data|
    else pos < |data| && data[pos] == part[0] && At(data, pos + 1, part[1..])
  }

  lemma {:induction false} AtIsSlice(data: Bytes, pos: nat, part: Bytes)
    ensures At(data, pos, part) <==> pos + |part| <= |data| && data[pos..pos + |part|] == part
    decreases |part|
  {
    if part != [] && pos < |data| {
      AtIsSlice(data, pos + 1, part[1..]);
      if pos + |part| <= |data| {
        assert data[pos..pos + |part|] == [data[pos]] + data[pos + 1..pos + |part|];
        assert part == [part[0]] + part[1..];
      }
    }
  }

  lemma InitialParts(major: nat, additional: byte)
    requires major < 8 && additional < 32
    ensures Initial(major, additional) / 32 == major && Initial(major, additional) % 32 == additional
  {
  }

  lemma WidthAnnounced(arg: nat, w: Width)
    requires Fits(arg, w)
    ensures WidthOf(Additional(w, arg)) == Ok(Some(w)) && (w == Direct ==> Additional(w, arg) == arg)
  {
  }

  /** Where a head stands, its parts do. */
  lemma HeadStands(data: Bytes, pos: nat, major: nat, arg: nat, w: Width)
    requires major < 8 && Fits(arg, w) && At(data, pos, Head(major, arg, w))
    ensures pos + 1 + Extra(w) <= |data| && data[pos] == Initial(major, Additional(w, arg))
    ensures data[pos + 1..pos + 1 + Extra(w)] == ArgumentBytes(arg, w)
  {
    hide At, Initial, Additional, ArgumentBytes, Extra, Fits;
    var h := Head(major, arg, w);
    AtIsSlice(data, pos, h);
    assert data[pos..pos + |h|] == h;
    assert data[pos] == h[0] && h[1..] == ArgumentBytes(arg, w);
    assert data[pos + 1..pos + |h|] == h[1..];
  }

  /** A written head reads back, wherever it stands. */
  lemma HeadReads(data: Bytes, pos: nat, major: nat, arg: nat, w: Width)
    requires major < 8 && Fits(arg, w) && At(data, pos, Head(major, arg, w))
    ensures data[pos] == Initial(major, Additional(w, arg))
    ensures data[pos] / 32 == major && data[pos] % 32 == Additional(w, arg)
    ensures ReadArgument(data, pos + 1, Additional(w, arg)) == Ok((Some(arg), pos + 1 + Extra(w)))
  {
    hide At, Initial, Additional, WidthOf, Head, BigEndian, Unsigned;
    InitialParts(major, Additional(w, arg));
    WidthAnnounced(arg, w);
    HeadStands(data, pos, major, arg, w);
    if w != Direct {
      BigEndianReads(arg, Extra(w));
    }
  }

  /** What reads as a definite head is a written head of its major type and argument. */
  lemma ReadsHead(data: Bytes, pos: nat) returns (w: Width)
    requires pos < |data|
    requires ReadArgument(data, pos + 1, data[pos] % 32).Ok? && ReadArgument(data, pos + 1, data[pos] % 32).value.0.Some?
    ensures var (arg, end) := ReadArgument(data, pos + 1, data[pos] % 32).value;
            && data[pos] / 32 < 8
            && Fits(arg.value, w) && arg.value < TWO_64
            && Additional(w, arg.value) == data[pos] % 32
            && end == pos + 1 + Extra(w)
            && data[pos..end] == Head(data[pos] / 32, arg.value, w)
  {
    Pow256Values();
    var (arg, end) := ReadArgument(data, pos + 1, data[pos] % 32).value;
    w := WidthOf(data[pos] % 32).value.value;
    if w == Direct {
      assert data[pos..end] == [data[pos]];
    } else {
      BigEndianWrites(data[pos + 1..end]);
      assert data[pos..end] == [data[pos]] + data[pos + 1..end];
    }
  }

  // ---- written heads are told apart -------------------------------------------------------------

  predicate Begins(whole: Bytes, part: Bytes) {
    |part| <= |whole| && whole[..|part|] == part
  }

  /** Heads that start the same bytes are the same head. */
  lemma HeadsAgree(m1: nat, a1: nat, w1: Width, m2: nat, a2: nat, w2: Width, rest1: Bytes, rest2: Bytes)
    requires m1 < 8 && m2 < 8 && Fits(a1, w1) && Fits(a2, w2)
    requires Head(m1, a1, w1) + rest1 == Head(m2, a2, w2) + rest2
    ensures m1 == m2 && a1 == a2 && w1 == w2 && rest1 == rest2
  {
    hide At, ArgumentBytes, Initial, Additional, ReadArgument;
    var data := Head(m1, a1, w1) + rest1;
    AtIsSlice(data, 0, Head(m1, a1, w1));
    AtIsSlice(data, 0, Head(m2, a2, w2));
    HeadReads(data, 0, m1, a1, w1);
    HeadReads(data, 0, m2, a2, w2);
    assert rest1 == data[|Head(m1, a1, w1)|..] && rest2 == data[|Head(m2, a2, w2)|..];
  }
}
