/** NumericDate comparison across integers and floating-point numbers, and the time checks of a token
    (RFC 8392, section 2; src/cwt.rs). A finite float is the real number it denotes; converting a float
    to `i128` truncates it toward zero, and the truncation of a float is itself a float. */
module Dates {
  import opened Values

  datatype Double = Finite(r: real) | Infinite(negative: bool) | NotANumber

  datatype NumericDate = Whole(n: int) | Fractional(value: Double)

  datatype Ordering = Less | Equal | Greater

  const TWO_127: int := 0x8000_0000_0000_0000_0000_0000_0000_0000
  const TWO_64: int := 0x1_0000_0000_0000_0000

  function Reverse(o: Option<Ordering>): Option<Ordering> {
    match o
    case None => None
    case Some(Less) => Some(Greater)
    case Some(Equal) => Some(Equal)
    case Some(Greater) => Some(Less)
  }

  function CompareInts(a: int, b: int): Ordering {
    if a < b then Less else if a == b then Equal else Greater
  }

  function CompareReals(a: real, b: real): Ordering {
    if a < b then Less else if a == b then Equal else Greater
  }

  /** Truncation toward zero. */
  function Truncate(r: real): int {
    if r >= 0.0 then r.Floor else -((-r).Floor)
  }

  function CompareDoubles(a: Double, b: Double): Option<Ordering> {
    if a.NotANumber? || b.NotANumber? then None
    else if a.Finite? && b.Finite? then Some(CompareReals(a.r, b.r))
    else if a == b then Some(Equal)
    else if (a.Infinite? && a.negative) || (b.Infinite? && !b.negative) then Some(Less)
    else Some(Greater)
  }

  function CompareDoubleToInt(value: Double, other: int): Option<Ordering> {
    if !value.Finite? then None
    else if value.r >= TWO_127 as real then Some(Greater)
    else if value.r < -TWO_127 as real then Some(Less)
    else
      var truncated := Truncate(value.r);
      if truncated != other then Some(CompareInts(truncated, other))
      else if value.r == truncated as real then Some(Equal)
      else if value.r < 0.0 then Some(Less)
      else Some(Greater)
  }

  function Compare(a: NumericDate, b: NumericDate): Option<Ordering> {
    match (a, b)
    case (Whole(x), Whole(y)) => Some(CompareInts(x, y))
    case (Whole(x), Fractional(y)) => Reverse(CompareDoubleToInt(y, x))
    case (Fractional(x), Whole(y)) => CompareDoubleToInt(x, y)
    case (Fractional(x), Fractional(y)) => CompareDoubles(x, y)
  }

  function Validate(d: NumericDate): Result<NumericDate> {
    match d
    case Fractional(v) => if v.Finite? then Ok(d) else Err(UnexpectedType)
    case Whole(n) => if n < -TWO_64 || n > TWO_64 - 1 then Err(UnexpectedType) else Ok(d)
  }

  datatype TimeRules = TimeRules(allowMissingExpiration: bool, expectIssuedInThePast: bool, skew: nat)

  function ValidateOption(d: Option<NumericDate>): Result<Option<NumericDate>> {
    match d
    case None => Ok(None)
    case Some(date) =>
      var v :- Validate(date);
      Ok(Some(v))
  }

  function CheckTimes(exp: Option<NumericDate>, nbf: Option<NumericDate>, iat: Option<NumericDate>, now: int, rules: TimeRules): Result<()> {
    var exp1 :- ValidateOption(exp);
    if exp1.None? && !rules.allowMissingExpiration then Err(Custom) else
    if exp1.Some? && Compare(exp1.value, Whole(now - rules.skew)) != Some(Greater) then Err(Custom) else
    var nbf1 :- ValidateOption(nbf);
    if nbf1.Some? && Compare(nbf1.value, Whole(now + rules.skew)) == Some(Greater) then Err(Custom) else
    if !rules.expectIssuedInThePast then Ok(()) else
    var iat1 :- ValidateOption(iat);
    if iat1.Some? && Compare(iat1.value, Whole(now + rules.skew)) == Some(Greater) then Err(Custom) else Ok(())
  }

  // ---- the comparison is exact ------------------------------------------------------------------

  /** Dates that denote a number: an `i128` or a finite float. */
  ghost predicate Denotes(d: NumericDate) {
    match d
    case Whole(n) => -TWO_127 <= n < TWO_127
    case Fractional(v) => v.Finite?
  }

  ghost function RealOf(d: NumericDate): real
    requires Denotes(d)
  {
    match d
    case Whole(n) => n as real
    case Fractional(v) => v.r
  }

  lemma TruncateBounds(r: real)
    ensures r >= 0.0 ==> Truncate(r) as real <= r < (Truncate(r) + 1) as real
    ensures r < 0.0 ==> (Truncate(r) - 1) as real < r <= Truncate(r) as real
  {
  }

  lemma IntegersApart(a: int, b: int)
    requires a < b
    ensures (a + 1) as real <= b as real
  {
  }

  lemma DoubleToIntExact(value: real, other: int)
    requires -TWO_127 <= other < TWO_127
    ensures CompareDoubleToInt(Finite(value), other) == Some(CompareReals(value, other as real))
  {
    TruncateBounds(value);
    if -TWO_127 as real <= value < TWO_127 as real {
      var truncated := Truncate(value);
      if truncated < other {
        IntegersApart(truncated, other);
      } else if other < truncated {
        IntegersApart(other, truncated);
      }
    }
  }

  /** For every pair of dates, mixed or not, the comparison is the order of the real numbers. */
  lemma CompareExact(a: NumericDate, b: NumericDate)
    requires Denotes(a) && Denotes(b)
    ensures Compare(a, b) == Some(CompareReals(RealOf(a), RealOf(b)))
  {
    match (a, b)
    case (Whole(x), Whole(y)) => IntsAsReals(x, y);
    case (Whole(x), Fractional(y)) => DoubleToIntExact(y.r, x);
    case (Fractional(x), Whole(y)) => DoubleToIntExact(x.r, y);
    case (Fractional(x), Fractional(y)) =>
  }

  lemma IntsAsReals(x: int, y: int)
    ensures CompareInts(x, y) == CompareReals(x as real, y as real)
  {
    if x < y {
      IntegersApart(x, y);
    } else if y < x {
      IntegersApart(y, x);
    }
  }

  /** So it is a total order on dates that denote numbers. */
  lemma CompareIsTotalOrder(a: NumericDate, b: NumericDate, c: NumericDate)
    requires Denotes(a) && Denotes(b) && Denotes(c)
    ensures Compare(a, b).Some? && Compare(b, a) == Reverse(Compare(a, b)) && Compare(a, a) == Some(Equal)
    ensures Compare(a, b) != Some(Greater) && Compare(b, c) != Some(Greater) ==> Compare(a, c) != Some(Greater)
    ensures Compare(a, b) == Some(Equal) ==> Compare(a, c) == Compare(b, c)
  {
    CompareExact(a, b);
    CompareExact(b, a);
    CompareExact(a, a);
    CompareExact(b, c);
    CompareExact(a, c);
  }

  // ---- the time checks --------------------------------------------------------------------------

  /** A date a token may carry: an integer CBOR can write, or a finite float. */
  ghost predicate Proper(d: Option<NumericDate>) {
    match d
    case None => true
    case Some(Whole(n)) => -0x1_0000_0000_0000_0000 <= n <= 0xffff_ffff_ffff_ffff
    case Some(Fractional(v)) => v.Finite?
  }

  lemma ValidateExact(d: Option<NumericDate>)
    ensures ValidateOption(d).Ok? <==> Proper(d)
    ensures ValidateOption(d).Ok? ==> ValidateOption(d).value == d
    ensures d.Some? && Proper(d) ==> Denotes(d.value)
  {
  }

  ghost predicate After(d: Option<NumericDate>, limit: int) {
    d.Some? && Denotes(d.value) && RealOf(d.value) > limit as real
  }

  /** A token passes exactly when its dates are valid and, as real numbers, it expires after the
      tolerated past and starts, and was issued if asked, no later than the tolerated future. */
  lemma CheckTimesExact(exp: Option<NumericDate>, nbf: Option<NumericDate>, iat: Option<NumericDate>, now: int, rules: TimeRules)
    requires -TWO_127 <= now - rules.skew && now + rules.skew < TWO_127
    ensures CheckTimes(exp, nbf, iat, now, rules).Ok? <==>
            && Proper(exp) && Proper(nbf) && (rules.expectIssuedInThePast ==> Proper(iat))
            && (if exp.None? then rules.allowMissingExpiration else After(exp, now - rules.skew))
            && !After(nbf, now + rules.skew)
            && (rules.expectIssuedInThePast ==> !After(iat, now + rules.skew))
  {
    hide Compare;
    ValidateExact(exp);
    ValidateExact(nbf);
    ValidateExact(iat);
    LimitExact(exp, now - rules.skew);
    LimitExact(nbf, now + rules.skew);
    LimitExact(iat, now + rules.skew);
  }

  lemma LimitExact(d: Option<NumericDate>, limit: int)
    requires -TWO_127 <= limit < TWO_127
    ensures d.Some? && Proper(d) ==> (Compare(d.value, Whole(limit)) == Some(Greater) <==> After(d, limit))
  {
    if d.Some? && Proper(d) {
      CompareExact(d.value, Whole(limit));
    }
  }

  /** Widening the clock skew never turns an accepted token into a rejected one. */
  lemma WiderSkewAccepts(exp: Option<NumericDate>, nbf: Option<NumericDate>, iat: Option<NumericDate>, now: int, rules: TimeRules, wider: nat)
    requires rules.skew <= wider && -TWO_127 <= now - wider && now + wider < TWO_127
    requires CheckTimes(exp, nbf, iat, now, rules).Ok?
    ensures CheckTimes(exp, nbf, iat, now, rules.(skew := wider)).Ok?
  {
    CheckTimesExact(exp, nbf, iat, now, rules);
    CheckTimesExact(exp, nbf, iat, now, rules.(skew := wider));
    LaterLimit(exp, now - wider, now - rules.skew);
    LaterLimit(nbf, now + rules.skew, now + wider);
    LaterLimit(iat, now + rules.skew, now + wider);
  }

  lemma LaterLimit(d: Option<NumericDate>, earlier: int, later: int)
    requires earlier <= later
    ensures After(d, later) ==> After(d, earlier)
  {
    assert earlier as real <= later as real;
  }
}
