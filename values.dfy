/**
 * Scalar cell values as they travel through the pandas frames of the ETL
 * scripts, the errors the scripts can raise while transforming them, and the
 * two conversions the product transform applies to a column:
 * `pd.to_numeric(..., errors='coerce')` and `.astype('Int64')`.
 */
module Values {

  /** One cell. `Null` stands for NaN / None / <NA>; numbers are exact. */
  datatype Value =
    | Null
    | Bool(b: bool)
    | Int(i: int)
    | Num(r: real)
    | Text(s: string)
    | Date(day: int)

  datatype Option<T> = None | Some(value: T)

  /** What a transform can raise instead of returning a frame. */
  datatype Error =
    | MissingColumn(name: string)   // pandas KeyError on df['name'] / df[[...]] / drop
    | NotNumeric                    // arithmetic or cast on a non-numeric cell (TypeError)
    | LossyCast                     // astype('Int64') of a number with a fractional part

  datatype Result<T> = Ok(value: T) | Err(error: Error) {
    predicate IsFailure() { Err? }
    function PropagateFailure<U>(): Result<U> requires Err? { Err(error) }
    function Extract(): T requires Ok? { value }
  }

  predicate IsNumeric(v: Value) {
    v.Bool? || v.Int? || v.Num?
  }

  /** The number a numeric cell denotes (booleans count as 0 and 1, as in numpy). */
  function AsReal(v: Value): real
    requires IsNumeric(v)
  {
    match v
    case Bool(b) => if b then 1.0 else 0.0
    case Int(i) => i as real
    case Num(r) => r
  }

  /**
   * The value a merge compares: pandas matches an integer key with an equal
   * float key, and a missing key with another missing key.
   */
  function KeyOf(v: Value): Value {
    if v.Int? then Num(v.i as real) else v
  }

  predicate KeyEq(a: Value, b: Value) {
    KeyOf(a) == KeyOf(b)
  }

  // ---------------------------------------------------------------------------
  // Decimal integer text, the part of pd.to_numeric's string parsing modelled here

  predicate IsDigit(c: char) { '0' <= c <= '9' }

  predicate AllDigits(s: string) {
    forall k :: 0 <= k < |s| ==> IsDigit(s[k])
  }

  function DigitValue(c: char): (d: nat)
    requires IsDigit(c)
    ensures d < 10
  {
    c as int - '0' as int
  }

  function DigitChar(d: nat): (c: char)
    requires d < 10
    ensures IsDigit(c) && DigitValue(c) == d
  {
    ('0' as int + d) as char
  }

  /** The number a non-empty run of decimal digits spells, most significant first. */
  function ParseNat(s: string): nat
    requires AllDigits(s)
  {
    if s == [] then 0 else ParseNat(s[..|s| - 1]) * 10 + DigitValue(s[|s| - 1])
  }

  /** Optional leading '-' followed by at least one digit; anything else is not an integer. */
  function ParseInt(s: string): Option<int> {
    if |s| >= 2 && s[0] == '-' && AllDigits(s[1..]) then Some(-(ParseNat(s[1..]) as int))
    else if |s| >= 1 && AllDigits(s) then Some(ParseNat(s))
    else None
  }

  /** Shortest decimal spelling of a natural number. */
  function NatText(n: nat): (s: string)
    ensures |s| >= 1 && AllDigits(s)
  {
    if n < 10 then [DigitChar(n)] else NatText(n / 10) + [DigitChar(n % 10)]
  }

  function IntText(i: int): (s: string)
    ensures |s| >= 1
  {
    if i < 0 then "-" + NatText(-i) else NatText(i)
  }

  lemma {:induction false} ParseNatText(n: nat)
    ensures ParseNat(NatText(n)) == n
  {
    if n >= 10 {
      var s := NatText(n);
      assert s[..|s| - 1] == NatText(n / 10);
      ParseNatText(n / 10);
    }
  }

  /** Every integer, written in decimal, is read back by the parser as itself. */
  lemma ParseIntText(i: int)
    ensures ParseInt(IntText(i)) == Some(i)
  {
    if i < 0 {
      ParseNatText(-i);
      assert IntText(i)[1..] == NatText(-i);
    } else {
      ParseNatText(i);
      assert IntText(i)[0] != '-';
    }
  }

  // ---------------------------------------------------------------------------
  // The two column conversions of the product transform

  /**
   * `pd.to_numeric(v, errors='coerce')` on one cell: numbers pass through,
   * integer text is parsed, anything else becomes missing instead of failing.
   */
  function ToNumeric(v: Value): (r: Value)
    ensures IsNumeric(v) ==> r == v
    ensures r.Null? || IsNumeric(r)
    ensures !v.Text? && !IsNumeric(v) ==> r == Null
    ensures v.Text? && ParseInt(v.s).None? ==> r == Null
  {
    match v
    case Text(s) => (match ParseInt(s) case Some(n) => Int(n) case None => Null)
    case Bool(_) => v
    case Int(_) => v
    case Num(_) => v
    case _ => Null
  }

  /**
   * `.astype('Int64')` on one cell: missing stays missing, a whole number
   * becomes an integer with the same value, a fraction raises.
   */
  function CastInt64(v: Value): (r: Result<Value>)
    ensures r.Ok? ==> r.value.Null? || r.value.Int?
    ensures r.Ok? && IsNumeric(v) ==> IsNumeric(r.value) && AsReal(r.value) == AsReal(v)
    ensures v.Null? ==> r == Ok(Null)
    ensures IsNumeric(v) ==> (r.Ok? <==> AsReal(v) == AsReal(v).Floor as real)
  {
    match v
    case Null => Ok(Null)
    case Bool(b) => Ok(Int(if b then 1 else 0))
    case Int(_) => Ok(v)
    case Num(x) => if x == x.Floor as real then Ok(Int(x.Floor)) else Err(LossyCast)
    case _ => Err(NotNumeric)
  }

  /** A text cell holding a decimal integer is coerced to that integer. */
  lemma ToNumericParsesIntegers(i: int)
    ensures ToNumeric(Text(IntText(i))) == Int(i)
    ensures CastInt64(ToNumeric(Text(IntText(i)))) == Ok(Int(i))
  {
    ParseIntText(i);
  }
}
