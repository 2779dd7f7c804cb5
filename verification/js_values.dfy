/** JavaScript value semantics that the build script relies on: possibly-absent
    strings, truthiness, and the decimal rendering of a number inside a
    template literal. */
module JsValues {

  /** A value that may be absent (`undefined` in the script). */
  datatype Option<+T> = None | Some(value: T)

  /** The text a template literal produces for a possibly-absent string:
      an absent value is rendered as the word "undefined". */
  function Interpolate(o: Option<string>): (s: string)
    ensures o.Some? ==> s == o.value
    ensures o.None? ==> s == "undefined"
  {
    match o
    case Some(v) => v
    case None => "undefined"
  }

  /** Rendering loses one distinction: a present "undefined" renders like an
      absent value. */
  lemma InterpolateCollides()
    ensures Interpolate(Some("undefined")) == Interpolate(None)
  {
  }

  /** Present values render apart whenever they differ; the only collision is
      the one above. */
  lemma InterpolateInjective(a: Option<string>, b: Option<string>)
    requires Interpolate(a) == Interpolate(b)
    ensures a == b || {a, b} == {Some("undefined"), None}
  {
  }

  /** A string value is truthy exactly when it is present and non-empty. */
  predicate Truthy(o: Option<string>)
  {
    o.Some? && o.value != ""
  }

  predicate IsDigit(c: char)
  {
    '0' <= c <= '9'
  }

  predicate AllDigits(s: string)
  {
    forall i :: 0 <= i < |s| ==> IsDigit(s[i])
  }

  function DigitChar(d: nat): (c: char)
    requires d < 10
    ensures IsDigit(c)
  {
    (('0' as int) + d) as char
  }

  function DigitValue(c: char): (d: nat)
    requires IsDigit(c)
    ensures d < 10
  {
    (c as int) - ('0' as int)
  }

  /** `${n}` for a non-negative integer: its shortest decimal numeral. */
  function Decimal(n: nat): (s: string)
    ensures |s| >= 1
    ensures AllDigits(s)
    ensures s[0] == '0' ==> n == 0
    decreases n
  {
    if n < 10 then [DigitChar(n)] else Decimal(n / 10) + [DigitChar(n % 10)]
  }

  /** Reads a numeral back; the reference against which `Decimal` is checked. */
  function ParseDecimal(s: string): nat
    requires AllDigits(s)
    decreases |s|
  {
    if |s| == 0 then 0 else 10 * ParseDecimal(s[..|s| - 1]) + DigitValue(s[|s| - 1])
  }

  lemma {:induction false} ParseDecimalInvertsDecimal(n: nat)
    ensures ParseDecimal(Decimal(n)) == n
    decreases n
  {
    if n >= 10 {
      var s := Decimal(n);
      assert s[..|s| - 1] == Decimal(n / 10);
      ParseDecimalInvertsDecimal(n / 10);
    }
  }

  /** Distinct numbers render as distinct numerals. */
  lemma DecimalInjective(m: nat, n: nat)
    ensures Decimal(m) == Decimal(n) ==> m == n
  {
    ParseDecimalInvertsDecimal(m);
    ParseDecimalInvertsDecimal(n);
  }
}
