/**
 * The amount normaliser `toNumber` (public/app.js:58-88): spreadsheet text such as
 * "₹ 1,200", "(150.00)" or "150.00-" becomes a signed number, and anything it cannot
 * read becomes 0. Numbers are exact reals; `parseFloat` is modelled as the prefix
 * parser of section 21.1.2.12 of ECMA-262.
 */
module Amounts {
  import opened Wrappers
  import opened Seqs
  import opened Text

  /** The Indian rupee sign U+20B9, stripped like the currency codes. */
  const Rupee: char := '\U{20B9}'

  predicate IsDigit(c: char) {
    '0' <= c <= '9'
  }

  predicate AllDigits(s: string) {
    forall i :: 0 <= i < |s| ==> IsDigit(s[i])
  }

  /** The value of a decimal digit (0 for any other character). */
  function DigitValue(c: char): (d: nat)
    ensures d <= 9
  {
    if IsDigit(c) then c as int - '0' as int else 0
  }

  /** The value of a string of decimal digits, most significant first. */
  function DigitsValue(ds: string): nat
  {
    if ds == [] then 0 else 10 * DigitsValue(ds[..|ds| - 1]) + DigitValue(ds[|ds| - 1])
  }

  /** The value of the digits after a decimal point: a fraction in [0, 1). */
  function FracValue(fs: string): (v: real)
    ensures 0.0 <= v < 1.0
  {
    if fs == [] then 0.0 else (DigitValue(fs[0]) as real + FracValue(fs[1..])) / 10.0
  }

  /** Length of the run of digits that starts `s`. */
  function DigitRun(s: string): (n: nat)
    ensures n <= |s|
  {
    if |s| > 0 && IsDigit(s[0]) then 1 + DigitRun(s[1..]) else 0
  }

  /** `x` times ten to the power `e`, for any integer `e`: the effect of an exponent part. */
  function Scale(x: real, e: int): (y: real)
    ensures x >= 0.0 ==> y >= 0.0
    decreases if e >= 0 then e else -e
  {
    if e == 0 then x else if e > 0 then 10.0 * Scale(x, e - 1) else Scale(x, e + 1) / 10.0
  }

  /** What `parseFloat` can return. */
  datatype FloatParse = NotANumber | Finite(value: real) | Infinite(negative: bool)

  /** The exponent part ("e", optional sign, digits) that starts `t`, or 0 when `t` starts with none. */
  function Exponent(t: string): int {
    if |t| >= 2 && (t[0] == 'e' || t[0] == 'E') then
      var digits := if t[1] == '+' || t[1] == '-' then t[2..] else t[1..];
      var n := DigitRun(digits);
      if n == 0 then 0
      else if t[1] == '-' then -(DigitsValue(digits[..n]) as int)
      else DigitsValue(digits[..n])
    else 0
  }

  /** The longest unsigned decimal literal that starts `u`: digits, an optional point with
      digits, an optional exponent; at least one digit before or after the point. */
  function UnsignedDecimal(u: string): Option<real> {
    var n := DigitRun(u);
    AfterWhole(u[..n], u[n..])
  }

  /** The literal continued after its whole-part digits `whole`. */
  function AfterWhole(whole: string, rest: string): Option<real>
  {
    if |rest| > 0 && rest[0] == '.' then AfterPoint(whole, rest[1..])
    else if whole == [] then None
    else Some(Scale(DigitsValue(whole) as real, Exponent(rest)))
  }

  /** The literal continued after its decimal point. */
  function AfterPoint(whole: string, tail: string): Option<real>
  {
    var f := DigitRun(tail);
    if whole == [] && f == 0 then None
    else Some(Scale(DigitsValue(whole) as real + FracValue(tail[..f]), Exponent(tail[f..])))
  }

  /** `parseFloat`: skip leading spaces, read an optional sign, then "Infinity" or the
      longest decimal literal; whatever follows is ignored. */
  function ParseFloat(s: string): FloatParse {
    ParseSigned(TrimStart(s))
  }

  /** An optional sign, then an unsigned literal. */
  function ParseSigned(t: string): FloatParse {
    if |t| > 0 && t[0] == '-' then Negate(ParseUnsigned(t[1..]))
    else if |t| > 0 && t[0] == '+' then ParseUnsigned(t[1..])
    else ParseUnsigned(t)
  }

  function Negate(p: FloatParse): FloatParse {
    match p
    case NotANumber => NotANumber
    case Finite(x) => Finite(-x)
    case Infinite(n) => Infinite(!n)
  }

  /** "Infinity", or the longest unsigned decimal literal. */
  function ParseUnsigned(u: string): FloatParse {
    if |u| >= 8 && u[..8] == "Infinity" then Infinite(false)
    else
      match UnsignedDecimal(u)
      case None => NotANumber
      case Some(x) => Finite(x)
  }

  /** The markers toNumber deletes: the codes "AED" and "INR" in any case, the rupee sign,
      then every space (public/app.js:64-68). */
  function StripMarkers(v: string): string
  {
    var noCodes := RemoveCaseless(RemoveCaseless(v, "AED"), "INR");
    Filter(Filter(noCodes, c => c != Rupee), c => !IsSpace(c))
  }

  /** Cleaning only deletes characters, and leaves no space and no rupee sign. */
  lemma StripMarkersElements(v: string)
    ensures var r := StripMarkers(v);
      && (forall i :: 0 <= i < |r| ==> r[i] in v)
      && (forall i :: 0 <= i < |r| ==> !IsSpace(r[i]) && r[i] != Rupee)
  {
    var noAed := RemoveCaseless(v, "AED");
    var noCodes := RemoveCaseless(noAed, "INR");
    var noRupee := Filter(noCodes, c => c != Rupee);
    RemoveCaselessSubseq(v, "AED");
    RemoveCaselessSubseq(noAed, "INR");
    SubseqElements(noCodes, noAed);
    SubseqElements(noAed, v);
    FilterContents(noCodes, c => c != Rupee);
    FilterContents(noRupee, c => !IsSpace(c));
  }

  /** A cleaned amount split into the bracket flag and the literal handed to parseFloat. */
  datatype Signed = Signed(bracketNegative: bool, literal: string)

  /** Sign handling (public/app.js:70-80): a value wrapped in brackets is flagged negative and
      unwrapped; a trailing minus is moved to the front; commas are dropped. */
  function Unwrap(v: string): Signed {
    var bracket := |v| > 0 && v[0] == '(' && v[|v| - 1] == ')';
    var inner := if bracket then v[1..|v| - 1] else v;
    var moved := if |inner| > 0 && inner[|inner| - 1] == '-' then "-" + inner[..|inner| - 1] else inner;
    Signed(bracket, Filter(moved, c => c != ','))
  }

  /** The number a cleaned amount denotes; a literal parseFloat cannot read counts as 0. */
  function SignedValue(s: Signed): real {
    match ParseFloat(s.literal)
    case NotANumber => 0.0
    case Infinite(_) => 0.0
    case Finite(x) => if s.bracketNegative then -x else x
  }

  /** `toNumber(value)` (public/app.js:58-88); `None` is null or undefined. */
  function ToNumber(value: Option<string>): real {
    match value
    case None => 0.0
    case Some(raw) => ReadTrimmed(Trim(raw))
  }

  /** The steps after `trim`: the empty string is 0, anything else is cleaned and parsed. */
  function ReadTrimmed(v: string): real {
    if v == "" then 0.0 else SignedValue(Unwrap(StripMarkers(v)))
  }
}
