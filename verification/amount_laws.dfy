/**
 * What toNumber promises its callers: blank or digit-free text reads as 0, currency
 * markers and spaces are ignored, brackets and a leading or trailing minus negate, and
 * a rendered amount reads back as the number it renders.
 */
module AmountLaws {
  import opened Wrappers
  import opened Seqs
  import opened Text
  import opened Amounts

  predicate NoDigit(s: string) {
    forall i :: 0 <= i < |s| ==> !IsDigit(s[i])
  }

  /** Null, undefined, the empty string and whitespace-only text all read as 0. */
  lemma ToNumberBlank(value: Option<string>)
    requires value.Some? ==> forall i :: 0 <= i < |value.value| ==> IsSpace(value.value[i])
    ensures ToNumber(value) == 0.0
  {
    if value.Some? {
      TrimSlice(value.value);
    }
  }

  /** parseFloat finds no finite number in text without a digit. */
  lemma ParseNoDigits(s: string)
    requires NoDigit(s)
    ensures !ParseFloat(s).Finite?
  {
    var t := TrimStart(s);
    TrimStartSpec(s);
    assert NoDigit(t) by {
      forall i | 0 <= i < |t|
        ensures !IsDigit(t[i])
      {
        assert t[i] == s[|s| - |t| + i];
      }
    }
    var u := if |t| > 0 && (t[0] == '-' || t[0] == '+') then t[1..] else t;
    assert NoDigit(u) by {
      forall i | 0 <= i < |u|
        ensures !IsDigit(u[i])
      {
        if u != t {
          assert u[i] == t[i + 1];
        }
      }
    }
    DigitRunSpec(u);
    var rest := u[0..];
    assert rest == u;
    if |rest| > 0 && rest[0] == '.' {
      assert |rest[1..]| == 0 || !IsDigit(rest[1..][0]);
      DigitRunSpec(rest[1..]);
    }
    assert UnsignedDecimal(u).None?;
  }

  lemma NoDigitTrim(raw: string)
    requires NoDigit(raw)
    ensures NoDigit(Trim(raw))
  {
    var v := Trim(raw);
    TrimSlice(raw);
    var k :| 0 <= k <= |raw| - |v| && OccursAt(raw, v, k);
    forall i | 0 <= i < |v|
      ensures !IsDigit(v[i])
    {
      assert v[i] == raw[k + i];
    }
  }

  lemma NoDigitStrip(v: string)
    requires NoDigit(v)
    ensures NoDigit(StripMarkers(v))
  {
    var w := StripMarkers(v);
    StripMarkersElements(v);
    forall i | 0 <= i < |w|
      ensures !IsDigit(w[i])
    {
      assert w[i] in v;
    }
  }

  /** Every character of `t` is a character of `s`, so `t` has no digit if `s` has none. */
  lemma NoDigitFrom(s: string, t: string)
    requires NoDigit(s)
    requires forall i :: 0 <= i < |t| ==> t[i] in s
    ensures NoDigit(t)
  {
    forall i | 0 <= i < |t|
      ensures !IsDigit(t[i])
    {
      var j :| 0 <= j < |s| && s[j] == t[i];
    }
  }

  lemma NoDigitSlice(s: string, a: int, b: int)
    requires NoDigit(s) && 0 <= a <= b <= |s|
    ensures NoDigit(s[a..b])
  {
    forall i | 0 <= i < b - a
      ensures !IsDigit(s[a..b][i])
    {
      assert s[a..b][i] == s[a + i];
    }
  }

  lemma NoDigitAppend(s: string, t: string)
    requires NoDigit(s) && NoDigit(t)
    ensures NoDigit(s + t)
  {
    forall i | 0 <= i < |s + t|
      ensures !IsDigit((s + t)[i])
    {
      if i >= |s| {
        assert (s + t)[i] == t[i - |s|];
      }
    }
  }

  lemma NoDigitUnwrap(w: string)
    requires NoDigit(w)
    ensures NoDigit(Unwrap(w).literal)
  {
    var bracket := |w| > 0 && w[0] == '(' && w[|w| - 1] == ')';
    var inner := if bracket then w[1..|w| - 1] else w;
    if bracket {
      NoDigitSlice(w, 1, |w| - 1);
    }
    var moved := if |inner| > 0 && inner[|inner| - 1] == '-' then "-" + inner[..|inner| - 1] else inner;
    if moved != inner {
      NoDigitSlice(inner, 0, |inner| - 1);
      assert NoDigit("-");
      NoDigitAppend("-", inner[..|inner| - 1]);
    }
    var lit := Unwrap(w).literal;
    assert lit == Filter(moved, c => c != ',');
    FilterContents(moved, c => c != ',');
    NoDigitFrom(moved, lit);
  }

  /** Text containing no digit at all, such as "garbage", reads as 0. */
  lemma ToNumberNoDigits(raw: string)
    requires NoDigit(raw)
    ensures ToNumber(Some(raw)) == 0.0
  {
    var v := Trim(raw);
    if v != "" {
      NoDigitTrim(raw);
      NoDigitStrip(v);
      var w := StripMarkers(v);
      NoDigitUnwrap(w);
      ParseNoDigits(Unwrap(w).literal);
    }
  }

  /** No character toNumber deletes or treats as a currency code can start here:
      no space, no rupee sign, no letter that begins "AED" or "INR". */
  predicate CleanText(t: string) {
    forall i :: 0 <= i < |t| ==>
      !IsSpace(t[i]) && t[i] != Rupee && LowerChar(t[i]) != 'a' && LowerChar(t[i]) != 'i'
  }

  lemma StripClean(t: string)
    requires CleanText(t)
    ensures StripMarkers(t) == t
  {
    assert LowerChar("AED"[0]) == 'a';
    assert LowerChar("INR"[0]) == 'i';
    RemoveCaselessAbsent(t, "AED");
    RemoveCaselessAbsent(t, "INR");
    FilterAll(t, c => c != Rupee);
    FilterAll(t, c => !IsSpace(c));
  }

  /** Clean, non-empty text goes straight to the sign handling. */
  lemma ToNumberClean(t: string)
    requires CleanText(t) && t != []
    ensures ToNumber(Some(t)) == SignedValue(Unwrap(t))
  {
    StripClean(t);
    ReadVia(t, t);
  }

  /** Text trim leaves alone is read through whatever its markers strip down to. */
  lemma ReadVia(s: string, w: string)
    requires Trimmed(s) && s != [] && StripMarkers(s) == w
    ensures ToNumber(Some(s)) == SignedValue(Unwrap(w))
  {
    TrimTrimmed(s);
  }

  /** The currency markers toNumber accepts in front of an amount. */
  predicate IsMarker(m: string) {
    m == "" || m == [Rupee] || (|m| == 3 && (Lower(m) == "aed" || Lower(m) == "inr"))
  }

  /** A marker and the space after it, as in "₹ 1,200" or "AED 150". */
  function Prefix(m: string): string {
    if m == "" then "" else m + " "
  }

  /** After the marker is gone, the space behind it goes too. */
  lemma StripSpaceBefore(b: string)
    requires CleanText(b)
    ensures Filter(Filter(" " + b, c => c != Rupee), c => !IsSpace(c)) == b
  {
    var sb := " " + b;
    FilterAll(sb, c => c != Rupee);
    FilterAppend(" ", b, c => !IsSpace(c));
    FilterAll(b, c => !IsSpace(c));
  }

  lemma NoCodeLetters(x: string)
    requires forall i :: 0 <= i < |x| ==> LowerChar(x[i]) != 'a' && LowerChar(x[i]) != 'i'
    ensures RemoveCaseless(RemoveCaseless(x, "AED"), "INR") == x
  {
    assert LowerChar("AED"[0]) == 'a' && LowerChar("INR"[0]) == 'i';
    RemoveCaselessAbsent(x, "AED");
    RemoveCaselessAbsent(x, "INR");
  }

  lemma StripRupeeMarker(b: string)
    requires CleanText(b)
    ensures StripMarkers([Rupee] + (" " + b)) == b
  {
    var sb := " " + b;
    var s := [Rupee] + sb;
    NoCodeLetters(s);
    FilterAppend([Rupee], sb, c => c != Rupee);
    assert Filter(s, c => c != Rupee) == Filter(sb, c => c != Rupee);
    StripSpaceBefore(b);
  }

  lemma CodeLiterals()
    ensures Lower("AED") == "aed" && Lower("INR") == "inr"
    ensures LowerChar("AED"[0]) == 'a' && LowerChar("INR"[0]) == 'i'
  {
    assert "AED"[1..] == "ED" && "ED"[1..] == "D" && "D"[1..] == "";
    assert "INR"[1..] == "NR" && "NR"[1..] == "R" && "R"[1..] == "";
  }

  /** Once the codes are gone and a space plus clean text is left, stripping yields the text. */
  lemma StripAfterCodes(v: string, b: string)
    requires RemoveCaseless(RemoveCaseless(v, "AED"), "INR") == " " + b && CleanText(b)
    ensures StripMarkers(v) == b
  {
    StripSpaceBefore(b);
  }

  lemma AedPrefixGone(m: string, b: string)
    requires |m| == 3 && Lower(m) == "aed" && CleanText(b)
    ensures RemoveCaseless(RemoveCaseless(m + (" " + b), "AED"), "INR") == " " + b
  {
    var sb := " " + b;
    CodeLiterals();
    RemoveCaselessLeading(m, sb, "AED");
    NoCodeLetters(sb);
  }

  lemma InrHasNoA(m: string, sb: string)
    requires |m| == 3 && Lower(m) == "inr"
    requires forall i :: 0 <= i < |sb| ==> LowerChar(sb[i]) != 'a'
    ensures forall i :: 0 <= i < |m + sb| ==> LowerChar((m + sb)[i]) != 'a'
  {
    var s := m + sb;
    forall i | 0 <= i < |s|
      ensures LowerChar(s[i]) != 'a'
    {
      if i < 3 {
        assert s[i] == m[i] && LowerChar(m[i]) == Lower(m)[i];
      } else {
        assert s[i] == sb[i - 3];
      }
    }
  }

  lemma InrPrefixGone(m: string, b: string)
    requires |m| == 3 && Lower(m) == "inr" && CleanText(b)
    ensures RemoveCaseless(RemoveCaseless(m + (" " + b), "AED"), "INR") == " " + b
  {
    var sb := " " + b;
    assert forall i :: 0 <= i < |sb| ==> LowerChar(sb[i]) != 'a' && LowerChar(sb[i]) != 'i' by {
      forall i | 0 <= i < |sb|
        ensures LowerChar(sb[i]) != 'a' && LowerChar(sb[i]) != 'i'
      {
        if i > 0 {
          assert sb[i] == b[i - 1];
        }
      }
    }
    InrHasNoA(m, sb);
    CodeLiterals();
    RemoveCaselessAbsent(m + sb, "AED");
    RemoveCaselessLeading(m, sb, "INR");
    RemoveCaselessAbsent(sb, "INR");
  }

  lemma ReadRupeeMarked(b: string)
    requires CleanText(b) && b != []
    ensures ToNumber(Some(Prefix([Rupee]) + b)) == ToNumber(Some(b))
  {
    var s := [Rupee] + (" " + b);
    assert Prefix([Rupee]) + b == s;
    assert s[|s| - 1] == b[|b| - 1];
    StripRupeeMarker(b);
    ReadVia(s, b);
    ToNumberClean(b);
  }

  /** A code in front of the text is the first thing stripped, and trim leaves it alone. */
  lemma ReadCodeMarked(m: string, b: string)
    requires |m| == 3 && CleanText(b) && b != []
    requires RemoveCaseless(RemoveCaseless(m + (" " + b), "AED"), "INR") == " " + b
    requires !IsSpace(m[0])
    ensures ToNumber(Some(Prefix(m) + b)) == ToNumber(Some(b))
  {
    var s := m + (" " + b);
    assert Prefix(m) + b == s;
    assert s[|s| - 1] == b[|b| - 1];
    StripAfterCodes(s, b);
    ReadVia(s, b);
    ToNumberClean(b);
  }

  /** Neither currency code has a border, so one occurrence cannot overlap the next. */
  lemma CodesBorderFree()
    ensures NoBorder("AED") && NoBorder("INR")
  {
    CodeLiterals();
    assert "aed"[1..] != "aed"[..2] && "aed"[2..] != "aed"[..1];
    assert "inr"[1..] != "inr"[..2] && "inr"[2..] != "inr"[..1];
  }

  /** `replace(/AED/gi, "")` deletes an "AED" in any case wherever it stands, as in
      "1,200 AED", "aed150" or "AED 150": the text on each side is scanned as if the
      code were not there. */
  lemma AedRemoved(a: string, m: string, b: string)
    requires |m| == 3 && Lower(m) == "aed"
    ensures RemoveCaseless(a + m + b, "AED") == RemoveCaseless(a, "AED") + RemoveCaseless(b, "AED")
  {
    CodeLiterals();
    CodesBorderFree();
    RemoveAround(a, m, b, "AED");
  }

  /** `replace(/INR/gi, "")` deletes an "INR" in any case wherever it stands. */
  lemma InrRemoved(a: string, m: string, b: string)
    requires |m| == 3 && Lower(m) == "inr"
    ensures RemoveCaseless(a + m + b, "INR") == RemoveCaseless(a, "INR") + RemoveCaseless(b, "INR")
  {
    CodeLiterals();
    CodesBorderFree();
    RemoveAround(a, m, b, "INR");
  }

  /** Spaces on both sides of `t` pass through a code-deleting pass untouched. */
  lemma SpacesPass(pre: string, t: string, post: string, pat: string)
    requires |pat| > 0 && forall k :: 0 <= k < |pat| ==> !IsSpace(LowerChar(pat[k]))
    requires forall i :: 0 <= i < |pre| ==> IsSpace(pre[i])
    requires forall i :: 0 <= i < |post| ==> IsSpace(post[i])
    ensures RemoveCaseless(pre + (t + post), pat) == pre + (RemoveCaseless(t, pat) + post)
  {
    assert forall i :: 0 <= i < |pre| ==> LowerChar(pre[i]) == pre[i];
    assert forall i :: 0 <= i < |post| ==> LowerChar(post[i]) == post[i];
    RemoveCaselessSkip(pre, t + post, pat);
    RemoveCaselessTail(t, post, pat);
  }

  lemma CodesNotSpace()
    ensures forall k :: 0 <= k < 3 ==> !IsSpace(LowerChar("AED"[k])) && !IsSpace(LowerChar("INR"[k]))
  {
  }

  /** The rupee and space filters drop surrounding spaces. */
  lemma FiltersDropSpaces(pre: string, x: string, post: string)
    requires forall i :: 0 <= i < |pre| ==> IsSpace(pre[i])
    requires forall i :: 0 <= i < |post| ==> IsSpace(post[i])
    ensures Filter(Filter(pre + (x + post), c => c != Rupee), c => !IsSpace(c))
      == Filter(Filter(x, c => c != Rupee), c => !IsSpace(c))
  {
    var y := Filter(x, c => c != Rupee);
    FilterAppend(pre, x + post, c => c != Rupee);
    FilterAppend(x, post, c => c != Rupee);
    FilterAll(pre, c => c != Rupee);
    FilterAll(post, c => c != Rupee);
    FilterAppend(pre, y + post, c => !IsSpace(c));
    FilterAppend(y, post, c => !IsSpace(c));
    FilterNone(pre, c => !IsSpace(c));
    FilterNone(post, c => !IsSpace(c));
  }

  /** `trim` cuts a string into a run of spaces, the trimmed text and another run of spaces. */
  lemma TrimAround(s: string) returns (pre: string, post: string)
    ensures s == pre + (Trim(s) + post)
    ensures forall i :: 0 <= i < |pre| ==> IsSpace(pre[i])
    ensures forall i :: 0 <= i < |post| ==> IsSpace(post[i])
  {
    var u := TrimStart(s);
    var t := Trim(s);
    TrimStartSpec(s);
    TrimEndSpec(u);
    pre := s[..|s| - |u|];
    post := u[|t|..];
    assert u == t + post;
    assert s == pre + u;
    forall i | 0 <= i < |post|
      ensures IsSpace(post[i])
    {
      assert post[i] == u[|t| + i];
    }
  }

  /** Spaces around the text are stripped with the markers, so trimming first changes nothing. */
  lemma StripTrim(s: string)
    ensures StripMarkers(Trim(s)) == StripMarkers(s)
  {
    var t := Trim(s);
    var pre, post := TrimAround(s);
    CodesNotSpace();
    var noAed := RemoveCaseless(t, "AED");
    SpacesPass(pre, t, post, "AED");
    SpacesPass(pre, noAed, post, "INR");
    FiltersDropSpaces(pre, RemoveCaseless(noAed, "INR"), post);
  }

  /** Whatever the text, toNumber reads the value of what stripping the markers leaves; an
      empty or all-space text strips to nothing, which reads as 0 like the blank case. */
  lemma ReadStripped(s: string)
    ensures ToNumber(Some(s)) == SignedValue(Unwrap(StripMarkers(s)))
  {
    StripTrim(s);
    if Trim(s) == "" {
      assert StripMarkers("") == "";
      ParseNoDigits("");
    }
  }

  /** Two texts whose markers strip down to the same characters read as the same value. */
  lemma StripDecides(s: string, t: string)
    requires StripMarkers(s) == StripMarkers(t)
    ensures ToNumber(Some(s)) == ToNumber(Some(t))
  {
    ReadStripped(s);
    ReadStripped(t);
  }

  /** A currency marker in front of clean amount text does not change its value. */
  lemma MarkerIgnored(m: string, b: string)
    requires IsMarker(m) && CleanText(b) && b != []
    ensures ToNumber(Some(Prefix(m) + b)) == ToNumber(Some(b))
  {
    if m == "" {
      assert Prefix(m) + b == b;
    } else if m == [Rupee] {
      ReadRupeeMarked(b);
    } else {
      assert LowerChar(m[0]) == Lower(m)[0];
      if Lower(m) == "aed" {
        AedPrefixGone(m, b);
      } else {
        InrPrefixGone(m, b);
      }
      ReadCodeMarked(m, b);
    }
  }

  /** parseFloat of "-" followed by text that starts with neither a space nor a sign is
      the negation of parseFloat of that text. */
  lemma ParseNegate(u: string)
    requires u == [] || (!IsSpace(u[0]) && u[0] != '-' && u[0] != '+')
    ensures ParseFloat("-" + u) == Negate(ParseFloat(u))
  {
    var s := "-" + u;
    assert TrimStart(s) == s;
    assert s[1..] == u;
    assert TrimStart(u) == u;
  }

  /** A minus sign in front of a clean literal negates its value. */
  lemma NegatedLiteral(lit: string)
    requires lit == [] || (!IsSpace(lit[0]) && lit[0] != '-' && lit[0] != '+')
    ensures SignedValue(Signed(false, "-" + lit)) == -SignedValue(Signed(false, lit))
  {
    ParseNegate(lit);
  }

  lemma UnwrapBracketed(t: string)
    requires t != [] && !(t[0] == '(' && t[|t| - 1] == ')')
    ensures Unwrap("(" + t + ")") == Signed(true, Unwrap(t).literal)
  {
    var w := "(" + t + ")";
    assert w[1..|w| - 1] == t;
  }

  /** The bracket flag negates whatever the literal reads as. */
  lemma BracketFlag(lit: string)
    ensures SignedValue(Signed(true, lit)) == -SignedValue(Signed(false, lit))
  {
  }

  lemma SignedBrackets(t: string)
    requires t != [] && !(t[0] == '(' && t[|t| - 1] == ')')
    ensures SignedValue(Unwrap("(" + t + ")")) == -SignedValue(Unwrap(t))
  {
    UnwrapBracketed(t);
    BracketFlag(Unwrap(t).literal);
  }

  /** Wrapping clean amount text in brackets negates it: "(150.00)" reads as -150. */
  lemma BracketsNegate(t: string)
    requires CleanText(t) && t != []
    requires !(t[0] == '(' && t[|t| - 1] == ')')
    ensures ToNumber(Some("(" + t + ")")) == -ToNumber(Some(t))
  {
    var w := "(" + t + ")";
    assert CleanText(w);
    ToNumberClean(w);
    ToNumberClean(t);
    SignedBrackets(t);
  }

  /** Clean amount text without signs whose sign handling is only comma removal. */
  predicate Unsigned(t: string) {
    && CleanText(t) && t != [] && t[0] != '('
    && forall i :: 0 <= i < |t| ==> t[i] != '-' && t[i] != '+'
  }

  lemma UnwrapUnsigned(t: string)
    requires Unsigned(t)
    ensures Unwrap(t) == Signed(false, Filter(t, c => c != ','))
    ensures var lit := Filter(t, c => c != ',');
      lit == [] || (!IsSpace(lit[0]) && lit[0] != '-' && lit[0] != '+')
  {
    var lit := Filter(t, c => c != ',');
    FilterContents(t, c => c != ',');
    if lit != [] {
      assert lit[0] in t;
    }
  }

  lemma SignedTrailing(t: string)
    requires Unsigned(t)
    ensures SignedValue(Unwrap(t + "-")) == -SignedValue(Unwrap(t))
  {
    var w := t + "-";
    UnwrapUnsigned(t);
    assert w[..|w| - 1] == t;
    NegatedLiteral(Filter(t, c => c != ','));
  }

  lemma SignedLeading(t: string)
    requires Unsigned(t)
    ensures SignedValue(Unwrap("-" + t)) == -SignedValue(Unwrap(t))
  {
    var w := "-" + t;
    UnwrapUnsigned(t);
    assert w[|w| - 1] == t[|t| - 1];
    FilterAppend("-", t, c => c != ',');
    NegatedLiteral(Filter(t, c => c != ','));
  }

  /** A trailing minus negates: "150.00-" reads as -150. */
  lemma TrailingMinusNegates(t: string)
    requires Unsigned(t)
    ensures ToNumber(Some(t + "-")) == -ToNumber(Some(t))
  {
    var w := t + "-";
    assert CleanText(w);
    ToNumberClean(w);
    ToNumberClean(t);
    SignedTrailing(t);
  }

  /** A leading minus negates: "-150.00" reads as -150. */
  lemma LeadingMinusNegates(t: string)
    requires Unsigned(t)
    ensures ToNumber(Some("-" + t)) == -ToNumber(Some(t))
  {
    var w := "-" + t;
    assert CleanText(w);
    ToNumberClean(w);
    ToNumberClean(t);
    SignedLeading(t);
  }

  /** The run is the longest all-digit prefix. */
  lemma {:induction false} DigitRunSpec(s: string)
    ensures AllDigits(s[..DigitRun(s)])
    ensures DigitRun(s) == |s| || !IsDigit(s[DigitRun(s)])
    decreases |s|
  {
    if |s| > 0 && IsDigit(s[0]) {
      DigitRunSpec(s[1..]);
      var n := DigitRun(s[1..]);
      assert s[..n + 1] == [s[0]] + s[1..][..n];
    }
  }

  lemma {:induction false} DigitRunAppend(ds: string, rest: string)
    requires AllDigits(ds)
    ensures DigitRun(ds + rest) == |ds| + DigitRun(rest)
    decreases |ds|
  {
    if ds != [] {
      assert (ds + rest)[0] == ds[0];
      assert (ds + rest)[1..] == ds[1..] + rest;
      DigitRunAppend(ds[1..], rest);
    } else {
      assert ds + rest == rest;
    }
  }

  /** The decimal point and fraction digits, or nothing when there are none. */
  function Point(frac: string): string {
    if frac == "" then "" else "." + frac
  }

  lemma UnsignedWhole(ds: string)
    requires AllDigits(ds) && ds != []
    ensures UnsignedDecimal(ds) == Some(DigitsValue(ds) as real)
  {
    DigitRunAppend(ds, "");
    assert ds + "" == ds;
    assert ds[..|ds|] == ds;
    assert ds[|ds|..] == "";
    assert Exponent("") == 0;
  }

  lemma UnsignedFraction(ds: string, frac: string)
    requires AllDigits(ds) && ds != [] && AllDigits(frac) && frac != []
    ensures UnsignedDecimal(ds + ("." + frac)) == Some(DigitsValue(ds) as real + FracValue(frac))
  {
    var pf := "." + frac;
    var u := ds + pf;
    DigitRunAppend(ds, pf);
    assert DigitRun(pf) == 0;
    assert u[..|ds|] == ds;
    assert u[|ds|..] == pf;
    assert pf[1..] == frac;
    FractionTail(ds, frac);
  }

  lemma FractionTail(ds: string, frac: string)
    requires AllDigits(ds) && ds != [] && AllDigits(frac) && frac != []
    ensures AfterPoint(ds, frac) == Some(DigitsValue(ds) as real + FracValue(frac))
  {
    DigitRunAppend(frac, "");
    assert frac + "" == frac;
    assert frac[..|frac|] == frac;
    assert frac[|frac|..] == "";
    assert Exponent("") == 0;
  }

  /** parseFloat of text starting with a digit is its unsigned decimal prefix. */
  lemma ParseFromDigit(u: string)
    requires u != [] && IsDigit(u[0])
    ensures UnsignedDecimal(u).Some? ==> ParseFloat(u) == Finite(UnsignedDecimal(u).value)
  {
    assert TrimStart(u) == u;
    assert !(|u| >= 8 && u[..8] == "Infinity") by {
      if |u| >= 8 {
        assert u[..8][0] == u[0];
      }
    }
  }

  lemma ParseWhole(ds: string)
    requires AllDigits(ds) && ds != []
    ensures ParseFloat(ds) == Finite(DigitsValue(ds) as real)
  {
    UnsignedWhole(ds);
    ParseFromDigit(ds);
  }

  lemma ParseFraction(ds: string, frac: string)
    requires AllDigits(ds) && ds != [] && AllDigits(frac) && frac != []
    ensures ParseFloat(ds + ("." + frac)) == Finite(DigitsValue(ds) as real + FracValue(frac))
  {
    var s := ds + ("." + frac);
    assert s[0] == ds[0];
    UnsignedFraction(ds, frac);
    ParseFromDigit(s);
  }

  /** parseFloat reads "DDD" and "DDD.FF" as their decimal values. */
  lemma ParseDecimal(ds: string, frac: string)
    requires AllDigits(ds) && ds != [] && AllDigits(frac)
    ensures ParseFloat(ds + Point(frac)) == Finite(DigitsValue(ds) as real + FracValue(frac))
  {
    if frac == "" {
      assert ds + Point(frac) == ds;
      ParseWhole(ds);
    } else {
      assert ds + Point(frac) == ds + ("." + frac);
      ParseFraction(ds, frac);
    }
  }

  /** The whole part of a rendered amount: digits with optional thousands separators. */
  predicate IsGrouped(whole: string) {
    && (forall i :: 0 <= i < |whole| ==> IsDigit(whole[i]) || whole[i] == ',')
    && exists i :: 0 <= i < |whole| && IsDigit(whole[i])
  }

  /** The digits of a grouped whole part, separators removed. */
  function Digits(whole: string): (ds: string)
    requires IsGrouped(whole)
    ensures AllDigits(ds) && ds != []
  {
    var ds := Filter(whole, c => c != ',');
    FilterContents(whole, c => c != ',');
    assert forall i :: 0 <= i < |ds| ==> ds[i] in whole;
    var k :| 0 <= k < |whole| && IsDigit(whole[k]);
    assert whole[k] in ds;
    ds
  }

  /** How a rendered amount shows its sign. */
  datatype Notation = Plain | LeadingMinus | Brackets | TrailingMinus

  function Sign(n: Notation): real {
    if n == Plain then 1.0 else -1.0
  }

  /** The magnitude of a rendered amount in one of the four sign notations. */
  function Body(n: Notation, mag: string): string {
    match n
    case Plain => mag
    case LeadingMinus => "-" + mag
    case Brackets => "(" + mag + ")"
    case TrailingMinus => mag + "-"
  }

  /** A well-formed spreadsheet amount: optional currency marker and space, then the
      magnitude in one of the four sign notations. */
  function Render(m: string, n: Notation, whole: string, frac: string): string {
    Prefix(m) + Body(n, whole + Point(frac))
  }

  lemma MagnitudeText(whole: string, frac: string)
    requires IsGrouped(whole) && AllDigits(frac)
    ensures Unsigned(whole + Point(frac))
    ensures forall i :: 0 <= i < |whole + Point(frac)| ==>
      var c := (whole + Point(frac))[i]; IsDigit(c) || c == ',' || c == '.'
  {
    var mag := whole + Point(frac);
    forall i | 0 <= i < |mag|
      ensures IsDigit(mag[i]) || mag[i] == ',' || mag[i] == '.'
    {
      if i >= |whole| && i > |whole| {
        assert mag[i] == frac[i - |whole| - 1];
      }
    }
  }

  lemma MagnitudeSigned(whole: string, frac: string)
    requires IsGrouped(whole) && AllDigits(frac)
    ensures SignedValue(Unwrap(whole + Point(frac))) == DigitsValue(Digits(whole)) as real + FracValue(frac)
  {
    var mag := whole + Point(frac);
    MagnitudeText(whole, frac);
    UnwrapUnsigned(mag);
    FilterAppend(whole, Point(frac), c => c != ',');
    FilterAll(Point(frac), c => c != ',');
    ParseDecimal(Digits(whole), frac);
  }

  /** A grouped magnitude such as "1,200.50" reads as its decimal value. */
  lemma MagnitudeValue(whole: string, frac: string)
    requires IsGrouped(whole) && AllDigits(frac)
    ensures ToNumber(Some(whole + Point(frac))) == DigitsValue(Digits(whole)) as real + FracValue(frac)
  {
    MagnitudeText(whole, frac);
    ToNumberClean(whole + Point(frac));
    MagnitudeSigned(whole, frac);
  }

  lemma BodyClean(n: Notation, mag: string)
    requires Unsigned(mag)
    ensures CleanText(Body(n, mag)) && Body(n, mag) != []
  {
  }

  lemma BodySigned(n: Notation, mag: string)
    requires Unsigned(mag)
    ensures SignedValue(Unwrap(Body(n, mag))) == Sign(n) * SignedValue(Unwrap(mag))
  {
    match n
    case Plain =>
    case LeadingMinus => SignedLeading(mag);
    case Brackets => SignedBrackets(mag);
    case TrailingMinus => SignedTrailing(mag);
  }

  lemma BodyValue(n: Notation, whole: string, frac: string)
    requires IsGrouped(whole) && AllDigits(frac)
    ensures var body := Body(n, whole + Point(frac));
      && CleanText(body) && body != []
      && SignedValue(Unwrap(body)) == Sign(n) * (DigitsValue(Digits(whole)) as real + FracValue(frac))
  {
    var mag := whole + Point(frac);
    MagnitudeText(whole, frac);
    MagnitudeSigned(whole, frac);
    BodyClean(n, mag);
    BodySigned(n, mag);
  }

  /** Round trip: every well-formed rendered amount reads back as the signed decimal it
      shows, e.g. "₹ 1,200" as 1200, "(150.00)" and "150.00-" as -150. */
  lemma ToNumberRender(m: string, n: Notation, whole: string, frac: string)
    requires IsMarker(m) && IsGrouped(whole) && AllDigits(frac)
    ensures ToNumber(Some(Render(m, n, whole, frac)))
         == Sign(n) * (DigitsValue(Digits(whole)) as real + FracValue(frac))
  {
    var body := Body(n, whole + Point(frac));
    BodyValue(n, whole, frac);
    MarkerIgnored(m, body);
    ToNumberClean(body);
  }

  lemma Facts150()
    ensures IsGrouped("150") && AllDigits("00")
    ensures DigitsValue(Digits("150")) as real + FracValue("00") == 150.0
  {
    assert IsDigit("150"[0]);
    assert Digits("150") == "150" by { FilterAll("150", c => c != ','); }
    assert DigitsValue("150") == 150 by {
      assert "150"[..2] == "15";
      assert "15"[..1] == "1";
      assert "1"[..0] == "";
    }
    assert FracValue("00") == 0.0 by {
      assert "00"[1..] == "0";
      assert "0"[1..] == "";
    }
  }

  /** "(150.00)" reads as -150. */
  lemma ToNumberBracketExample()
    ensures ToNumber(Some("(150.00)")) == -150.0
  {
    Facts150();
    assert Render("", Brackets, "150", "00") == "(150.00)";
    ToNumberRender("", Brackets, "150", "00");
  }

  /** "150.00-" reads as -150. */
  lemma ToNumberTrailingExample()
    ensures ToNumber(Some("150.00-")) == -150.0
  {
    Facts150();
    assert Render("", TrailingMinus, "150", "00") == "150.00-";
    ToNumberRender("", TrailingMinus, "150", "00");
  }

  lemma Facts1200()
    ensures IsGrouped("1,200") && AllDigits("")
    ensures DigitsValue(Digits("1,200")) as real + FracValue("") == 1200.0
  {
    assert IsDigit("1,200"[0]);
    assert Digits("1,200") == "1200" by {
      assert "1,200"[1..] == ",200";
      assert ",200"[1..] == "200";
      FilterAll("200", c => c != ',');
    }
    assert DigitsValue("1200") == 1200 by {
      assert "1200"[..3] == "120";
      assert "120"[..2] == "12";
      assert "12"[..1] == "1";
      assert "1"[..0] == "";
    }
  }

  /** A marked, comma-grouped whole number reads as its digits' value. */
  lemma ToNumberGrouped(m: string, whole: string, w: string)
    requires IsMarker(m) && IsGrouped(whole) && w == Prefix(m) + whole
    ensures ToNumber(Some(w)) == DigitsValue(Digits(whole)) as real
  {
    assert FracValue("") == 0.0;
    assert Render(m, Plain, whole, "") == w;
    ToNumberRender(m, Plain, whole, "");
  }

  /** "₹ 1,200" reads as 1200. */
  lemma ToNumberRupeeExample()
    ensures ToNumber(Some([Rupee] + " 1,200")) == 1200.0
  {
    Facts1200();
    ToNumberGrouped([Rupee], "1,200", [Rupee] + " 1,200");
  }

  /** "" and "garbage" read as 0. */
  lemma ToNumberZeroExamples()
    ensures ToNumber(Some("")) == 0.0
    ensures ToNumber(Some("garbage")) == 0.0
  {
    ToNumberBlank(Some(""));
    ToNumberNoDigits("garbage");
  }

  /** A plain run of digits is its own grouped whole part. */
  lemma PlainWhole(ds: string)
    requires AllDigits(ds) && ds != []
    ensures IsGrouped(ds) && Digits(ds) == ds
  {
    assert IsDigit(ds[0]);
    FilterAll(ds, c => c != ',');
  }

  lemma Value1000()
    ensures DigitsValue("1000") == 1000
  {
    assert "1000"[..3] == "100";
    assert "100"[..2] == "10";
    assert "10"[..1] == "1";
    assert "1"[..0] == "";
  }

  lemma Value500()
    ensures DigitsValue("500") == 500
  {
    assert "500"[..2] == "50";
    assert "50"[..1] == "5";
    assert "5"[..0] == "";
  }

  lemma Value300()
    ensures DigitsValue("300") == 300
  {
    assert "300"[..2] == "30";
    assert "30"[..1] == "3";
    assert "3"[..0] == "";
  }

  lemma Value200()
    ensures DigitsValue("200") == 200
  {
    assert "200"[..2] == "20";
    assert "20"[..1] == "2";
    assert "2"[..0] == "";
  }

  /** A plain whole number reads as its value. */
  lemma ToNumberWhole(ds: string)
    requires AllDigits(ds) && ds != []
    ensures ToNumber(Some(ds)) == DigitsValue(ds) as real
  {
    PlainWhole(ds);
    assert FracValue("") == 0.0;
    assert Render("", Plain, ds, "") == ds;
    ToNumberRender("", Plain, ds, "");
  }

  /** A bracketed whole number reads as its negated value. */
  lemma ToNumberWholeBracketed(ds: string, w: string)
    requires AllDigits(ds) && ds != [] && w == "(" + ds + ")"
    ensures ToNumber(Some(w)) == -(DigitsValue(ds) as real)
  {
    PlainWhole(ds);
    assert FracValue("") == 0.0;
    assert Render("", Brackets, ds, "") == w;
    ToNumberRender("", Brackets, ds, "");
  }

  /** "1000" reads as 1000. */
  lemma ToNumber1000()
    ensures ToNumber(Some("1000")) == 1000.0
  {
    Value1000();
    ToNumberWhole("1000");
  }

  /** "500" reads as 500. */
  lemma ToNumber500()
    ensures ToNumber(Some("500")) == 500.0
  {
    Value500();
    ToNumberWhole("500");
  }

  /** "300" reads as 300. */
  lemma ToNumber300()
    ensures ToNumber(Some("300")) == 300.0
  {
    Value300();
    ToNumberWhole("300");
  }

  /** "(200)" reads as -200. */
  lemma ToNumberBracketed200()
    ensures ToNumber(Some("(200)")) == -200.0
  {
    Value200();
    ToNumberWholeBracketed("200", "(200)");
  }
}
