/**
 * The string primitives the dashboard relies on: `trim`, `toLowerCase`,
 * `includes`, `join`, `split` and a case-insensitive global `replace`.
 * Strings are sequences of code points.
 */
module Text {
  import opened Seqs

  /** The code points JavaScript's `trim` and the regular-expression class `\s` remove:
      WhiteSpace (tab, vertical tab, form feed, space, no-break space, byte-order mark,
      the Zs category) and LineTerminator (line feed, carriage return, U+2028, U+2029). */
  predicate IsSpace(c: char) {
    || c == '\t' || c == '\n' || c == '\U{000B}' || c == '\U{000C}' || c == '\r'
    || c == ' ' || c == '\U{00A0}' || c == '\U{1680}'
    || ('\U{2000}' <= c <= '\U{200A}')
    || c == '\U{2028}' || c == '\U{2029}' || c == '\U{202F}' || c == '\U{205F}'
    || c == '\U{3000}' || c == '\U{FEFF}'
  }

  /** `trimStart`: drops the leading spaces. */
  function TrimStart(s: string): (r: string)
    ensures |r| <= |s|
  {
    if |s| > 0 && IsSpace(s[0]) then TrimStart(s[1..]) else s
  }

  /** `trimEnd`: drops the trailing spaces. */
  function TrimEnd(s: string): (r: string)
    ensures |r| <= |s|
  {
    if |s| > 0 && IsSpace(s[|s| - 1]) then TrimEnd(s[..|s| - 1]) else s
  }

  /** The result of `trimStart` is the suffix of `s` that starts at its first non-space. */
  lemma {:induction false} TrimStartSpec(s: string)
    ensures var r := TrimStart(s);
      && r == s[|s| - |r|..]
      && (r == [] || !IsSpace(r[0]))
      && forall i :: 0 <= i < |s| - |r| ==> IsSpace(s[i])
    decreases |s|
  {
    if |s| > 0 && IsSpace(s[0]) {
      TrimStartSpec(s[1..]);
      var r := TrimStart(s[1..]);
      assert s[1..][|s| - 1 - |r|..] == s[|s| - |r|..];
      forall i | 0 <= i < |s| - |r|
        ensures IsSpace(s[i])
      {
        if i > 0 {
          assert s[i] == s[1..][i - 1];
        }
      }
    }
  }

  /** The result of `trimEnd` is the prefix of `s` that ends at its last non-space. */
  lemma {:induction false} TrimEndSpec(s: string)
    ensures var r := TrimEnd(s);
      && r == s[..|r|]
      && (r == [] || !IsSpace(r[|r| - 1]))
      && forall i :: |r| <= i < |s| ==> IsSpace(s[i])
    decreases |s|
  {
    if |s| > 0 && IsSpace(s[|s| - 1]) {
      TrimEndSpec(s[..|s| - 1]);
      var r := TrimEnd(s[..|s| - 1]);
      assert s[..|s| - 1][..|r|] == s[..|r|];
      forall i | |r| <= i < |s|
        ensures IsSpace(s[i])
      {
        if i < |s| - 1 {
          assert s[i] == s[..|s| - 1][i];
        }
      }
    }
  }

  /** `String.prototype.trim`. */
  function Trim(s: string): (r: string)
  {
    TrimEnd(TrimStart(s))
  }

  /** A string `trim` leaves alone: it neither starts nor ends with a space. */
  predicate Trimmed(s: string) {
    s == [] || (!IsSpace(s[0]) && !IsSpace(s[|s| - 1]))
  }

  /** `trim` yields exactly the slice of `s` between its outer runs of spaces. */
  lemma TrimSlice(s: string)
    ensures Trimmed(Trim(s))
    ensures exists i :: OccursAt(s, Trim(s), i)
    ensures Trim(s) == [] <==> forall i :: 0 <= i < |s| ==> IsSpace(s[i])
  {
    var t := TrimStart(s);
    var r := TrimEnd(t);
    TrimStartSpec(s);
    TrimEndSpec(t);
    var i := |s| - |t|;
    assert r == s[i..i + |r|] by {
      assert t == s[i..];
      assert r == t[..|r|];
    }
    assert OccursAt(s, r, i);
    if r != [] {
      assert r[0] == t[0] == s[i];
      assert !IsSpace(s[i]);
    } else {
      assert t == [];
    }
  }

  /** A string with no surrounding spaces is its own trim. */
  lemma TrimTrimmed(s: string)
    requires Trimmed(s)
    ensures Trim(s) == s
  {
  }

  /** Trimming is idempotent. */
  lemma TrimIdempotent(s: string)
    ensures Trim(Trim(s)) == Trim(s)
  {
    TrimSlice(s);
    TrimTrimmed(Trim(s));
  }

  /** `toLowerCase` on one code point; only the ASCII letters A-Z are folded. */
  function LowerChar(c: char): char {
    if 'A' <= c <= 'Z' then (c as int + 32) as char else c
  }

  /** `String.prototype.toLowerCase`, restricted to ASCII letters. */
  function Lower(s: string): (r: string)
    ensures |r| == |s|
    ensures forall i :: 0 <= i < |s| ==> r[i] == LowerChar(s[i])
  {
    seq(|s|, i requires 0 <= i < |s| => LowerChar(s[i]))
  }

  /** `q` occurs in `s` starting at position `i`. */
  predicate OccursAt(s: string, q: string, i: int) {
    0 <= i <= |s| - |q| && s[i..i + |q|] == q
  }

  /** `s.includes(q)`: `q` occurs in `s` as a contiguous block. */
  predicate Contains(s: string, q: string) {
    exists i | 0 <= i <= |s| - |q| :: OccursAt(s, q, i)
  }

  /** Every string contains the empty string. */
  lemma ContainsEmpty(s: string)
    ensures Contains(s, "")
  {
    assert OccursAt(s, "", 0);
  }

  /** Containment is transitive: whatever contains `b` contains every block of `b`. */
  lemma ContainsTransitive(a: string, b: string, c: string)
    requires Contains(a, b) && Contains(b, c)
    ensures Contains(a, c)
  {
    var i :| 0 <= i <= |a| - |b| && OccursAt(a, b, i);
    var j :| 0 <= j <= |b| - |c| && OccursAt(b, c, j);
    assert 0 <= i <= |a| - |b| && a[i..i + |b|] == b;
    assert 0 <= j <= |b| - |c| && b[j..j + |c|] == c;
    forall k | 0 <= k < |c|
      ensures a[i + j + k] == c[k]
    {
      assert a[i + j + k] == a[i..i + |b|][j + k];
      assert b[j + k] == b[j..j + |c|][k];
    }
    assert a[i + j..i + j + |c|] == c;
    assert OccursAt(a, c, i + j);
  }

  /** `Array.prototype.join(sep)`. */
  function Join(xs: seq<string>, sep: string): (r: string)
    ensures xs == [] ==> r == []
    ensures |xs| == 1 ==> r == xs[0]
  {
    if xs == [] then []
    else if |xs| == 1 then xs[0]
    else xs[0] + sep + Join(xs[1..], sep)
  }

  /** Position of the first `c` in `s`, or `|s|` when there is none. */
  function IndexOf(s: string, c: char): (k: nat)
    ensures k <= |s|
    ensures k < |s| ==> s[k] == c
    ensures forall i :: 0 <= i < k ==> s[i] != c
  {
    if s == [] then 0 else if s[0] == c then 0 else 1 + IndexOf(s[1..], c)
  }

  /** `s.split(c)` for a one-character separator: the maximal `c`-free blocks of `s`, in order.
      Like JavaScript, the empty string splits into one empty part. */
  function Split(s: string, c: char): (parts: seq<string>)
    ensures |parts| >= 1
    ensures forall j :: 0 <= j < |parts| ==> c !in parts[j]
    ensures Join(parts, [c]) == s
    ensures parts[0] == s[..IndexOf(s, c)]
    decreases |s|
  {
    var k := IndexOf(s, c);
    if k == |s| then
      assert s[..k] == s;
      [s]
    else
      var rest := Split(s[k + 1..], c);
      assert s == s[..k] + [c] + s[k + 1..];
      [s[..k]] + rest
  }

  /** `s.replace(/pat/gi, "")` for a pattern of ASCII letters: one left-to-right pass that
      deletes every non-overlapping occurrence, matched without regard to case. Text that
      only forms an occurrence after a deletion is kept. */
  function RemoveCaseless(s: string, pat: string): (r: string)
    requires |pat| > 0
    ensures |r| <= |s|
    decreases |s|
  {
    if |s| < |pat| then s
    else if Lower(s[..|pat|]) == Lower(pat) then RemoveCaseless(s[|pat|..], pat)
    else [s[0]] + RemoveCaseless(s[1..], pat)
  }

  /** The pass only deletes: what is left is a subsequence of the input. */
  lemma {:induction false} RemoveCaselessSubseq(s: string, pat: string)
    requires |pat| > 0
    ensures IsSubseq(RemoveCaseless(s, pat), s)
    decreases |s|
  {
    if |s| < |pat| {
      SubseqReflexive(s);
    } else if Lower(s[..|pat|]) == Lower(pat) {
      RemoveCaselessSubseq(s[|pat|..], pat);
      SubseqDropPrefix(RemoveCaseless(s[|pat|..], pat), s, |pat|);
    } else {
      var r := RemoveCaseless(s[1..], pat);
      RemoveCaselessSubseq(s[1..], pat);
      assert ([s[0]] + r)[1..] == r;
      assert s == [s[0]] + s[1..];
    }
  }

  lemma {:induction false} SubseqDropPrefix(r: string, s: string, n: nat)
    requires n <= |s|
    requires IsSubseq(r, s[n..])
    ensures IsSubseq(r, s)
    decreases n
  {
    if n > 0 {
      assert s[1..][n - 1..] == s[n..];
      SubseqDropPrefix(r, s[1..], n - 1);
    }
  }

  /** Nothing is removed from a string none of whose characters matches the pattern's first letter. */
  lemma {:induction false} RemoveCaselessAbsent(s: string, pat: string)
    requires |pat| > 0
    requires forall i :: 0 <= i < |s| ==> LowerChar(s[i]) != LowerChar(pat[0])
    ensures RemoveCaseless(s, pat) == s
    decreases |s|
  {
    if |s| >= |pat| {
      assert Lower(s[..|pat|])[0] != Lower(pat)[0];
      RemoveCaselessAbsent(s[1..], pat);
    }
  }

  /** An occurrence at the very start is deleted and the scan resumes after it. */
  lemma RemoveCaselessLeading(m: string, rest: string, pat: string)
    requires |pat| > 0 && |m| == |pat| && Lower(m) == Lower(pat)
    ensures RemoveCaseless(m + rest, pat) == RemoveCaseless(rest, pat)
  {
    assert (m + rest)[..|pat|] == m;
    assert (m + rest)[|pat|..] == rest;
  }

  lemma LowerAppend(x: string, y: string)
    ensures Lower(x + y) == Lower(x) + Lower(y)
  {
    assert |Lower(x + y)| == |Lower(x) + Lower(y)|;
    forall i | 0 <= i < |x + y|
      ensures Lower(x + y)[i] == (Lower(x) + Lower(y))[i]
    {
      if i >= |x| {
        assert (x + y)[i] == y[i - |x|];
      }
    }
  }

  /** No proper suffix of the pattern is also a prefix of it, case ignored ("AED" and "INR"
      have none): an occurrence cannot start part-way through another. */
  predicate NoBorder(pat: string) {
    forall k :: 0 < k < |pat| ==> Lower(pat)[k..] != Lower(pat)[..|pat| - k]
  }

  /** Text shorter than a border-free pattern, followed by an occurrence, does not start an
      occurrence itself. */
  lemma ShortNoMatch(a: string, m: string, pat: string)
    requires 0 < |a| < |pat| && NoBorder(pat) && |m| == |pat| && Lower(m) == Lower(pat)
    ensures Lower((a + m)[..|pat|]) != Lower(pat)
  {
    var n, k := |pat|, |a|;
    assert (a + m)[..n] == a + m[..n - k];
    LowerAppend(a, m[..n - k]);
    assert Lower(m[..n - k]) == Lower(m)[..n - k];
    assert Lower((a + m)[..n])[k..] == Lower(pat)[..n - k];
    assert Lower(pat)[k..] != Lower(pat)[..n - k];
  }

  /** Before an occurrence of a border-free pattern, text shorter than the pattern is kept
      one character at a time. */
  lemma AroundShortStep(a: string, m: string, b: string, pat: string)
    requires 0 < |a| < |pat| && NoBorder(pat) && |m| == |pat| && Lower(m) == Lower(pat)
    ensures RemoveCaseless(a + m + b, pat) == [a[0]] + RemoveCaseless(a[1..] + m + b, pat)
  {
    ShortNoMatch(a, m, pat);
    SplitAt(a + m, b, |pat|);
    Assoc(a, m, b);
    Assoc(a[1..], m, b);
    MissUncons(a, m + b, pat);
  }

  lemma ShortKept(a: string, pat: string)
    requires 0 < |a| < |pat|
    ensures RemoveCaseless(a, pat) == [a[0]] + RemoveCaseless(a[1..], pat)
  {
    assert a == [a[0]] + a[1..];
  }

  /** When the text is at least as long as the pattern, what follows it does not change the
      decision taken at its first character. */
  lemma AroundMatchStep(a: string, m: string, b: string, pat: string)
    requires 0 < |pat| <= |a| && Lower(a[..|pat|]) == Lower(pat)
    ensures RemoveCaseless(a + m + b, pat) == RemoveCaseless(a[|pat|..] + m + b, pat)
  {
    SplitAt(a, m + b, |pat|);
    Assoc(a, m, b);
    Assoc(a[|pat|..], m, b);
  }

  lemma AroundMissStep(a: string, m: string, b: string, pat: string)
    requires 0 < |pat| <= |a| && Lower(a[..|pat|]) != Lower(pat)
    ensures RemoveCaseless(a + m + b, pat) == [a[0]] + RemoveCaseless(a[1..] + m + b, pat)
  {
    SplitAt(a, m + b, |pat|);
    SplitAt(a, m + b, 1);
    Assoc(a, m, b);
    Assoc(a[1..], m, b);
  }

  /** An occurrence of a border-free pattern is deleted wherever it stands: the text before it
      and the text after it come out as if each were scanned on its own. */
  lemma {:induction false} RemoveAround(a: string, m: string, b: string, pat: string)
    requires |pat| > 0 && NoBorder(pat) && |m| == |pat| && Lower(m) == Lower(pat)
    ensures RemoveCaseless(a + m + b, pat) == RemoveCaseless(a, pat) + RemoveCaseless(b, pat)
    decreases |a|
  {
    var n := |pat|;
    if a == [] {
      assert a + m + b == m + b;
      RemoveCaselessLeading(m, b, pat);
    } else if |a| < n {
      AroundShortStep(a, m, b, pat);
      ShortKept(a, pat);
      RemoveAround(a[1..], m, b, pat);
      ConsGlue(RemoveCaseless(a + m + b, pat), a[0], RemoveCaseless(a[1..] + m + b, pat),
        RemoveCaseless(a[1..], pat), RemoveCaseless(b, pat), RemoveCaseless(a, pat));
    } else if Lower(a[..n]) == Lower(pat) {
      AroundMatchStep(a, m, b, pat);
      RemoveAround(a[n..], m, b, pat);
    } else {
      AroundMissStep(a, m, b, pat);
      RemoveAround(a[1..], m, b, pat);
      ConsGlue(RemoveCaseless(a + m + b, pat), a[0], RemoveCaseless(a[1..] + m + b, pat),
        RemoveCaseless(a[1..], pat), RemoveCaseless(b, pat), RemoveCaseless(a, pat));
    }
  }

  /** Text none of whose characters can start an occurrence passes through unchanged, and the
      scan picks up after it as if it were not there. */
  lemma {:induction false} RemoveCaselessSkip(x: string, r: string, pat: string)
    requires |pat| > 0
    requires forall j :: 0 <= j < |x| ==> LowerChar(x[j]) != LowerChar(pat[0])
    ensures RemoveCaseless(x + r, pat) == x + RemoveCaseless(r, pat)
    decreases |x|
  {
    if x == [] {
      assert x + r == r;
    } else if |x + r| >= |pat| {
      assert Lower((x + r)[..|pat|])[0] == LowerChar(x[0]);
      assert (x + r)[1..] == x[1..] + r;
      RemoveCaselessSkip(x[1..], r, pat);
      assert x == [x[0]] + x[1..];
    }
  }

  /** Text after the last occurrence that shares no letter with the pattern is kept as it is. */
  lemma {:induction false} RemoveCaselessTail(y: string, sp: string, pat: string)
    requires |pat| > 0
    requires forall j, k :: 0 <= j < |sp| && 0 <= k < |pat| ==> LowerChar(sp[j]) != LowerChar(pat[k])
    ensures RemoveCaseless(y + sp, pat) == RemoveCaseless(y, pat) + sp
    decreases |y|
  {
    var n := |pat|;
    if y == [] {
      assert y + sp == sp;
      RemoveCaselessAbsent(sp, pat);
    } else if |y| >= n && Lower(y[..n]) == Lower(pat) {
      SplitAt(y, sp, n);
      RemoveCaselessTail(y[n..], sp, pat);
    } else {
      TailMissStep(y, sp, pat);
      RemoveCaselessTail(y[1..], sp, pat);
      if |y| < n {
        ShortKept(y, pat);
      }
      ConsGlue(RemoveCaseless(y + sp, pat), y[0], RemoveCaseless(y[1..] + sp, pat),
        RemoveCaseless(y[1..], pat), sp, RemoveCaseless(y, pat));
    }
  }

  /** Where no occurrence starts at the first character of `y`, that character is kept. */
  lemma TailMissStep(y: string, sp: string, pat: string)
    requires |pat| > 0 && |y| > 0
    requires forall j, k :: 0 <= j < |sp| && 0 <= k < |pat| ==> LowerChar(sp[j]) != LowerChar(pat[k])
    requires |y| < |pat| || Lower(y[..|pat|]) != Lower(pat)
    ensures RemoveCaseless(y + sp, pat) == [y[0]] + RemoveCaseless(y[1..] + sp, pat)
  {
    if |y + sp| < |pat| {
      ShortUncons(y, sp, pat);
    } else {
      if |y| < |pat| {
        TailNoMatch(y, sp, pat);
      } else {
        SplitAt(y, sp, |pat|);
      }
      MissUncons(y, sp, pat);
    }
  }

  lemma ShortUncons(y: string, sp: string, pat: string)
    requires 0 < |y| && |y + sp| < |pat|
    ensures RemoveCaseless(y + sp, pat) == [y[0]] + RemoveCaseless(y[1..] + sp, pat)
  {
    assert RemoveCaseless(y[1..] + sp, pat) == y[1..] + sp;
    Assoc([y[0]], y[1..], sp);
    assert y == [y[0]] + y[1..];
  }

  lemma MissUncons(y: string, sp: string, pat: string)
    requires 0 < |y| && 0 < |pat| <= |y + sp| && Lower((y + sp)[..|pat|]) != Lower(pat)
    ensures RemoveCaseless(y + sp, pat) == [y[0]] + RemoveCaseless(y[1..] + sp, pat)
  {
    SplitAt(y, sp, 1);
    assert (y + sp)[0] == y[0];
  }

  /** A short text followed by characters foreign to the pattern does not start an occurrence. */
  lemma TailNoMatch(y: string, sp: string, pat: string)
    requires |y| < |pat| <= |y + sp|
    requires forall j, k :: 0 <= j < |sp| && 0 <= k < |pat| ==> LowerChar(sp[j]) != LowerChar(pat[k])
    ensures Lower((y + sp)[..|pat|]) != Lower(pat)
  {
    var n := |pat|;
    assert (y + sp)[..n][|y|] == sp[0];
    assert Lower((y + sp)[..n])[|y|] != Lower(pat)[|y|];
  }

  /** Lexicographic code-point order, the stand-in for `localeCompare(...) < 0`. */
  predicate Less(a: string, b: string)
    decreases |a|
  {
    if a == [] then b != []
    else if b == [] then false
    else if a[0] != b[0] then a[0] < b[0]
    else Less(a[1..], b[1..])
  }

  lemma {:induction false} LessIrreflexive(a: string)
    ensures !Less(a, a)
    decreases |a|
  {
    if a != [] {
      LessIrreflexive(a[1..]);
    }
  }

  lemma {:induction false} LessTransitive(a: string, b: string, c: string)
    requires Less(a, b) && Less(b, c)
    ensures Less(a, c)
    decreases |a|
  {
    if a != [] && b != [] && c != [] && a[0] == b[0] && b[0] == c[0] {
      LessTransitive(a[1..], b[1..], c[1..]);
    }
  }

  lemma {:induction false} LessTotal(a: string, b: string)
    ensures a == b || Less(a, b) || Less(b, a)
    decreases |a|
  {
    if a != [] && b != [] && a[0] == b[0] {
      LessTotal(a[1..], b[1..]);
      if a[1..] == b[1..] {
        assert a == [a[0]] + a[1..] && b == [b[0]] + b[1..];
      }
    }
  }
}
