/**
 * Sorted lists of distinct strings: what `Array.from(new Set(...)).sort((a, b) =>
 * a.localeCompare(b))` yields for the dropdown options, the balance cards and the chart
 * labels. The comparison is `Less`, code-point order.
 */
module Order {
  import opened Text

  /** Ascending in `Less` order, hence without repeats. */
  predicate StrictlySorted(s: seq<string>) {
    forall i, j :: 0 <= i < j < |s| ==> Less(s[i], s[j])
  }

  /** Adds `x` at its place in a strictly sorted list, unless it is already there. */
  function InsertUnique(x: string, s: seq<string>): (r: seq<string>)
    ensures |r| <= |s| + 1
  {
    if s == [] then [x]
    else if x == s[0] then s
    else if Less(x, s[0]) then [x] + s
    else [s[0]] + InsertUnique(x, s[1..])
  }

  /** The distinct values of `xs`, sorted. */
  function SortUnique(xs: seq<string>): (r: seq<string>)
    ensures |r| <= |xs|
  {
    if xs == [] then [] else InsertUnique(xs[0], SortUnique(xs[1..]))
  }

  lemma {:induction false} InsertUniqueSpec(x: string, s: seq<string>)
    requires StrictlySorted(s)
    ensures StrictlySorted(InsertUnique(x, s))
    ensures forall y :: y in InsertUnique(x, s) <==> y == x || y in s
  {
    if s != [] && x != s[0] && !Less(x, s[0]) {
      var rest := InsertUnique(x, s[1..]);
      InsertUniqueSpec(x, s[1..]);
      LessTotal(x, s[0]);
      forall i | 0 <= i < |rest|
        ensures Less(s[0], rest[i])
      {
        if rest[i] != x {
          assert rest[i] in rest;
          assert rest[i] in s[1..];
          var j :| 0 <= j < |s[1..]| && s[1..][j] == rest[i];
          assert s[1..][j] == s[j + 1];
        }
      }
      assert s == [s[0]] + s[1..];
    } else if s != [] && Less(x, s[0]) {
      forall j | 0 <= j < |s|
        ensures Less(x, s[j])
      {
        if j > 0 {
          LessTransitive(x, s[0], s[j]);
        }
      }
    }
  }

  /** The result lists each value of `xs` exactly once, in ascending order. */
  lemma {:induction false} SortUniqueSpec(xs: seq<string>)
    ensures StrictlySorted(SortUnique(xs))
    ensures forall y :: y in SortUnique(xs) <==> y in xs
  {
    if xs != [] {
      SortUniqueSpec(xs[1..]);
      InsertUniqueSpec(xs[0], SortUnique(xs[1..]));
      assert xs == [xs[0]] + xs[1..];
    }
  }

  /** A strictly sorted list is determined by its elements: whatever order the values were
      collected in, the sorted list of distinct values is the same. */
  lemma {:induction false} StrictlySortedUnique(a: seq<string>, b: seq<string>)
    requires StrictlySorted(a) && StrictlySorted(b)
    requires forall y :: y in a <==> y in b
    ensures a == b
    decreases |a|
  {
    assert a != [] ==> a[0] in a;
    assert b != [] ==> b[0] in b;
    if a != [] && b != [] {
      assert a[0] in b;
      assert b[0] in a;
      if a[0] != b[0] {
        var i :| 0 < i < |b| && b[i] == a[0];
        var j :| 0 < j < |a| && a[j] == b[0];
        LessTransitive(a[0], a[j], b[i]);
        LessIrreflexive(a[0]);
      }
      forall y
        ensures y in a[1..] <==> y in b[1..]
      {
        if y in a[1..] {
          var k :| 0 <= k < |a[1..]| && a[1..][k] == y;
          assert Less(a[0], a[k + 1]);
          LessIrreflexive(y);
          assert y in b;
        }
        if y in b[1..] {
          var k :| 0 <= k < |b[1..]| && b[1..][k] == y;
          assert Less(b[0], b[k + 1]);
          LessIrreflexive(y);
          assert y in a;
        }
      }
      StrictlySortedUnique(a[1..], b[1..]);
      assert a == [a[0]] + a[1..] && b == [b[0]] + b[1..];
    }
  }
}
