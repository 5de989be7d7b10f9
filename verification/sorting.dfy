/**
 * The table orderings: `applySorting` (public/app.js:235-244) on sheet rows. JavaScript's
 * `Array.prototype.sort` is stable, so a comparator `key(a) - key(b)` orders by ascending
 * key and keeps rows with equal keys in their original order; `key(b) - key(a)` is the same
 * sort on the negated key.
 */
module Sorting {
  import opened Wrappers
  import opened Seqs
  import opened Rows
  import opened Fields

  /** Puts `x` in front of the first element whose key is at least `x`'s. */
  function Insert<T>(x: T, s: seq<T>, key: T -> real): (r: seq<T>)
    ensures |r| == |s| + 1
  {
    if s == [] then [x]
    else if key(x) <= key(s[0]) then [x] + s
    else [s[0]] + Insert(x, s[1..], key)
  }

  /** Stable sort by ascending key. */
  function SortBy<T>(s: seq<T>, key: T -> real): (r: seq<T>)
    ensures |r| == |s|
  {
    if s == [] then [] else Insert(s[0], SortBy(s[1..], key), key)
  }

  predicate SortedBy<T>(s: seq<T>, key: T -> real) {
    forall i, j :: 0 <= i < j < |s| ==> key(s[i]) <= key(s[j])
  }

  lemma {:induction false} InsertPermutes<T>(x: T, s: seq<T>, key: T -> real)
    ensures multiset(Insert(x, s, key)) == multiset(s) + multiset{x}
  {
    if s != [] && key(x) > key(s[0]) {
      InsertPermutes(x, s[1..], key);
      assert s == [s[0]] + s[1..];
    }
  }

  lemma {:induction false} InsertSorted<T>(x: T, s: seq<T>, key: T -> real)
    requires SortedBy(s, key)
    ensures SortedBy(Insert(x, s, key), key)
    ensures forall i :: 0 <= i < |Insert(x, s, key)| ==> Insert(x, s, key)[i] == x || Insert(x, s, key)[i] in s
  {
    if s != [] && key(x) > key(s[0]) {
      var rest := Insert(x, s[1..], key);
      InsertSorted(x, s[1..], key);
      forall i | 0 <= i < |rest|
        ensures key(s[0]) <= key(rest[i])
      {
        if rest[i] != x {
          var j :| 0 <= j < |s[1..]| && s[1..][j] == rest[i];
          assert s[1..][j] == s[j + 1];
        }
      }
    }
  }

  /** The result holds exactly the input's elements, each as often. */
  lemma {:induction false} SortByPermutes<T>(s: seq<T>, key: T -> real)
    ensures multiset(SortBy(s, key)) == multiset(s)
  {
    if s != [] {
      SortByPermutes(s[1..], key);
      InsertPermutes(s[0], SortBy(s[1..], key), key);
      assert s == [s[0]] + s[1..];
    }
  }

  lemma {:induction false} SortBySorted<T>(s: seq<T>, key: T -> real)
    ensures SortedBy(SortBy(s, key), key)
  {
    if s != [] {
      SortBySorted(s[1..], key);
      InsertSorted(s[0], SortBy(s[1..], key), key);
    }
  }

  /** The elements of `s` whose key is `k`, in order. */
  function Ties<T(==)>(s: seq<T>, key: T -> real, k: real): seq<T> {
    Filter(s, y => key(y) == k)
  }

  /** Inserting `x` adds it in front of the elements with its key and leaves every other key's
      elements as they were. */
  lemma {:induction false} InsertKeepsTies<T>(x: T, s: seq<T>, key: T -> real, k: real)
    ensures Ties(Insert(x, s, key), key, k) == (if key(x) == k then [x] else []) + Ties(s, key, k)
  {
    if s != [] && key(x) > key(s[0]) {
      InsertKeepsTies(x, s[1..], key, k);
      assert Insert(x, s, key) == [s[0]] + Insert(x, s[1..], key);
    }
  }

  /** Stability: the elements sharing any one key keep their original relative order. */
  lemma {:induction false} SortByStable<T>(s: seq<T>, key: T -> real, k: real)
    ensures Ties(SortBy(s, key), key, k) == Ties(s, key, k)
  {
    if s != [] {
      SortByStable(s[1..], key, k);
      InsertKeepsTies(s[0], SortBy(s[1..], key), key, k);
    }
  }

  /** The ascending key each value of the sort dropdown sorts by; `None` for any other value,
      which leaves the rows as they are. The page reads amounts with `Amount`. */
  function SortKey(sortValue: string, instant: string -> int, amount: Row -> real): Option<Row -> real> {
    if sortValue == "date_desc" then Some(r => -RowDate(instant, r))
    else if sortValue == "date_asc" then Some(r => RowDate(instant, r))
    else if sortValue == "amount_desc" then Some(r => -amount(r))
    else if sortValue == "amount_asc" then Some(r => amount(r))
    else None
  }

  /** `applySorting(data, sortValue)`: a sorted copy of the rows. */
  function ApplySorting(data: seq<Row>, sortValue: string, instant: string -> int, amount: Row -> real): (r: seq<Row>)
    ensures |r| == |data|
  {
    match SortKey(sortValue, instant, amount)
    case None => data
    case Some(key) => SortBy(data, key)
  }

  /** The sorted rows are a permutation of the input, in the order the dropdown asks for; an
      unknown sort value leaves them untouched. */
  lemma ApplySortingSpec(data: seq<Row>, sortValue: string, instant: string -> int, amount: Row -> real)
    ensures var r := ApplySorting(data, sortValue, instant, amount);
      && multiset(r) == multiset(data)
      && (sortValue == "amount_asc" ==> forall i, j :: 0 <= i < j < |r| ==> amount(r[i]) <= amount(r[j]))
      && (sortValue == "amount_desc" ==> forall i, j :: 0 <= i < j < |r| ==> amount(r[i]) >= amount(r[j]))
      && (sortValue == "date_asc" ==> forall i, j :: 0 <= i < j < |r| ==> RowDate(instant, r[i]) <= RowDate(instant, r[j]))
      && (sortValue == "date_desc" ==> forall i, j :: 0 <= i < j < |r| ==> RowDate(instant, r[i]) >= RowDate(instant, r[j]))
      && (SortKey(sortValue, instant, amount).None? ==> r == data)
  {
    match SortKey(sortValue, instant, amount)
    case None =>
    case Some(key) =>
      SortByPermutes(data, key);
      SortBySorted(data, key);
  }

  /** Rows the chosen key cannot tell apart stay in their original order. */
  lemma ApplySortingStable(data: seq<Row>, sortValue: string, instant: string -> int, amount: Row -> real, k: real)
    requires SortKey(sortValue, instant, amount).Some?
    ensures var key := SortKey(sortValue, instant, amount).value;
      Ties(ApplySorting(data, sortValue, instant, amount), key, k) == Ties(data, key, k)
  {
    var key := SortKey(sortValue, instant, amount).value;
    assert ApplySorting(data, sortValue, instant, amount) == SortBy(data, key);
    SortByStable(data, key, k);
  }
}
