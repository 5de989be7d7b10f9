/**
 * Running totals per key, as the dashboard keeps them in plain objects: the balance of each
 * payment mode (public/app.js:324-357) and the chart totals per month, mode and group
 * (public/app.js:529-534, 552-557, 573-578). Every row adds its signed amount to the
 * entry named by one of its cells; rows whose cell is empty are skipped.
 */
module Ledgers {
  import opened Wrappers
  import opened Assoc
  import opened Rows
  import opened Fields

  /** Key to running total, in the order the keys were first touched. */
  type Ledger = seq<(string, real)>

  /** `obj[k] || 0`: the total under `k`, 0 when there is none. */
  function Bal(l: Ledger, k: string): real {
    Get(l, k).GetOr(0.0)
  }

  /** `obj[k] = (obj[k] || 0) + d`, equivalently `if (obj[k] === undefined) obj[k] = 0;
      obj[k] += d`. */
  function Add(l: Ledger, k: string, d: real): Ledger {
    Put(l, k, Bal(l, k) + d)
  }

  /** The sum of all the totals. */
  function Total(l: Ledger): real {
    if l == [] then 0.0 else l[0].1 + Total(l[1..])
  }

  /** Adding to one key moves that key's total by `d` and no other. */
  lemma AddBal(l: Ledger, k: string, d: real, k': string)
    ensures Bal(Add(l, k, d), k') == Bal(l, k') + (if k' == k then d else 0.0)
    ensures Get(Add(l, k, d), k').Some? <==> k' == k || Get(l, k').Some?
  {
    PutGet(l, k, Bal(l, k) + d, k');
  }

  /** Overwriting one key's total changes the sum by the difference. */
  lemma {:induction false} PutTotal(l: Ledger, k: string, v: real)
    ensures Total(Put(l, k, v)) == Total(l) - Bal(l, k) + v
  {
    if l != [] && l[0].0 != k {
      PutTotal(l[1..], k, v);
    }
  }

  lemma AddTotal(l: Ledger, k: string, d: real)
    ensures Total(Add(l, k, d)) == Total(l) + d
  {
    PutTotal(l, k, Bal(l, k) + d);
  }

  /** The sum of `amount` over `rows`, left to right: `rows.reduce((s, r) => s + amount(r), 0)`. */
  function Sum(rows: seq<Row>, amount: Row -> real): real {
    if rows == [] then 0.0 else Sum(rows[..|rows| - 1], amount) + amount(rows[|rows| - 1])
  }

  /** The sum of `amount` over the rows whose trimmed `field` cell is `k`. */
  function SumWhere(rows: seq<Row>, field: string, k: string, amount: Row -> real): real {
    if rows == [] then 0.0
    else
      var last := rows[|rows| - 1];
      SumWhere(rows[..|rows| - 1], field, k, amount) + (if Key(last, field) == k then amount(last) else 0.0)
  }

  /** One forEach over `rows`: each row with a non-empty trimmed `field` cell adds its
      `amount` to that cell's entry. */
  function Tally(l: Ledger, rows: seq<Row>, field: string, amount: Row -> real): Ledger {
    if rows == [] then l
    else
      var prev := Tally(l, rows[..|rows| - 1], field, amount);
      var last := rows[|rows| - 1];
      var k := Key(last, field);
      if k == "" then prev else Add(prev, k, amount(last))
  }

  /** Each non-empty key's entry moves by the amounts of the rows naming it. */
  lemma {:induction false} TallyBal(l: Ledger, rows: seq<Row>, field: string, amount: Row -> real, k: string)
    requires k != ""
    ensures Bal(Tally(l, rows, field, amount), k) == Bal(l, k) + SumWhere(rows, field, k, amount)
  {
    if rows != [] {
      var last := rows[|rows| - 1];
      TallyBal(l, rows[..|rows| - 1], field, amount, k);
      if Key(last, field) != "" {
        AddBal(Tally(l, rows[..|rows| - 1], field, amount), Key(last, field), amount(last), k);
      }
    }
  }

  /** Some row's trimmed `field` cell is `k`. */
  predicate Named(rows: seq<Row>, field: string, k: string) {
    exists i :: 0 <= i < |rows| && Key(rows[i], field) == k
  }

  lemma NamedLast(rows: seq<Row>, field: string, k: string)
    requires rows != []
    ensures Named(rows, field, k) <==> Named(rows[..|rows| - 1], field, k) || Key(rows[|rows| - 1], field) == k
  {
    var init := rows[..|rows| - 1];
    if Named(rows, field, k) {
      var i :| 0 <= i < |rows| && Key(rows[i], field) == k;
      if i < |init| {
        assert init[i] == rows[i];
      }
    }
    if Named(init, field, k) {
      var i :| 0 <= i < |init| && Key(init[i], field) == k;
      assert rows[i] == init[i];
    }
  }

  /** Row `e` is the last row whose trimmed `field` cell is `k`. */
  predicate LastNamed(rows: seq<Row>, field: string, k: string, e: int) {
    && 0 <= e < |rows| && Key(rows[e], field) == k
    && forall j :: e < j < |rows| ==> Key(rows[j], field) != k
  }

  /** A key has an entry afterwards exactly when it had one before or is non-empty and named
      by some row. */
  lemma {:induction false} TallyKeys(l: Ledger, rows: seq<Row>, field: string, amount: Row -> real, k: string)
    ensures Get(Tally(l, rows, field, amount), k).Some? <==> Get(l, k).Some? || (k != "" && Named(rows, field, k))
  {
    if rows != [] {
      var init := rows[..|rows| - 1];
      var last := rows[|rows| - 1];
      TallyKeys(l, init, field, amount, k);
      NamedLast(rows, field, k);
      if Key(last, field) != "" {
        AddBal(Tally(l, init, field, amount), Key(last, field), amount(last), k);
      }
    }
  }

  /** The sum of the entries moves by the amounts of the rows with a non-empty key: a row
      with an empty key changes nothing. */
  lemma {:induction false} TallyTotal(l: Ledger, rows: seq<Row>, field: string, amount: Row -> real)
    ensures Total(Tally(l, rows, field, amount)) == Total(l) + Sum(rows, amount) - SumWhere(rows, field, "", amount)
  {
    if rows != [] {
      var last := rows[|rows| - 1];
      TallyTotal(l, rows[..|rows| - 1], field, amount);
      if Key(last, field) != "" {
        AddTotal(Tally(l, rows[..|rows| - 1], field, amount), Key(last, field), amount(last));
      }
    }
  }

  /** Rows none of which has key `k` contribute nothing to `k`. */
  lemma {:induction false} SumWhereNone(rows: seq<Row>, field: string, k: string, amount: Row -> real)
    requires forall i :: 0 <= i < |rows| ==> Key(rows[i], field) != k
    ensures SumWhere(rows, field, k, amount) == 0.0
  {
    if rows != [] {
      SumWhereNone(rows[..|rows| - 1], field, k, amount);
    }
  }

  /** The sum splits over a concatenation. */
  lemma {:induction false} SumAppend(a: seq<Row>, b: seq<Row>, amount: Row -> real)
    ensures Sum(a + b, amount) == Sum(a, amount) + Sum(b, amount)
    decreases |b|
  {
    if b != [] {
      assert (a + b)[..|a + b| - 1] == a + b[..|b| - 1];
      SumAppend(a, b[..|b| - 1], amount);
    } else {
      assert a + b == a;
    }
  }

  /** Summing a negated amount gives the negated sum. */
  lemma {:induction false} SumNegate(rows: seq<Row>, amount: Row -> real, negated: Row -> real)
    requires forall r :: negated(r) == -amount(r)
    ensures Sum(rows, negated) == -Sum(rows, amount)
  {
    if rows != [] {
      SumNegate(rows[..|rows| - 1], amount, negated);
    }
  }

  lemma {:induction false} SumWhereNegate(rows: seq<Row>, field: string, k: string, amount: Row -> real, negated: Row -> real)
    requires forall r :: negated(r) == -amount(r)
    ensures SumWhere(rows, field, k, negated) == -SumWhere(rows, field, k, amount)
  {
    if rows != [] {
      SumWhereNegate(rows[..|rows| - 1], field, k, amount, negated);
    }
  }

  /** Tallying never lists a key twice. */
  lemma {:induction false} TallyUnique(l: Ledger, rows: seq<Row>, field: string, amount: Row -> real)
    requires UniqueKeys(l)
    ensures UniqueKeys(Tally(l, rows, field, amount))
  {
    if rows != [] {
      var prev := Tally(l, rows[..|rows| - 1], field, amount);
      var last := rows[|rows| - 1];
      TallyUnique(l, rows[..|rows| - 1], field, amount);
      if Key(last, field) != "" {
        PutUnique(prev, Key(last, field), Bal(prev, Key(last, field)) + amount(last));
      }
    }
  }
}
