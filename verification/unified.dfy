/**
 * `buildUnifiedTransactions` (public/app.js:701-774): one list of every transaction for the
 * transaction modal. Each expense and each receipt becomes one entry. Each contra becomes
 * two: an outgoing leg booked on its From mode and an incoming leg booked on its To mode.
 */
module Unified {
  import opened Seqs
  import opened Text
  import opened Rows
  import opened Fields
  import opened Ledgers
  import opened Balances

  /** The `Type` column. */
  datatype TxnKind = ExpenseTxn | ReceiptTxn | ContraOut | ContraIn

  /** The text the `Type` column shows and the type filter compares with. */
  function Label(k: TxnKind): string {
    match k
    case ExpenseTxn => "EXPENSE"
    case ReceiptTxn => "RECEIPT"
    case ContraOut => "CONTRA_OUT"
    case ContraIn => "CONTRA_IN"
  }

  /** One entry of the unified list; `amount` is already read with `toNumber`. */
  datatype Txn = Txn(
    date: string, month: string, kind: TxnKind, mode: string, from: string, to: string,
    item: string, group: string, subGroup: string, narration: string, amount: real)

  /** An expense keeps its descriptive cells; it has no From or To. The amount is read with
      `amount`, which the dashboard fixes to `toNumber` of the Amount cell. */
  function FromExpense(r: Row, amount: Row -> real): Txn {
    Txn(Field(r, "Date"), Field(r, "Month"), ExpenseTxn, Field(r, "Mode"), "", "",
        Field(r, "Item"), Field(r, "Group"), Field(r, "SubGroup"), Field(r, "Narration"), amount(r))
  }

  /** A receipt keeps its From; its descriptive cells are blank. */
  function FromReceipt(r: Row, amount: Row -> real): Txn {
    Txn(Field(r, "Date"), Field(r, "Month"), ReceiptTxn, Field(r, "Mode"), Field(r, "From"), "",
        "", "", "", "", amount(r))
  }

  /** One leg of a contra: the outgoing leg is booked on From, the incoming leg on To. */
  function ContraLeg(r: Row, kind: TxnKind, amount: Row -> real): Txn
    requires kind == ContraOut || kind == ContraIn
  {
    Txn(Field(r, "Date"), Field(r, "Month"), kind,
        if kind == ContraOut then Field(r, "From") else Field(r, "To"),
        Field(r, "From"), Field(r, "To"), "", "", "", "", amount(r))
  }

  /** One entry per expense, in order. */
  function ExpenseTxns(exps: seq<Row>, amount: Row -> real): (ts: seq<Txn>)
    ensures |ts| == |exps|
  {
    if exps == [] then [] else ExpenseTxns(exps[..|exps| - 1], amount) + [FromExpense(exps[|exps| - 1], amount)]
  }

  /** One entry per receipt, in order. */
  function ReceiptTxns(recs: seq<Row>, amount: Row -> real): (ts: seq<Txn>)
    ensures |ts| == |recs|
  {
    if recs == [] then [] else ReceiptTxns(recs[..|recs| - 1], amount) + [FromReceipt(recs[|recs| - 1], amount)]
  }

  /** Both legs of each contra, in order, the outgoing leg first. */
  function ContraLegs(cons: seq<Row>, amount: Row -> real): (legs: seq<Txn>)
    ensures |legs| == 2 * |cons|
  {
    if cons == [] then []
    else
      var c := cons[|cons| - 1];
      ContraLegs(cons[..|cons| - 1], amount) + [ContraLeg(c, ContraOut, amount), ContraLeg(c, ContraIn, amount)]
  }

  /** The expenses, then the receipts, then the contra legs, amounts read with `amount`. */
  function BuildWith(exps: seq<Row>, recs: seq<Row>, cons: seq<Row>, amount: Row -> real): (u: seq<Txn>)
    ensures |u| == |exps| + |recs| + 2 * |cons|
  {
    ExpenseTxns(exps, amount) + ReceiptTxns(recs, amount) + ContraLegs(cons, amount)
  }

  /** `buildUnifiedTransactions`: amounts are `toNumber` of the Amount cell. */
  function BuildUnified(exps: seq<Row>, recs: seq<Row>, cons: seq<Row>): (u: seq<Txn>)
    ensures |u| == |exps| + |recs| + 2 * |cons|
  {
    BuildWith(exps, recs, cons, Amount)
  }

  lemma {:induction false} ExpenseTxnsAt(exps: seq<Row>, amount: Row -> real, i: int)
    requires 0 <= i < |exps|
    ensures ExpenseTxns(exps, amount)[i] == FromExpense(exps[i], amount)
  {
    if i < |exps| - 1 {
      ExpenseTxnsAt(exps[..|exps| - 1], amount, i);
    }
  }

  lemma {:induction false} ReceiptTxnsAt(recs: seq<Row>, amount: Row -> real, i: int)
    requires 0 <= i < |recs|
    ensures ReceiptTxns(recs, amount)[i] == FromReceipt(recs[i], amount)
  {
    if i < |recs| - 1 {
      ReceiptTxnsAt(recs[..|recs| - 1], amount, i);
    }
  }

  /** Contra `j`'s legs sit at positions `2j` and `2j + 1`. */
  lemma {:induction false} ContraLegsAt(cons: seq<Row>, amount: Row -> real, j: int)
    requires 0 <= j < |cons|
    ensures ContraLegs(cons, amount)[2 * j] == ContraLeg(cons[j], ContraOut, amount)
    ensures ContraLegs(cons, amount)[2 * j + 1] == ContraLeg(cons[j], ContraIn, amount)
  {
    var init := cons[..|cons| - 1];
    if j < |cons| - 1 {
      ContraLegsAt(init, amount, j);
      assert init[j] == cons[j];
    }
  }

  /** Where every sheet row lands in the unified list. */
  lemma UnifiedLayout(exps: seq<Row>, recs: seq<Row>, cons: seq<Row>, amount: Row -> real)
    ensures var u := BuildWith(exps, recs, cons, amount);
      && (forall i :: 0 <= i < |exps| ==> u[i] == FromExpense(exps[i], amount))
      && (forall i :: 0 <= i < |recs| ==> u[|exps| + i] == FromReceipt(recs[i], amount))
      && (forall j :: 0 <= j < |cons| ==>
            u[|exps| + |recs| + 2 * j] == ContraLeg(cons[j], ContraOut, amount)
            && u[|exps| + |recs| + 2 * j + 1] == ContraLeg(cons[j], ContraIn, amount))
  {
    var u := BuildWith(exps, recs, cons, amount);
    var e, r, c := ExpenseTxns(exps, amount), ReceiptTxns(recs, amount), ContraLegs(cons, amount);
    assert u == (e + r) + c;
    forall i | 0 <= i < |exps|
      ensures u[i] == FromExpense(exps[i], amount)
    {
      assert u[i] == (e + r)[i] == e[i];
      ExpenseTxnsAt(exps, amount, i);
    }
    forall i | 0 <= i < |recs|
      ensures u[|exps| + i] == FromReceipt(recs[i], amount)
    {
      assert u[|exps| + i] == (e + r)[|exps| + i] == r[i];
      ReceiptTxnsAt(recs, amount, i);
    }
    forall j | 0 <= j < |cons|
      ensures u[|exps| + |recs| + 2 * j] == ContraLeg(cons[j], ContraOut, amount)
      ensures u[|exps| + |recs| + 2 * j + 1] == ContraLeg(cons[j], ContraIn, amount)
    {
      assert u[|exps| + |recs| + 2 * j] == c[2 * j];
      assert u[|exps| + |recs| + 2 * j + 1] == c[2 * j + 1];
      ContraLegsAt(cons, amount, j);
    }
  }

  /** The two legs of a contra carry the same date, month, ends and amount; the outgoing one
      is listed under the From mode and the incoming one under the To mode. */
  lemma ContraLegsPair(c: Row)
    ensures var out, inn := ContraLeg(c, ContraOut, Amount), ContraLeg(c, ContraIn, Amount);
      && out.date == inn.date && out.month == inn.month
      && out.from == inn.from == Field(c, "From") && out.to == inn.to == Field(c, "To")
      && out.amount == inn.amount == Amount(c)
      && out.mode == Field(c, "From") && inn.mode == Field(c, "To")
  {
  }

  /** The test the type filter applies. */
  function KindIs(k: TxnKind): Txn -> bool {
    (t: Txn) => t.kind == k
  }

  /** The entries of one type. */
  function OfKind(u: seq<Txn>, k: TxnKind): seq<Txn> {
    Filter(u, KindIs(k))
  }

  lemma {:induction false} ContraLegsOfKind(cons: seq<Row>, amount: Row -> real, k: TxnKind)
    ensures |OfKind(ContraLegs(cons, amount), k)| == if k == ContraOut || k == ContraIn then |cons| else 0
  {
    if cons != [] {
      var c := cons[|cons| - 1];
      var legs := [ContraLeg(c, ContraOut, amount), ContraLeg(c, ContraIn, amount)];
      ContraLegsOfKind(cons[..|cons| - 1], amount, k);
      FilterAppend(ContraLegs(cons[..|cons| - 1], amount), legs, KindIs(k));
      assert legs[1..][1..] == [];
    }
  }

  /** Every entry built from an expense is an EXPENSE entry. */
  lemma ExpenseTxnsKind(exps: seq<Row>, amount: Row -> real)
    ensures forall i :: 0 <= i < |exps| ==> ExpenseTxns(exps, amount)[i].kind == ExpenseTxn
  {
    forall i | 0 <= i < |exps| {
      ExpenseTxnsAt(exps, amount, i);
    }
  }

  /** Every entry built from a receipt is a RECEIPT entry. */
  lemma ReceiptTxnsKind(recs: seq<Row>, amount: Row -> real)
    ensures forall i :: 0 <= i < |recs| ==> ReceiptTxns(recs, amount)[i].kind == ReceiptTxn
  {
    forall i | 0 <= i < |recs| {
      ReceiptTxnsAt(recs, amount, i);
    }
  }

  /** Filtering by type distributes over the three parts of the list. */
  lemma OfKindUnified(exps: seq<Row>, recs: seq<Row>, cons: seq<Row>, amount: Row -> real, k: TxnKind)
    ensures OfKind(BuildWith(exps, recs, cons, amount), k)
      == OfKind(ExpenseTxns(exps, amount), k) + OfKind(ReceiptTxns(recs, amount), k)
         + OfKind(ContraLegs(cons, amount), k)
  {
    var e, r, c := ExpenseTxns(exps, amount), ReceiptTxns(recs, amount), ContraLegs(cons, amount);
    FilterAppend(e + r, c, KindIs(k));
    FilterAppend(e, r, KindIs(k));
  }

  /** Only expenses are EXPENSE entries, in sheet order. */
  lemma UnifiedExpenses(exps: seq<Row>, recs: seq<Row>, cons: seq<Row>, amount: Row -> real)
    ensures OfKind(BuildWith(exps, recs, cons, amount), ExpenseTxn) == ExpenseTxns(exps, amount)
  {
    var e, r := ExpenseTxns(exps, amount), ReceiptTxns(recs, amount);
    OfKindUnified(exps, recs, cons, amount, ExpenseTxn);
    ExpenseTxnsKind(exps, amount);
    ReceiptTxnsKind(recs, amount);
    FilterAll(e, KindIs(ExpenseTxn));
    FilterNone(r, KindIs(ExpenseTxn));
    ContraLegsOfKind(cons, amount, ExpenseTxn);
  }

  /** Only receipts are RECEIPT entries, in sheet order. */
  lemma UnifiedReceipts(exps: seq<Row>, recs: seq<Row>, cons: seq<Row>, amount: Row -> real)
    ensures OfKind(BuildWith(exps, recs, cons, amount), ReceiptTxn) == ReceiptTxns(recs, amount)
  {
    var e, r := ExpenseTxns(exps, amount), ReceiptTxns(recs, amount);
    OfKindUnified(exps, recs, cons, amount, ReceiptTxn);
    ExpenseTxnsKind(exps, amount);
    ReceiptTxnsKind(recs, amount);
    FilterNone(e, KindIs(ReceiptTxn));
    FilterAll(r, KindIs(ReceiptTxn));
    ContraLegsOfKind(cons, amount, ReceiptTxn);
  }

  /** Every contra gives exactly one CONTRA_OUT and one CONTRA_IN entry. */
  lemma UnifiedContraCounts(exps: seq<Row>, recs: seq<Row>, cons: seq<Row>, amount: Row -> real, k: TxnKind)
    requires k == ContraOut || k == ContraIn
    ensures |OfKind(BuildWith(exps, recs, cons, amount), k)| == |cons|
  {
    OfKindUnified(exps, recs, cons, amount, k);
    ExpenseTxnsKind(exps, amount);
    ReceiptTxnsKind(recs, amount);
    FilterNone(ExpenseTxns(exps, amount), KindIs(k));
    FilterNone(ReceiptTxns(recs, amount), KindIs(k));
    ContraLegsOfKind(cons, amount, k);
  }

  /** The direction an entry moves its mode's balance: expenses and outgoing legs take money
      out, receipts and incoming legs bring it in. */
  function Flow(t: Txn): real {
    match t.kind
    case ExpenseTxn => -t.amount
    case ContraOut => -t.amount
    case ReceiptTxn => t.amount
    case ContraIn => t.amount
  }

  /** The signed amounts of the entries listed under mode `m`. */
  function FlowTo(ts: seq<Txn>, m: string): real {
    if ts == [] then 0.0
    else
      var last := ts[|ts| - 1];
      FlowTo(ts[..|ts| - 1], m) + (if Trim(last.mode) == m then Flow(last) else 0.0)
  }

  lemma {:induction false} FlowToAppend(a: seq<Txn>, b: seq<Txn>, m: string)
    ensures FlowTo(a + b, m) == FlowTo(a, m) + FlowTo(b, m)
    decreases |b|
  {
    if b == [] {
      assert a + b == a;
    } else {
      assert (a + b)[..|a + b| - 1] == a + b[..|b| - 1];
      FlowToAppend(a, b[..|b| - 1], m);
    }
  }

  lemma {:induction false} FlowToExpenses(exps: seq<Row>, amount: Row -> real, m: string)
    ensures FlowTo(ExpenseTxns(exps, amount), m) == -SumWhere(exps, "Mode", m, amount)
  {
    if exps != [] {
      FlowToExpenses(exps[..|exps| - 1], amount, m);
    }
  }

  lemma {:induction false} FlowToReceipts(recs: seq<Row>, amount: Row -> real, m: string)
    ensures FlowTo(ReceiptTxns(recs, amount), m) == SumWhere(recs, "Mode", m, amount)
  {
    if recs != [] {
      FlowToReceipts(recs[..|recs| - 1], amount, m);
    }
  }

  /** A contra's two legs take its amount from From and give it to To. */
  lemma LegsFlow(c: Row, amount: Row -> real, m: string)
    ensures FlowTo([ContraLeg(c, ContraOut, amount), ContraLeg(c, ContraIn, amount)], m)
      == (if Key(c, "To") == m then amount(c) else 0.0) - (if Key(c, "From") == m then amount(c) else 0.0)
  {
    var out, inn := ContraLeg(c, ContraOut, amount), ContraLeg(c, ContraIn, amount);
    assert [out, inn][..1] == [out];
    assert [out][..0] == [];
    assert Trim(out.mode) == Key(c, "From") && Trim(inn.mode) == Key(c, "To");
    assert Flow(out) == -amount(c) && Flow(inn) == amount(c);
    assert FlowTo([out], m) == (if Key(c, "From") == m then -amount(c) else 0.0);
  }

  lemma {:induction false} FlowToContras(cons: seq<Row>, amount: Row -> real, m: string)
    ensures FlowTo(ContraLegs(cons, amount), m)
      == SumWhere(cons, "To", m, amount) - SumWhere(cons, "From", m, amount)
  {
    if cons != [] {
      var c := cons[|cons| - 1];
      var prev := ContraLegs(cons[..|cons| - 1], amount);
      var legs := [ContraLeg(c, ContraOut, amount), ContraLeg(c, ContraIn, amount)];
      FlowToContras(cons[..|cons| - 1], amount, m);
      FlowToAppend(prev, legs, m);
      LegsFlow(c, amount, m);
    }
  }

  /** The unified list tells the same story as the balance cards: for every mode, the signed
      amounts listed under it add up to its balance less its opening balance. */
  lemma UnifiedMatchesBalances(exps: seq<Row>, recs: seq<Row>, cons: seq<Row>, amount: Row -> real, m: string)
    requires m != ""
    ensures FlowTo(BuildWith(exps, recs, cons, amount), m)
      == Bal(ModeBalancesWith([], recs, exps, cons, OpeningValue, amount), m)
  {
    var e, r, c := ExpenseTxns(exps, amount), ReceiptTxns(recs, amount), ContraLegs(cons, amount);
    FlowToAppend(e + r, c, m);
    FlowToAppend(e, r, m);
    FlowToExpenses(exps, amount, m);
    FlowToReceipts(recs, amount, m);
    FlowToContras(cons, amount, m);
    ModeBalanceFormula([], recs, exps, cons, OpeningValue, amount, m);
    OpeningsHas([], OpeningValue, m);
  }
}
