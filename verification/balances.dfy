/**
 * `updateModeBalances` (public/app.js:324-387): the balance of every payment mode. The
 * opening-balance sheet sets each mode's starting balance, receipts add to their mode,
 * expenses subtract from theirs, and a contra moves its amount from its From mode to its To
 * mode. Each balance card shows a mode, its balance and its opening balance, modes in sorted
 * order.
 */
module Balances {
  import opened Wrappers
  import opened Seqs
  import opened Text
  import opened Assoc
  import opened Rows
  import opened Fields
  import opened Amounts
  import opened Ledgers
  import opened Order
  import opened AmountLaws

  /** `r.OpeningBalance || r.OB || r.Balance || 0`: the first non-empty of the three cells,
      `None` when all are empty. */
  function OpeningCell(r: Row): (c: Option<string>)
    ensures c.Some? ==> c.value != ""
    ensures c.None? <==> Field(r, "OpeningBalance") == "" && Field(r, "OB") == "" && Field(r, "Balance") == ""
    ensures c.Some? ==> || c.value == Field(r, "OpeningBalance")
                        || (Field(r, "OpeningBalance") == "" && c.value == Field(r, "OB"))
                        || (Field(r, "OpeningBalance") == "" && Field(r, "OB") == "" && c.value == Field(r, "Balance"))
  {
    if Field(r, "OpeningBalance") != "" then Some(Field(r, "OpeningBalance"))
    else if Field(r, "OB") != "" then Some(Field(r, "OB"))
    else if Field(r, "Balance") != "" then Some(Field(r, "Balance"))
    else None
  }

  /** The opening balance a row states; the fallback `0` reads as 0. */
  function OpeningValue(r: Row): real {
    match OpeningCell(r)
    case None => 0.0
    case Some(c) => ToNumber(Some(c))
  }

  /** `openingMap`: each opening-balance row with a non-empty mode sets that mode's entry to
      the `value` the row states, so a later row for the same mode overwrites an earlier one. */
  function Openings(obs: seq<Row>, value: Row -> real): Ledger {
    if obs == [] then []
    else
      var prev := Openings(obs[..|obs| - 1], value);
      var last := obs[|obs| - 1];
      var m := Key(last, "Mode");
      if m == "" then prev else Put(prev, m, value(last))
  }

  /** A mode has an opening balance exactly when it is non-empty and some row names it. */
  lemma {:induction false} OpeningsHas(obs: seq<Row>, value: Row -> real, m: string)
    ensures Get(Openings(obs, value), m).Some? <==> m != "" && Named(obs, "Mode", m)
  {
    if obs != [] {
      var init := obs[..|obs| - 1];
      var last := obs[|obs| - 1];
      OpeningsHas(init, value, m);
      NamedLast(obs, "Mode", m);
      if Key(last, "Mode") != "" {
        PutGet(Openings(init, value), Key(last, "Mode"), value(last), m);
      }
    }
  }

  /** A mode's opening balance is the one stated by the last row naming it. */
  lemma {:induction false} OpeningsLast(obs: seq<Row>, value: Row -> real, m: string, e: int)
    requires m != "" && LastNamed(obs, "Mode", m, e)
    ensures Get(Openings(obs, value), m) == Some(value(obs[e]))
  {
    var init := obs[..|obs| - 1];
    var last := obs[|obs| - 1];
    if e < |obs| - 1 {
      assert LastNamed(init, "Mode", m, e);
      OpeningsLast(init, value, m, e);
      PutGet(Openings(init, value), Key(last, "Mode"), value(last), m);
    } else {
      PutGet(Openings(init, value), m, value(last), m);
    }
  }

  /** An expense counted against its mode: the amount, negated. */
  function Outflow(amount: Row -> real): Row -> real {
    r => -amount(r)
  }

  /** `amt` leaves mode `from`, if named, then enters mode `to`, if named. */
  function Move(l: Ledger, from: string, to: string, amt: real): Ledger {
    var out := if from != "" then Add(l, from, -amt) else l;
    if to != "" then Add(out, to, amt) else out
  }

  lemma MoveBal(l: Ledger, from: string, to: string, amt: real, m: string)
    ensures Bal(Move(l, from, to, amt), m)
      == Bal(l, m) - (if from == m && m != "" then amt else 0.0) + (if to == m && m != "" then amt else 0.0)
    ensures Get(Move(l, from, to, amt), m).Some? <==> Get(l, m).Some? || (m != "" && (from == m || to == m))
  {
    var out := if from != "" then Add(l, from, -amt) else l;
    if from != "" {
      AddBal(l, from, -amt, m);
    }
    if to != "" {
      AddBal(out, to, amt, m);
    }
  }

  lemma MoveTotal(l: Ledger, from: string, to: string, amt: real)
    ensures Total(Move(l, from, to, amt))
      == Total(l) + (if from == "" then amt else 0.0) - (if to == "" then amt else 0.0)
  {
    var out := if from != "" then Add(l, from, -amt) else l;
    if from != "" {
      AddTotal(l, from, -amt);
    }
    if to != "" {
      AddTotal(out, to, amt);
    }
  }

  /** One contra: its amount moves from its From mode to its To mode. */
  function PostContra(l: Ledger, c: Row, amount: Row -> real): Ledger {
    Move(l, Key(c, "From"), Key(c, "To"), amount(c))
  }

  /** The contra loop, one `PostContra` per contra in order. */
  function PostContras(l: Ledger, cons: seq<Row>, amount: Row -> real): Ledger {
    if cons == [] then l else PostContra(PostContras(l, cons[..|cons| - 1], amount), cons[|cons| - 1], amount)
  }

  /** A non-empty mode loses what the contras move out of it and gains what they move in. */
  lemma {:induction false} PostContrasBal(l: Ledger, cons: seq<Row>, amount: Row -> real, m: string)
    requires m != ""
    ensures Bal(PostContras(l, cons, amount), m)
      == Bal(l, m) - SumWhere(cons, "From", m, amount) + SumWhere(cons, "To", m, amount)
  {
    if cons != [] {
      PostContrasBal(l, cons[..|cons| - 1], amount, m);
      var c := cons[|cons| - 1];
      MoveBal(PostContras(l, cons[..|cons| - 1], amount), Key(c, "From"), Key(c, "To"), amount(c), m);
    }
  }

  /** A mode has an entry after the contras exactly when it had one before or is a non-empty
      From or To of some contra. */
  lemma {:induction false} PostContrasKeys(l: Ledger, cons: seq<Row>, amount: Row -> real, m: string)
    ensures Get(PostContras(l, cons, amount), m).Some?
      <==> Get(l, m).Some? || (m != "" && (Named(cons, "From", m) || Named(cons, "To", m)))
  {
    if cons != [] {
      PostContrasKeys(l, cons[..|cons| - 1], amount, m);
      NamedLast(cons, "From", m);
      NamedLast(cons, "To", m);
      var c := cons[|cons| - 1];
      MoveBal(PostContras(l, cons[..|cons| - 1], amount), Key(c, "From"), Key(c, "To"), amount(c), m);
    }
  }

  /** A contra with both ends moves money without changing the sum of the balances; one with
      an empty From adds its amount to the sum and one with an empty To removes it. */
  lemma {:induction false} PostContrasTotal(l: Ledger, cons: seq<Row>, amount: Row -> real)
    ensures Total(PostContras(l, cons, amount))
      == Total(l) + SumWhere(cons, "From", "", amount) - SumWhere(cons, "To", "", amount)
  {
    if cons != [] {
      PostContrasTotal(l, cons[..|cons| - 1], amount);
      var c := cons[|cons| - 1];
      MoveTotal(PostContras(l, cons[..|cons| - 1], amount), Key(c, "From"), Key(c, "To"), amount(c));
    }
  }

  /** `modeBalances` after all four loops, given how an opening-balance row and a
      transaction row are read as numbers. */
  function ModeBalancesWith(obs: seq<Row>, recs: seq<Row>, exps: seq<Row>, cons: seq<Row>,
                            opening: Row -> real, amount: Row -> real): Ledger {
    var openings := Openings(obs, opening);
    var received := Tally(openings, recs, "Mode", amount);
    var spent := Tally(received, exps, "Mode", Outflow(amount));
    PostContras(spent, cons, amount)
  }

  /** `modeBalances` as the page computes it: openings read by `OpeningValue`, transactions by
      `Amount`. */
  function ModeBalances(obs: seq<Row>, recs: seq<Row>, exps: seq<Row>, cons: seq<Row>): Ledger {
    ModeBalancesWith(obs, recs, exps, cons, OpeningValue, Amount)
  }

  /** Every mode's balance: its opening balance, plus its receipts, minus its expenses, minus
      the contras out of it, plus the contras into it. */
  lemma ModeBalanceFormula(obs: seq<Row>, recs: seq<Row>, exps: seq<Row>, cons: seq<Row>,
                           opening: Row -> real, amount: Row -> real, m: string)
    requires m != ""
    ensures Bal(ModeBalancesWith(obs, recs, exps, cons, opening, amount), m)
      == Bal(Openings(obs, opening), m)
       + SumWhere(recs, "Mode", m, amount) - SumWhere(exps, "Mode", m, amount)
       - SumWhere(cons, "From", m, amount) + SumWhere(cons, "To", m, amount)
  {
    var received := Tally(Openings(obs, opening), recs, "Mode", amount);
    var spent := Tally(received, exps, "Mode", Outflow(amount));
    TallyBal(Openings(obs, opening), recs, "Mode", amount, m);
    TallyBal(received, exps, "Mode", Outflow(amount), m);
    SumWhereNegate(exps, "Mode", m, amount, Outflow(amount));
    PostContrasBal(spent, cons, amount, m);
  }

  /** The opening balance that enters the formula is the one on the last opening-balance row
      for the mode, or 0 when there is none. */
  lemma OpeningBalanceOf(obs: seq<Row>, value: Row -> real, m: string)
    requires m != ""
    ensures !Named(obs, "Mode", m) ==> Bal(Openings(obs, value), m) == 0.0
    ensures forall e :: LastNamed(obs, "Mode", m, e) ==> Bal(Openings(obs, value), m) == value(obs[e])
  {
    OpeningsHas(obs, value, m);
    forall e | LastNamed(obs, "Mode", m, e)
      ensures Bal(Openings(obs, value), m) == value(obs[e])
    {
      OpeningsLast(obs, value, m, e);
    }
  }

  /** Exactly the non-empty modes some sheet names get a balance: rows with an empty mode, and
      empty contra ends, are skipped. */
  lemma ModeBalanceKeys(obs: seq<Row>, recs: seq<Row>, exps: seq<Row>, cons: seq<Row>,
                        opening: Row -> real, amount: Row -> real, m: string)
    ensures Get(ModeBalancesWith(obs, recs, exps, cons, opening, amount), m).Some?
      <==> m != "" && (Named(obs, "Mode", m) || Named(recs, "Mode", m) || Named(exps, "Mode", m)
                       || Named(cons, "From", m) || Named(cons, "To", m))
  {
    var received := Tally(Openings(obs, opening), recs, "Mode", amount);
    var spent := Tally(received, exps, "Mode", Outflow(amount));
    OpeningsHas(obs, opening, m);
    TallyKeys(Openings(obs, opening), recs, "Mode", amount, m);
    TallyKeys(received, exps, "Mode", Outflow(amount), m);
    PostContrasKeys(spent, cons, amount, m);
  }

  /** The sum of all balances: the opening balances, plus the receipts and minus the expenses
      that name a mode, plus the net of the one-sided contras. */
  lemma ModeBalancesTotal(obs: seq<Row>, recs: seq<Row>, exps: seq<Row>, cons: seq<Row>,
                          opening: Row -> real, amount: Row -> real)
    ensures Total(ModeBalancesWith(obs, recs, exps, cons, opening, amount))
      == Total(Openings(obs, opening))
       + (Sum(recs, amount) - SumWhere(recs, "Mode", "", amount))
       - (Sum(exps, amount) - SumWhere(exps, "Mode", "", amount))
       + SumWhere(cons, "From", "", amount) - SumWhere(cons, "To", "", amount)
  {
    var received := Tally(Openings(obs, opening), recs, "Mode", amount);
    var spent := Tally(received, exps, "Mode", Outflow(amount));
    TallyTotal(Openings(obs, opening), recs, "Mode", amount);
    TallyTotal(received, exps, "Mode", Outflow(amount));
    SumNegate(exps, amount, Outflow(amount));
    SumWhereNegate(exps, "Mode", "", amount, Outflow(amount));
    PostContrasTotal(spent, cons, amount);
  }

  /** Every row names its mode(s). */
  predicate AllNamed(rows: seq<Row>, field: string) {
    forall i :: 0 <= i < |rows| ==> Key(rows[i], field) != ""
  }

  /** Conservation holds when every receipt and expense names a mode and every contra names
      both ends: the balances then sum to the opening balances plus receipts minus expenses. */
  lemma ModeBalancesConserve(obs: seq<Row>, recs: seq<Row>, exps: seq<Row>, cons: seq<Row>,
                             opening: Row -> real, amount: Row -> real)
    requires AllNamed(recs, "Mode") && AllNamed(exps, "Mode")
    requires AllNamed(cons, "From") && AllNamed(cons, "To")
    ensures Total(ModeBalancesWith(obs, recs, exps, cons, opening, amount))
      == Total(Openings(obs, opening)) + Sum(recs, amount) - Sum(exps, amount)
  {
    ModeBalancesTotal(obs, recs, exps, cons, opening, amount);
    SumWhereNone(recs, "Mode", "", amount);
    SumWhereNone(exps, "Mode", "", amount);
    SumWhereNone(cons, "From", "", amount);
    SumWhereNone(cons, "To", "", amount);
  }

  /** One balance card: the mode, its balance and its opening balance. */
  datatype Card = Card(mode: string, balance: real, opening: real)

  function CardFor(balances: Ledger, openings: Ledger, m: string): Card {
    Card(m, Bal(balances, m), Bal(openings, m))
  }

  function CardsFor(balances: Ledger, openings: Ledger, modes: seq<string>): (cards: seq<Card>)
    ensures |cards| == |modes|
    ensures forall i :: 0 <= i < |modes| ==> cards[i] == CardFor(balances, openings, modes[i])
  {
    if modes == [] then [] else [CardFor(balances, openings, modes[0])] + CardsFor(balances, openings, modes[1..])
  }

  /** One card per mode of `balances`, in `localeCompare` order. */
  function CardsOf(balances: Ledger, openings: Ledger): seq<Card> {
    CardsFor(balances, openings, SortUnique(Keys(balances)))
  }

  /** The balance cards of the page. */
  function BalanceCards(obs: seq<Row>, recs: seq<Row>, exps: seq<Row>, cons: seq<Row>): seq<Card> {
    CardsOf(ModeBalances(obs, recs, exps, cons), Openings(obs, OpeningValue))
  }

  /** One card per mode that has a balance, in strictly ascending order of mode, each showing
      that mode's balance and opening balance. */
  lemma CardsOfSpec(balances: Ledger, openings: Ledger)
    ensures var cards := CardsOf(balances, openings);
      && (forall i, j :: 0 <= i < j < |cards| ==> Less(cards[i].mode, cards[j].mode))
      && (forall m :: (exists i :: 0 <= i < |cards| && cards[i].mode == m) <==> Get(balances, m).Some?)
      && (forall i :: 0 <= i < |cards| ==>
            cards[i].balance == Bal(balances, cards[i].mode)
            && cards[i].opening == Bal(openings, cards[i].mode))
  {
    var modes := SortUnique(Keys(balances));
    var cards := CardsOf(balances, openings);
    SortUniqueSpec(Keys(balances));
    forall m
      ensures (exists i :: 0 <= i < |cards| && cards[i].mode == m) <==> Get(balances, m).Some?
    {
      KeysGet(balances, m);
      if m in modes {
        var i :| 0 <= i < |modes| && modes[i] == m;
        assert cards[i].mode == m;
      }
    }
  }

  /** An opening-balance row that states Cash's opening of 1000 in the OB column. */
  const CashOpening: Row := [("Mode", "Cash"), ("OpeningBalance", ""), ("OB", "1000")]
  /** A receipt of 500 into Cash. */
  const CashReceipt: Row := [("Mode", "Cash"), ("Amount", "500")]
  /** An expense of "(200)" from Cash. */
  const CashExpense: Row := [("Mode", "Cash"), ("Amount", "(200)")]
  /** A contra of 300 from Cash to Bank. */
  const CashToBank: Row := [("From", "Cash"), ("To", "Bank"), ("Amount", "300")]

  lemma CashOpeningFacts()
    ensures Key(CashOpening, "Mode") == "Cash"
    ensures OpeningValue(CashOpening) == 1000.0
  {
    assert Field(CashOpening, "Mode") == "Cash";
    TrimTrimmed("Cash");
    assert Field(CashOpening, "OpeningBalance") == "";
    assert Field(CashOpening, "OB") == "1000";
    assert OpeningCell(CashOpening) == Some("1000");
    ToNumber1000();
  }

  lemma CashReceiptFacts()
    ensures Key(CashReceipt, "Mode") == "Cash"
    ensures Amount(CashReceipt) == 500.0
  {
    assert Field(CashReceipt, "Mode") == "Cash";
    TrimTrimmed("Cash");
    assert Get(CashReceipt, "Amount") == Some("500");
    ToNumber500();
  }

  lemma CashExpenseFacts()
    ensures Key(CashExpense, "Mode") == "Cash"
    ensures Amount(CashExpense) == -200.0
  {
    assert Field(CashExpense, "Mode") == "Cash";
    TrimTrimmed("Cash");
    assert Get(CashExpense, "Amount") == Some("(200)");
    ToNumberBracketed200();
  }

  lemma CashToBankFacts()
    ensures Key(CashToBank, "From") == "Cash"
    ensures Key(CashToBank, "To") == "Bank"
    ensures Amount(CashToBank) == 300.0
  {
    assert Field(CashToBank, "From") == "Cash";
    assert Field(CashToBank, "To") == "Bank";
    TrimTrimmed("Cash");
    TrimTrimmed("Bank");
    assert Get(CashToBank, "Amount") == Some("300");
    ToNumber300();
  }

  /** One opening row, one receipt and one expense for the same mode. */
  lemma OneOfEach(o: Row, rc: Row, ex: Row, opening: Row -> real, amount: Row -> real, m: string)
    requires m != "" && Key(o, "Mode") == m && Key(rc, "Mode") == m && Key(ex, "Mode") == m
    ensures Bal(ModeBalancesWith([o], [rc], [ex], [], opening, amount), m) == opening(o) + amount(rc) - amount(ex)
  {
    ModeBalanceFormula([o], [rc], [ex], [], opening, amount, m);
    OpeningBalanceOf([o], opening, m);
    assert LastNamed([o], "Mode", m, 0);
  }

  /** Cash opens at 1000, receives 500 and spends "(200)", which reads as -200: subtracting a
      negative expense leaves Cash at 1700. */
  lemma CashScenario()
    ensures Bal(ModeBalances([CashOpening], [CashReceipt], [CashExpense], []), "Cash") == 1700.0
  {
    CashOpeningFacts();
    CashReceiptFacts();
    CashExpenseFacts();
    OneOfEach(CashOpening, CashReceipt, CashExpense, OpeningValue, Amount, "Cash");
  }

  /** A lone contra between two distinct named modes. */
  lemma OneContra(c: Row, opening: Row -> real, amount: Row -> real, from: string, to: string)
    requires from != "" && to != "" && from != to
    requires Key(c, "From") == from && Key(c, "To") == to
    ensures Bal(ModeBalancesWith([], [], [], [c], opening, amount), from) == -amount(c)
    ensures Bal(ModeBalancesWith([], [], [], [c], opening, amount), to) == amount(c)
  {
    ModeBalanceFormula([], [], [], [c], opening, amount, from);
    ModeBalanceFormula([], [], [], [c], opening, amount, to);
  }

  /** A contra of 300 from Cash to Bank, and nothing else: Cash ends at -300 and Bank at 300. */
  lemma ContraScenario()
    ensures Bal(ModeBalances([], [], [], [CashToBank]), "Cash") == -300.0
    ensures Bal(ModeBalances([], [], [], [CashToBank]), "Bank") == 300.0
  {
    CashToBankFacts();
    OneContra(CashToBank, OpeningValue, Amount, "Cash", "Bank");
  }
}
