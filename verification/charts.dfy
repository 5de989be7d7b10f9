/**
 * The summary cards (`updateSummary`, public/app.js:306-320) and the chart data
 * (`updateCharts`, public/app.js:527-606). The summary and the mode, group and
 * receipt-versus-expense charts use the filtered rows. The monthly trend uses every expense,
 * whatever the filters say. Every chart groups by a trimmed cell and skips rows whose cell
 * is empty.
 */
module Charts {
  import opened Seqs
  import opened Text
  import opened Assoc
  import opened Rows
  import opened Fields
  import opened Ledgers
  import opened Order
  import opened Filters

  /** The four summary cards. */
  datatype Summary = Summary(totalExpense: real, totalReceipts: real, net: real, totalContra: real)

  /** `updateSummary`: the amounts of the filtered expenses, receipts and contras, and the net
      cash flow. The page reads amounts with `Amount`. */
  function UpdateSummary(exps: seq<Row>, recs: seq<Row>, cons: seq<Row>, sel: Selection, amount: Row -> real): (s: Summary)
    ensures s.net == s.totalReceipts - s.totalExpense
  {
    var totalExp := Sum(ApplyFilters(exps, sel, Expense), amount);
    var totalRec := Sum(ApplyFilters(recs, sel, Receipt), amount);
    var totalCon := Sum(ApplyFilters(cons, sel, Contra), amount);
    Summary(totalExp, totalRec, totalRec - totalExp, totalCon)
  }

  /** The rows of a sheet that the selection matches. */
  function Shown(data: seq<Row>, sel: Selection, kind: Kind): seq<Row> {
    Filter(data, r => Matches(sel, kind, r))
  }

  /** Each card sums exactly the rows of its sheet that match the selection. */
  lemma SummarySpec(exps: seq<Row>, recs: seq<Row>, cons: seq<Row>, sel: Selection, amount: Row -> real)
    ensures var s := UpdateSummary(exps, recs, cons, sel, amount);
      && s.totalExpense == Sum(Shown(exps, sel, Expense), amount)
      && s.totalReceipts == Sum(Shown(recs, sel, Receipt), amount)
      && s.totalContra == Sum(Shown(cons, sel, Contra), amount)
      && s.net == Sum(Shown(recs, sel, Receipt), amount) - Sum(Shown(exps, sel, Expense), amount)
  {
    ApplyFiltersSpec(exps, sel, Expense);
    ApplyFiltersSpec(recs, sel, Receipt);
    ApplyFiltersSpec(cons, sel, Contra);
  }

  /** Chart labels and the value drawn for each. */
  datatype Chart = Chart(labels: seq<string>, values: seq<real>)

  /** `Object.values(totals)`. */
  function Totals(l: Ledger): (vs: seq<real>)
    ensures |vs| == |l|
    ensures forall i :: 0 <= i < |l| ==> vs[i] == l[i].1
  {
    MapSeq(l, (p: (string, real)) => p.1)
  }

  /** `totals[k] = (totals[k] || 0) + toNumber(r.Amount)` for every row with a non-empty
      trimmed `field` cell `k`. */
  function Breakdown(rows: seq<Row>, field: string, amount: Row -> real): Ledger {
    Tally([], rows, field, amount)
  }

  /** A bar or doughnut chart: the keys in the order they were first met, with their totals. */
  function BarChart(rows: seq<Row>, field: string, amount: Row -> real): (c: Chart)
    ensures |c.labels| == |c.values|
  {
    var t := Breakdown(rows, field, amount);
    Chart(Keys(t), Totals(t))
  }

  /** The trend chart: the months in sorted order, with their totals. */
  function MonthTrend(exps: seq<Row>, amount: Row -> real): (c: Chart)
    ensures |c.labels| == |c.values|
  {
    var t := Breakdown(exps, "Month", amount);
    var months := SortUnique(Keys(t));
    Chart(months, MapSeq(months, m => Bal(t, m)))
  }

  /** What `updateCharts` draws. */
  datatype ChartData = ChartData(trend: Chart, byMode: Chart, byGroup: Chart, receiptVsExpense: seq<real>)

  function UpdateCharts(exps: seq<Row>, recs: seq<Row>, sel: Selection, amount: Row -> real): (d: ChartData)
    ensures |d.receiptVsExpense| == 2
  {
    var expFiltered := ApplyFilters(exps, sel, Expense);
    var recFiltered := ApplyFilters(recs, sel, Receipt);
    ChartData(
      MonthTrend(exps, amount),
      BarChart(expFiltered, "Mode", amount),
      BarChart(expFiltered, "Group", amount),
      [Sum(expFiltered, amount), Sum(recFiltered, amount)])
  }

  /** A key gets a total exactly when it is non-empty and some row names it, and the total
      is the sum of the amounts of the rows naming it. */
  lemma BreakdownGet(rows: seq<Row>, field: string, amount: Row -> real, k: string)
    ensures Get(Breakdown(rows, field, amount), k).Some? <==> k != "" && Named(rows, field, k)
    ensures k != "" ==> Bal(Breakdown(rows, field, amount), k) == SumWhere(rows, field, k, amount)
  {
    TallyKeys([], rows, field, amount, k);
    if k != "" {
      TallyBal([], rows, field, amount, k);
    }
  }

  /** The totals add up to the sum of the amounts of the rows that name a key. */
  lemma BreakdownTotal(rows: seq<Row>, field: string, amount: Row -> real)
    ensures Total(Breakdown(rows, field, amount)) == Sum(rows, amount) - SumWhere(rows, field, "", amount)
  {
    TallyTotal([], rows, field, amount);
  }

  /** Each label appears once, the labels are exactly the non-empty keys the rows name, and
      each value is the sum of the amounts of the rows naming its label. */
  lemma BarChartSpec(rows: seq<Row>, field: string, amount: Row -> real)
    ensures var c := BarChart(rows, field, amount);
      && (forall i, j :: 0 <= i < j < |c.labels| ==> c.labels[i] != c.labels[j])
      && (forall k :: k in c.labels <==> k != "" && Named(rows, field, k))
      && (forall i :: 0 <= i < |c.labels| ==> c.values[i] == SumWhere(rows, field, c.labels[i], amount))
  {
    var t := Breakdown(rows, field, amount);
    var c := BarChart(rows, field, amount);
    TallyUnique([], rows, field, amount);
    forall k
      ensures k in c.labels <==> k != "" && Named(rows, field, k)
    {
      KeysGet(t, k);
      BreakdownGet(rows, field, amount, k);
    }
    forall i | 0 <= i < |c.labels|
      ensures c.values[i] == SumWhere(rows, field, c.labels[i], amount)
    {
      GetUnique(t, i);
      assert t[i].0 in Keys(t);
      KeysGet(t, t[i].0);
      BreakdownGet(rows, field, amount, t[i].0);
    }
  }

  /** The trend shows every non-empty month named by an expense, once each and in sorted
      order, with the sum of that month's expense amounts. */
  lemma MonthTrendSpec(exps: seq<Row>, amount: Row -> real)
    ensures var c := MonthTrend(exps, amount);
      && StrictlySorted(c.labels)
      && (forall m :: m in c.labels <==> m != "" && Named(exps, "Month", m))
      && (forall i :: 0 <= i < |c.labels| ==> c.values[i] == SumWhere(exps, "Month", c.labels[i], amount))
  {
    var t := Breakdown(exps, "Month", amount);
    var c := MonthTrend(exps, amount);
    SortUniqueSpec(Keys(t));
    forall m
      ensures m in c.labels <==> m != "" && Named(exps, "Month", m)
    {
      KeysGet(t, m);
      BreakdownGet(exps, "Month", amount, m);
    }
    forall i | 0 <= i < |c.labels|
      ensures c.values[i] == SumWhere(exps, "Month", c.labels[i], amount)
    {
      KeysGet(t, c.labels[i]);
      BreakdownGet(exps, "Month", amount, c.labels[i]);
    }
  }

  /** The charts agree with the summary: the pie shows the expense and receipt cards, and the
      mode and group charts account for the whole expense card except the rows with no mode,
      respectively no group. */
  lemma ChartsMatchSummary(exps: seq<Row>, recs: seq<Row>, cons: seq<Row>, sel: Selection, amount: Row -> real)
    ensures var s := UpdateSummary(exps, recs, cons, sel, amount);
      var d := UpdateCharts(exps, recs, sel, amount);
      var shown := ApplyFilters(exps, sel, Expense);
      && d.receiptVsExpense == [s.totalExpense, s.totalReceipts]
      && Total(Breakdown(shown, "Mode", amount)) + SumWhere(shown, "Mode", "", amount) == s.totalExpense
      && Total(Breakdown(shown, "Group", amount)) + SumWhere(shown, "Group", "", amount) == s.totalExpense
  {
    var shown := ApplyFilters(exps, sel, Expense);
    BreakdownTotal(shown, "Mode", amount);
    BreakdownTotal(shown, "Group", amount);
  }
}
