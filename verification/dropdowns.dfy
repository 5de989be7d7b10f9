/**
 * `fillDropdowns` (public/app.js:249-277): the options of the month, mode and group
 * dropdowns. Each is the set of trimmed cells collected from the sheets, with the empty value
 * dropped, sorted with `localeCompare` (here `Less`).
 */
module Dropdowns {
  import opened Seqs
  import opened Text
  import opened Assoc
  import opened Rows
  import opened Fields
  import opened Ledgers
  import opened Order
  import opened Balances
  import opened Charts

  /** `rows.forEach(r => { if (r[field]) set.add(r[field].trim()) })`, as a list of what was
      added; duplicates are harmless because only membership matters afterwards. */
  function Collect(rows: seq<Row>, field: string): (vs: seq<string>)
    ensures |vs| <= |rows|
  {
    if rows == [] then []
    else
      var last := rows[|rows| - 1];
      Collect(rows[..|rows| - 1], field) + (if Field(last, field) != "" then [Key(last, field)] else [])
  }

  /** A non-empty value was collected exactly when some row's trimmed cell is that value. */
  lemma {:induction false} CollectSpec(rows: seq<Row>, field: string, x: string)
    requires x != ""
    ensures x in Collect(rows, field) <==> Named(rows, field, x)
  {
    if rows != [] {
      var last := rows[|rows| - 1];
      CollectSpec(rows[..|rows| - 1], field, x);
      NamedLast(rows, field, x);
      if Field(last, field) == "" {
        TrimTrimmed("");
      }
    }
  }

  predicate NonEmpty(s: string) {
    s != ""
  }

  /** `Array.from(set).filter(m => m).sort((a, b) => a.localeCompare(b))`. */
  function Options(values: seq<string>): seq<string> {
    SortUnique(Filter(values, NonEmpty))
  }

  /** The options are the distinct non-empty values, in ascending order. */
  lemma OptionsSpec(values: seq<string>)
    ensures StrictlySorted(Options(values))
    ensures forall x :: x in Options(values) <==> x != "" && x in values
  {
    SortUniqueSpec(Filter(values, NonEmpty));
    FilterContents(values, NonEmpty);
    forall x | x in Filter(values, NonEmpty)
      ensures x != ""
    {
      var i :| 0 <= i < |Filter(values, NonEmpty)| && Filter(values, NonEmpty)[i] == x;
    }
    forall x | x != "" && x in values
      ensures x in Filter(values, NonEmpty)
    {
      var i :| 0 <= i < |values| && values[i] == x;
    }
  }

  /** The three dropdowns' options. */
  datatype Choices = Choices(months: seq<string>, modes: seq<string>, groups: seq<string>)

  /** Months come from every transaction sheet; modes from the Mode of expenses, receipts and
      opening balances and from both ends of contras; groups from expenses only. */
  function FillDropdowns(obs: seq<Row>, exps: seq<Row>, recs: seq<Row>, cons: seq<Row>): Choices {
    Choices(
      Options(Collect(exps, "Month") + Collect(recs, "Month") + Collect(cons, "Month")),
      Options(Collect(exps, "Mode") + Collect(recs, "Mode") + Collect(cons, "From") + Collect(cons, "To")
              + Collect(obs, "Mode")),
      Options(Collect(exps, "Group")))
  }

  /** Each dropdown lists, once each and in ascending order, exactly the non-empty values the
      relevant sheets name. */
  lemma FillDropdownsSpec(obs: seq<Row>, exps: seq<Row>, recs: seq<Row>, cons: seq<Row>)
    ensures var c := FillDropdowns(obs, exps, recs, cons);
      && StrictlySorted(c.months) && StrictlySorted(c.modes) && StrictlySorted(c.groups)
      && (forall m :: m in c.months <==>
            m != "" && (Named(exps, "Month", m) || Named(recs, "Month", m) || Named(cons, "Month", m)))
      && (forall m :: m in c.modes <==>
            m != "" && (Named(exps, "Mode", m) || Named(recs, "Mode", m) || Named(cons, "From", m)
                        || Named(cons, "To", m) || Named(obs, "Mode", m)))
      && (forall g :: g in c.groups <==> g != "" && Named(exps, "Group", g))
  {
    var months := Collect(exps, "Month") + Collect(recs, "Month") + Collect(cons, "Month");
    var modes := Collect(exps, "Mode") + Collect(recs, "Mode") + Collect(cons, "From") + Collect(cons, "To")
                 + Collect(obs, "Mode");
    OptionsSpec(months);
    OptionsSpec(modes);
    OptionsSpec(Collect(exps, "Group"));
    forall m | m != ""
      ensures m in months <==> Named(exps, "Month", m) || Named(recs, "Month", m) || Named(cons, "Month", m)
      ensures m in modes <==> Named(exps, "Mode", m) || Named(recs, "Mode", m) || Named(cons, "From", m)
                              || Named(cons, "To", m) || Named(obs, "Mode", m)
      ensures m in Collect(exps, "Group") <==> Named(exps, "Group", m)
    {
      CollectSpec(exps, "Month", m);
      CollectSpec(recs, "Month", m);
      CollectSpec(cons, "Month", m);
      CollectSpec(exps, "Mode", m);
      CollectSpec(recs, "Mode", m);
      CollectSpec(cons, "From", m);
      CollectSpec(cons, "To", m);
      CollectSpec(obs, "Mode", m);
      CollectSpec(exps, "Group", m);
    }
  }

  /** The mode dropdown offers exactly the modes that get a balance card, in the same order. */
  lemma ModeOptionsAreCardModes(obs: seq<Row>, exps: seq<Row>, recs: seq<Row>, cons: seq<Row>)
    ensures FillDropdowns(obs, exps, recs, cons).modes == SortUnique(Keys(ModeBalances(obs, recs, exps, cons)))
  {
    var balances := ModeBalances(obs, recs, exps, cons);
    FillDropdownsSpec(obs, exps, recs, cons);
    SortUniqueSpec(Keys(balances));
    forall m
      ensures m in FillDropdowns(obs, exps, recs, cons).modes <==> m in SortUnique(Keys(balances))
    {
      KeysGet(balances, m);
      ModeBalanceKeys(obs, recs, exps, cons, OpeningValue, Amount, m);
    }
    StrictlySortedUnique(FillDropdowns(obs, exps, recs, cons).modes, SortUnique(Keys(balances)));
  }

  /** Every month on the trend chart is offered by the month dropdown. */
  lemma TrendMonthsOffered(obs: seq<Row>, exps: seq<Row>, recs: seq<Row>, cons: seq<Row>)
    ensures forall m :: m in MonthTrend(exps, Amount).labels ==> m in FillDropdowns(obs, exps, recs, cons).months
  {
    MonthTrendSpec(exps, Amount);
    FillDropdownsSpec(obs, exps, recs, cons);
  }
}
