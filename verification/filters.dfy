/**
 * `applyFilters` (public/app.js:197-233): the dashboard's month, mode and group dropdowns
 * and its free-text search, applied to the rows of one sheet. The dropdown value "ALL"
 * switches a dropdown off; an empty search switches the search off.
 */
module Filters {
  import opened Seqs
  import opened Text
  import opened Rows
  import opened Fields

  /** The dropdown value that switches a dropdown off. */
  const All: string := "ALL"

  /** Which sheet the rows come from; the mode and group dropdowns act per sheet. */
  datatype Kind = Expense | Receipt | Contra

  /** The values of the month, mode and group dropdowns and the text in the search box. */
  datatype Selection = Selection(month: string, mode: string, group: string, search: string)

  /** The search as matched: trimmed and lower-cased. */
  function Query(search: string): string {
    Lower(Trim(search))
  }

  /** `Object.values(row).join(" ").toLowerCase().includes(q)`. */
  predicate Mentions(r: Row, q: string) {
    Contains(Lower(Join(Values(r), " ")), q)
  }

  /** `r.Date` is truthy: the row has a non-empty date. */
  predicate HasDate(r: Row) {
    Field(r, "Date") != ""
  }

  /** `(r[k] || "").trim() === v`. */
  predicate FieldIs(r: Row, k: string, v: string) {
    Key(r, k) == v
  }

  predicate MonthStage(sel: Selection, r: Row) {
    sel.month == All || FieldIs(r, "Month", sel.month)
  }

  /** Expenses and receipts match the mode by their Mode; a contra matches by From or To. */
  predicate ModeStage(sel: Selection, kind: Kind, r: Row) {
    sel.mode == All ||
    match kind
    case Contra => FieldIs(r, "From", sel.mode) || FieldIs(r, "To", sel.mode)
    case _ => FieldIs(r, "Mode", sel.mode)
  }

  /** Only expenses carry a group; the group dropdown leaves other sheets alone. */
  predicate GroupStage(sel: Selection, kind: Kind, r: Row) {
    sel.group == All || kind != Expense || FieldIs(r, "Group", sel.group)
  }

  predicate SearchStage(sel: Selection, r: Row) {
    Query(sel.search) == "" || Mentions(r, Query(sel.search))
  }

  /** `applyFilters(data, type)`: the date filter, then each active dropdown, then the search. */
  function ApplyFilters(data: seq<Row>, sel: Selection, kind: Kind): (r: seq<Row>)
    ensures |r| <= |data|
  {
    var dated := Filter(data, HasDate);
    var byMonth := FilterIf(dated, sel.month != All, r => FieldIs(r, "Month", sel.month));
    var byMode := FilterIf(byMonth, sel.mode != All, r => ModeStage(sel, kind, r));
    var byGroup := FilterIf(byMode, sel.group != All && kind == Expense, r => FieldIs(r, "Group", sel.group));
    FilterIf(byGroup, Query(sel.search) != "", r => Mentions(r, Query(sel.search)))
  }

  /** The single-pass reading of the filters: a row is shown exactly when it has a date and
      passes every active dropdown and the search. */
  predicate Matches(sel: Selection, kind: Kind, r: Row) {
    HasDate(r) && MonthStage(sel, r) && ModeStage(sel, kind, r) && GroupStage(sel, kind, r)
      && SearchStage(sel, r)
  }

  /** The staged filters of `applyFilters` keep exactly the rows `Matches` accepts, in order. */
  lemma ApplyFiltersSpec(data: seq<Row>, sel: Selection, kind: Kind)
    ensures ApplyFilters(data, sel, kind) == Filter(data, r => Matches(sel, kind, r))
  {
    var p1 := r => HasDate(r) && MonthStage(sel, r);
    var p2 := r => p1(r) && ModeStage(sel, kind, r);
    var p3 := r => p2(r) && GroupStage(sel, kind, r);
    FilterIfFuse(data, HasDate, sel.month != All, r => FieldIs(r, "Month", sel.month), r => MonthStage(sel, r), p1);
    FilterIfFuse(data, p1, sel.mode != All, r => ModeStage(sel, kind, r), r => ModeStage(sel, kind, r), p2);
    FilterIfFuse(data, p2, sel.group != All && kind == Expense, r => FieldIs(r, "Group", sel.group),
      r => GroupStage(sel, kind, r), p3);
    FilterIfFuse(data, p3, Query(sel.search) != "", r => Mentions(r, Query(sel.search)),
      r => SearchStage(sel, r), r => Matches(sel, kind, r));
  }

  /** What is shown: a subsequence of the sheet whose every row matches the selection, and
      every matching row of the sheet is shown. */
  lemma ApplyFiltersShown(data: seq<Row>, sel: Selection, kind: Kind)
    ensures var shown := ApplyFilters(data, sel, kind);
      && IsSubseq(shown, data)
      && (forall i :: 0 <= i < |shown| ==> Matches(sel, kind, shown[i]))
      && (forall i :: 0 <= i < |data| && Matches(sel, kind, data[i]) ==> data[i] in shown)
  {
    ApplyFiltersSpec(data, sel, kind);
    FilterContents(data, r => Matches(sel, kind, r));
  }

  /** With every dropdown on "ALL" and an empty search, the rows shown are the dated rows. */
  lemma ApplyFiltersOff(data: seq<Row>, kind: Kind, search: string)
    requires Query(search) == ""
    ensures ApplyFilters(data, Selection(All, All, All, search), kind) == Filter(data, HasDate)
  {
  }

  /** `narrow` asks for at least as much as `wide`: each dropdown `wide` sets is set the same
      in `narrow`, and `narrow`'s query contains `wide`'s. */
  predicate Refines(narrow: Selection, wide: Selection) {
    && (wide.month == All || narrow.month == wide.month)
    && (wide.mode == All || narrow.mode == wide.mode)
    && (wide.group == All || narrow.group == wide.group)
    && Contains(Query(narrow.search), Query(wide.search))
  }

  lemma MatchesMonotone(narrow: Selection, wide: Selection, kind: Kind, r: Row)
    requires Refines(narrow, wide) && Matches(narrow, kind, r)
    ensures Matches(wide, kind, r)
  {
    var qn, qw := Query(narrow.search), Query(wide.search);
    if qw != "" {
      assert qn != "";
      ContainsTransitive(Lower(Join(Values(r), " ")), qn, qw);
    }
  }

  /** Narrowing the selection never shows more: the rows shown for a narrower selection are a
      subsequence of those shown for a wider one. */
  lemma ApplyFiltersMonotone(data: seq<Row>, narrow: Selection, wide: Selection, kind: Kind)
    requires Refines(narrow, wide)
    ensures IsSubseq(ApplyFilters(data, narrow, kind), ApplyFilters(data, wide, kind))
    ensures |ApplyFilters(data, narrow, kind)| <= |ApplyFilters(data, wide, kind)|
  {
    ApplyFiltersSpec(data, narrow, kind);
    ApplyFiltersSpec(data, wide, kind);
    forall x | x in data && Matches(narrow, kind, x)
      ensures Matches(wide, kind, x)
    {
      MatchesMonotone(narrow, wide, kind, x);
    }
    FilterMonotone(data, r => Matches(narrow, kind, r), r => Matches(wide, kind, r));
  }
}
