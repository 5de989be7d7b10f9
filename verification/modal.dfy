/**
 * The transaction modal's type filter, search and sort (`applyModalFilters` and
 * `applyModalSorting`, public/app.js:776-805), applied to the unified list. public/app.js
 * opens the modal on whatever rows its caller passes; the model assumes the unified list. The search matches
 * against every column joined by spaces, the numeric Amount included; how a number is
 * printed is the parameter `show`.
 */
module Modal {
  import opened Wrappers
  import opened Seqs
  import opened Text
  import opened Rows
  import opened Dates
  import opened Sorting
  import opened Filters
  import opened Unified

  /** `Object.values(txn).join(" ")`, columns in the order the entry was built. */
  function TxnText(t: Txn, show: real -> string): string {
    Join([t.date, t.month, Label(t.kind), t.mode, t.from, t.to, t.item, t.group, t.subGroup,
          t.narration, show(t.amount)], " ")
  }

  /** The type dropdown is "ALL" or names the entry's type. */
  predicate TypeStage(typeFilter: string, t: Txn) {
    typeFilter == All || Label(t.kind) == typeFilter
  }

  /** The trimmed, lower-cased search is empty or occurs in the entry's lower-cased text. */
  predicate TxnSearchStage(search: string, show: real -> string, t: Txn) {
    Query(search) == "" || Contains(Lower(TxnText(t, show)), Query(search))
  }

  /** `applyModalFilters`: the type filter, then the search. */
  function ApplyModalFilters(data: seq<Txn>, typeFilter: string, search: string, show: real -> string): (r: seq<Txn>)
    ensures |r| <= |data|
  {
    var byType := FilterIf(data, typeFilter != All, (t: Txn) => Label(t.kind) == typeFilter);
    FilterIf(byType, Query(search) != "", (t: Txn) => Contains(Lower(TxnText(t, show)), Query(search)))
  }

  /** The single-pass reading: an entry is listed exactly when it passes both stages. */
  predicate ModalMatches(typeFilter: string, search: string, show: real -> string, t: Txn) {
    TypeStage(typeFilter, t) && TxnSearchStage(search, show, t)
  }

  /** The two stages keep exactly the entries `ModalMatches` accepts, in order. */
  lemma ApplyModalFiltersSpec(data: seq<Txn>, typeFilter: string, search: string, show: real -> string)
    ensures ApplyModalFilters(data, typeFilter, search, show)
      == Filter(data, (t: Txn) => ModalMatches(typeFilter, search, show, t))
  {
    var byType := (t: Txn) => TypeStage(typeFilter, t);
    var both := (t: Txn) => ModalMatches(typeFilter, search, show, t);
    FilterIfAsFilter(data, typeFilter != All, (t: Txn) => Label(t.kind) == typeFilter, byType);
    var kept := Filter(data, byType);
    FilterIfAsFilter(kept, Query(search) != "", (t: Txn) => Contains(Lower(TxnText(t, show)), Query(search)),
      t => TxnSearchStage(search, show, t));
    FilterFuse(data, byType, (t: Txn) => TxnSearchStage(search, show, t), both);
  }

  /** What the modal lists: a subsequence of the unified list whose every entry matches, and
      every matching entry is listed. */
  lemma ApplyModalFiltersShown(data: seq<Txn>, typeFilter: string, search: string, show: real -> string)
    ensures var shown := ApplyModalFilters(data, typeFilter, search, show);
      && IsSubseq(shown, data)
      && (forall i :: 0 <= i < |shown| ==> ModalMatches(typeFilter, search, show, shown[i]))
      && (forall i :: 0 <= i < |data| && ModalMatches(typeFilter, search, show, data[i]) ==> data[i] in shown)
  {
    ApplyModalFiltersSpec(data, typeFilter, search, show);
    FilterContents(data, (t: Txn) => ModalMatches(typeFilter, search, show, t));
  }

  /** With the type dropdown on one type and no search, the modal lists exactly the entries of
      that type. */
  lemma TypeFilterOnly(data: seq<Txn>, k: TxnKind, search: string, show: real -> string)
    requires Query(search) == ""
    ensures ApplyModalFilters(data, Label(k), search, show) == OfKind(data, k)
  {
    forall t: Txn
      ensures (Label(t.kind) == Label(k)) == KindIs(k)(t)
    {
      match t.kind
      case ExpenseTxn =>
      case ReceiptTxn =>
      case ContraOut =>
      case ContraIn =>
    }
    FilterExt(data, (t: Txn) => Label(t.kind) == Label(k), KindIs(k));
  }

  /** Choosing EXPENSE with no search lists every expense of the sheet, in sheet order. */
  lemma ExpenseTypeListsExpenses(exps: seq<Row>, recs: seq<Row>, cons: seq<Row>, amount: Row -> real,
                                  search: string, show: real -> string)
    requires Query(search) == ""
    ensures ApplyModalFilters(BuildWith(exps, recs, cons, amount), "EXPENSE", search, show) == ExpenseTxns(exps, amount)
  {
    TypeFilterOnly(BuildWith(exps, recs, cons, amount), ExpenseTxn, search, show);
    UnifiedExpenses(exps, recs, cons, amount);
  }

  /** The ascending key each value of the modal's sort dropdown sorts by; `None` for any
      other value, which leaves the entries as they are. */
  function TxnSortKey(sortValue: string, instant: string -> int): Option<Txn -> real> {
    if sortValue == "date_desc" then Some((t: Txn) => -(DateOrdinal(instant, t.date) as real))
    else if sortValue == "date_asc" then Some((t: Txn) => DateOrdinal(instant, t.date) as real)
    else if sortValue == "amount_desc" then Some((t: Txn) => -t.amount)
    else if sortValue == "amount_asc" then Some((t: Txn) => t.amount)
    else None
  }

  /** `applyModalSorting`: a sorted copy of the entries. */
  function ApplyModalSorting(data: seq<Txn>, sortValue: string, instant: string -> int): (r: seq<Txn>)
    ensures |r| == |data|
  {
    match TxnSortKey(sortValue, instant)
    case None => data
    case Some(key) => SortBy(data, key)
  }

  /** The sorted entries are a permutation of the input in the order the dropdown asks for;
      an unknown sort value leaves them untouched. */
  lemma ApplyModalSortingSpec(data: seq<Txn>, sortValue: string, instant: string -> int)
    ensures var r := ApplyModalSorting(data, sortValue, instant);
      && multiset(r) == multiset(data)
      && (sortValue == "amount_asc" ==> forall i, j :: 0 <= i < j < |r| ==> r[i].amount <= r[j].amount)
      && (sortValue == "amount_desc" ==> forall i, j :: 0 <= i < j < |r| ==> r[i].amount >= r[j].amount)
      && (sortValue == "date_asc" ==> forall i, j :: 0 <= i < j < |r| ==>
            DateOrdinal(instant, r[i].date) <= DateOrdinal(instant, r[j].date))
      && (sortValue == "date_desc" ==> forall i, j :: 0 <= i < j < |r| ==>
            DateOrdinal(instant, r[i].date) >= DateOrdinal(instant, r[j].date))
      && (TxnSortKey(sortValue, instant).None? ==> r == data)
  {
    match TxnSortKey(sortValue, instant)
    case None =>
    case Some(key) =>
      SortByPermutes(data, key);
      SortBySorted(data, key);
  }

  /** Entries the chosen key cannot tell apart stay in their original order. */
  lemma ApplyModalSortingStable(data: seq<Txn>, sortValue: string, instant: string -> int, k: real)
    requires TxnSortKey(sortValue, instant).Some?
    ensures var key := TxnSortKey(sortValue, instant).value;
      Ties(ApplyModalSorting(data, sortValue, instant), key, k) == Ties(data, key, k)
  {
    SortByStable(data, TxnSortKey(sortValue, instant).value, k);
  }
}
