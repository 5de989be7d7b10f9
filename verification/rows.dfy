/**
 * Spreadsheet rows as the dashboard holds them: objects from column header to cell text.
 * A row is an association list in the order its keys were first assigned; `cleanRow`
 * trims every header and cell and `removeEmptyRows` keeps the rows with any content
 * (public/app.js:100-110).
 */
module Rows {
  import opened Wrappers
  import opened Seqs
  import opened Text
  import opened Assoc

  /** A cleaned row: (header, cell) pairs. */
  type Row = seq<(string, string)>

  /** A row as the CSV reader delivers it; `None` is a cell that is undefined or null. */
  type RawRow = seq<(string, Option<string>)>

  /** `row[k] || ""`: the cell under `k`, or "" when the row has none. */
  function Field(r: Row, k: string): string {
    Get(r, k).GetOr("")
  }

  /** `Object.values(row)`. */
  function Values(r: Row): (vs: seq<string>)
    ensures |vs| == |r|
    ensures forall i :: 0 <= i < |r| ==> vs[i] == r[i].1
  {
    MapSeq(r, (p: (string, string)) => p.1)
  }

  /** `cleanRow`: walks the keys in order and assigns the trimmed cell (undefined read as "")
      to the trimmed key, so a later key that trims to the same text overwrites the cell. */
  function CleanRow(raw: RawRow): Row
    decreases |raw|
  {
    if raw == [] then []
    else
      var last := raw[|raw| - 1];
      Put(CleanRow(raw[..|raw| - 1]), Trim(last.0), Trim(last.1.GetOr("")))
  }

  /** What cleaning yields: unique keys, every key and cell free of surrounding spaces. */
  predicate Clean(r: Row) {
    && UniqueKeys(r)
    && forall i :: 0 <= i < |r| ==> Trimmed(r[i].0) && Trimmed(r[i].1)
  }

  lemma {:induction false} CleanRowClean(raw: RawRow)
    ensures Clean(CleanRow(raw))
    decreases |raw|
  {
    if raw != [] {
      var prev := CleanRow(raw[..|raw| - 1]);
      var last := raw[|raw| - 1];
      var k, v := Trim(last.0), Trim(last.1.GetOr(""));
      CleanRowClean(raw[..|raw| - 1]);
      PutUnique(prev, k, v);
      PutCells(prev, k, v);
      TrimSlice(last.0);
      TrimSlice(last.1.GetOr(""));
    }
  }

  /** `entry` is the last raw entry whose header trims to `k`. */
  predicate LastWithKey(raw: RawRow, k: string, entry: int) {
    && 0 <= entry < |raw| && Trim(raw[entry].0) == k
    && forall j :: entry < j < |raw| ==> Trim(raw[j].0) != k
  }

  /** Reading a cleaned row: key `k` is present exactly when some raw header trims to `k`,
      and its cell is the trimmed cell of the last such header. */
  lemma {:induction false} CleanRowGet(raw: RawRow, k: string)
    ensures Get(CleanRow(raw), k).None? <==> forall j :: 0 <= j < |raw| ==> Trim(raw[j].0) != k
    ensures forall e :: LastWithKey(raw, k, e) ==> Get(CleanRow(raw), k) == Some(Trim(raw[e].1.GetOr("")))
    decreases |raw|
  {
    if raw != [] {
      var init := raw[..|raw| - 1];
      var last := raw[|raw| - 1];
      CleanRowGet(init, k);
      PutGet(CleanRow(init), Trim(last.0), Trim(last.1.GetOr("")), k);
      forall e | LastWithKey(raw, k, e)
        ensures Get(CleanRow(raw), k) == Some(Trim(raw[e].1.GetOr("")))
      {
        if e < |raw| - 1 {
          assert LastWithKey(init, k, e);
        }
      }
      if Trim(last.0) != k {
        assert forall j :: 0 <= j < |init| ==> init[j] == raw[j];
      }
    }
  }

  /** A row has content when some cell is non-empty. */
  predicate HasContent(r: Row) {
    exists i :: 0 <= i < |r| && r[i].1 != ""
  }

  /** `removeEmptyRows`: clean every row, then drop the rows whose cells are all empty. */
  function RemoveEmptyRows(data: seq<RawRow>): (rows: seq<Row>)
    ensures |rows| <= |data|
  {
    Filter(MapSeq(data, CleanRow), HasContent)
  }

  lemma RemoveEmptyRowsCounts(data: seq<RawRow>)
    ensures forall r :: multiset(RemoveEmptyRows(data))[r] == if HasContent(r) then multiset(MapSeq(data, CleanRow))[r] else 0
  {
    FilterMultiset(MapSeq(data, CleanRow), HasContent);
  }

  /** The kept rows are the cleaned rows with content, in their original order, each as
      many times as it occurs among the cleaned rows. */
  lemma RemoveEmptyRowsSpec(data: seq<RawRow>)
    ensures var rows := RemoveEmptyRows(data);
      && IsSubseq(rows, MapSeq(data, CleanRow))
      && (forall r :: multiset(rows)[r] == if HasContent(r) then multiset(MapSeq(data, CleanRow))[r] else 0)
      && (forall i :: 0 <= i < |rows| ==> HasContent(rows[i]) && Clean(rows[i]))
      && (forall i :: 0 <= i < |data| && HasContent(CleanRow(data[i])) ==> CleanRow(data[i]) in rows)
  {
    var cleaned := MapSeq(data, CleanRow);
    var rows := RemoveEmptyRows(data);
    FilterContents(cleaned, HasContent);
    RemoveEmptyRowsCounts(data);
    forall i | 0 <= i < |rows|
      ensures Clean(rows[i])
    {
      assert rows[i] in cleaned;
      var j :| 0 <= j < |cleaned| && cleaned[j] == rows[i];
      CleanRowClean(data[j]);
    }
    forall i | 0 <= i < |data| && HasContent(CleanRow(data[i]))
      ensures CleanRow(data[i]) in rows
    {
      assert cleaned[i] == CleanRow(data[i]);
    }
  }

  /** A cleaned row handed back as a raw row, every cell defined. */
  function Lift(r: Row): (raw: RawRow)
    ensures |raw| == |r|
  {
    MapSeq(r, (p: (string, string)) => (p.0, Some(p.1)))
  }

  /** Cleaning one more raw cell assigns its trimmed value to its trimmed key. */
  lemma CleanRowSnoc(init: RawRow, k: string, v: string)
    ensures CleanRow(init + [(k, Some(v))]) == Put(CleanRow(init), Trim(k), Trim(v))
  {
    assert (init + [(k, Some(v))])[..|init|] == init;
  }

  lemma LiftSnoc(init: Row, last: (string, string))
    ensures Lift(init + [last]) == Lift(init) + [(last.0, Some(last.1))]
  {
    assert |Lift(init + [last])| == |Lift(init) + [(last.0, Some(last.1))]|;
  }

  /** Dropping the last cell of a clean row leaves a clean row that lacks the last key. */
  lemma CleanInit(r: Row)
    requires Clean(r) && r != []
    ensures Clean(r[..|r| - 1])
    ensures Get(r[..|r| - 1], r[|r| - 1].0).None?
    ensures Trimmed(r[|r| - 1].0) && Trimmed(r[|r| - 1].1)
  {
    var init := r[..|r| - 1];
    forall i | 0 <= i < |init|
      ensures init[i] == r[i]
    {
    }
    assert forall j :: 0 <= j < |init| ==> init[j].0 != r[|r| - 1].0;
    KeysGet(init, r[|r| - 1].0);
  }

  /** Cleaning a row that is already clean gives it back unchanged. */
  lemma {:induction false} CleanRowFixed(r: Row)
    requires Clean(r)
    ensures CleanRow(Lift(r)) == r
    decreases |r|
  {
    if r != [] {
      var init := r[..|r| - 1];
      var last := r[|r| - 1];
      assert r == init + [last];
      LiftSnoc(init, last);
      CleanInit(r);
      CleanRowFixed(init);
      CleanRowSnoc(Lift(init), last.0, last.1);
      TrimTrimmed(last.0);
      TrimTrimmed(last.1);
      PutShape(init, last.0, last.1);
    }
  }

  /** `removeEmptyRows` is idempotent: running it again on its own output changes nothing. */
  lemma RemoveEmptyRowsIdempotent(data: seq<RawRow>)
    ensures RemoveEmptyRows(MapSeq(RemoveEmptyRows(data), Lift)) == RemoveEmptyRows(data)
  {
    var rows := RemoveEmptyRows(data);
    RemoveEmptyRowsSpec(data);
    var again := MapSeq(MapSeq(rows, Lift), CleanRow);
    forall i | 0 <= i < |rows|
      ensures again[i] == rows[i]
    {
      CleanRowFixed(rows[i]);
    }
    assert again == rows;
    FilterAll(rows, HasContent);
  }
}
