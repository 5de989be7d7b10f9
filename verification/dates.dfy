/**
 * `parseDateValue` (public/app.js:112-126). The text it hands to the Date constructor is
 * modelled exactly; the constructor itself is a parameter `instant` from that text to a
 * time value, so date order is whatever `instant` makes of the text.
 */
module Dates {
  import opened Text

  /** The text an empty date stands for. */
  const DefaultDate: string := "1900-01-01"

  /** The text `parseDateValue` builds for the Date constructor: the default for an empty
      value; otherwise the trimmed part before the first comma, rewritten from
      "day/month/year" to "day month year" when it has exactly three '/'-separated parts. */
  function DateText(s: string): (t: string)
    ensures s == "" ==> t == DefaultDate
  {
    if s == "" then DefaultDate
    else
      var clean := Trim(Split(s, ',')[0]);
      var parts := Split(clean, '/');
      if |parts| == 3 then parts[0] + " " + parts[1] + " " + parts[2] else clean
  }

  /** `parseDateValue(s)` as a time value, for a given reading of date text. */
  function DateOrdinal(instant: string -> int, s: string): int {
    instant(DateText(s))
  }

  /** Splitting at the first separator: the block before it, then the split of the rest. */
  lemma SplitAt(a: string, b: string, c: char)
    requires c !in a
    ensures Split(a + [c] + b, c) == [a] + Split(b, c)
  {
    var s := a + [c] + b;
    var k := IndexOf(s, c);
    assert s[|a|] == c;
    assert forall i :: 0 <= i < |a| ==> s[i] == a[i];
    assert k == |a|;
    assert s[k + 1..] == b;
    assert s[..k] == a;
  }

  lemma SplitNone(a: string, c: char)
    requires c !in a
    ensures Split(a, c) == [a]
  {
    assert forall i :: 0 <= i < |a| ==> a[i] != c;
    assert IndexOf(a, c) == |a|;
  }

  /** Everything from the first comma on (a time of day, say) is ignored. */
  lemma DateTextIgnoresAfterComma(d: string, t: string)
    requires d != "" && ',' !in d
    ensures DateText(d + "," + t) == DateText(d)
  {
    SplitAt(d, t, ',');
    SplitNone(d, ',');
  }

  /** "day/month/year" is handed over as "day month year". */
  lemma DateTextDayMonthYear(day: string, mon: string, year: string)
    requires day != "" && !IsSpace(day[0]) && year != "" && !IsSpace(year[|year| - 1])
    requires '/' !in day && '/' !in mon && '/' !in year
    requires ',' !in day && ',' !in mon && ',' !in year
    ensures DateText(day + "/" + mon + "/" + year) == day + " " + mon + " " + year
  {
    var s := day + "/" + mon + "/" + year;
    assert ',' !in s;
    SplitNone(s, ',');
    assert Trimmed(s) by {
      assert s[0] == day[0];
      assert s[|s| - 1] == year[|year| - 1];
    }
    TrimTrimmed(s);
    assert s == day + ['/'] + (mon + ['/'] + year);
    SplitAt(day, mon + ['/'] + year, '/');
    SplitAt(mon, year, '/');
    SplitNone(year, '/');
  }

  /** Text without a '/' is handed over as its trimmed part before the first comma. */
  lemma DateTextPlain(s: string)
    requires s != "" && ',' !in s && '/' !in s
    ensures DateText(s) == Trim(s)
  {
    SplitNone(s, ',');
    TrimSlice(s);
    var k :| 0 <= k <= |s| - |Trim(s)| && OccursAt(s, Trim(s), k);
    assert forall i :: 0 <= i < |Trim(s)| ==> Trim(s)[i] == s[k + i];
    assert '/' !in Trim(s);
    SplitNone(Trim(s), '/');
  }
}
