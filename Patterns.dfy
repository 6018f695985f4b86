/**
 * The date and time patterns the shipped locales use, read through the
 * token scan that the formatter's sequential replacements are proved equal to.
 * Patterns are written right-nested (`"MM" + ([sep] + …)`) so that each step
 * of the scan consumes one token or one separator.
 */
module Patterns {
  import opened Decimal
  import opened Formatter

  lemma DayOnly(d: Date)
    ensures DateScan("DD", d) == PadTwo(d.day)
  {
    DateScanDay([], d);
    assert "DD" + [] == "DD";
  }

  lemma YearOnly(d: Date)
    ensures DateScan("YYYY", d) == NatToDecimal(d.year)
  {
    DateScanYear([], d);
    assert "YYYY" + [] == "YYYY";
  }

  /** Year-first patterns such as the default `YYYY-MM-DD` (en-US, es-ES, ar-SA). */
  lemma YearFirstDate(sep: char, d: Date)
    requires sep != 'Y' && sep != 'M' && sep != 'D'
    ensures DateScan("YYYY" + ([sep] + ("MM" + ([sep] + "DD"))), d)
         == NatToDecimal(d.year) + ([sep] + (PadTwo(d.month) + ([sep] + PadTwo(d.day))))
  {
    var t1 := [sep] + "DD";
    var t2 := "MM" + t1;
    DayOnly(d);
    DateScanOther(sep, "DD", d);
    DateScanMonth(t1, d);
    DateScanOther(sep, t2, d);
    DateScanYear([sep] + t2, d);
  }

  /** Day-first patterns such as en-GB and fr-FR `DD/MM/YYYY` and de-DE `DD.MM.YYYY`. */
  lemma DayFirstDate(sep: char, d: Date)
    requires sep != 'Y' && sep != 'M' && sep != 'D'
    ensures DateScan("DD" + ([sep] + ("MM" + ([sep] + "YYYY"))), d)
         == PadTwo(d.day) + ([sep] + (PadTwo(d.month) + ([sep] + NatToDecimal(d.year))))
  {
    var t1 := [sep] + "YYYY";
    var t2 := "MM" + t1;
    YearOnly(d);
    DateScanOther(sep, "YYYY", d);
    DateScanMonth(t1, d);
    DateScanOther(sep, t2, d);
    DateScanDay([sep] + t2, d);
  }

  /** Year-first patterns with a marker after each field, such as ja-JP `YYYY年MM月DD日`. */
  lemma MarkedDate(a: char, b: char, c: char, d: Date)
    requires a !in "YMD" && b !in "YMD" && c !in "YMD"
    ensures DateScan("YYYY" + ([a] + ("MM" + ([b] + ("DD" + [c])))), d)
         == NatToDecimal(d.year) + ([a] + (PadTwo(d.month) + ([b] + (PadTwo(d.day) + [c]))))
  {
    var t1 := "DD" + [c];
    var t2 := [b] + t1;
    var t3 := "MM" + t2;
    DateScanOther(c, [], d);
    assert [c] + [] == [c];
    DateScanDay([c], d);
    DateScanOther(b, t1, d);
    DateScanMonth(t2, d);
    DateScanOther(a, t3, d);
    DateScanYear([a] + t3, d);
  }

  /** Patterns such as `HH:mm:ss`, the one every shipped locale uses. */
  lemma SeparatedTime(sep: char, t: Time)
    requires sep != 'H' && sep != 'm' && sep != 's'
    ensures TimeScan("HH" + ([sep] + ("mm" + ([sep] + "ss"))), t)
         == PadTwo(t.hour) + ([sep] + (PadTwo(t.minute) + ([sep] + PadTwo(t.second))))
  {
    var t1 := [sep] + "ss";
    var t2 := "mm" + t1;
    TimeScanToken("ss", [], t);
    assert "ss" + [] == "ss";
    TimeScanOther(sep, "ss", t);
    TimeScanToken("mm", t1, t);
    TimeScanOther(sep, t2, t);
    TimeScanToken("HH", [sep] + t2, t);
  }
}
