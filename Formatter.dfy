/**
 * Locale formatting of integers, currency amounts, dates and times.
 */
module Formatter {
  import opened Wrappers
  import opened Decimal
  import opened Replace
  import opened Store

  // ---------------------------------------------------------------------------
  // Numbers

  /** Digits in groups of three from the right, joined by `sep`. */
  function Grouped(digits: string, sep: string): string
    decreases |digits|
  {
    if |digits| <= 3 then digits
    else
      var head := (|digits| - 1) % 3 + 1;
      digits[..head] + sep + Grouped(digits[head..], sep)
  }

  /** `f"{value:,}"` for an integer. */
  function CommaGrouped(value: int): string {
    (if value < 0 then "-" else "") + Grouped(NatToDecimal(if value < 0 then -value else value), ",")
  }

  /**
   * `number` for an integer: commas become `"THOUSAND"`, which then becomes
   * the locale's thousands separator. The two replacements amount to the
   * sign followed by the digits grouped directly with that separator.
   */
  function Number(locale: Locale, value: int): (r: string)
    ensures r == (if value < 0 then "-" else "")
              + Grouped(NatToDecimal(if value < 0 then -value else value), locale.numberThousand)
  {
    var sign := if value < 0 then "-" else "";
    var digits := NatToDecimal(if value < 0 then -value else value);
    ReplacePassesPrefix(sign, Grouped(digits, ","), ",", "THOUSAND");
    GroupedRebind(digits, ",", "THOUSAND");
    ReplacePassesPrefix(sign, Grouped(digits, "THOUSAND"), "THOUSAND", locale.numberThousand);
    GroupedRebind(digits, "THOUSAND", locale.numberThousand);
    ReplaceAll(ReplaceAll(CommaGrouped(value), ",", "THOUSAND"), "THOUSAND", locale.numberThousand)
  }

  lemma DigitsLackChar(c: char, s: string)
    requires AllDigits(s) && !IsDigit(c)
    ensures c !in s
  {
  }

  /** Replacing a separator that starts with a non-digit re-joins the same groups with the new one. */
  lemma {:induction false} GroupedRebind(digits: string, sep: string, sep': string)
    requires AllDigits(digits)
    requires sep != [] && !IsDigit(sep[0])
    ensures ReplaceAll(Grouped(digits, sep), sep, sep') == Grouped(digits, sep')
    decreases |digits|
  {
    DigitsLackChar(sep[0], digits);
    if |digits| <= 3 {
      ReplaceAbsent(digits, sep, sep');
    } else {
      var head := (|digits| - 1) % 3 + 1;
      var rest := Grouped(digits[head..], sep);
      DigitsLackChar(sep[0], digits[..head]);
      assert digits[..head] + sep + rest == digits[..head] + (sep + rest);
      ReplacePassesPrefix(digits[..head], sep + rest, sep, sep');
      ReplaceAtFront(rest, sep, sep');
      GroupedRebind(digits[head..], sep, sep');
    }
  }

  /** The digits of a string, in order. */
  function DigitsOf(s: string): (r: string)
    ensures AllDigits(r)
  {
    if s == [] then [] else (if IsDigit(s[0]) then [s[0]] else []) + DigitsOf(s[1..])
  }

  lemma {:induction false} DigitsOfConcat(a: string, b: string)
    ensures DigitsOf(a + b) == DigitsOf(a) + DigitsOf(b)
  {
    if a == [] {
      assert a + b == b;
    } else {
      assert (a + b)[1..] == a[1..] + b;
      DigitsOfConcat(a[1..], b);
    }
  }

  lemma {:induction false} DigitsOfDigits(s: string)
    requires AllDigits(s)
    ensures DigitsOf(s) == s
  {
    if s != [] {
      DigitsOfDigits(s[1..]);
    }
  }

  lemma {:induction false} DigitsOfNone(s: string)
    requires forall i :: 0 <= i < |s| ==> !IsDigit(s[i])
    ensures DigitsOf(s) == []
  {
    if s != [] {
      DigitsOfNone(s[1..]);
    }
  }

  /** Grouping only inserts separators: dropping them gives the digits back. */
  lemma {:induction false} GroupedKeepsDigits(digits: string, sep: string)
    requires AllDigits(digits)
    requires forall i :: 0 <= i < |sep| ==> !IsDigit(sep[i])
    ensures DigitsOf(Grouped(digits, sep)) == digits
    decreases |digits|
  {
    if |digits| <= 3 {
      DigitsOfDigits(digits);
    } else {
      var head := (|digits| - 1) % 3 + 1;
      var h, t := digits[..head], digits[head..];
      GroupedUnfold(digits, sep, head);
      DigitsSplit(digits, head);
      GroupedKeepsDigits(t, sep);
      GroupDigitsStep(h, sep, Grouped(t, sep));
    }
  }

  /** One step of `Grouped`: the head group, the separator, then the rest grouped. */
  lemma GroupedUnfold(digits: string, sep: string, head: nat)
    requires |digits| > 3 && head == (|digits| - 1) % 3 + 1
    ensures Grouped(digits, sep) == digits[..head] + sep + Grouped(digits[head..], sep)
  {
  }

  /** Both parts of a digit string are digit strings, and together they are the whole. */
  lemma DigitsSplit(s: string, k: nat)
    requires AllDigits(s) && k <= |s|
    ensures AllDigits(s[..k]) && AllDigits(s[k..]) && s[..k] + s[k..] == s
  {
  }

  /** One group, a separator and the rest: only the group's and the rest's digits remain. */
  lemma GroupDigitsStep(h: string, sep: string, r: string)
    requires AllDigits(h)
    requires forall i :: 0 <= i < |sep| ==> !IsDigit(sep[i])
    ensures DigitsOf(h + sep + r) == h + DigitsOf(r)
  {
    DigitsOfConcat(h + sep, r);
    DigitsOfConcat(h, sep);
    DigitsOfDigits(h);
    DigitsOfNone(sep);
    assert h + [] == h;
  }

  /** Grouping adds one separator for every full group of three after the first group. */
  lemma {:induction false} GroupedLength(digits: string, sep: string)
    requires |digits| >= 1
    ensures |Grouped(digits, sep)| == |digits| + (|digits| - 1) / 3 * |sep|
    decreases |digits|
  {
    if |digits| > 3 {
      var head := (|digits| - 1) % 3 + 1;
      var rest := digits[head..];
      GroupedLength(rest, sep);
      assert |Grouped(digits, sep)| == head + |sep| + |Grouped(rest, sep)|;
      GroupCountStep(|digits|, head, |sep|);
    }
  }

  /** Arithmetic of one step of `GroupedLength`: the head group takes one separator. */
  lemma GroupCountStep(n: int, head: int, w: int)
    requires n > 3 && head == (n - 1) % 3 + 1
    ensures head + w + (n - head) + (n - head - 1) / 3 * w == n + (n - 1) / 3 * w
  {
    var q := (n - 1) / 3;
    assert n - 1 == 3 * q + (head - 1);
    assert n - head == 3 * q;
    assert (n - head - 1) / 3 == q - 1;
    assert (q - 1) * w + w == q * w;
  }

  /**
   * When the separator holds no digit, an integer can be read back from its
   * rendering: the sign from the first character, the magnitude from the digits.
   */
  lemma NumberReadsBack(locale: Locale, value: int)
    requires forall i :: 0 <= i < |locale.numberThousand| ==> !IsDigit(locale.numberThousand[i])
    ensures var r := Number(locale, value);
      |r| > 0 && (r[0] == '-' <==> value < 0)
      && ParseDecimal(DigitsOf(r)) == if value < 0 then -value else value
  {
    var magnitude := if value < 0 then -value else value;
    var digits := NatToDecimal(magnitude);
    var sign := if value < 0 then "-" else "";
    GroupedKeepsDigits(digits, locale.numberThousand);
    DigitsOfConcat(sign, Grouped(digits, locale.numberThousand));
    DigitsOfNone(sign);
    ParseNatToDecimal(magnitude);
    assert DigitsOf(Number(locale, value)) == digits;
    GroupedLength(digits, locale.numberThousand);
    assert Grouped(digits, locale.numberThousand)[0] == digits[0] by {
      if |digits| > 3 {
        var head := (|digits| - 1) % 3 + 1;
        assert Grouped(digits, locale.numberThousand)[0] == digits[..head][0];
      }
    }
  }

  /**
   * 1234567 reads as its three groups joined by the locale's separator:
   * `1,234,567` for en-US, `1.234.567` for de-DE and `1 234 567` for fr-FR.
   */
  lemma NumberMillions(locale: Locale)
    ensures Number(locale, 1234567)
         == "1" + locale.numberThousand + "234" + locale.numberThousand + "567"
  {
    DecimalOfMillions();
    GroupedMillions(locale.numberThousand);
  }

  lemma DecimalOfMillions()
    ensures NatToDecimal(1234567) == "1234567"
  {
    assert NatToDecimal(1) == "1";
    assert NatToDecimal(12) == "12";
    assert NatToDecimal(123) == "123";
    assert NatToDecimal(1234) == "1234";
    assert NatToDecimal(12345) == "12345";
    assert NatToDecimal(123456) == "123456";
  }

  lemma GroupedMillions(sep: string)
    ensures Grouped("1234567", sep) == "1" + sep + "234" + sep + "567"
  {
    var s := "1234567";
    GroupedSeven(s, sep);
    assert s[..1] == "1" && s[1..4] == "234" && s[4..] == "567";
  }

  /** Seven digits group as one, three and three. */
  lemma GroupedSeven(s: string, sep: string)
    requires |s| == 7
    ensures Grouped(s, sep) == s[..1] + sep + s[1..4] + sep + s[4..]
  {
    var t := s[1..];
    assert t[..3] == s[1..4] && t[3..] == s[4..];
    assert Grouped(t, sep) == t[..3] + sep + Grouped(t[3..], sep);
  }

  // ---------------------------------------------------------------------------
  // Currency

  /** `symbol or locale.currency_symbol`. */
  function SymbolFor(locale: Locale, symbol: Option<string>): string {
    if symbol.Some? && symbol.value != "" then symbol.value else locale.currencySymbol
  }

  /**
   * `currency` for an integer amount: the rendered amount splits into the
   * symbol and the number, the symbol first when the position is `before`,
   * else the number, one space and the symbol.
   */
  function Currency(locale: Locale, value: int, symbol: Option<string>): (r: string)
    ensures var sym := SymbolFor(locale, symbol);
      if locale.currencyPosition == "before" then
        |r| >= |sym| && r[..|sym|] == sym && r[|sym|..] == Number(locale, value)
      else
        |r| >= |sym| + 1 && r[|r| - |sym|..] == sym && r[|r| - |sym| - 1] == ' '
        && r[..|r| - |sym| - 1] == Number(locale, value)
  {
    var sym := SymbolFor(locale, symbol);
    var num := Number(locale, value);
    if locale.currencyPosition == "before" then sym + num else num + " " + sym
  }

  /** 99 is `$99` with en-US's conventions and `99 €` with es-ES's. */
  lemma CurrencyExamples(locale: Locale)
    ensures locale.currencySymbol == "$" && locale.currencyPosition == "before"
      ==> Currency(locale, 99, None) == "$99"
    ensures locale.currencySymbol == "€" && locale.currencyPosition == "after"
      ==> Currency(locale, 99, None) == "99 €"
  {
    assert NatToDecimal(99) == "99";
  }

  // ---------------------------------------------------------------------------
  // Dates and times

  datatype Date = Date(year: nat, month: nat, day: nat)
  datatype Time = Time(hour: nat, minute: nat, second: nat)

  /** The replacements of `date`, in the order the loop applies them. */
  function DateReplacements(d: Date): seq<(string, string)> {
    var year := NatToDecimal(d.year);
    [("YYYY", year), ("YY", LastTwo(year)), ("MM", PadTwo(d.month)), ("DD", PadTwo(d.day)),
     ("年", "年"), ("月", "月"), ("日", "日")]
  }

  /** The replacements of `time`, in the order the loop applies them. */
  function TimeReplacements(t: Time): seq<(string, string)> {
    [("HH", PadTwo(t.hour)), ("mm", PadTwo(t.minute)), ("ss", PadTwo(t.second))]
  }

  /**
   * A left-to-right reading of a date pattern: at each position the longest
   * token there is replaced and the reading moves past it; other characters
   * are copied.
   */
  function DateScan(s: string, d: Date): string
    decreases |s|
  {
    if s == [] then []
    else if StartsWith(s, "YYYY") then NatToDecimal(d.year) + DateScan(s[4..], d)
    else if StartsWith(s, "YY") then LastTwo(NatToDecimal(d.year)) + DateScan(s[2..], d)
    else if StartsWith(s, "MM") then PadTwo(d.month) + DateScan(s[2..], d)
    else if StartsWith(s, "DD") then PadTwo(d.day) + DateScan(s[2..], d)
    else [s[0]] + DateScan(s[1..], d)
  }

  /** The same reading of a time pattern. */
  function TimeScan(s: string, t: Time): string
    decreases |s|
  {
    if s == [] then []
    else if StartsWith(s, "HH") then PadTwo(t.hour) + TimeScan(s[2..], t)
    else if StartsWith(s, "mm") then PadTwo(t.minute) + TimeScan(s[2..], t)
    else if StartsWith(s, "ss") then PadTwo(t.second) + TimeScan(s[2..], t)
    else [s[0]] + TimeScan(s[1..], t)
  }

  /** Reading a locale attribute through a formatter whose locale is absent. */
  datatype FormatError = AttributeError

  /** `format_str or default`: an absent or empty pattern means the locale's own. */
  function EffectiveFormat(format: Option<string>, fallback: string): string {
    if format.Some? && format.value != "" then format.value else fallback
  }

  lemma ChainStep(s: string, table: seq<(string, string)>, i: nat)
    requires i < |table|
    ensures ReplaceChain(s, table[i..]) == ReplaceChain(ReplaceAll(s, table[i].0, table[i].1), table[i + 1..])
  {
    assert table[i..][1..] == table[i + 1..];
  }

  /** The loop shared by `date` and `time`: each pair replaces in the result of the previous one. */
  method ApplyReplacements(text: string, table: seq<(string, string)>) returns (r: string)
    ensures r == ReplaceChain(text, table)
  {
    r := text;
    for i := 0 to |table|
      invariant ReplaceChain(r, table[i..]) == ReplaceChain(text, table)
    {
      ChainStep(r, table, i);
      r := ReplaceAll(r, table[i].0, table[i].1);
    }
    assert table[|table|..] == [];
  }

  /**
   * A formatter bound to the locale it formats for. The locale is absent
   * when it was built from a lookup that missed; `date` and `time` then
   * fail exactly when they need the locale's own pattern.
   */
  class Formatter {
    const locale: Option<Locale>

    constructor (locale: Option<Locale>)
      ensures this.locale == locale
    {
      this.locale := locale;
    }

    /**
     * `date`: the pattern (the argument unless absent or empty, else the
     * locale's) with each date token replaced by the field it names.
     */
    method FormatDate(value: Date, format: Option<string>) returns (r: Result<string, FormatError>)
      ensures r.Failure? <==> (format.None? || format.value == "") && locale.None?
      ensures r.Success? ==>
        var fmt := EffectiveFormat(format, if locale.Some? then locale.value.dateFormat else "");
        r.value == ReplaceChain(fmt, DateReplacements(value)) && r.value == DateScan(fmt, value)
    {
      if (format.None? || format.value == "") && locale.None? {
        return Failure(AttributeError);
      }
      var fmt := EffectiveFormat(format, if locale.Some? then locale.value.dateFormat else "");
      var text := ApplyReplacements(fmt, DateReplacements(value));
      DateChainIsScan(fmt, value);
      r := Success(text);
    }

    /** `time`: the same for the hour, minute and second tokens. */
    method FormatTime(value: Time, format: Option<string>) returns (r: Result<string, FormatError>)
      ensures r.Failure? <==> (format.None? || format.value == "") && locale.None?
      ensures r.Success? ==>
        var fmt := EffectiveFormat(format, if locale.Some? then locale.value.timeFormat else "");
        r.value == ReplaceChain(fmt, TimeReplacements(value)) && r.value == TimeScan(fmt, value)
    {
      if (format.None? || format.value == "") && locale.None? {
        return Failure(AttributeError);
      }
      var fmt := EffectiveFormat(format, if locale.Some? then locale.value.timeFormat else "");
      var text := ApplyReplacements(fmt, TimeReplacements(value));
      TimeChainIsScan(fmt, value);
      r := Success(text);
    }
  }

  /** The four substituting replacements of `date`, in order. */
  ghost function DateCore(s: string, d: Date): string {
    var year := NatToDecimal(d.year);
    ReplaceAll(ReplaceAll(ReplaceAll(ReplaceAll(s, "YYYY", year), "YY", LastTwo(year)),
      "MM", PadTwo(d.month)), "DD", PadTwo(d.day))
  }

  /**
   * Replacing one token after another gives the same text as reading the
   * pattern once from left to right: every substituted value is made of
   * digits, so no replacement creates or breaks an occurrence of a later
   * token. The identity replacements of the CJK date markers change nothing.
   */
  lemma DateChainIsScan(s: string, d: Date)
    ensures ReplaceChain(s, DateReplacements(d)) == DateScan(s, d)
  {
    var table := DateReplacements(d);
    var year := NatToDecimal(d.year);
    var s1 := ReplaceAll(s, "YYYY", year);
    var s2 := ReplaceAll(s1, "YY", LastTwo(year));
    var s3 := ReplaceAll(s2, "MM", PadTwo(d.month));
    var core := DateCore(s, d);
    assert ReplaceChain(s, table) == ReplaceChain(s1, table[1..]);
    assert ReplaceChain(s1, table[1..]) == ReplaceChain(s2, table[2..]) by {
      assert table[1..][0] == ("YY", LastTwo(year)) && table[1..][1..] == table[2..];
    }
    assert ReplaceChain(s2, table[2..]) == ReplaceChain(s3, table[3..]) by {
      assert table[2..][0] == ("MM", PadTwo(d.month)) && table[2..][1..] == table[3..];
    }
    assert ReplaceChain(s3, table[3..]) == ReplaceChain(core, table[4..]) by {
      assert table[3..][0] == ("DD", PadTwo(d.day)) && table[3..][1..] == table[4..];
    }
    assert ReplaceChain(core, table[4..]) == ReplaceChain(core, table[5..]) by {
      assert table[4..][0] == ("年", "年") && table[4..][1..] == table[5..];
    }
    assert ReplaceChain(core, table[5..]) == ReplaceChain(core, table[6..]) by {
      assert table[5..][0] == ("月", "月") && table[5..][1..] == table[6..];
    }
    assert ReplaceChain(core, table[6..]) == core by {
      assert table[6..][0] == ("日", "日") && table[6..][1..] == [];
    }
    DateCoreIsScan(s, d);
  }

  lemma DigitsPass(v: string, x: string, old_: string, new_: string)
    requires AllDigits(v) && old_ != [] && !IsDigit(old_[0])
    ensures ReplaceAll(v + x, old_, new_) == v + ReplaceAll(x, old_, new_)
  {
    DigitsLackChar(old_[0], v);
    ReplacePassesPrefix(v, x, old_, new_);
  }

  lemma {:induction false} DateCoreIsScan(s: string, d: Date)
    ensures DateCore(s, d) == DateScan(s, d)
    decreases |s|
  {
    if s == [] {
    } else if StartsWith(s, "YYYY") {
      assert s == "YYYY" + s[4..];
      DateCoreYears(s[4..], d);
      DateCoreIsScan(s[4..], d);
    } else if StartsWith(s, "YY") {
      assert s == "YY" + s[2..];
      DateCoreShortYear(s[2..], d);
      DateCoreIsScan(s[2..], d);
    } else if StartsWith(s, "MM") {
      assert s == "MM" + s[2..];
      DateCoreMonth(s[2..], d);
      DateCoreIsScan(s[2..], d);
    } else if StartsWith(s, "DD") {
      assert s == "DD" + s[2..];
      DateCoreDay(s[2..], d);
      DateCoreIsScan(s[2..], d);
    } else {
      assert s == [s[0]] + s[1..];
      DateCoreOther(s[0], s[1..], d);
      DateCoreIsScan(s[1..], d);
    }
  }

  lemma DateCoreYears(x: string, d: Date)
    ensures DateCore("YYYY" + x, d) == NatToDecimal(d.year) + DateCore(x, d)
  {
    var year := NatToDecimal(d.year);
    var a1 := ReplaceAll(x, "YYYY", year);
    var a2 := ReplaceAll(a1, "YY", LastTwo(year));
    var a3 := ReplaceAll(a2, "MM", PadTwo(d.month));
    ReplaceAtFront(x, "YYYY", year);
    DigitsPass(year, a1, "YY", LastTwo(year));
    DigitsPass(year, a2, "MM", PadTwo(d.month));
    DigitsPass(year, a3, "DD", PadTwo(d.day));
  }

  lemma DateCoreShortYear(x: string, d: Date)
    requires !StartsWith(x, "YY")
    ensures DateCore("YY" + x, d) == LastTwo(NatToDecimal(d.year)) + DateCore(x, d)
  {
    var year := NatToDecimal(d.year);
    var short := LastTwo(year);
    var a1 := ReplaceAll(x, "YYYY", year);
    var a2 := ReplaceAll(a1, "YY", short);
    var a3 := ReplaceAll(a2, "MM", PadTwo(d.month));
    assert "Y" + x == ['Y'] + x && "YY" + x == ['Y'] + ("Y" + x);
    StartsWithLonger(x, "YY", "Y");
    StartsWithCons('Y', x, "YYY");
    StartsWithCons('Y', "Y" + x, "YYYY");
    NoMatchAtFront('Y', x, "YYYY", year);
    NoMatchAtFront('Y', "Y" + x, "YYYY", year);
    assert "YY" + x == ['Y'] + ("Y" + x);
    assert ReplaceAll("YY" + x, "YYYY", year) == "YY" + a1;
    ReplaceAtFront(a1, "YY", short);
    DigitsPass(short, a2, "MM", PadTwo(d.month));
    DigitsPass(short, a3, "DD", PadTwo(d.day));
  }

  lemma DateCoreMonth(x: string, d: Date)
    ensures DateCore("MM" + x, d) == PadTwo(d.month) + DateCore(x, d)
  {
    var year := NatToDecimal(d.year);
    var a1 := ReplaceAll(x, "YYYY", year);
    var a2 := ReplaceAll(a1, "YY", LastTwo(year));
    var a3 := ReplaceAll(a2, "MM", PadTwo(d.month));
    ReplacePassesPrefix("MM", x, "YYYY", year);
    ReplacePassesPrefix("MM", a1, "YY", LastTwo(year));
    ReplaceAtFront(a2, "MM", PadTwo(d.month));
    DigitsPass(PadTwo(d.month), a3, "DD", PadTwo(d.day));
  }

  lemma DateCoreDay(x: string, d: Date)
    ensures DateCore("DD" + x, d) == PadTwo(d.day) + DateCore(x, d)
  {
    var year := NatToDecimal(d.year);
    var a1 := ReplaceAll(x, "YYYY", year);
    var a2 := ReplaceAll(a1, "YY", LastTwo(year));
    var a3 := ReplaceAll(a2, "MM", PadTwo(d.month));
    ReplacePassesPrefix("DD", x, "YYYY", year);
    ReplacePassesPrefix("DD", a1, "YY", LastTwo(year));
    ReplacePassesPrefix("DD", a2, "MM", PadTwo(d.month));
    ReplaceAtFront(a3, "DD", PadTwo(d.day));
  }

  /** A character where no token starts is copied through all four replacements. */
  lemma DateCoreOther(c: char, x: string, d: Date)
    requires !StartsWith([c] + x, "YY") && !StartsWith([c] + x, "MM") && !StartsWith([c] + x, "DD")
    ensures DateCore([c] + x, d) == [c] + DateCore(x, d)
  {
    var year := NatToDecimal(d.year);
    var a1 := ReplaceAll(x, "YYYY", year);
    var a2 := ReplaceAll(a1, "YY", LastTwo(year));
    var a3 := ReplaceAll(a2, "MM", PadTwo(d.month));
    var s := [c] + x;
    // The token letter c never follows itself here, and no replacement puts it first.
    assert x == [] || x[0] != c || (c != 'Y' && c != 'M' && c != 'D');
    assert !StartsWith(s, "YYYY");
    NoMatchAtFront(c, x, "YYYY", year);
    if c == 'Y' { ReplaceKeepsFirstChar(x, "YYYY", year, c); }
    if c == 'M' || c == 'D' {
      ReplaceKeepsFirstChar(x, "YYYY", year, c);
      ReplaceKeepsFirstChar(a1, "YY", LastTwo(year), c);
    }
    if c == 'D' { ReplaceKeepsFirstChar(a2, "MM", PadTwo(d.month), c); }
    NoPrefixAtPair(c, a1, "YY");
    NoMatchAtFront(c, a1, "YY", LastTwo(year));
    NoPrefixAtPair(c, a2, "MM");
    NoMatchAtFront(c, a2, "MM", PadTwo(d.month));
    NoPrefixAtPair(c, a3, "DD");
    NoMatchAtFront(c, a3, "DD", PadTwo(d.day));
  }

  /** The three replacements of `time`, in order. */
  ghost function TimeCore(s: string, t: Time): string {
    ReplaceAll(ReplaceAll(ReplaceAll(s, "HH", PadTwo(t.hour)), "mm", PadTwo(t.minute)), "ss", PadTwo(t.second))
  }

  /** As for dates: the sequential replacements read the pattern once, left to right. */
  lemma TimeChainIsScan(s: string, t: Time)
    ensures ReplaceChain(s, TimeReplacements(t)) == TimeScan(s, t)
  {
    var table := TimeReplacements(t);
    var s1 := ReplaceAll(s, "HH", PadTwo(t.hour));
    var s2 := ReplaceAll(s1, "mm", PadTwo(t.minute));
    assert ReplaceChain(s, table) == ReplaceChain(s1, table[1..]);
    assert ReplaceChain(s1, table[1..]) == ReplaceChain(s2, table[2..]) by {
      assert table[1..][0] == ("mm", PadTwo(t.minute)) && table[1..][1..] == table[2..];
    }
    assert ReplaceChain(s2, table[2..]) == TimeCore(s, t) by {
      assert table[2..][0] == ("ss", PadTwo(t.second)) && table[2..][1..] == [];
    }
    TimeCoreIsScan(s, t);
  }

  lemma {:induction false} TimeCoreIsScan(s: string, t: Time)
    ensures TimeCore(s, t) == TimeScan(s, t)
    decreases |s|
  {
    if s == [] {
    } else if StartsWith(s, "HH") || StartsWith(s, "mm") || StartsWith(s, "ss") {
      var token := s[..2];
      assert s == token + s[2..];
      TimeCoreToken(token, s[2..], t);
      TimeCoreIsScan(s[2..], t);
    } else {
      assert s == [s[0]] + s[1..];
      TimeCoreOther(s[0], s[1..], t);
      TimeCoreIsScan(s[1..], t);
    }
  }

  /** A token at the front is replaced by its field and the rest is handled on its own. */
  lemma TimeCoreToken(token: string, x: string, t: Time)
    requires token == "HH" || token == "mm" || token == "ss"
    ensures TimeCore(token + x, t)
         == (if token == "HH" then PadTwo(t.hour) else if token == "mm" then PadTwo(t.minute) else PadTwo(t.second))
          + TimeCore(x, t)
  {
    var a1 := ReplaceAll(x, "HH", PadTwo(t.hour));
    var a2 := ReplaceAll(a1, "mm", PadTwo(t.minute));
    if token == "HH" {
      ReplaceAtFront(x, "HH", PadTwo(t.hour));
      DigitsPass(PadTwo(t.hour), a1, "mm", PadTwo(t.minute));
      DigitsPass(PadTwo(t.hour), a2, "ss", PadTwo(t.second));
    } else if token == "mm" {
      ReplacePassesPrefix(token, x, "HH", PadTwo(t.hour));
      ReplaceAtFront(a1, "mm", PadTwo(t.minute));
      DigitsPass(PadTwo(t.minute), a2, "ss", PadTwo(t.second));
    } else {
      ReplacePassesPrefix(token, x, "HH", PadTwo(t.hour));
      ReplacePassesPrefix(token, a1, "mm", PadTwo(t.minute));
      ReplaceAtFront(a2, "ss", PadTwo(t.second));
    }
  }

  /** A character where no token starts is copied through all three replacements. */
  lemma TimeCoreOther(c: char, x: string, t: Time)
    requires !StartsWith([c] + x, "HH") && !StartsWith([c] + x, "mm") && !StartsWith([c] + x, "ss")
    ensures TimeCore([c] + x, t) == [c] + TimeCore(x, t)
  {
    var a1 := ReplaceAll(x, "HH", PadTwo(t.hour));
    var a2 := ReplaceAll(a1, "mm", PadTwo(t.minute));
    var s := [c] + x;
    assert x == [] || x[0] != c || (c != 'H' && c != 'm' && c != 's');
    if c == 'm' || c == 's' { ReplaceKeepsFirstChar(x, "HH", PadTwo(t.hour), c); }
    if c == 's' { ReplaceKeepsFirstChar(a1, "mm", PadTwo(t.minute), c); }
    NoMatchAtFront(c, x, "HH", PadTwo(t.hour));
    NoPrefixAtPair(c, a1, "mm");
    NoMatchAtFront(c, a1, "mm", PadTwo(t.minute));
    NoPrefixAtPair(c, a2, "ss");
    NoMatchAtFront(c, a2, "ss", PadTwo(t.second));
  }

  lemma DateScanYear(x: string, d: Date)
    ensures DateScan("YYYY" + x, d) == NatToDecimal(d.year) + DateScan(x, d)
  {
    assert StartsWith("YYYY" + x, "YYYY") && ("YYYY" + x)[4..] == x;
  }

  lemma DateScanMonth(x: string, d: Date)
    ensures DateScan("MM" + x, d) == PadTwo(d.month) + DateScan(x, d)
  {
    assert StartsWith("MM" + x, "MM") && ("MM" + x)[2..] == x;
  }

  lemma DateScanDay(x: string, d: Date)
    ensures DateScan("DD" + x, d) == PadTwo(d.day) + DateScan(x, d)
  {
    assert StartsWith("DD" + x, "DD") && ("DD" + x)[2..] == x;
  }

  lemma DateScanOther(c: char, x: string, d: Date)
    requires c != 'Y' && c != 'M' && c != 'D'
    ensures DateScan([c] + x, d) == [c] + DateScan(x, d)
  {
    StartsWithCons(c, x, "YYYY");
    StartsWithCons(c, x, "YY");
    StartsWithCons(c, x, "MM");
    StartsWithCons(c, x, "DD");
    assert ([c] + x)[1..] == x;
  }

  lemma TimeScanToken(token: string, x: string, t: Time)
    requires token == "HH" || token == "mm" || token == "ss"
    ensures TimeScan(token + x, t)
         == (if token == "HH" then PadTwo(t.hour) else if token == "mm" then PadTwo(t.minute) else PadTwo(t.second))
          + TimeScan(x, t)
  {
    assert StartsWith(token + x, token) && (token + x)[2..] == x;
  }

  lemma TimeScanOther(c: char, x: string, t: Time)
    requires c != 'H' && c != 'm' && c != 's'
    ensures TimeScan([c] + x, t) == [c] + TimeScan(x, t)
  {
    StartsWithCons(c, x, "HH");
    StartsWithCons(c, x, "mm");
    StartsWithCons(c, x, "ss");
    assert ([c] + x)[1..] == x;
  }
}
