/**
 * The footer of a receipt, read from the whole text by label: the total
 * (serbian-fiscal-bill-parser.ts, lines 38-49), the date and time (424-440),
 * the bill number (447-463) and the bill counter (470-482).
 */
module Footer {
  import opened Options
  import opened JsString
  import opened LocaleNumber
  import opened BillModel

  /** `ПФР број рачуна:` */
  const NumberLabel: string := "\U{041F}\U{0424}\U{0420} \U{0431}\U{0440}\U{043E}\U{0458} \U{0440}\U{0430}\U{0447}\U{0443}\U{043D}\U{0430}:"

  /** `Бројач рачуна:` */
  const CounterLabel: string := "\U{0411}\U{0440}\U{043E}\U{0458}\U{0430}\U{0447} \U{0440}\U{0430}\U{0447}\U{0443}\U{043D}\U{0430}:"

  /** `Укупан износ:` */
  const TotalLabel: string := "\U{0423}\U{043A}\U{0443}\U{043F}\U{0430}\U{043D} \U{0438}\U{0437}\U{043D}\U{043E}\U{0441}:"

  /** `ПФР време:` */
  const TimeLabel: string := "\U{041F}\U{0424}\U{0420} \U{0432}\U{0440}\U{0435}\U{043C}\U{0435}:"

  // ---------------------------------------------------------------- number and counter

  /**
   * `.replace(/ /g, '').replace(/\r\n/g, '').replace(/\n/g, '')` followed by
   * `trim()`: the value holds neither a space nor a line feed.
   */
  function Cleaned(s: string): (r: string)
    ensures ' ' !in r && '\n' !in r
  {
    var a := RemoveChar(s, ' ');
    var b := ReplaceAll(a, "\r\n", []);
    var d := RemoveChar(b, '\n');
    DeletionLacks(a, "\r\n", ' ');
    TrimLacks(d, ' ');
    TrimLacks(d, '\n');
    Trim(d)
  }

  /** Cleaning never brings in a character the text lacks. */
  lemma CleanedLacks(s: string, c: char)
    requires c !in s
    ensures c !in Cleaned(s)
  {
    var a := RemoveChar(s, ' ');
    DeletionLacks(a, "\r\n", c);
    TrimLacks(RemoveChar(ReplaceAll(a, "\r\n", []), '\n'), c);
  }

  /** No white space at all. */
  predicate Solid(s: string) { forall i :: 0 <= i < |s| ==> !IsWhitespace(s[i]) }

  /**
   * A value the receipt wraps over two lines comes back whole: the spaces
   * before it and the line breaks inside and after it are deleted.
   */
  lemma CleanedJoinsWrappedValue(gap: string, a: string, b: string)
    requires AllSpaces(gap) && Solid(a) && Solid(b) && a + b != []
    ensures Cleaned(gap + a + "\r\n" + b + "\r\n") == a + b
  {
    var s := gap + a + "\r\n" + b + "\r\n";
    assert ' ' !in a && ' ' !in b && '\r' !in a && '\n' !in a && '\n' !in b by {
      assert forall i :: 0 <= i < |a| ==> !IsWhitespace(a[i]);
      assert forall i :: 0 <= i < |b| ==> !IsWhitespace(b[i]);
    }
    SpacesRemoved(gap, a + "\r\n" + b + "\r\n");
    assert s == gap + (a + "\r\n" + b + "\r\n");
    DeletionAfter(a, "\r\n", b + "\r\n");
    assert a + "\r\n" + b + "\r\n" == a + "\r\n" + (b + "\r\n");
    DeletionAfter(b, "\r\n", []);
    assert b + "\r\n" + [] == b + "\r\n";
    assert ReplaceAll([], "\r\n", []) == [];
    assert b + [] == b;
    RemoveCharAbsent(a + b, '\n');
    assert Solid(a + b) by {
      forall i | 0 <= i < |a + b| ensures !IsWhitespace((a + b)[i]) {
        if i < |a| { assert (a + b)[i] == a[i]; } else { assert (a + b)[i] == b[i - |a|]; }
      }
    }
    TrimOfTrimmed(a + b);
  }

  /** Leading spaces go, and a text without spaces stays. */
  lemma SpacesRemoved(gap: string, x: string)
    requires AllSpaces(gap) && ' ' !in x
    ensures RemoveChar(gap + x, ' ') == x
  {
    RemoveCharConcat(gap, x, ' ');
    RemoveCharAbsent(x, ' ');
    SpacesOnlyRemoved(gap);
  }

  lemma {:induction false} SpacesOnlyRemoved(gap: string)
    requires AllSpaces(gap)
    ensures RemoveChar(gap, ' ') == []
    decreases |gap|
  {
    if gap != [] {
      SpacesOnlyRemoved(gap[1..]);
    }
  }

  /**
   * `getNumber`: the text after the first `ПФР број рачуна:`, up to the next
   * `Бројач рачуна:`, cleaned; nothing when the label is missing or nothing
   * follows it.
   */
  function NumberOf(bill: string): (r: Option<string>)
    ensures !Contains(bill, NumberLabel) ==> r.None?
    ensures r.Some? ==> ' ' !in r.value && '\n' !in r.value
  {
    if bill == [] then None
    else
      var parts := Split(bill, NumberLabel);
      SplitSecond(bill, NumberLabel);
      if |parts| < 2 || parts[1] == [] then None
      else Some(Cleaned(Split(parts[1], CounterLabel)[0]))
  }

  /** `getCounter`: the text after the first `Бројач рачуна:`, up to the first `=`, cleaned. */
  function CounterOf(bill: string): (r: Option<string>)
    ensures !Contains(bill, CounterLabel) ==> r.None?
    ensures r.Some? ==> ' ' !in r.value && '\n' !in r.value && '=' !in r.value
  {
    if bill == [] then None
    else
      var parts := Split(bill, CounterLabel);
      SplitSecond(bill, CounterLabel);
      if |parts| < 2 || parts[1] == [] then None
      else
        var piece := Split(parts[1], "=")[0];
        SplitPiecesLackSeparator(parts[1], '=');
        CleanedLacks(piece, '=');
        Some(Cleaned(piece))
  }

  /**
   * The first piece after a separator, when the text after it starts with
   * `head`, is `head` and then a prefix of what follows the head.
   */
  lemma PieceStartsWith(pre: string, sep: string, head: string, post: string) returns (tail: string)
    requires sep != [] && IndexOf(pre + sep, sep) == |pre|
    requires sep[0] !in head
    ensures |Split(pre + sep + head + post, sep)| > 1
    ensures Split(pre + sep + head + post, sep)[1] == head + tail
    ensures tail == [] || (post != [] && tail[0] == post[0])
  {
    assert pre + sep + head + post == pre + sep + (head + post);
    PieceAfterLabel(pre, sep, head + post);
    tail := FirstPieceHead(head, post, sep);
  }



  /**
   * The number is the text between the first number label and the counter
   * label after it, cleaned.
   */
  lemma NumberBetweenLabels(pre: string, x: string, post: string)
    requires IndexOf(pre + NumberLabel, NumberLabel) == |pre|
    requires NumberLabel[0] !in x && CounterLabel[0] !in x
    ensures NumberOf(pre + NumberLabel + x + CounterLabel + post) == Some(Cleaned(x))
  {
    var bill := pre + NumberLabel + x + CounterLabel + post;
    assert NumberLabel[0] !in CounterLabel;
    assert NumberLabel[0] !in x + CounterLabel;
    assert bill == pre + NumberLabel + (x + CounterLabel) + post;
    var tail := PieceStartsWith(pre, NumberLabel, x + CounterLabel, post);
    assert x + CounterLabel + tail == x + CounterLabel + tail;
    PieceBeforeSeparator(x, CounterLabel, tail);
    assert |bill| > 0;
  }

  /** The counter is the text between the first counter label and the first `=` after it, cleaned. */
  lemma CounterBeforeRule(pre: string, x: string, post: string)
    requires IndexOf(pre + CounterLabel, CounterLabel) == |pre|
    requires CounterLabel[0] !in x && '=' !in x
    ensures CounterOf(pre + CounterLabel + x + "=" + post) == Some(Cleaned(x))
  {
    var bill := pre + CounterLabel + x + "=" + post;
    assert CounterLabel[0] !in x + "=";
    assert bill == pre + CounterLabel + (x + "=") + post;
    var tail := PieceStartsWith(pre, CounterLabel, x + "=", post);
    PieceBeforeSeparator(x, "=", tail);
    assert |bill| > 0;
  }

  // ---------------------------------------------------------------- total

  /**
   * The total of lines 38-49: the first `[0-9.,]` run after the first
   * `Укупан износ:` (and before the next one), read as a locale number, 0
   * when that is NaN. No run leaves the price unset (None); a missing label
   * makes the source fail.
   */
  function TotalOf(bill: string): (r: Result<Option<real>>)
    ensures r.Err? <==> !Contains(bill, TotalLabel)
    ensures r.Err? ==> r.error == NoTotalLabel
    ensures r.Ok? && r.value.Some? ==> r.value.value >= 0.0
  {
    var parts := Split(bill, TotalLabel);
    SplitSecond(bill, TotalLabel);
    if |parts| < 2 then Err(NoTotalLabel) else Ok(TotalOfText(parts[1]))
  }

  /** The value of the first price run of the text after the label. */
  function TotalOfText(after: string): (r: Option<real>)
    ensures r.None? <==> forall j :: 0 <= j < |after| ==> !IsPriceChar(after[j])
    ensures r.Some? ==> r.value >= 0.0
  {
    match FirstRun(after, IsPriceChar)
    case None => None
    case Some(run) => Some(LocaleValue(run).GetOr(0.0))
  }

  /** The total is read from the text between the first label and the next. */
  lemma TotalAfterLabel(pre: string, after: string)
    requires IndexOf(pre + TotalLabel, TotalLabel) == |pre|
    ensures TotalOf(pre + TotalLabel + after) == Ok(TotalOfText(Split(after, TotalLabel)[0]))
  {
    PieceAfterLabel(pre, TotalLabel, after);
  }

  /** A `grouped,decimals` token after text without digits, `.` or `,` is its exact decimal. */
  lemma TotalOfTextPrinted(gap: string, a: string, b: string, tail: string)
    requires forall j :: 0 <= j < |gap| ==> !IsPriceChar(gap[j])
    requires AllGroupedDigits(a) && AllDigits(b) && RemoveChar(a, '.') != []
    requires tail == [] || !IsPriceChar(tail[0])
    ensures AllDigits(RemoveChar(a, '.'))
    ensures TotalOfText(gap + (a + "," + b) + tail) == Some(Decimal(RemoveChar(a, '.'), b))
  {
    LocaleValueWithComma(a, b);
    FirstRunAfterGap(gap, a + "," + b, tail, IsPriceChar);
  }

  /**
   * A total printed as `grouped,decimals` after the label, past any text
   * without digits, `.` or `,`, reads as that exact decimal.
   */
  lemma TotalOfPrinted(pre: string, gap: string, a: string, b: string, post: string)
    requires IndexOf(pre + TotalLabel, TotalLabel) == |pre|
    requires forall j :: 0 <= j < |gap| ==> !IsPriceChar(gap[j])
    requires TotalLabel[0] !in gap
    requires AllGroupedDigits(a) && AllDigits(b) && RemoveChar(a, '.') != []
    requires post == [] || !IsPriceChar(post[0])
    ensures AllDigits(RemoveChar(a, '.'))
    ensures TotalOf(pre + TotalLabel + gap + (a + "," + b) + post)
            == Ok(Some(Decimal(RemoveChar(a, '.'), b)))
  {
    var tok := a + "," + b;
    LocaleValueWithComma(a, b);
    var head := gap + tok;
    assert TotalLabel[0] !in head by {
      PriceCharsLackLabel(tok);
    }
    var tail := FirstPieceHead(head, post, TotalLabel);
    Regrouped(pre, TotalLabel, gap, tok, post);
    assert TotalOf(pre + TotalLabel + (head + post)) == Ok(TotalOfText(head + tail)) by {
      TotalAfterLabel(pre, head + post);
    }
    TotalOfTextPrinted(gap, a, b, tail);
  }

  lemma PriceCharsLackLabel(tok: string)
    requires AllPriceChars(tok)
    ensures TotalLabel[0] !in tok
  {
    forall j | 0 <= j < |tok| ensures tok[j] != TotalLabel[0] {
      assert IsPriceChar(tok[j]);
    }
  }

  /** A label followed by no digit, `.` or `,` before the next one leaves the price unset. */
  lemma TotalUnset(pre: string, after: string)
    requires IndexOf(pre + TotalLabel, TotalLabel) == |pre|
    requires forall j :: 0 <= j < |after| ==> !IsPriceChar(after[j])
    ensures TotalOf(pre + TotalLabel + after) == Ok(None)
  {
    TotalAfterLabel(pre, after);
    SplitFirst(after, TotalLabel);
    var p := Split(after, TotalLabel)[0];
    assert forall j :: 0 <= j < |p| ==> p[j] == after[j];
  }

  // ---------------------------------------------------------------- date and time

  /** The class `[ .:0-9]`. */
  predicate IsDateChar(c: char) { IsDigit(c) || c == ' ' || c == '.' || c == ':' }

  /** `-s` or `+s`: the sign `parseInt` accepts, dropped. */
  function Unsigned(u: string): string {
    if u != [] && (u[0] == '-' || u[0] == '+') then u[1..] else u
  }

  /**
   * `Number.parseInt(s)` in base 10: leading white space skipped, an
   * optional sign, then the longest run of decimal digits; NaN (None) when
   * that run is empty.
   */
  function ParseInt(s: string): (r: Option<int>)
    ensures r.Some? ==> exists i :: 0 <= i < |s| && IsDigit(s[i])
  {
    TrimStartSuffix(s);
    var u := TrimStart(s);
    var r := SignedValue(u);
    assert r.Some? ==> IsDigit(s[|s| - |Unsigned(u)|]);
    r
  }

  /** The optionally signed digit run at the start of `u`. */
  function SignedValue(u: string): (r: Option<int>)
    ensures r.Some? <==> var v := Unsigned(u); v != [] && IsDigit(v[0])
    ensures r.Some? ==> exists i :: 0 <= i < |u| && IsDigit(u[i])
  {
    var v := Unsigned(u);
    var n := DigitRun(v, 0);
    if n == 0 then None
    else
      assert IsDigit(v[0]) by { assert v[0..n][0] == v[0]; }
      assert IsDigit(u[|u| - |v|]);
      var magnitude: int := DigitsValue(v[..n]);
      Some(if u[0] == '-' then -magnitude else magnitude)
  }

  /** A decimal numeral, whatever non-digit follows it, reads as its value. */
  lemma ParseIntOfDigits(ds: string, tail: string)
    requires ds != [] && AllDigits(ds)
    requires tail == [] || !IsDigit(tail[0])
    ensures ParseInt(ds + tail) == Some(DigitsValue(ds) as int)
  {
    var s := ds + tail;
    assert s[0] == ds[0];
    TrimStartOfNonWhitespace(s);
    SignedValueOfDigits(ds, tail);
  }

  lemma SignedValueOfDigits(ds: string, tail: string)
    requires ds != [] && AllDigits(ds)
    requires tail == [] || !IsDigit(tail[0])
    ensures SignedValue(ds + tail) == Some(DigitsValue(ds) as int)
  {
    var s := ds + tail;
    assert s[0] == ds[0];
    assert Unsigned(s) == s;
    assert s[0..|ds|] == ds;
    if tail != [] { assert s[|ds|] == tail[0]; }
    DigitRunOfDigits(s, 0, |ds|);
    assert s[..|ds|] == ds;
  }

  /** `Number.parseInt(parts[k])`; past the end the argument is `undefined` and the result NaN. */
  function ParseIntAt(parts: seq<string>, k: nat): (r: Option<int>)
    ensures k >= |parts| ==> r.None?
  {
    if k < |parts| then ParseInt(parts[k]) else None
  }

  /**
   * The six numbers of a trimmed date-time run: day, month and year are the
   * first three `.`-pieces, the clock is the second ` `-piece split on `:`,
   * and the month is handed over minus one. A run without a space fails, as
   * the source indexes past the end of its split.
   */
  function DateFields(raw: string): (r: Result<CivilTime>)
    ensures r.Err? <==> ' ' !in raw
    ensures r.Err? ==> r.error == NoClock
  {
    var bySpace := Split(raw, " ");
    ContainsChar(raw, ' ');
    SplitSecond(raw, " ");
    if |bySpace| < 2 then Err(NoClock)
    else Ok(FieldsOf(Split(raw, "."), Split(bySpace[1], ":")))
  }

  /** The `Date` arguments from the `.`-pieces of the date and the `:`-pieces of the clock. */
  function FieldsOf(date: seq<string>, clock: seq<string>): CivilTime {
    CivilTime(ParseIntAt(date, 2), MonthIndex(ParseIntAt(date, 1)),
              ParseIntAt(date, 0), ParseIntAt(clock, 0), ParseIntAt(clock, 1), ParseIntAt(clock, 2))
  }

  /** `parseInt(...) - 1`: NaN stays NaN. */
  function MonthIndex(month: Option<int>): Option<int> {
    match month
    case None => None
    case Some(m) => Some(m - 1)
  }

  /**
   * `getDate` up to the `Date` constructor: nothing for an empty bill; a
   * failure when the time label is missing; nothing when no `[ .:0-9]` run
   * follows it; otherwise the fields of that run, trimmed.
   */
  function DateOf(bill: string): (r: Result<Option<CivilTime>>)
    ensures r.Err? && r.error == NoTimeLabel <==> bill != [] && !Contains(bill, TimeLabel)
    ensures r.Err? && r.error == NoClock <==>
              bill != [] && |Split(bill, TimeLabel)| > 1 && ClockMissing(Split(bill, TimeLabel)[1])
    ensures r.Err? ==> r.error == NoTimeLabel || r.error == NoClock
  {
    if bill == [] then Ok(None)
    else
      var parts := Split(bill, TimeLabel);
      SplitSecond(bill, TimeLabel);
      if |parts| < 2 then Err(NoTimeLabel) else DateOfText(parts[1])
  }

  /** The date-time fields of the first `[ .:0-9]` run of the text after the label. */
  function DateOfText(after: string): (r: Result<Option<CivilTime>>)
    ensures r.Err? ==> r.error == NoClock
    ensures r.Err? <==> ClockMissing(after)
    ensures r.Ok? && r.value.None? <==> forall j :: 0 <= j < |after| ==> !IsDateChar(after[j])
  {
    match FirstRun(after, IsDateChar)
    case None => Ok(None)
    case Some(run) => Present(DateFields(Trim(run)))
  }

  /** The first `[ .:0-9]` run of the text, trimmed, holds no space between the date and the clock. */
  predicate ClockMissing(after: string) {
    match FirstRun(after, IsDateChar)
    case None => false
    case Some(run) => ' ' !in Trim(run)
  }

  function Present(r: Result<CivilTime>): Result<Option<CivilTime>> {
    match r
    case Err(e) => Err(e)
    case Ok(t) => Ok(Some(t))
  }

  /** The date is read from the text between the first time label and the next. */
  lemma DateAfterLabel(pre: string, after: string)
    requires IndexOf(pre + TimeLabel, TimeLabel) == |pre|
    ensures DateOf(pre + TimeLabel + after) == DateOfText(Split(after, TimeLabel)[0])
  {
    PieceAfterLabel(pre, TimeLabel, after);
    assert |pre + TimeLabel + after| > 0;
  }

  /** A stamp `dd.mm.yyyy. hh:mm:ss` of decimal numerals. */
  function Stamp(dd: string, mm: string, yyyy: string, hh: string, mi: string, ss: string): string {
    dd + "." + mm + "." + yyyy + ". " + hh + ":" + mi + ":" + ss
  }

  predicate Numeral(ds: string) { ds != [] && AllDigits(ds) }

  lemma NumeralLacks(ds: string, c: char)
    requires AllDigits(ds) && !IsDigit(c)
    ensures c !in ds
  {
    assert forall i :: 0 <= i < |ds| ==> IsDigit(ds[i]);
  }

  /**
   * Reading a printed stamp back gives its numbers, the month counted
   * from 0.
   */
  lemma DateFieldsOfStamp(dd: string, mm: string, yyyy: string, hh: string, mi: string, ss: string)
    requires Numeral(dd) && Numeral(mm) && Numeral(yyyy) && Numeral(hh) && Numeral(mi) && Numeral(ss)
    ensures DateFields(Stamp(dd, mm, yyyy, hh, mi, ss))
            == Ok(CivilTime(Some(DigitsValue(yyyy) as int), Some(DigitsValue(mm) as int - 1),
                            Some(DigitsValue(dd) as int), Some(DigitsValue(hh) as int),
                            Some(DigitsValue(mi) as int), Some(DigitsValue(ss) as int)))
  {
    var clock := hh + ":" + mi + ":" + ss;
    StampByDot(dd, mm, yyyy, hh, mi, ss);
    StampBySpace(dd, mm, yyyy, hh, mi, ss);
    ClockByColon(hh, mi, ss);
    NumeralsRead(dd, mm, yyyy, " " + clock, hh, mi, ss);
  }

  lemma NumeralsRead(dd: string, mm: string, yyyy: string, last: string, hh: string, mi: string, ss: string)
    requires Numeral(dd) && Numeral(mm) && Numeral(yyyy) && Numeral(hh) && Numeral(mi) && Numeral(ss)
    ensures FieldsOf([dd, mm, yyyy, last], [hh, mi, ss])
            == CivilTime(Some(DigitsValue(yyyy) as int), Some(DigitsValue(mm) as int - 1),
                         Some(DigitsValue(dd) as int), Some(DigitsValue(hh) as int),
                         Some(DigitsValue(mi) as int), Some(DigitsValue(ss) as int))
  {
    FieldsOfDisplays(dd, mm, yyyy, last, hh, mi, ss);
    NumeralRead(dd);
    MonthRead(mm);
    NumeralRead(yyyy);
    NumeralRead(hh);
    NumeralRead(mi);
    NumeralRead(ss);
  }

  lemma FieldsOfDisplays(dd: string, mm: string, yyyy: string, last: string, hh: string, mi: string, ss: string)
    ensures FieldsOf([dd, mm, yyyy, last], [hh, mi, ss])
            == CivilTime(ParseInt(yyyy), MonthIndex(ParseInt(mm)), ParseInt(dd),
                         ParseInt(hh), ParseInt(mi), ParseInt(ss))
  {
  }

  lemma MonthRead(mm: string)
    requires Numeral(mm)
    ensures MonthIndex(ParseInt(mm)) == Some(DigitsValue(mm) as int - 1)
  {
    NumeralRead(mm);
  }

  lemma NumeralRead(ds: string)
    requires Numeral(ds)
    ensures ParseInt(ds) == Some(DigitsValue(ds) as int)
  {
    ParseIntOfDigits(ds, []);
    assert ds + [] == ds;
  }

  lemma StampByDot(dd: string, mm: string, yyyy: string, hh: string, mi: string, ss: string)
    requires Numeral(dd) && Numeral(mm) && Numeral(yyyy) && Numeral(hh) && Numeral(mi) && Numeral(ss)
    ensures Split(Stamp(dd, mm, yyyy, hh, mi, ss), ".") == [dd, mm, yyyy, " " + hh + ":" + mi + ":" + ss]
  {
    var last := " " + hh + ":" + mi + ":" + ss;
    NumeralLacks(dd, '.');
    NumeralLacks(mm, '.');
    NumeralLacks(yyyy, '.');
    ClockLacks(hh, mi, ss, '.');
    assert Stamp(dd, mm, yyyy, hh, mi, ss) == dd + "." + (mm + "." + (yyyy + "." + last));
    SplitWhole(last, '.');
    SplitCons(yyyy, '.', last);
    SplitCons(mm, '.', yyyy + "." + last);
    SplitCons(dd, '.', mm + "." + (yyyy + "." + last));
  }

  lemma ClockLacks(hh: string, mi: string, ss: string, c: char)
    requires Numeral(hh) && Numeral(mi) && Numeral(ss) && c != ' ' && c != ':' && !IsDigit(c)
    ensures c !in " " + hh + ":" + mi + ":" + ss
  {
    NumeralLacks(hh, c);
    NumeralLacks(mi, c);
    NumeralLacks(ss, c);
  }

  lemma StampBySpace(dd: string, mm: string, yyyy: string, hh: string, mi: string, ss: string)
    requires Numeral(dd) && Numeral(mm) && Numeral(yyyy) && Numeral(hh) && Numeral(mi) && Numeral(ss)
    ensures Split(Stamp(dd, mm, yyyy, hh, mi, ss), " ") == [dd + "." + mm + "." + yyyy + ".", hh + ":" + mi + ":" + ss]
  {
    var first := dd + "." + mm + "." + yyyy + ".";
    var clock := hh + ":" + mi + ":" + ss;
    NumeralLacks(dd, ' ');
    NumeralLacks(mm, ' ');
    NumeralLacks(yyyy, ' ');
    NumeralLacks(hh, ' ');
    NumeralLacks(mi, ' ');
    NumeralLacks(ss, ' ');
    assert Stamp(dd, mm, yyyy, hh, mi, ss) == first + " " + clock;
    SplitWhole(clock, ' ');
    SplitCons(first, ' ', clock);
  }

  lemma ClockByColon(hh: string, mi: string, ss: string)
    requires Numeral(hh) && Numeral(mi) && Numeral(ss)
    ensures Split(hh + ":" + mi + ":" + ss, ":") == [hh, mi, ss]
  {
    NumeralLacks(hh, ':');
    NumeralLacks(mi, ':');
    NumeralLacks(ss, ':');
    assert hh + ":" + mi + ":" + ss == hh + ":" + (mi + ":" + ss);
    SplitWhole(ss, ':');
    SplitCons(mi, ':', ss);
    SplitCons(hh, ':', mi + ":" + ss);
  }

  /** A stamp past some spaces and before a character outside `[ .:0-9]` is the run that is read. */
  lemma DateOfTextStamp(gap: string, stamp: string, tail: string)
    requires AllSpaces(gap)
    requires stamp != [] && IsDigit(stamp[0]) && IsDigit(stamp[|stamp| - 1])
    requires forall j :: 0 <= j < |stamp| ==> IsDateChar(stamp[j])
    requires tail == [] || !IsDateChar(tail[0])
    ensures DateOfText(gap + stamp + tail) == Present(DateFields(stamp))
  {
    assert FirstRun(gap + stamp + tail, IsDateChar) == Some(gap + stamp) by {
      StampRunFound(gap, stamp, tail);
    }
    assert Trim(gap + stamp) == stamp by {
      StampTrimmed(gap, stamp);
    }
  }

  lemma StampRunFound(gap: string, stamp: string, tail: string)
    requires AllSpaces(gap)
    requires stamp != [] && forall j :: 0 <= j < |stamp| ==> IsDateChar(stamp[j])
    requires tail == [] || !IsDateChar(tail[0])
    ensures FirstRun(gap + stamp + tail, IsDateChar) == Some(gap + stamp)
  {
    var run := gap + stamp;
    forall j | 0 <= j < |run| ensures IsDateChar(run[j]) {
      if j < |gap| { assert run[j] == gap[j]; } else { assert run[j] == stamp[j - |gap|]; }
    }
    assert [] + run + tail == gap + stamp + tail;
    FirstRunAfterGap([], run, tail, IsDateChar);
  }

  lemma StampTrimmed(gap: string, stamp: string)
    requires AllSpaces(gap)
    requires stamp != [] && IsDigit(stamp[0]) && IsDigit(stamp[|stamp| - 1])
    ensures Trim(gap + stamp) == stamp
  {
    forall j | 0 <= j < |gap| ensures IsWhitespace(gap[j]) { assert gap[j] == ' '; }
    TrimAround(gap, stamp, []);
    assert gap + stamp + [] == gap + stamp;
  }

  /**
   * A stamp printed after the time label, past any spaces, and followed by
   * a character outside `[ .:0-9]` (or by nothing), reads as its numbers.
   */
  lemma DateOfPrintedStamp(pre: string, gap: string, stamp: string, post: string)
    requires IndexOf(pre + TimeLabel, TimeLabel) == |pre|
    requires AllSpaces(gap)
    requires stamp != [] && IsDigit(stamp[0]) && IsDigit(stamp[|stamp| - 1])
    requires forall j :: 0 <= j < |stamp| ==> IsDateChar(stamp[j])
    requires post == [] || !IsDateChar(post[0])
    ensures DateOf(pre + TimeLabel + gap + stamp + post) == Present(DateFields(stamp))
  {
    var run := gap + stamp;
    assert TimeLabel[0] !in run by {
      assert TimeLabel[0] !in gap;
      NoLabelInStamp(stamp);
    }
    var tail := FirstPieceHead(run, post, TimeLabel);
    Regrouped(pre, TimeLabel, gap, stamp, post);
    assert DateOf(pre + TimeLabel + (run + post)) == DateOfText(run + tail) by {
      DateAfterLabel(pre, run + post);
    }
    DateOfTextStamp(gap, stamp, tail);
  }



  lemma NoLabelInStamp(stamp: string)
    requires forall j :: 0 <= j < |stamp| ==> IsDateChar(stamp[j])
    ensures TimeLabel[0] !in stamp
  {
    forall j | 0 <= j < |stamp| ensures stamp[j] != TimeLabel[0] {
      assert IsDateChar(stamp[j]);
    }
  }

  /**
   * The receipt's own format: a stamp `dd.mm.yyyy. hh:mm:ss` after the time
   * label gives the date and time it prints.
   */
  lemma DateOfReceipt(pre: string, gap: string, dd: string, mm: string, yyyy: string,
                      hh: string, mi: string, ss: string, post: string)
    requires IndexOf(pre + TimeLabel, TimeLabel) == |pre|
    requires AllSpaces(gap)
    requires Numeral(dd) && Numeral(mm) && Numeral(yyyy) && Numeral(hh) && Numeral(mi) && Numeral(ss)
    requires post == [] || !IsDateChar(post[0])
    ensures DateOf(pre + TimeLabel + gap + Stamp(dd, mm, yyyy, hh, mi, ss) + post)
            == Ok(Some(CivilTime(Some(DigitsValue(yyyy) as int), Some(DigitsValue(mm) as int - 1),
                                 Some(DigitsValue(dd) as int), Some(DigitsValue(hh) as int),
                                 Some(DigitsValue(mi) as int), Some(DigitsValue(ss) as int))))
  {
    var stamp := Stamp(dd, mm, yyyy, hh, mi, ss);
    StampShape(dd, mm, yyyy, hh, mi, ss);
    DateOfPrintedStamp(pre, gap, stamp, post);
    DateFieldsOfStamp(dd, mm, yyyy, hh, mi, ss);
  }

  lemma StampShape(dd: string, mm: string, yyyy: string, hh: string, mi: string, ss: string)
    requires Numeral(dd) && Numeral(mm) && Numeral(yyyy) && Numeral(hh) && Numeral(mi) && Numeral(ss)
    ensures var stamp := Stamp(dd, mm, yyyy, hh, mi, ss);
            && stamp != [] && IsDigit(stamp[0]) && IsDigit(stamp[|stamp| - 1])
            && forall j :: 0 <= j < |stamp| ==> IsDateChar(stamp[j])
  {
    var stamp := Stamp(dd, mm, yyyy, hh, mi, ss);
    assert stamp[0] == dd[0];
    assert stamp[|stamp| - 1] == ss[|ss| - 1];
    forall j | 0 <= j < |stamp| ensures IsDateChar(stamp[j]) {
      AllDateChars(dd, mm, yyyy, hh, mi, ss, j);
    }
  }

  lemma AllDateChars(dd: string, mm: string, yyyy: string, hh: string, mi: string, ss: string, j: nat)
    requires Numeral(dd) && Numeral(mm) && Numeral(yyyy) && Numeral(hh) && Numeral(mi) && Numeral(ss)
    requires j < |Stamp(dd, mm, yyyy, hh, mi, ss)|
    ensures IsDateChar(Stamp(dd, mm, yyyy, hh, mi, ss)[j])
  {
    var x := dd + "." + mm + "." + yyyy + ". ";
    var y := hh + ":" + mi + ":" + ss;
    assert Stamp(dd, mm, yyyy, hh, mi, ss) == x + y;
    if j < |x| {
      DateCharsOf(dd, mm, yyyy, ". ", j);
      assert (x + y)[j] == x[j];
    } else {
      DateCharsOf(hh, mi, ss, [], j - |x|);
      assert y + [] == y;
      assert (x + y)[j] == y[j - |x|];
    }
  }

  /** Three numerals and their `.` or `:` separators are all of the class `[ .:0-9]`. */
  lemma DateCharsOf(a: string, b: string, d: string, end: string, j: nat)
    requires AllDigits(a) && AllDigits(b) && AllDigits(d)
    requires forall k :: 0 <= k < |end| ==> IsDateChar(end[k])
    requires j < |a + "." + b + "." + d + end| || j < |a + ":" + b + ":" + d + end|
    ensures j < |a + "." + b + "." + d + end| ==> IsDateChar((a + "." + b + "." + d + end)[j])
    ensures j < |a + ":" + b + ":" + d + end| ==> IsDateChar((a + ":" + b + ":" + d + end)[j])
  {
  }

  /**
   * The date line of the parser's own test: ten spaces after the label, then
   * `06.05.2023. 10:55:09`, give 6 May 2023 (month index 4) at 10:55:09.
   */
  lemma DateOfTestLine(line: string)
    requires line == TimeLabel + "          06.05.2023. 10:55:09"
    ensures DateOf(line) == Ok(Some(CivilTime(Some(2023), Some(4), Some(6), Some(10), Some(55), Some(9))))
  {
    var gap := "          ";
    var stamp := Stamp("06", "05", "2023", "10", "55", "09");
    TestStampNumerals();
    LabelAtStart(TimeLabel);
    DateOfReceipt([], gap, "06", "05", "2023", "10", "55", "09", []);
    TestLineLaidOut();
    TestStampValues();
  }

  lemma TestStampNumerals()
    ensures Numeral("06") && Numeral("05") && Numeral("2023") && Numeral("10") && Numeral("55") && Numeral("09")
    ensures AllSpaces("          ")
  {
  }

  lemma TestLineLaidOut()
    ensures [] + TimeLabel + "          " + Stamp("06", "05", "2023", "10", "55", "09") + []
            == TimeLabel + "          06.05.2023. 10:55:09"
  {
  }

  lemma TestStampValues()
    ensures DigitsValue("06") == 6 && DigitsValue("05") == 5 && DigitsValue("2023") == 2023
    ensures DigitsValue("10") == 10 && DigitsValue("55") == 55 && DigitsValue("09") == 9
  {
    assert PrefixValue("06", 2) == 6 && PrefixValue("05", 2) == 5 && PrefixValue("2023", 4) == 2023;
    assert PrefixValue("10", 2) == 10 && PrefixValue("55", 2) == 55 && PrefixValue("09", 2) == 9;
  }
}
