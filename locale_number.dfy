/**
 * Serbian locale numbers as the parser reads them (serbian-fiscal-bill-parser.ts,
 * lines 42-43, 338-340, 366-367, 410-411): a run of `[0-9.,]` characters, every
 * `.` (the thousands separator) removed, the first `,` turned into the decimal
 * point, then `Number.parseFloat`. Values are exact decimals.
 */
module LocaleNumber {
  import opened Options
  import opened JsString

  predicate IsPriceChar(c: char) { IsDigit(c) || c == '.' || c == ',' }

  predicate AllPriceChars(s: string) { forall i :: 0 <= i < |s| ==> IsPriceChar(s[i]) }

  /** Digits and the grouping dot only: the integer part of a locale number. */
  predicate AllGroupedDigits(s: string) { forall i :: 0 <= i < |s| ==> IsDigit(s[i]) || s[i] == '.' }

  function DigitValue(c: char): nat
    requires IsDigit(c)
  {
    c as int - '0' as int
  }

  /** The number the first `n` digits of `ds` denote. */
  function PrefixValue(ds: string, n: nat): nat
    requires n <= |ds| && AllDigits(ds)
  {
    if n == 0 then 0 else 10 * PrefixValue(ds, n - 1) + DigitValue(ds[n - 1])
  }

  /** The number a string of decimal digits denotes (0 for the empty string). */
  function DigitsValue(ds: string): nat
    requires AllDigits(ds)
  {
    PrefixValue(ds, |ds|)
  }

  /** The value of the fraction digits `fp` after a decimal point: `0.fp`. */
  function Fraction(fp: string): (r: real)
    requires AllDigits(fp)
    ensures 0.0 <= r <= 1.0
  {
    if fp == [] then 0.0 else (DigitValue(fp[0]) as real + Fraction(fp[1..])) / 10.0
  }

  /** The exact value of the decimal `ip.fp`. */
  function Decimal(ip: string, fp: string): real
    requires AllDigits(ip) && AllDigits(fp)
  {
    DigitsValue(ip) as real + Fraction(fp)
  }

  /**
   * `Number.parseFloat` on a string of digits, `.` and `,`: the value of the
   * longest prefix of the form `digits[.digits]` or `.digits`, or NaN (None)
   * when the string starts with neither.
   */
  function ParseFloat(s: string): (r: Option<real>)
    requires AllPriceChars(s)
    ensures r.Some? ==> r.value >= 0.0
  {
    var n := DigitRun(s, 0);
    if n > 0 then
      if n < |s| && s[n] == '.' then
        var m := DigitRun(s, n + 1);
        Some(Decimal(s[..n], s[n + 1..n + 1 + m]))
      else
        Some(Decimal(s[..n], []))
    else if 1 < |s| && s[0] == '.' && IsDigit(s[1]) then
      Some(Decimal([], s[1..1 + DigitRun(s, 1)]))
    else
      None
  }

  /**
   * `!Number.isNaN(Number.parseFloat(s))` for an arbitrary string: after
   * leading white space and one optional sign comes `Infinity`, a digit, or a
   * `.` followed by a digit.
   */
  predicate ParsesAsNumber(s: string)
  {
    var u := TrimStart(s);
    var v := if u != [] && (u[0] == '+' || u[0] == '-') then u[1..] else u;
    || (|v| >= 8 && v[..8] == "Infinity")
    || (v != [] && IsDigit(v[0]))
    || (|v| > 1 && v[0] == '.' && IsDigit(v[1]))
  }

  /** On the strings a price run yields, the two readings of parseFloat agree. */
  lemma ParseFloatAgrees(s: string)
    requires AllPriceChars(s)
    ensures ParseFloat(s).Some? <==> ParsesAsNumber(s)
  {
    if s != [] {
      assert IsPriceChar(s[0]);
      assert !IsWhitespace(s[0]);
      TrimStartOfNonWhitespace(s);
    }
  }

  /** `tok.replace(/[.]/g, '').replace(',', '.')`. */
  function Normalize(tok: string): (r: string)
    requires AllPriceChars(tok)
    ensures AllPriceChars(r)
  {
    var d := RemoveChar(tok, '.');
    assert forall i :: 0 <= i < |d| ==> d[i] in tok;
    var r := ReplaceFirst(d, ",", ".");
    assert forall i :: 0 <= i < |r| ==> r[i] == '.' || r[i] in d;
    r
  }

  /** The value of a locale-formatted token, or None where parseFloat gives NaN. */
  function LocaleValue(tok: string): (r: Option<real>)
    requires AllPriceChars(tok)
    ensures r.Some? ==> r.value >= 0.0
  {
    ParseFloat(Normalize(tok))
  }

  /** The parse of `ip.fp` with a plain digit string on each side. */
  lemma {:induction false} ParseFloatOfDecimal(ip: string, fp: string)
    requires ip != [] && AllDigits(ip) && AllDigits(fp)
    ensures AllPriceChars(ip + "." + fp)
    ensures ParseFloat(ip + "." + fp) == Some(Decimal(ip, fp))
  {
    var s := ip + "." + fp;
    DigitRunOfDigits(s, 0, |ip|);
    assert s[..|ip|] == ip;
    assert s[|ip|] == '.';
    DigitRunOfDigits(s, |ip| + 1, |s|);
    assert s[|ip| + 1..|ip| + 1 + |fp|] == fp;
  }

  /** The parse of a plain digit string. */
  lemma ParseFloatOfDigits(ip: string)
    requires ip != [] && AllDigits(ip)
    ensures ParseFloat(ip) == Some(Decimal(ip, []))
  {
    DigitRunOfDigits(ip, 0, |ip|);
    assert ip[..|ip|] == ip;
  }

  lemma ReplaceFirstNoComma(d: string)
    requires ',' !in d
    ensures ReplaceFirst(d, ",", ".") == d
  {
    ContainsChar(d, ',');
  }

  /**
   * A grouped integer part, a comma and a fraction: `1.009,99` is 1009.99 and
   * `1.911.119,1` is 1911119.1. The grouping dots are dropped wherever they
   * stand, the comma becomes the decimal point.
   */
  lemma LocaleValueWithComma(a: string, b: string)
    requires AllGroupedDigits(a) && AllDigits(b)
    requires RemoveChar(a, '.') != []
    ensures AllPriceChars(a + "," + b)
    ensures AllDigits(RemoveChar(a, '.'))
    ensures LocaleValue(a + "," + b) == Some(Decimal(RemoveChar(a, '.'), b))
  {
    var ip := RemoveChar(a, '.');
    GroupedDigitsRemoved(a);
    PriceCharsWithComma(a, b);
    NormalizeWithComma(a, b);
    ParseFloatOfDecimal(ip, b);
  }

  /** Normalizing `a,b` drops the dots of `a` and turns the comma into the decimal point. */
  lemma NormalizeWithComma(a: string, b: string)
    requires AllGroupedDigits(a) && AllDigits(b) && AllPriceChars(a + "," + b)
    ensures Normalize(a + "," + b) == RemoveChar(a, '.') + "." + b
  {
    GroupedDigitsRemoved(a);
    RemoveDotsBeforeComma(a, b);
    FirstCommaAfterDigits(RemoveChar(a, '.'), b);
  }

  lemma PriceCharsWithComma(a: string, b: string)
    requires AllGroupedDigits(a) && AllDigits(b)
    ensures AllPriceChars(a + "," + b)
  {
  }

  lemma GroupedDigitsRemoved(a: string)
    requires AllGroupedDigits(a)
    ensures AllDigits(RemoveChar(a, '.'))
  {
    var ip := RemoveChar(a, '.');
    forall i | 0 <= i < |ip| ensures IsDigit(ip[i]) {
      assert ip[i] in a;
    }
  }

  lemma RemoveDotsBeforeComma(a: string, b: string)
    requires AllDigits(b)
    ensures RemoveChar(a + "," + b, '.') == RemoveChar(a, '.') + "," + b
  {
    var tail := "," + b;
    assert a + "," + b == a + tail;
    RemoveCharConcat(a, tail, '.');
    assert forall j :: 0 <= j < |tail| ==> tail[j] != '.';
    RemoveCharAbsent(tail, '.');
  }

  lemma FirstCommaAfterDigits(ip: string, b: string)
    requires AllDigits(ip)
    ensures ReplaceFirst(ip + "," + b, ",", ".") == ip + "." + b
  {
    var d := ip + "," + b;
    assert OccursAt(d, ",", |ip|);
    forall j | 0 <= j < |ip| ensures !OccursAt(d, ",", j) {
      assert d[j] == ip[j];
    }
    assert d[..|ip|] == ip && d[|ip| + 1..] == b;
  }

  /** A grouped integer without a comma: `1.599` is 1599. */
  lemma LocaleValueWithoutComma(a: string)
    requires AllGroupedDigits(a)
    requires RemoveChar(a, '.') != []
    ensures AllPriceChars(a)
    ensures AllDigits(RemoveChar(a, '.'))
    ensures LocaleValue(a) == Some(DigitsValue(RemoveChar(a, '.')) as real)
  {
    var ip := RemoveChar(a, '.');
    GroupedDigitsRemoved(a);
    assert ',' !in ip;
    ReplaceFirstNoComma(ip);
    assert Normalize(a) == ip;
    ParseFloatOfDigits(ip);
    assert DigitsValue([]) == 0;
    assert Decimal(ip, []) == DigitsValue(ip) as real;
  }

  /** Tokens of price characters that hold no digit at all, such as "." or ",,", are NaN. */
  lemma LocaleValueWithoutDigits(tok: string)
    requires AllPriceChars(tok)
    requires forall i :: 0 <= i < |tok| ==> !IsDigit(tok[i])
    ensures LocaleValue(tok) == None
  {
    var d := RemoveChar(tok, '.');
    assert forall i :: 0 <= i < |d| ==> d[i] in tok;
    var r := Normalize(tok);
    assert forall i :: 0 <= i < |r| ==> r[i] == '.' || r[i] in d;
    assert forall i :: 0 <= i < |r| ==> !IsDigit(r[i]);
  }

  // ---------------------------------------------------------------- runs of price characters

  /** Where the maximal run of price characters ending at index `n` starts. */
  function RunStartBelow(s: string, n: nat): (k: nat)
    requires n <= |s|
    ensures k <= n
    ensures forall i :: k <= i < n ==> IsPriceChar(s[i])
    ensures k > 0 ==> !IsPriceChar(s[k - 1])
  {
    if n > 0 && IsPriceChar(s[n - 1]) then RunStartBelow(s, n - 1) else n
  }

  /** Where the match of `/[0-9.,]+$/` starts, or `|s|` when there is none. */
  function TrailingRunStart(s: string): (k: nat)
    ensures k <= |s| && AllPriceChars(s[k..])
    ensures k > 0 ==> !IsPriceChar(s[k - 1])
  {
    RunStartBelow(s, |s|)
  }

  /** `s.match(/[0-9.,]+$/)`: the run of price characters the text ends with, if any. */
  function TrailingRun(s: string): (r: Option<string>)
    ensures r.None? <==> s == [] || !IsPriceChar(s[|s| - 1])
    ensures r.Some? ==> && r.value != [] && AllPriceChars(r.value)
                        && |r.value| <= |s| && s[|s| - |r.value|..] == r.value
    ensures r.Some? && |r.value| < |s| ==> !IsPriceChar(s[|s| - |r.value| - 1])
  {
    var k := TrailingRunStart(s);
    if k == |s| then None else Some(s[k..])
  }

  /** The run found is the one the text ends with, whatever precedes it. */
  lemma TrailingRunOfSeparated(x: string, c: char, y: string)
    requires !IsPriceChar(c) && AllPriceChars(y)
    ensures TrailingRunStart(x + [c] + y) == |x| + 1
  {
    RunStartBelowSeparated(x + [c] + y, |x|, |x + [c] + y|);
  }

  lemma {:induction false} RunStartBelowSeparated(s: string, m: nat, n: nat)
    requires m < n <= |s|
    requires !IsPriceChar(s[m]) && forall i :: m < i < n ==> IsPriceChar(s[i])
    ensures RunStartBelow(s, n) == m + 1
    decreases n
  {
    if n > m + 1 {
      RunStartBelowSeparated(s, m, n - 1);
    }
  }

  // ---------------------------------------------------------------- worked values

  lemma GroupedThousandDotsRemoved()
    ensures RemoveChar("1.009", '.') == "1009"
  {
  }

  lemma HeadGroupDotRemoved()
    ensures RemoveChar("1.911", '.') == "1911"
  {
  }

  lemma TailGroupDotRemoved()
    ensures RemoveChar(".119", '.') == "119"
  {
  }

  lemma GroupedMillionDotsRemoved()
    ensures RemoveChar("1.911.119", '.') == "1911119"
  {
    HeadGroupDotRemoved();
    TailGroupDotRemoved();
    assert "1.911.119" == "1.911" + ".119";
    RemoveCharConcat("1.911", ".119", '.');
  }

  lemma WorkedTokens()
    ensures "1.009,99" == "1.009" + "," + "99"
    ensures "1.911.119,1" == "1.911.119" + "," + "1"
  {
  }

  lemma WorkedDigits()
    ensures AllGroupedDigits("1.009") && AllGroupedDigits("1.911.119")
    ensures AllDigits("99") && AllDigits("1")
  {
  }

  lemma ThousandValue()
    ensures Decimal("1009", "99") == 1009.99
  {
    assert PrefixValue("1009", 4) == 1009;
    assert Fraction("99") == 0.99;
  }

  lemma MillionValue()
    ensures Decimal("1911119", "1") == 1911119.1
  {
    assert PrefixValue("1911119", 7) == 1911119;
    assert Fraction("1") == 0.1;
  }

  lemma FiftyValue()
    ensures Decimal("50", "00") == 50.0
  {
    assert PrefixValue("50", 2) == 50;
    assert Fraction("00") == 0.0;
  }

  /** "1.009,99" reads as 1009.99: the grouping dot is dropped, the comma is the decimal point. */
  lemma ThousandsGroupedValue()
    ensures LocaleValue("1.009,99") == Some(1009.99)
  {
    WorkedTokens();
    WorkedDigits();
    GroupedThousandDotsRemoved();
    ThousandValue();
    LocaleValueWithComma("1.009", "99");
  }

  /** "1.911.119,1" reads as 1911119.1: every grouping dot is dropped, not only the first. */
  lemma MillionsGroupedValue()
    ensures LocaleValue("1.911.119,1") == Some(1911119.1)
  {
    WorkedTokens();
    WorkedDigits();
    GroupedMillionDotsRemoved();
    MillionValue();
    LocaleValueWithComma("1.911.119", "1");
  }

  /** "50,00" reads as 50: a comma with no grouping dot before it. */
  lemma CommaOnlyValue()
    ensures LocaleValue("50,00") == Some(50.0)
  {
    assert "50,00" == "50" + "," + "00";
    assert AllGroupedDigits("50") && AllDigits("00");
    assert RemoveChar("50", '.') == "50";
    FiftyValue();
    LocaleValueWithComma("50", "00");
  }

  /** "1" reads as 1: a bare integer. */
  lemma BareIntegerValue()
    ensures LocaleValue("1") == Some(1.0)
  {
    assert AllGroupedDigits("1");
    assert RemoveChar("1", '.') == "1";
    LocaleValueWithoutComma("1");
    assert DigitsValue("1") == 1;
  }
}
