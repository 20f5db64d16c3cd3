/**
 * The three numbers at the end of an item line (serbian-fiscal-bill-parser.ts,
 * lines 326-417): the price is the last run of `[0-9.,]` characters, the
 * amount the run before it, the unit price the run before that, each read as
 * a Serbian locale number.
 */
module ItemNumbers {
  import opened Options
  import opened JsString
  import opened LocaleNumber

  /** `s.replace(/[0-9.,]+$/, '').trim()`: the text without its trailing run, trimmed. */
  function DropTrailingRun(s: string): (r: string)
    ensures |r| <= |s|
  {
    Trim(s[..TrailingRunStart(s)])
  }

  /**
   * `getItemPrice`: nothing for an empty line; the value of the trailing run;
   * 0 when the line does not end in a run or the run does not parse.
   */
  function ItemPrice(line: string): (r: Option<real>)
    ensures r.None? <==> line == []
    ensures r.Some? ==> r.value >= 0.0
    ensures line != [] && !IsPriceChar(line[|line| - 1]) ==> r == Some(0.0)
  {
    if line == [] then None
    else
      match TrailingRun(line)
      case None => Some(0.0)
      case Some(tok) => Some(LocaleValue(tok).GetOr(0.0))
  }

  /**
   * `getItemAmount`: nothing for an empty line; the value of the run left at
   * the end once the price is cut off and the rest trimmed; 1 when there is
   * no such run or it does not parse.
   */
  function ItemAmount(line: string): (r: Option<real>)
    ensures r.None? <==> line == []
    ensures r.Some? ==> r.value >= 0.0
  {
    if line == [] then None
    else
      match TrailingRun(DropTrailingRun(line))
      case None => Some(1.0)
      case Some(tok) => Some(LocaleValue(tok).GetOr(1.0))
  }

  /**
   * `getItemUnitPrice`: nothing for an empty line; the value of the run left
   * once the price and the amount are cut off; 0 when there is no such run,
   * but 1 when it does not parse.
   */
  function ItemUnitPrice(line: string): (r: Option<real>)
    ensures r.None? <==> line == []
    ensures r.Some? ==> r.value >= 0.0
  {
    if line == [] then None
    else
      match TrailingRun(DropTrailingRun(DropTrailingRun(line)))
      case None => Some(0.0)
      case Some(tok) => Some(LocaleValue(tok).GetOr(1.0))
  }

  /**
   * A run of price characters after text that does not end in one is the
   * trailing run, and dropping it leaves that text, trimmed.
   */
  lemma DropRunAfter(y: string, p: string)
    requires y == [] || !IsPriceChar(y[|y| - 1])
    requires p != [] && AllPriceChars(p)
    ensures TrailingRun(y + p) == Some(p)
    ensures DropTrailingRun(y + p) == Trim(y)
  {
    var s := y + p;
    if y == [] {
      assert s == p;
    } else {
      var x := y[..|y| - 1];
      assert s == x + [y[|y| - 1]] + p;
      TrailingRunOfSeparated(x, y[|y| - 1], p);
    }
    assert s[|y|..] == p && s[..|y|] == y;
  }

  /** Text that does not end in a price character loses nothing but its trim. */
  lemma NoRunToDrop(s: string)
    requires s == [] || !IsPriceChar(s[|s| - 1])
    ensures DropTrailingRun(s) == Trim(s)
  {
    assert s[..|s|] == s;
  }

  /**
   * The price is the value of the run the line ends with, 0 when that run
   * does not parse, whatever comes before the run.
   */
  lemma PriceOfTrailingRun(y: string, p: string)
    requires y == [] || !IsPriceChar(y[|y| - 1])
    requires p != [] && AllPriceChars(p)
    ensures ItemPrice(y + p) == Some(LocaleValue(p).GetOr(0.0))
  {
    DropRunAfter(y, p);
  }

  lemma PriceCharIsNotWhitespace(c: char)
    requires IsPriceChar(c)
    ensures !IsWhitespace(c)
  {
  }

  /** A run after a space is the trailing run, and cutting it off leaves the text before the space. */
  lemma {:induction false} PeelRun(y: string, p: string)
    requires Trimmed(y) && p != [] && AllPriceChars(p)
    ensures TrailingRun(y + " " + p) == Some(p)
    ensures DropTrailingRun(y + " " + p) == y
  {
    var s := y + " " + p;
    TrailingRunOfSeparated(y, ' ', p);
    assert s[|y| + 1..] == p;
    assert s[..|y| + 1] == [] + y + " ";
    TrimAround([], y, " ");
  }

  /** Text that ends in neither a price character nor white space has no trailing run and trims to itself. */
  lemma NoRunLeft(x: string)
    requires Trimmed(x) && !IsPriceChar(x[|x| - 1])
    ensures TrailingRun(x) == None
    ensures DropTrailingRun(x) == x
  {
    assert x[..|x|] == x;
    TrimOfTrimmed(x);
  }

  /** Joining trimmed text and a run by a space gives trimmed text. */
  lemma JoinedTrimmed(y: string, p: string)
    requires Trimmed(y) && p != [] && AllPriceChars(p)
    ensures Trimmed(y + " " + p)
  {
    PriceCharIsNotWhitespace(p[|p| - 1]);
  }

  /**
   * The usual item line, a description followed by unit price, amount and
   * price separated by spaces: each getter reads its own run, with its own
   * default where the run does not parse.
   */
  lemma ThreeRunRow(x: string, u: string, a: string, p: string)
    requires Trimmed(x) && !IsPriceChar(x[|x| - 1])
    requires u != [] && AllPriceChars(u) && a != [] && AllPriceChars(a) && p != [] && AllPriceChars(p)
    ensures ItemPrice(x + " " + u + " " + a + " " + p) == Some(LocaleValue(p).GetOr(0.0))
    ensures ItemAmount(x + " " + u + " " + a + " " + p) == Some(LocaleValue(a).GetOr(1.0))
    ensures ItemUnitPrice(x + " " + u + " " + a + " " + p) == Some(LocaleValue(u).GetOr(1.0))
  {
    JoinedTrimmed(x, u);
    JoinedTrimmed(x + " " + u, a);
    PeelRun(x + " " + u + " " + a, p);
    PeelRun(x + " " + u, a);
    PeelRun(x, u);
  }

  /** With only amount and price after the description, the unit price is missing and reads 0. */
  lemma TwoRunRow(x: string, a: string, p: string)
    requires Trimmed(x) && !IsPriceChar(x[|x| - 1])
    requires a != [] && AllPriceChars(a) && p != [] && AllPriceChars(p)
    ensures ItemPrice(x + " " + a + " " + p) == Some(LocaleValue(p).GetOr(0.0))
    ensures ItemAmount(x + " " + a + " " + p) == Some(LocaleValue(a).GetOr(1.0))
    ensures ItemUnitPrice(x + " " + a + " " + p) == Some(0.0)
  {
    JoinedTrimmed(x, a);
    PeelRun(x + " " + a, p);
    PeelRun(x, a);
    NoRunLeft(x);
  }

  /** With only a price after the description, the amount reads 1 and the unit price 0. */
  lemma OneRunRow(x: string, p: string)
    requires Trimmed(x) && !IsPriceChar(x[|x| - 1])
    requires p != [] && AllPriceChars(p)
    ensures ItemPrice(x + " " + p) == Some(LocaleValue(p).GetOr(0.0))
    ensures ItemAmount(x + " " + p) == Some(1.0)
    ensures ItemUnitPrice(x + " " + p) == Some(0.0)
  {
    PeelRun(x, p);
    NoRunLeft(x);
  }

  // ---------------------------------------------------------------- worked rows

  lemma WorkedRowShape()
    ensures "PITA HELJDINA PAPRIKA SPANAC (\U{0415}) 120,00 1 1.009,99"
            == "PITA HELJDINA PAPRIKA SPANAC (\U{0415})" + " " + "120,00" + " " + "1" + " " + "1.009,99"
    ensures "PITA HELJDINA PAPRIKA SPANAC (\U{0415}) 120,00 1.911.119,1 120,00"
            == "PITA HELJDINA PAPRIKA SPANAC (\U{0415})" + " " + "120,00" + " " + "1.911.119,1" + " " + "120,00"
  {
  }

  lemma WorkedRowParts()
    ensures Trimmed("PITA HELJDINA PAPRIKA SPANAC (\U{0415})")
    ensures AllPriceChars("120,00") && AllPriceChars("1") && AllPriceChars("1.009,99") && AllPriceChars("1.911.119,1")
  {
  }

  /**
   * A receipt row with a grouped price: "… (Е) 120,00 1 1.009,99" costs
   * 1009.99, and with a grouped amount "… (Е) 120,00 1.911.119,1 120,00" the
   * amount is 1911119.1.
   */
  lemma GroupedNumbersInRow()
    ensures ItemPrice("PITA HELJDINA PAPRIKA SPANAC (\U{0415}) 120,00 1 1.009,99") == Some(1009.99)
    ensures ItemAmount("PITA HELJDINA PAPRIKA SPANAC (\U{0415}) 120,00 1.911.119,1 120,00") == Some(1911119.1)
  {
    WorkedRowShape();
    WorkedRowParts();
    ThreeRunRow("PITA HELJDINA PAPRIKA SPANAC (\U{0415})", "120,00", "1", "1.009,99");
    ThreeRunRow("PITA HELJDINA PAPRIKA SPANAC (\U{0415})", "120,00", "1.911.119,1", "120,00");
    ThousandsGroupedValue();
    MillionsGroupedValue();
  }
}
