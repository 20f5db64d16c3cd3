/**
 * `parse` (serbian-fiscal-bill-parser.ts, lines 4-67): the receipt is cut
 * at literal markers into a header, an items block and the whole text the
 * footer labels are read from; one item is built per line of the flattened
 * items block. Where the source indexes into a missing piece and throws, the
 * model returns the matching `ParseError`, in the order the source meets
 * them.
 */
module Parser {
  import opened Options
  import opened Seqs
  import opened JsString
  import opened BillModel
  import opened LineReconstructor
  import opened Measurement
  import opened ItemNumbers
  import opened Header
  import opened Footer
  import VatType
  import ItemSku
  import ItemName

  /** `-------------ПРОМЕТ ПРОДАЈА-------------`: where the header ends. */
  const SalesMarker: string :=
    "-------------\U{041F}\U{0420}\U{041E}\U{041C}\U{0415}\U{0422} \U{041F}\U{0420}\U{041E}\U{0414}\U{0410}\U{0408}\U{0410}-------------"

  /** `============ ФИСКАЛНИ РАЧУН ============` and its line feed, dropped from the header. */
  const Banner: string :=
    "============ \U{0424}\U{0418}\U{0421}\U{041A}\U{0410}\U{041B}\U{041D}\U{0418} \U{0420}\U{0410}\U{0427}\U{0423}\U{041D} ============\n"

  /** The 40-`=` rule that opens the items block. */
  const EqualsRule: string := "========================================"

  /** The 40-`-` rule that closes it. */
  const DashRule: string := "----------------------------------------"

  /** `Укупно`: the last column title of the items table. */
  const ItemsHeader: string := "\U{0423}\U{043A}\U{0443}\U{043F}\U{043D}\U{043E}"

  /** The header: the text before the sales marker, without the first banner. */
  function HeadOf(bill: string): string {
    ReplaceFirst(Split(bill, SalesMarker)[0], Banner, [])
  }

  /**
   * The items block: after the first `=` rule and up to the next, before the
   * first `-` rule, after the first `Укупно` and up to the next. The source
   * fails when there is no `=` rule or no `Укупно` in that stretch.
   */
  function ItemsBlock(bill: string): (r: Result<string>)
    ensures r.Err? && r.error == NoItemsRule <==> !Contains(bill, EqualsRule)
    ensures r.Err? ==> r.error == NoItemsRule || r.error == NoItemsHeader
    ensures r.Ok? ==> !Contains(r.value, ItemsHeader) && !Contains(r.value, EqualsRule)
  {
    var byRule := Split(bill, EqualsRule);
    SplitSecond(bill, EqualsRule);
    if |byRule| < 2 then Err(NoItemsRule)
    else
      var table := Split(byRule[1], DashRule)[0];
      var byHeader := Split(table, ItemsHeader);
      SplitSecond(table, ItemsHeader);
      if |byHeader| < 2 then Err(NoItemsHeader)
      else
        assert !Contains(byHeader[1], EqualsRule) by {
          NoRuleInTable(byRule[1], table, byHeader[1]);
        }
        Ok(byHeader[1])
  }

  /** The pieces the block is cut from lie inside a stretch without a `=` rule. */
  lemma NoRuleInTable(stretch: string, table: string, piece: string)
    requires !Contains(stretch, EqualsRule)
    requires table == Split(stretch, DashRule)[0]
    requires |Split(table, ItemsHeader)| > 1 && piece == Split(table, ItemsHeader)[1]
    ensures !Contains(piece, EqualsRule)
  {
    FirstPieceInside(stretch, DashRule, EqualsRule);
    SecondPieceInside(table, ItemsHeader, EqualsRule);
  }

  /** A text without `pat` has no `pat` in the first piece of a split. */
  lemma FirstPieceInside(s: string, sep: string, pat: string)
    requires sep != [] && !Contains(s, pat)
    ensures !Contains(Split(s, sep)[0], pat)
  {
    SplitFirst(s, sep);
    var i := IndexOf(s, sep);
    if i >= 0 {
      forall j | OccursAt(s[..i], pat, j) ensures false {
        OccursInPrefix(s, i, pat, j);
      }
    }
  }

  /** A text without `pat` has no `pat` in the second piece of a split. */
  lemma SecondPieceInside(s: string, sep: string, pat: string)
    requires sep != [] && !Contains(s, pat) && |Split(s, sep)| > 1
    ensures !Contains(Split(s, sep)[1], pat)
  {
    SplitSecond(s, sep);
    var i := IndexOf(s, sep);
    var rest := s[i + |sep|..];
    forall j | OccursAt(rest, pat, j) ensures false {
      assert rest[j..j + |pat|] == s[i + |sep| + j..i + |sep| + j + |pat|];
      assert OccursAt(s, pat, i + |sep| + j);
    }
    FirstPieceInside(rest, sep, pat);
  }

  /**
   * The item built from one flattened line (lines 23-35). An empty line, the
   * one segment of an items block without closed rows, gives an item whose
   * fields are all unset, in pieces, at VAT 0.
   */
  function ItemOf(row: string): (it: Item)
    ensures row == [] ==> it == Item(None, None, None, Kom, 0.0, None, None, None)
    ensures row != [] ==> it.fullName.Some? && it.price.Some? && it.amount.Some? && it.unitPrice.Some?
    ensures it.name.Some? <==> it.fullName.Some? && it.fullName.value != []
    ensures it.sku.Some? ==> it.fullName.Some? && Contains(it.fullName.value, it.sku.value)
    ensures it.fullName.Some? ==> Contains(row, it.fullName.value)
    ensures it.vatType == 0.0 || it.vatType == 0.1 || it.vatType == 0.2
  {
    var fullName := ItemName.FullItemName(row);
    var sku := ItemSku.ItemSku(fullName);
    Item(sku, ItemName.ItemNameOf(fullName, sku), fullName, UnitOf(row), VatType.VatType(row),
         ItemPrice(row), ItemAmount(row), ItemUnitPrice(row))
  }

  /** One item per line, in order. */
  function ItemsOf(rows: seq<string>): seq<Item> {
    Map(ItemOf, rows)
  }

  /** The `\n`-separated segments of the flattened items block. */
  function Rows(block: string): seq<string> {
    Split(Join(LogicalLines(BodyLines(block)), "\n"), "\n")
  }

  /** `if (x) result.x = x`: an empty string is falsy and leaves the field unset. */
  function Truthy(s: Option<string>): (r: Option<string>)
    ensures r.Some? <==> s.Some? && s.value != []
    ensures r.Some? ==> r == s
  {
    if s.Some? && s.value != [] then s else None
  }

  /**
   * The bill `parse` returns, or the error it stops at: the items block is
   * cut first, then the total, then the date are read.
   */
  function ReadBill(bill: string): (r: Result<Bill>)
    ensures r.Err? && r.error == NoItemsRule <==> !Contains(bill, EqualsRule)
    ensures r.Err? && r.error == NoTotalLabel <==> ItemsBlock(bill).Ok? && !Contains(bill, TotalLabel)
    ensures r.Err? && r.error == NoTimeLabel <==>
              ItemsBlock(bill).Ok? && Contains(bill, TotalLabel) && !Contains(bill, TimeLabel)
    ensures r.Err? && r.error == NoClock <==>
              && ItemsBlock(bill).Ok? && Contains(bill, TotalLabel)
              && |Split(bill, TimeLabel)| > 1 && ClockMissing(Split(bill, TimeLabel)[1])
    ensures r.Ok? ==> Contains(bill, EqualsRule) && Contains(bill, TotalLabel) && Contains(bill, TimeLabel)
    ensures r.Ok? ==> |r.value.items| >= 1
    ensures r.Ok? && r.value.number.Some? ==> r.value.number.value != [] && ' ' !in r.value.number.value
    ensures r.Ok? && r.value.counter.Some? ==> r.value.counter.value != [] && '=' !in r.value.counter.value
  {
    match ItemsBlock(bill)
    case Err(e) => Err(e)
    case Ok(block) =>
      match TotalOf(bill)
      case Err(e) => Err(e)
      case Ok(price) =>
        match DateOf(bill)
        case Err(e) =>
          assert bill != [] by { assert Contains(bill, EqualsRule); EmptyLacks(bill, EqualsRule); }
          Err(e)
        case Ok(date) =>
          var head := HeadOf(bill);
          Ok(Bill(CompanyOf(head), PosData(head), price, date,
                  Truthy(NumberOf(bill)), Truthy(CounterOf(bill)), ItemsOf(Rows(block))))
  }

  lemma EmptyLacks(s: string, t: string)
    requires t != [] && Contains(s, t)
    ensures s != []
  {
  }

  /** `parse`: the header fields, the item loop with its pushes, then the footer fields. */
  method Parse(bill: string) returns (r: Result<Bill>)
    ensures r == ReadBill(bill)
  {
    var head := HeadOf(bill);
    var company := CompanyOf(head);
    var pos := PosData(head);

    var block := ItemsBlock(bill);
    if block.Err? {
      return Err(block.error);
    }
    var flattened := FlattenItems(block.value);
    var items := PushItems(Split(flattened, "\n"));

    var total := TotalOf(bill);
    if total.Err? {
      return Err(total.error);
    }
    var date := DateOf(bill);
    if date.Err? {
      return Err(date.error);
    }
    var number := NumberOf(bill);
    var counter := CounterOf(bill);
    r := Ok(Bill(company, pos, total.value, date.value, Truthy(number), Truthy(counter), items));
  }

  /** The loop of lines 19-36: one item per flattened line, pushed in order. */
  method PushItems(rows: seq<string>) returns (items: seq<Item>)
    ensures items == ItemsOf(rows)
  {
    items := [];
    var i := 0;
    while i < |rows|
      invariant 0 <= i <= |rows|
      invariant items == ItemsOf(rows[..i])
    {
      var item := BuildItem(rows[i]);
      MapGrows(ItemOf, rows, i);
      items := items + [item];
      i := i + 1;
    }
    WholePrefix(rows);
  }

  lemma WholePrefix(rows: seq<string>)
    ensures rows[..|rows|] == rows
  {
  }

  /** The body of the loop, lines 22-33: the getters called on one flattened line. */
  method BuildItem(row: string) returns (item: Item)
    ensures item == ItemOf(row)
  {
    var fullName := ItemName.FullItemName(row);
    var sku := ItemSku.ItemSku(fullName);
    var name := ItemName.ItemName(fullName, sku);
    var unit := MeasurementType(row);
    item := Item(sku, name, fullName, unit, VatType.VatType(row),
                 ItemPrice(row), ItemAmount(row), ItemUnitPrice(row));
  }

  /** The item of the empty segment: every field unset, in pieces, at VAT 0. */
  const BlankItem: Item := Item(None, None, None, Kom, 0.0, None, None, None)

  /**
   * There is one item per closed logical line of the items block, in order;
   * a block in which no row closes an item still yields one item, the blank
   * one, since splitting the empty text gives one empty segment.
   */
  lemma ItemsOfBill(bill: string)
    requires ReadBill(bill).Ok?
    ensures var lines := LogicalLines(BodyLines(ItemsBlock(bill).value));
            ReadBill(bill).value.items == if lines == [] then [BlankItem] else ItemsOf(lines)
  {
    var block := ItemsBlock(bill).value;
    assert ReadBill(bill).value.items == ItemsOf(Rows(block));
    ItemsOfBlock(block);
  }

  lemma ItemsOfBlock(block: string)
    ensures var lines := LogicalLines(BodyLines(block));
            ItemsOf(Rows(block)) == if lines == [] then [BlankItem] else ItemsOf(lines)
  {
    SegmentsOfFlattened(block);
    assert ItemsOf([[]]) == [ItemOf([])];
  }



  /**
   * A receipt that opens with the banner: the header is exactly the text
   * between the banner and the sales marker.
   */
  lemma HeadOfBanneredReceipt(head: string, rest: string)
    requires IndexOf(Banner + head + SalesMarker, SalesMarker) == |Banner + head|
    ensures HeadOf(Banner + head + SalesMarker + rest) == head
  {
    LabelAt(Banner + head, SalesMarker, rest);
    SplitFirst(Banner + head + SalesMarker + rest, SalesMarker);
    assert (Banner + head + SalesMarker + rest)[..|Banner + head|] == Banner + head;
    LabelAtStart(Banner);
    ReplaceFirstAt([], Banner, head, []);
    assert [] + Banner + head == Banner + head && [] + [] + head == head;
  }

  /** Without a banner, the header is the text before the sales marker. */
  lemma HeadOfPlainReceipt(head: string, rest: string)
    requires IndexOf(head + SalesMarker, SalesMarker) == |head|
    requires !Contains(head, Banner)
    ensures HeadOf(head + SalesMarker + rest) == head
  {
    LabelAt(head, SalesMarker, rest);
    SplitFirst(head + SalesMarker + rest, SalesMarker);
    assert (head + SalesMarker + rest)[..|head|] == head;
  }

  /**
   * The items block of a receipt laid out as the fiscal printer prints it:
   * the `=` rule, the column titles ending in `Укупно`, the item rows, the
   * `-` rule. The block is exactly the item rows.
   */
  lemma ItemsBlockOfReceipt(pre: string, titles: string, body: string, post: string)
    requires IndexOf(pre + EqualsRule, EqualsRule) == |pre|
    requires '=' !in titles && '=' !in body
    requires IndexOf(titles + ItemsHeader, ItemsHeader) == |titles|
    requires !Contains(body, ItemsHeader)
    requires IndexOf(titles + ItemsHeader + body + DashRule, DashRule) == |titles + ItemsHeader + body|
    ensures ItemsBlock(pre + EqualsRule + titles + ItemsHeader + body + DashRule + post) == Ok(body)
  {
    var x := titles + ItemsHeader + body;
    var bill := pre + EqualsRule + titles + ItemsHeader + body + DashRule + post;
    ReceiptGrouping(pre, titles, body, post);
    var tail := RuledStretch(pre, x, post);
    assert Split(x + DashRule + tail, DashRule)[0] == x by {
      PieceBeforeDash(x, tail);
    }
    assert |Split(x, ItemsHeader)| > 1 && Split(x, ItemsHeader)[1] == body by {
      PieceAfterLabel(titles, ItemsHeader, body);
      SplitFirst(body, ItemsHeader);
    }
    ItemsBlockOfPieces(bill, x);
  }

  /** The stretch after the first `=` rule of such a receipt starts with the table and its `-` rule. */
  lemma RuledStretch(pre: string, x: string, post: string) returns (tail: string)
    requires IndexOf(pre + EqualsRule, EqualsRule) == |pre|
    requires '=' !in x
    ensures var bill := pre + EqualsRule + (x + DashRule + post);
            |Split(bill, EqualsRule)| > 1 && Split(bill, EqualsRule)[1] == x + DashRule + tail
  {
    assert '=' !in x + DashRule;
    PieceAfterLabel(pre, EqualsRule, x + DashRule + post);
    tail := FirstPieceHead(x + DashRule, post, EqualsRule);
  }

  lemma ReceiptGrouping(pre: string, titles: string, body: string, post: string)
    ensures pre + EqualsRule + titles + ItemsHeader + body + DashRule + post
            == pre + EqualsRule + (titles + ItemsHeader + body + DashRule + post)
  {
  }

  /** The text before the first `-` rule, when it holds none. */
  lemma PieceBeforeDash(x: string, tail: string)
    requires IndexOf(x + DashRule, DashRule) == |x|
    ensures Split(x + DashRule + tail, DashRule)[0] == x
  {
    LabelAt(x, DashRule, tail);
    SplitFirst(x + DashRule + tail, DashRule);
    assert (x + DashRule + tail)[..|x|] == x;
  }

  /** `ItemsBlock` read off the pieces of the three splits. */
  lemma ItemsBlockOfPieces(bill: string, table: string)
    requires |Split(bill, EqualsRule)| > 1
    requires Split(Split(bill, EqualsRule)[1], DashRule)[0] == table
    requires |Split(table, ItemsHeader)| > 1
    ensures ItemsBlock(bill) == Ok(Split(table, ItemsHeader)[1])
  {
  }
}
