# Serbian fiscal bill parser, modelled in Dafny

This project models `SerbianFiscalBillParser`, the class that reads the plain
text of a Serbian retail fiscal receipt and builds a bill record from it. The
record holds the issuing company, the point of sale, the item lines, the grand
total, the date and time, the receipt number and the counter.

The text of a receipt is a `string` (`seq<char>`). The JavaScript string
built-ins the parser relies on are written out in `JsString`, each with its
contract: `split`, `join`, `indexOf`, `lastIndexOf`, `replace` (first and
global), `trim`, `toLowerCase` and the space-collapsing replace. Each regular
expression of the source is a hand-written scanner that follows the
leftmost-match rule of JavaScript. Numbers are exact decimals (`real`).

Modules, following the parts of the parser:

- `Options`, `BillModel`: the option type, the bill, company, point of sale
  and item records, and the errors a parse can stop with.
- `Parser`: `parse`. It cuts out the header and the items block, builds one
  item per reconstructed line (an imperative loop with `push`), and reads the
  footer fields.
- `LineReconstructor`: `flattenItems`, the accumulator loop that glues
  wrapped item rows back into one logical line per item.
- `VatType`, `Measurement`, `ItemSku`, `ItemName`, `ItemNumbers`: the
  per-item extractors `getVatType`, `getMeasurementType` (a search loop),
  `removeMeasurementType` and `getItemName` (straight-line rewrites of a local
  string), `getItemSku`, `getFullItemName`, and `getItemPrice`,
  `getItemAmount`, `getItemUnitPrice`.
- `LocaleNumber`: the Serbian number rule the price getters share. Every `.`
  is removed, the first `,` becomes the decimal point, and the result is read
  by `Number.parseFloat`.
- `Header`: `getCompany` and `getPosData`.
- `Footer`: the grand total, the date fields of `getDate`, `getNumber` and
  `getCounter`.

The source raises a `TypeError` when a piece of text it indexes into is
missing. The model returns `Err` with the reason in those cases:
- the first 40-`=` rule is missing;
- `Укупно` is missing from the items block;
- `Укупан износ:` is missing;
- `ПФР време:` is missing;
- the date-time run has no space.

Behaviour of the code that a reader might not expect, and how the model
follows it:
- `parse` throws a `TypeError` in the five cases above, so the model
  returns `Err` there.
- `price` stays unset when no `[0-9.,]` run follows the total label. It is
  set to 0 only when the run does not parse. `Bill.price` is therefore an
  `Option`.
- The header's line ends are normalised only at the first `\r\n`, because
  the pattern at lines 275 and 306 of `lib/src/serbian-fiscal-bill-parser.ts`
  has no `g` flag. Later `\r` characters stay at the ends of header lines,
  where `trim` removes them.
- The municipality is the text between the first and the second `-` of
  header line 4, not everything after the first `-`.
- The display name loses the first occurrence of the sku text, which may lie
  elsewhere in the line than where the sku was found.
- The counter stops at the first `=` character, not at a whole `=` rule.
- An items block in which no row closes an item gives one blank item, not
  none, because splitting the empty text gives one empty segment.

## Model

All source paths are in the `serbian-fiscal-bill-parser` repository.

| member | source | states |
|---|---|---|
| Parser.ReadBill | lib/src/serbian-fiscal-bill-parser.ts:4-67 | The parse fails with NoItemsRule exactly when the `=` rule is absent. It fails with NoTotalLabel exactly when the items block is found but `Укупан износ:` is absent. It fails with NoTimeLabel exactly when the items block and the total label are found but `ПФР време:` is absent. It fails with NoClock exactly when those are found and the first date run of the text after the time label has no space once trimmed. A successful parse saw all three markers and has at least one item. Its number is non-empty and has no space. Its counter is non-empty and has no `=` |
| Parser.Parse | lib/src/serbian-fiscal-bill-parser.ts:4-67 | The imperative parse (flatten, split, push the items, then set the total, date, number and counter only when truthy) gives exactly `ReadBill` |
| Parser.PushItems | lib/src/serbian-fiscal-bill-parser.ts:19-36 | The push loop builds exactly one item per segment, in order: item k is `ItemOf(rows[k])` |
| Parser.ItemOf | lib/src/serbian-fiscal-bill-parser.ts:21-33 | An empty segment gives the blank item. A non-empty segment has a full name, price, amount and unit price. The short name is present iff the full name is non-empty. The sku lies inside the full name, which lies inside the segment. The VAT rate is 0, 0.1 or 0.2 |
| Parser.BuildItem | lib/src/serbian-fiscal-bill-parser.ts:21-33 | The getters called on one segment build exactly `ItemOf` of it |
| Parser.ItemsBlock | lib/src/serbian-fiscal-bill-parser.ts:14-17 | The block fails with NoItemsRule exactly when the 40-`=` rule is absent, and otherwise only with NoItemsHeader. A block found holds neither `Укупно` nor the `=` rule |
| Parser.ItemsBlockOfReceipt | lib/src/serbian-fiscal-bill-parser.ts:14-17 | For a receipt laid out as rule, column titles ending in `Укупно`, item rows, then the `-` rule, the items block is exactly the item rows |
| Parser.ItemsOfBill | lib/src/serbian-fiscal-bill-parser.ts:19-36 | The items of a parsed bill are one item per logical line of the items block, in order. With no logical line the result is the single blank item |
| Parser.ItemsOfBlock | lib/src/serbian-fiscal-bill-parser.ts:20 | Splitting the flattened block at `\n` gives one segment per logical line. With no line it gives one empty segment |
| Parser.HeadOfBanneredReceipt | lib/src/serbian-fiscal-bill-parser.ts:7-9 | When the receipt starts with the `ФИСКАЛНИ РАЧУН` banner line, the header is exactly the text between the banner and the sales marker |
| Parser.HeadOfPlainReceipt | lib/src/serbian-fiscal-bill-parser.ts:7-9 | Without a banner, the header is the text before the first sales marker |
| Parser.Truthy | lib/src/serbian-fiscal-bill-parser.ts:56-64 | A field is set iff the getter returned a non-empty string, and then it holds that string |
| LineReconstructor.FlattenItems | lib/src/serbian-fiscal-bill-parser.ts:74-114 | The output is the logical lines of the `\n`-normalised physical lines, joined by `\n` |
| LineReconstructor.ReconstructLines | lib/src/serbian-fiscal-bill-parser.ts:78-110 | The accumulator loop (skip empty rows, close on a terminal row, otherwise append and collapse) produces exactly `LogicalLines` |
| LineReconstructor.ClosesItem | lib/src/serbian-fiscal-bill-parser.ts:88-95 | The row test is true exactly for an indented row whose first word parses as a number and whose trimmed text ends in a price run |
| LineReconstructor.BodyLines | lib/src/serbian-fiscal-bill-parser.ts:75 | There is at least one physical line, and none holds a `\n` |
| LineReconstructor.FirstWordIsFirstPiece | lib/src/serbian-fiscal-bill-parser.ts:90 | The first word of a row is the first piece of `split(' ')` |
| LineReconstructor.DigitLedRowCloses | lib/src/serbian-fiscal-bill-parser.ts:88-94 | An indented row whose trimmed text starts with a digit and ends with a price character closes an item |
| LineReconstructor.TakeRow | lib/src/serbian-fiscal-bill-parser.ts:79-109 | One pass of the loop carries the lines and the accumulator for the rows read so far to those for one more row |
| LineReconstructor.LineCountIsClosingCount | lib/src/serbian-fiscal-bill-parser.ts:79-110 | The number of logical lines equals the number of closing rows |
| LineReconstructor.NothingLost | lib/src/serbian-fiscal-bill-parser.ts:78-110 | The closed items followed by the still-open rows spell out the whole block in order. Only the open rows never reach the output |
| LineReconstructor.NoClosingRowNoLine | lib/src/serbian-fiscal-bill-parser.ts:78-110 | A block with no closing row yields no line: an unterminated accumulator is dropped |
| LineReconstructor.UnindentedBlockYieldsNothing | lib/src/serbian-fiscal-bill-parser.ts:87-104 | A block none of whose rows starts with a space yields no line |
| LineReconstructor.SegmentsOfFlattened | lib/src/serbian-fiscal-bill-parser.ts:112 | Splitting the output at `\n` gives back the logical lines, or one empty segment when there are none |
| LineReconstructor.WrappedItem | lib/src/serbian-fiscal-bill-parser.ts:95-109 | A name row followed by its numbers row gives one line, their concatenation with spaces collapsed |
| LineReconstructor.CloseItem | lib/src/serbian-fiscal-bill-parser.ts:94-98 | A closing row appends the collapsed accumulator plus the row as a new line, and empties the accumulator |
| LineReconstructor.ContinueItem | lib/src/serbian-fiscal-bill-parser.ts:106-109 | Any other non-empty row is appended to the collapsed accumulator, and no line is emitted |
| LineReconstructor.SkipEmptyRow | lib/src/serbian-fiscal-bill-parser.ts:83-85 | An empty row changes neither the accumulator nor the lines |
| LineReconstructor.PendingShape | lib/src/serbian-fiscal-bill-parser.ts:78-110 | The open item holds only non-empty rows that do not close |
| LineReconstructor.GroupShape | lib/src/serbian-fiscal-bill-parser.ts:78-110 | Every item ends with its closing row, and its earlier rows are non-empty and do not close |
| LineReconstructor.RowsOfGroups | lib/src/serbian-fiscal-bill-parser.ts:78-110 | Every row of every item, closed or open, is a row of the block |
| VatType.VatType | lib/src/serbian-fiscal-bill-parser.ts:121-139 | The rate is 0, 0.1 or 0.2, and 0 for an empty line. For a non-empty line it is 0.1 iff a reduced tag `(e)(E)(е)(Е)` occurs, even beside a zero tag. It is 0 iff no reduced tag and some zero tag `(a)(A)(g)(G)(г)(Г)` occurs. Otherwise it is 0.2 |
| Measurement.UnitOf | lib/src/serbian-fiscal-bill-parser.ts:146-178 | An empty line gives `kom`. Otherwise the unit is the first, in declared order, one of whose aliases occurs in the lower-cased line as `/alias`, `(alias)`, `[alias]` or `{alias}` with at most one space inside the brackets, and `kom` when none occurs |
| Measurement.FirstFoundUnique | lib/src/serbian-fiscal-bill-parser.ts:163-175 | The first unit found is unique |
| Measurement.SlashSquareMetreReadsAsMetre | lib/src/serbian-fiscal-bill-parser.ts:159-172 | A line holding `/m2` never reads as `m2`, because `/m` is tried first |
| Measurement.MeasurementType | lib/src/serbian-fiscal-bill-parser.ts:146-178 | The nested search loop with early return gives exactly `UnitOf` |
| Measurement.AliasSearch | lib/src/serbian-fiscal-bill-parser.ts:165-173 | The inner loop over one unit's spellings stops with a hit iff one of them is found by one of the four patterns |
| Measurement.AnyOccurs | lib/src/serbian-fiscal-bill-parser.ts:165-171 | True iff one of the surface forms occurs in the line |
| Measurement.StripMeasurementTag | lib/src/serbian-fiscal-bill-parser.ts:489-513 | The result is a prefix of the line |
| Measurement.RemoveMeasurementType | lib/src/serbian-fiscal-bill-parser.ts:489-513 | The five conditional rewrites give exactly `StripMeasurementTag` |
| Measurement.StripStages | lib/src/serbian-fiscal-bill-parser.ts:492-510 | Stripping the tag is the five single rewrites applied in source order: slash, round, square, curly, then a spaced unit |
| Measurement.RemoveTag | lib/src/serbian-fiscal-bill-parser.ts:492-510 | One conditional rewrite gives exactly `CutTag` |
| Measurement.CutTag | lib/src/serbian-fiscal-bill-parser.ts:492-510 | The cut is a prefix. No earlier position starts a tag. The cut text is a tag running to the end, or nothing was cut |
| Measurement.CutAt | lib/src/serbian-fiscal-bill-parser.ts:492-510 | When p is the leftmost position that starts a tag, the line is cut at p |
| Measurement.CutNone | lib/src/serbian-fiscal-bill-parser.ts:492-510 | Without a tag the line is unchanged |
| Measurement.StripUntagged | lib/src/serbian-fiscal-bill-parser.ts:489-513 | A name with no tag passes all five rewrites unchanged |
| Measurement.StripSlashUnit | lib/src/serbian-fiscal-bill-parser.ts:491-494 | A name followed by `/unit` loses exactly the `/unit` |
| Measurement.StripBracketUnit | lib/src/serbian-fiscal-bill-parser.ts:495-498 | A name followed by `(unit)` loses exactly the `(unit)` |
| ItemSku.PrefixId | lib/src/serbian-fiscal-bill-parser.ts:196-201 | A prefix id exists iff the line starts with a digit, or with a character other than a digit, `(`, `[` or `{` followed by a digit. It is then a non-empty prefix of the line |
| ItemSku.SuffixSku | lib/src/serbian-fiscal-bill-parser.ts:210-215 | A suffix id is the trimmed text of an id group ending the line. It is non-empty, holds a digit and lies inside the line. Its value is stated by SeparatedSuffixSku, SpacedSuffixSku and LetterSuffixSku |
| ItemSku.SeparatedSuffixSku | lib/src/serbian-fiscal-bill-parser.ts:210-215 | A line ending in a `-`, `,` or `/` (spaces allowed around it) and four or more digits, whose text before that ends in neither a space nor a separator, has those digits as its suffix id, without the separator |
| ItemSku.SpacedSuffixSku | lib/src/serbian-fiscal-bill-parser.ts:210-215 | A line ending in spaces and four or more digits, whose text before that ends in neither a space nor a separator, has those digits as its suffix id |
| ItemSku.LetterSuffixSku | lib/src/serbian-fiscal-bill-parser.ts:210-215 | Whatever comes before, a line ending in one character that is not a digit, space or separator followed by four or more digits has that character and the digits as its suffix id |
| ItemSku.MilkSuffixSku | lib/src/serbian-fiscal-bill-parser.ts:210-215 | `Mleko 1L/123456` has the suffix id `123456` |
| ItemSku.SuffixFoundIff | lib/src/serbian-fiscal-bill-parser.ts:210-211 | The suffix pattern matches iff the line, without trailing spaces, ends in a run of at least four digits |
| ItemSku.GroupEndsText | lib/src/serbian-fiscal-bill-parser.ts:210 | An id group implies that the line ends in four or more digits |
| ItemSku.MatchAtLastFourDigits | lib/src/serbian-fiscal-bill-parser.ts:210 | A line ending in four or more digits has a suffix match |
| ItemSku.IdGroupDigits | lib/src/serbian-fiscal-bill-parser.ts:210 | An id group ends in four digits |
| ItemSku.SuffixMatchIsGroup | lib/src/serbian-fiscal-bill-parser.ts:210 | A match found by the leftmost scan is an optional-separator prefix followed by an id group ending the line |
| ItemSku.SuffixMatchReaches | lib/src/serbian-fiscal-bill-parser.ts:210 | A match at a later start implies that the leftmost scan finds one |
| ItemSku.ItemSku | lib/src/serbian-fiscal-bill-parser.ts:185-219 | A missing or empty line gives none. A sku found is non-empty, holds a digit and lies inside the line. Precedence is stated by PrefixIdWins and SuffixIdOtherwise. The suffix value is stated by SeparatedSuffixSku, SpacedSuffixSku and LetterSuffixSku |
| ItemSku.ItemSkuFoundIff | lib/src/serbian-fiscal-bill-parser.ts:185-219 | A sku is found iff there is a prefix id, or the line without its unit tag ends in four or more digits |
| ItemSku.BracketOpeningHasNoPrefixId | lib/src/serbian-fiscal-bill-parser.ts:195-203 | A line opening with `(`, `[` or `{` has no prefix id. Its sku is the suffix id of the line without its unit tag |
| ItemSku.PrefixIdWins | lib/src/serbian-fiscal-bill-parser.ts:196-201 | A prefix id, when the line has one, is the sku, trimmed, whatever the line ends with |
| ItemSku.SuffixIdOtherwise | lib/src/serbian-fiscal-bill-parser.ts:203-215 | Without a prefix id, the sku is the suffix id of the line with its unit tag removed |
| ItemSku.LeadingDigitsSku | lib/src/serbian-fiscal-bill-parser.ts:196-201 | A line opening with digits has exactly those digits as its sku |
| ItemSku.LetterLedSku | lib/src/serbian-fiscal-bill-parser.ts:196-201 | A character other than a digit, white space or an opening bracket, followed by digits, is the sku together with those digits |
| ItemName.FirstVatTagFrom | lib/src/serbian-fiscal-bill-parser.ts:382 | The result is the leftmost `(x)` tag with a non-digit x, or -1 when there is none |
| ItemName.FullItemName | lib/src/serbian-fiscal-bill-parser.ts:375-389 | None iff the line is empty. The name lies inside the line. Without a tag it is the line less its final character, trimmed |
| ItemName.FullNameAtLastTag | lib/src/serbian-fiscal-bill-parser.ts:382-387 | With a tag, the line is cut at the last occurrence of the first tag's text, then trimmed |
| ItemName.FullNameOfTaggedRow | lib/src/serbian-fiscal-bill-parser.ts:375-389 | For name, VAT tag, numbers, the full name is the trimmed name |
| ItemName.ItemNameOf | lib/src/serbian-fiscal-bill-parser.ts:226-263 | None iff the line is missing or empty. A name returned is trimmed |
| ItemName.ItemName | lib/src/serbian-fiscal-bill-parser.ts:226-263 | The sequence of conditional rewrites of the local string gives exactly `ItemNameOf` |
| ItemName.DropTrailingSeparator | lib/src/serbian-fiscal-bill-parser.ts:256-259 | The result is a prefix of the text. TrailingSeparatorDropped and NoTrailingSeparator state what is cut |
| ItemName.RemoveSeparatorAfterSku | lib/src/serbian-fiscal-bill-parser.ts:239-242 | The `dashAfterSku` step gives exactly `DropSeparatorAfterSku` |
| ItemName.RemoveSeparatorBeforeSku | lib/src/serbian-fiscal-bill-parser.ts:245-248 | The first `dashBeforeSku` step gives exactly `DropSeparatorBeforeSku` |
| ItemName.RemoveTrailingSeparator | lib/src/serbian-fiscal-bill-parser.ts:256-259 | The second `dashBeforeSku` step gives exactly `DropTrailingSeparator` |
| ItemName.TrailingSeparatorDropped | lib/src/serbian-fiscal-bill-parser.ts:256-259 | Text, spaces, a `-`, `/` or `,`, then spaces: only the text is left |
| ItemName.NoTrailingSeparator | lib/src/serbian-fiscal-bill-parser.ts:256-259 | Text ending in neither a space nor a separator, followed by spaces, is left whole |
| ItemName.SeparatorAfterSkuDropped | lib/src/serbian-fiscal-bill-parser.ts:239-242 | Spaces, a `-` or `,`, spaces, then the rest: what is left is the rest, trimmed |
| ItemName.NoSeparatorAfterSku | lib/src/serbian-fiscal-bill-parser.ts:239-242 | Spaces followed by anything but `-` or `,` are left unchanged, untrimmed |
| ItemName.SeparatorBeforeSkuDropped | lib/src/serbian-fiscal-bill-parser.ts:245-248 | Text, spaces, then a final `-`, `/` or `,`: what is left is the text, trimmed |
| ItemName.NoSeparatorBeforeSku | lib/src/serbian-fiscal-bill-parser.ts:245-248 | Text not ending in a separator is left unchanged, untrimmed |
| ItemName.NameWithoutSku | lib/src/serbian-fiscal-bill-parser.ts:226-263 | With no sku, the name is the line without its unit tag, trimmed |
| ItemName.NameAfterLeadingSku | lib/src/serbian-fiscal-bill-parser.ts:234-262 | `sku - name` (or with `,`) gives back the name |
| ItemName.NameBeforeTrailingSku | lib/src/serbian-fiscal-bill-parser.ts:234-262 | `name/sku` (or with `-`, `,`) gives back the name whenever the sku does not occur earlier in the line |
| ItemName.MilkWithTrailingSku | lib/src/serbian-fiscal-bill-parser.ts:234-262 | `Mleko 1L/123456` with sku `123456` gives `Mleko 1L` |
| ItemName.TrailingSkuReplaced | lib/src/serbian-fiscal-bill-parser.ts:236 | Removing the first occurrence of a trailing sku leaves the name and its separator |
| ItemNumbers.ItemPrice | lib/src/serbian-fiscal-bill-parser.ts:326-346 | None iff the line is empty. Values are non-negative. A line not ending in a price character gives 0. The value of a trailing run is stated by PriceOfTrailingRun |
| ItemNumbers.ItemAmount | lib/src/serbian-fiscal-bill-parser.ts:353-373 | None iff the line is empty. Values are non-negative |
| ItemNumbers.ItemUnitPrice | lib/src/serbian-fiscal-bill-parser.ts:396-417 | None iff the line is empty. Values are non-negative |
| ItemNumbers.DropTrailingRun | lib/src/serbian-fiscal-bill-parser.ts:359 | The text without its trailing run is no longer than the text. DropRunAfter and NoRunToDrop state what is left |
| ItemNumbers.DropRunAfter | lib/src/serbian-fiscal-bill-parser.ts:358-359 | For any text y not ending in a price character and any run p, p is the trailing run of `y p` and cutting it leaves y trimmed |
| ItemNumbers.NoRunToDrop | lib/src/serbian-fiscal-bill-parser.ts:359 | Text not ending in a price character is only trimmed |
| ItemNumbers.PriceOfTrailingRun | lib/src/serbian-fiscal-bill-parser.ts:331-345 | For any line `y p` whose trailing run is p, the price is p read as a locale number, or 0 when it does not parse |
| ItemNumbers.PeelRun | lib/src/serbian-fiscal-bill-parser.ts:358-359 | In `y p`, p is the trailing run and cutting it off leaves y |
| ItemNumbers.ThreeRunRow | lib/src/serbian-fiscal-bill-parser.ts:326-417 | On `x u a p`, the price is p's value (default 0), the amount is a's value (default 1) and the unit price is u's value (default 1) |
| ItemNumbers.TwoRunRow | lib/src/serbian-fiscal-bill-parser.ts:396-408 | On `x a p`, the unit price is 0 (missing), while price and amount read their runs |
| ItemNumbers.OneRunRow | lib/src/serbian-fiscal-bill-parser.ts:353-364 | On `x p`, the amount is 1 and the unit price 0 |
| ItemNumbers.GroupedNumbersInRow | lib/test/serbian-fiscal-bill-parser.spec.ts:444-522 | On the test rows, the price `1.009,99` is 1009.99 and the amount `1.911.119,1` is 1911119.1 |
| LocaleNumber.ParseFloat | lib/src/serbian-fiscal-bill-parser.ts:340 | A value read is non-negative |
| LocaleNumber.ParseFloatAgrees | lib/src/serbian-fiscal-bill-parser.ts:340 | On price-character strings, the exact reading of parseFloat succeeds iff the general "is not NaN" test holds |
| LocaleNumber.Normalize | lib/src/serbian-fiscal-bill-parser.ts:338 | The rewritten token still holds only price characters |
| LocaleNumber.LocaleValue | lib/src/serbian-fiscal-bill-parser.ts:338-343 | A value read is non-negative |
| JsString.RemoveCharIsReplaceAll | lib/src/serbian-fiscal-bill-parser.ts:338 | Removing every `.` is the global `replace` of the pattern by the empty string |
| LocaleNumber.LocaleValueWithComma | lib/src/serbian-fiscal-bill-parser.ts:338-340 | `a,b` with grouping dots in a reads as the decimal (a without dots).b |
| LocaleNumber.LocaleValueWithoutComma | lib/src/serbian-fiscal-bill-parser.ts:338-340 | A grouped integer reads as its digits without dots |
| LocaleNumber.LocaleValueWithoutDigits | lib/src/serbian-fiscal-bill-parser.ts:340-342 | A token without digits is NaN |
| LocaleNumber.ParseFloatOfDecimal | lib/src/serbian-fiscal-bill-parser.ts:340 | `ip.fp` parses as the exact decimal |
| LocaleNumber.TrailingRun | lib/src/serbian-fiscal-bill-parser.ts:331-332 | A run exists iff the text ends in a price character. It is non-empty, made of price characters, and maximal |
| LocaleNumber.TrailingRunStart | lib/src/serbian-fiscal-bill-parser.ts:331 | The suffix from the start is all price characters, and the character before it is not one |
| LocaleNumber.TrailingRunOfSeparated | lib/src/serbian-fiscal-bill-parser.ts:331 | The run after the last non-price character is the one found |
| LocaleNumber.ThousandsGroupedValue | lib/test/serbian-fiscal-bill-parser.spec.ts:464 | `1.009,99` reads as 1009.99 |
| LocaleNumber.MillionsGroupedValue | lib/test/serbian-fiscal-bill-parser.spec.ts:466 | `1.911.119,1` reads as 1911119.1: every dot is dropped |
| LocaleNumber.CommaOnlyValue | lib/test/serbian-fiscal-bill-parser.spec.ts:43 | `50,00` reads as 50 |
| LocaleNumber.BareIntegerValue | lib/test/serbian-fiscal-bill-parser.spec.ts:461 | `1` reads as 1 |
| Header.HeaderLines | lib/src/serbian-fiscal-bill-parser.ts:275 | There is always at least one header line |
| Header.CompanyOf | lib/src/serbian-fiscal-bill-parser.ts:270-294 | None iff the header is empty. Every field is trimmed. Name, address, city and municipality are present exactly when lines 1, 3, 4 and 4 exist. A line 4 without `-` is both the city and the municipality, trimmed |
| Header.CompanyOfLines | lib/src/serbian-fiscal-bill-parser.ts:275-293 | The same, stated on the lines, including the line 4 without `-` |
| Header.Place | lib/src/serbian-fiscal-bill-parser.ts:280-285 | City and municipality are present exactly when line 4 is, and neither holds a `-`. Without a `-`, both are line 4 itself |
| Header.CityWithoutMunicipality | lib/src/serbian-fiscal-bill-parser.ts:280-291 | A trimmed line 4 without `-` gives that text as both the city and the municipality |
| Header.DashSides | lib/src/serbian-fiscal-bill-parser.ts:283-284 | The pieces before the first `-` and between the first and second `-` hold no `-` |
| Header.CityAndMunicipality | lib/src/serbian-fiscal-bill-parser.ts:282-285 | Line 4 `city-municipality` gives that city and municipality |
| Header.CityAndMunicipalityDashFree | lib/src/serbian-fiscal-bill-parser.ts:282-285 | City and municipality read from any header hold no `-` |
| Header.CompanyOfPrintedHeader | lib/src/serbian-fiscal-bill-parser.ts:270-294 | A company printed on the five header lines reads back as that company, whatever line 2 holds |
| Header.LinesOfPlainHeader | lib/src/serbian-fiscal-bill-parser.ts:275 | Lines joined by `\n` split back into the same lines |
| Header.LinesOfCrlfHeader | lib/src/serbian-fiscal-bill-parser.ts:275 | Five lines joined by `\r\n` come back with `\r` kept at the end of lines 1-3, since only the first `\r\n` is replaced |
| Header.FirstCrlfOnly | lib/src/serbian-fiscal-bill-parser.ts:275 | Only the first `\r\n` becomes `\n` |
| Header.CrlfHeaderSameCompany | lib/src/serbian-fiscal-bill-parser.ts:270-294 | A `\r\n` header yields the same company as its `\n` form, because trimming drops the stray `\r` |
| Header.PosId | lib/src/serbian-fiscal-bill-parser.ts:311 | The id holds no `-` and is trimmed |
| Header.PosData | lib/src/serbian-fiscal-bill-parser.ts:301-319 | None iff the header is empty or has fewer than 3 lines. The id holds no `-` and is trimmed |
| Header.PosOfLines | lib/src/serbian-fiscal-bill-parser.ts:306-318 | The same, stated on the lines |
| Header.PosNameAfterDash | lib/src/serbian-fiscal-bill-parser.ts:312-313 | With a `-`, the name is the text after the first `-`, trailing space trimmed. Without one it is empty |
| Header.PosIdOf | lib/src/serbian-fiscal-bill-parser.ts:311 | An indented `id-name` line has the id `id` |
| Header.PosOfLine | lib/src/serbian-fiscal-bill-parser.ts:311-313 | An indented `id-name` line gives the id and the name |
| Header.PosOfDashedLine | lib/src/serbian-fiscal-bill-parser.ts:301-319 | A header whose line 2 is `id-name` has the point of sale (id, name) |
| Header.DashedPosName | lib/test/serbian-fiscal-bill-parser.spec.ts:161-175 | `1000539-103-Maxi-NBG-Zemun` gives the id `1000539` and the name `103-Maxi-NBG-Zemun` |
| Footer.Cleaned | lib/src/serbian-fiscal-bill-parser.ts:457-462 | The cleaned text holds no space and no `\n` |
| Footer.CleanedJoinsWrappedValue | lib/src/serbian-fiscal-bill-parser.ts:457-462 | A value wrapped over two printed lines is glued back together |
| Footer.NumberOf | lib/src/serbian-fiscal-bill-parser.ts:447-463 | None when the number label is absent. A number holds no space or `\n` |
| Footer.NumberBetweenLabels | lib/src/serbian-fiscal-bill-parser.ts:452-462 | The number is the cleaned text between the first number label and the next counter label |
| Footer.CounterOf | lib/src/serbian-fiscal-bill-parser.ts:470-482 | None when the counter label is absent. A counter holds no space, `\n` or `=` |
| Footer.CounterBeforeRule | lib/src/serbian-fiscal-bill-parser.ts:475-481 | The counter is the cleaned text between the counter label and the first `=` |
| Footer.TotalOf | lib/src/serbian-fiscal-bill-parser.ts:38-49 | Err (NoTotalLabel) iff the label is absent. A total read is non-negative |
| Footer.TotalOfText | lib/src/serbian-fiscal-bill-parser.ts:39-48 | Unset iff no price character follows the label. Otherwise non-negative |
| Footer.TotalAfterLabel | lib/src/serbian-fiscal-bill-parser.ts:38 | The total is read from the text between the first label and the next |
| Footer.TotalOfTextPrinted | lib/src/serbian-fiscal-bill-parser.ts:39-47 | After spaces, `a,b` reads as the decimal (a without dots).b |
| Footer.TotalOfPrinted | lib/src/serbian-fiscal-bill-parser.ts:38-49 | A printed total `Укупан износ: a,b` reads as that decimal |
| Footer.TotalUnset | lib/src/serbian-fiscal-bill-parser.ts:40-41 | Without a price character after the label, the total stays unset |
| Footer.SignedValue | lib/src/serbian-fiscal-bill-parser.ts:435 | A value exists iff, after an optional sign, a digit comes first |
| Footer.ParseInt | lib/src/serbian-fiscal-bill-parser.ts:435 | A value read implies that the text holds a digit |
| Footer.ParseIntOfDigits | lib/src/serbian-fiscal-bill-parser.ts:435 | Digits followed by a non-digit read as their value |
| Footer.ParseIntAt | lib/src/serbian-fiscal-bill-parser.ts:435 | A missing part reads as NaN |
| Footer.DateFields | lib/src/serbian-fiscal-bill-parser.ts:431-435 | Err (NoClock) iff the trimmed run has no space |
| Footer.DateOf | lib/src/serbian-fiscal-bill-parser.ts:424-435 | Err NoTimeLabel iff the bill is non-empty and lacks `ПФР време:`. Err NoClock iff the bill is non-empty, has the label, and the text after the label (up to the next label) is ClockMissing. Any other error is NoClock |
| Footer.DateOfText | lib/src/serbian-fiscal-bill-parser.ts:429-435 | No date iff no date character follows the label. It fails iff the first run of `[ .:0-9]` characters, trimmed, has no space between date and clock (ClockMissing), and the only error is NoClock |
| Footer.DateAfterLabel | lib/src/serbian-fiscal-bill-parser.ts:429 | The date is read from the text between the first time label and the next |
| Footer.DateFieldsOfStamp | lib/src/serbian-fiscal-bill-parser.ts:431-435 | `dd.mm.yyyy. hh:mi:ss` gives the six numbers, the month counted from 0 |
| Footer.DateOfTextStamp | lib/src/serbian-fiscal-bill-parser.ts:429-434 | After spaces, the stamp run is found and trimmed |
| Footer.DateOfPrintedStamp | lib/src/serbian-fiscal-bill-parser.ts:429-435 | A stamp printed after the label is the one read |
| Footer.DateOfReceipt | lib/src/serbian-fiscal-bill-parser.ts:424-435 | `ПФР време: dd.mm.yyyy. hh:mi:ss` gives the civil time (yyyy, mm-1, dd, hh, mi, ss) |
| Footer.DateOfTestLine | lib/test/serbian-fiscal-bill-parser.spec.ts:552-559 | The test line gives 2023, month index 4, day 6, 10:55:09 |

## Left out

- The `Date` object built in `getDate` (lib/src/serbian-fiscal-bill-parser.ts:435-436) is left out. It depends on the environment's time zone. `DateOf` stops at the six civil numbers handed to the constructor.
- Floating point is not modelled: numbers are exact decimals. `parseFloat` on a `[0-9.,]` token reads the longest `digits[.digits]` prefix, and rounding to a double is not modelled.
- Footer.ParseInt: reads only an optional sign and decimal digits after leading white space. The `0x` prefix and other bases of `parseInt` are not modelled, because a date run holds only digits, dots, colons and spaces.
- The flattening row test applies `parseFloat` to an arbitrary word. It is modelled as a "has a numeric prefix" predicate (white space, an optional sign, then `Infinity`, a digit, or `.` and a digit). The `try/catch` around it can never catch anything and is not modelled.
- No general regular-expression engine: each pattern of the source is its own scanner.
- `toLowerCase` is a character map for ASCII, the Cyrillic capitals U+0400-U+042F and the Kelvin sign. Other characters map to themselves, since they cannot affect an alias match. Strings are sequences of code points, not UTF-16 code units.
- Crashes (`TypeError` on a missing piece of text) become `Err` results. Nothing else of the exception is modelled.
- The data-holder classes (lib/src/bill.ts, company.ts, item.ts) have no behaviour and are datatypes. Parser.Parse builds the result from locals rather than assigning the fields of a `Bill` object in place.
- The end-to-end test (lib/test/serbian-fiscal-bill-parser.e2e.spec.ts) reads files and compares JSON snapshots. It is not modelled.
- The `getName` tests (lib/test/serbian-fiscal-bill-parser.spec.ts:333-442) call a method the class does not have. The flattening expectations at lib/test/serbian-fiscal-bill-parser.spec.ts:242-243 keep runs of spaces that the code collapses. Neither is stated as a lemma.
- ItemNumbers.ItemAmount: states only presence and sign. What it reads is stated on the usual row shapes by ThreeRunRow, TwoRunRow and OneRunRow, not for every line.
- ItemNumbers.ItemUnitPrice: states only presence and sign. What it reads is stated on the usual row shapes by ThreeRunRow, TwoRunRow and OneRunRow, not for every line.
- ItemSku.SuffixSku: the value of the suffix id is stated on the usual line shapes (a separator, spaces or one letter before four or more digits) by SeparatedSuffixSku, SpacedSuffixSku and LetterSuffixSku. For other lines the contract states only that the id is a trimmed id group ending the line.
- ItemName.ItemNameOf: states only presence and trimming for every line. The removal of the sku and separators is stated on the usual shapes by NameWithoutSku, NameAfterLeadingSku and NameBeforeTrailingSku.
- Measurement.StripMeasurementTag: states only that the result is a prefix. What is cut is stated by StripStages (the five rewrites in order), StripUntagged, StripSlashUnit and StripBracketUnit, and by CutTag for each single rewrite.
- Footer.NumberOf: states the no-label case and the character content for every bill. The value itself is stated by NumberBetweenLabels on bills where the counter label follows the number. The empty-bill shortcut coincides with the no-label case.
- Footer.CounterOf: states the no-label case and the character content for every bill. The value itself is stated by CounterBeforeRule.
