/**
 * The header of a receipt (serbian-fiscal-bill-parser.ts, lines 270-319):
 * the text before the sales marker, read line by line at fixed positions.
 * Line 0 is the tax id (PIB), line 1 the company name, line 2 the point of
 * sale, line 3 the address and line 4 the city, optionally followed by
 * `-` and the municipality.
 */
module Header {
  import opened Options
  import opened JsString
  import opened BillModel

  /**
   * `head.replace(/\r\n/, '\n').split('\n')`. The pattern has no `g` flag,
   * so only the first CRLF becomes a line feed and the later lines keep
   * their carriage return.
   */
  function HeaderLines(head: string): (lines: seq<string>)
    ensures |lines| >= 1
  {
    Split(ReplaceFirst(head, "\r\n", "\n"), "\n")
  }

  /** `lines[k] ?? null`. */
  function LineAt(lines: seq<string>, k: nat): (r: Option<string>)
    ensures r.Some? <==> k < |lines|
  {
    if k < |lines| then Some(lines[k]) else None
  }

  /** `x?.trim() ?? null`: the result, when there is one, is its own trim. */
  function TrimmedOpt(x: Option<string>): (r: Option<string>)
    ensures r.Some? <==> x.Some?
    ensures r.Some? ==> Trim(r.value) == r.value
  {
    match x
    case None => None
    case Some(s) =>
      TrimIdempotent(s);
      Some(Trim(s))
  }

  /** The two sides of the first `-` of a line that has one: `line.split('-')[0]` and `[1]`. */
  function DashSides(line: string): (r: (string, string))
    requires '-' in line
    ensures '-' !in r.0 && '-' !in r.1
  {
    ContainsChar(line, '-');
    SplitSecond(line, "-");
    SplitPiecesLackSeparator(line, '-');
    var parts := Split(line, "-");
    (parts[0], parts[1])
  }

  /** The fields of a company are trimmed. */
  predicate FieldsTrimmed(c: Company) {
    && Trim(c.pib) == c.pib
    && (c.name.None? || Trim(c.name.value) == c.name.value)
    && (c.city.None? || Trim(c.city.value) == c.city.value)
    && (c.address.None? || Trim(c.address.value) == c.address.value)
    && (c.municipality.None? || Trim(c.municipality.value) == c.municipality.value)
  }

  /**
   * `getCompany`: nothing for an empty header; otherwise every field is
   * trimmed, each optional field is present exactly when its line is, and
   * city and municipality come and go together with line 4.
   */
  function CompanyOf(head: string): (r: Option<Company>)
    ensures r.None? <==> head == []
    ensures r.Some? ==> FieldsTrimmed(r.value)
    ensures r.Some? ==> var n := |HeaderLines(head)|;
                        && (r.value.name.Some? <==> n > 1)
                        && (r.value.address.Some? <==> n > 3)
                        && (r.value.city.Some? <==> n > 4)
                        && (r.value.municipality.Some? <==> n > 4)
    ensures r.Some? && |HeaderLines(head)| > 4 && '-' !in HeaderLines(head)[4] ==>
              && r.value.city == Some(Trim(HeaderLines(head)[4]))
              && r.value.municipality == r.value.city
  {
    if head == [] then None else Some(CompanyOfLines(HeaderLines(head)))
  }

  /** The company read from the header lines. */
  function CompanyOfLines(lines: seq<string>): (c: Company)
    requires |lines| >= 1
    ensures FieldsTrimmed(c)
    ensures && (c.name.Some? <==> |lines| > 1)
            && (c.address.Some? <==> |lines| > 3)
            && (c.city.Some? <==> |lines| > 4)
            && (c.municipality.Some? <==> |lines| > 4)
    ensures |lines| > 4 && '-' !in lines[4] ==>
              c.city == Some(Trim(lines[4])) && c.municipality == c.city
  {
    var place := Place(LineAt(lines, 4));
    TrimIdempotent(lines[0]);
    Company(Trim(lines[0]), TrimmedOpt(LineAt(lines, 1)), TrimmedOpt(place.0),
            TrimmedOpt(LineAt(lines, 3)), TrimmedOpt(place.1))
  }

  /**
   * City and municipality, untrimmed, from line 4: the two sides of its
   * first `-` when it has one, else the whole line for both. Neither holds
   * a `-`.
   */
  function Place(line4: Option<string>): (r: (Option<string>, Option<string>))
    ensures r.0.Some? <==> line4.Some?
    ensures r.1.Some? <==> line4.Some?
    ensures r.0.Some? ==> '-' !in r.0.value
    ensures r.1.Some? ==> '-' !in r.1.value
    ensures line4.Some? && '-' !in line4.value ==> r.0 == line4 && r.1 == line4
  {
    if line4.Some? && '-' in line4.value then
      var sides := DashSides(line4.value);
      (Some(sides.0), Some(sides.1))
    else
      (line4, line4)
  }

  /** A line 4 without a `-` is both the city and the municipality: "Beograd" gives Beograd twice. */
  lemma CityWithoutMunicipality(lines: seq<string>, city: string)
    requires |lines| > 4 && lines[4] == city && Trimmed(city) && '-' !in city
    ensures CompanyOfLines(lines).city == Some(city)
    ensures CompanyOfLines(lines).municipality == Some(city)
  {
    TrimOfTrimmed(city);
  }

  /** Neither the city nor the municipality ever holds a `-`. */
  lemma CityAndMunicipalityDashFree(head: string)
    requires CompanyOf(head).Some?
    ensures var c := CompanyOf(head).value;
            && (c.city.Some? ==> '-' !in c.city.value)
            && (c.municipality.Some? ==> '-' !in c.municipality.value)
  {
    var place := Place(LineAt(HeaderLines(head), 4));
    if place.0.Some? {
      TrimLacks(place.0.value, '-');
      TrimLacks(place.1.value, '-');
    }
  }

  /** A line `city-municipality` splits at its only `-`. */
  lemma DashSidesOf(city: string, municipality: string)
    requires '-' !in city && '-' !in municipality
    ensures '-' in city + "-" + municipality
    ensures DashSides(city + "-" + municipality) == (city, municipality)
  {
    var line := city + "-" + municipality;
    assert line[|city|] == '-';
    assert Join([city, municipality], "-") == line;
    SplitJoin([city, municipality], '-');
  }

  /**
   * A line 4 of the form `city-municipality` gives that city and that
   * municipality.
   */
  lemma CityAndMunicipality(lines: seq<string>, city: string, municipality: string)
    requires |lines| > 4 && lines[4] == city + "-" + municipality
    requires Trimmed(city) && Trimmed(municipality)
    requires '-' !in city && '-' !in municipality
    ensures CompanyOfLines(lines).city == Some(city)
    ensures CompanyOfLines(lines).municipality == Some(municipality)
  {
    DashSidesOf(city, municipality);
    assert Place(LineAt(lines, 4)) == (Some(city), Some(municipality));
    TrimOfTrimmed(city);
    TrimOfTrimmed(municipality);
  }

  /** Five lines joined by a separator. */
  lemma JoinFive(a: string, b: string, c: string, d: string, e: string, sep: string)
    ensures Join([a, b, c, d, e], sep) == a + sep + b + sep + c + sep + d + sep + e
  {
    var ls := [a, b, c, d, e];
    assert ls[1..] == [b, c, d, e] && ls[1..][1..] == [c, d, e];
    assert ls[1..][1..][1..] == [d, e] && ls[1..][1..][1..][1..] == [e];
    assert Join([d, e], sep) == d + sep + e;
    assert Join([c, d, e], sep) == c + sep + (d + sep + e);
    assert Join([b, c, d, e], sep) == b + sep + (c + sep + (d + sep + e));
  }

  /** A line without a line break or carriage return. */
  predicate OneLine(s: string) { '\n' !in s && '\r' !in s }

  /** Header lines joined by a line feed alone are read back unchanged. */
  lemma LinesOfPlainHeader(ls: seq<string>)
    requires |ls| >= 1 && forall k :: 0 <= k < |ls| ==> OneLine(ls[k])
    ensures HeaderLines(Join(ls, "\n")) == ls
  {
    var head := Join(ls, "\n");
    JoinLacks(ls, "\n", '\r');
    LacksStart(head, "\r\n");
    SplitJoin(ls, '\n');
  }

  /**
   * Printing a company on the five header lines and reading it back gives
   * the company again, whatever the point-of-sale line holds.
   */
  lemma CompanyOfPrintedHeader(pib: string, name: string, pos: string, address: string,
                               city: string, municipality: string)
    requires Trimmed(pib) && Trimmed(name) && Trimmed(address) && Trimmed(city) && Trimmed(municipality)
    requires '-' !in city && '-' !in municipality
    requires OneLine(pib) && OneLine(name) && OneLine(pos) && OneLine(address)
    requires OneLine(city) && OneLine(municipality)
    ensures CompanyOf(Join([pib, name, pos, address, city + "-" + municipality], "\n"))
            == Some(Company(pib, Some(name), Some(city), Some(address), Some(municipality)))
  {
    var ls := [pib, name, pos, address, city + "-" + municipality];
    var head := Join(ls, "\n");
    assert OneLine(city + "-" + municipality);
    LinesOfPlainHeader(ls);
    assert head != [] by { assert |head| >= |pib|; }
    CityAndMunicipality(ls, city, municipality);
    TrimOfTrimmed(pib);
    TrimOfTrimmed(name);
    TrimOfTrimmed(address);
  }

  /**
   * A header written with CRLF line ends: only the first becomes a line
   * feed, so every later line but the last keeps a carriage return.
   */
  lemma LinesOfCrlfHeader(a: string, b: string, c: string, d: string, e: string)
    requires OneLine(a) && OneLine(b) && OneLine(c) && OneLine(d) && OneLine(e)
    ensures HeaderLines(a + "\r\n" + b + "\r\n" + c + "\r\n" + d + "\r\n" + e)
            == [a, b + "\r", c + "\r", d + "\r", e]
  {
    var rest := b + "\r\n" + c + "\r\n" + d + "\r\n" + e;
    assert a + "\r\n" + b + "\r\n" + c + "\r\n" + d + "\r\n" + e == a + "\r\n" + rest;
    FirstCrlfOnly(a, rest);
    var ls := [a, b + "\r", c + "\r", d + "\r", e];
    CrlfLinesJoined(a, b, c, d, e);
    assert forall k :: 0 <= k < |ls| ==> '\n' !in ls[k];
    SplitJoin(ls, '\n');
  }

  lemma CrlfLinesJoined(a: string, b: string, c: string, d: string, e: string)
    ensures a + "\n" + (b + "\r\n" + c + "\r\n" + d + "\r\n" + e)
            == Join([a, b + "\r", c + "\r", d + "\r", e], "\n")
  {
    JoinFive(a, b + "\r", c + "\r", d + "\r", e, "\n");
  }

  /** Only the first CRLF of a header becomes a line feed. */
  lemma FirstCrlfOnly(a: string, rest: string)
    requires '\r' !in a
    ensures HeaderLines(a + "\r\n" + rest) == Split(a + "\n" + rest, "\n")
  {
    LabelAfterFreeHead(a, "\r\n");
    ReplaceFirstAt(a, "\r\n", rest, "\n");
  }

  /**
   * The company does not depend on whether the header lines end in a line
   * feed or in CRLF: the carriage returns the single replacement leaves
   * behind are white space, which trimming drops.
   */
  lemma CrlfHeaderSameCompany(a: string, b: string, c: string, d: string, e: string)
    requires OneLine(a) && OneLine(b) && OneLine(c) && OneLine(d) && OneLine(e)
    ensures CompanyOf(a + "\r\n" + b + "\r\n" + c + "\r\n" + d + "\r\n" + e)
            == CompanyOf(a + "\n" + b + "\n" + c + "\n" + d + "\n" + e)
  {
    var crlf := a + "\r\n" + b + "\r\n" + c + "\r\n" + d + "\r\n" + e;
    var lf := a + "\n" + b + "\n" + c + "\n" + d + "\n" + e;
    LinesOfCrlfHeader(a, b, c, d, e);
    JoinFive(a, b, c, d, e, "\n");
    LinesOfPlainHeader([a, b, c, d, e]);
    assert crlf != [] && lf != [] by { assert crlf[|a|] == '\r' && lf[|a|] == '\n'; }
    CarriageReturnsTrimmed(a, b, c, d, e);
  }

  /** The company trims lines 1 and 3 and never reads line 2, so their carriage returns do not matter. */
  lemma CarriageReturnsTrimmed(a: string, b: string, c: string, d: string, e: string)
    ensures CompanyOfLines([a, b + "\r", c + "\r", d + "\r", e]) == CompanyOfLines([a, b, c, d, e])
  {
    assert AllWhitespace("\r");
    TrimDropsTrailingWhitespace(b, "\r");
    TrimDropsTrailingWhitespace(d, "\r");
  }

  // ---------------------------------------------------------------- the point of sale

  /** The device id: `line.split('-')[0].trim()`, trimmed and free of `-`. */
  function PosId(line: string): (id: string)
    ensures '-' !in id && Trim(id) == id
  {
    var piece := Split(line, "-")[0];
    SplitPiecesLackSeparator(line, '-');
    TrimLacks(piece, '-');
    TrimIdempotent(piece);
    Trim(piece)
  }

  /** The device name: the line with the id removed once, trimmed, and one leading `-` dropped. */
  function PosName(line: string, id: string): string {
    var n := Trim(ReplaceFirst(line, id, []));
    if n != [] && n[0] == '-' then n[1..] else n
  }

  /**
   * `getPosData`: nothing for an empty header or one of fewer than three
   * lines; otherwise the id and name read from line 2.
   */
  function PosData(head: string): (r: Option<Pos>)
    ensures r.None? <==> head == [] || |HeaderLines(head)| < 3
    ensures r.Some? ==> '-' !in r.value.id && Trim(r.value.id) == r.value.id
  {
    if head == [] then None else PosOfLines(HeaderLines(head))
  }

  /** The point of sale on line 2, when there is one. */
  function PosOfLines(lines: seq<string>): (r: Option<Pos>)
    ensures r.None? <==> |lines| < 3
    ensures r.Some? ==> '-' !in r.value.id && Trim(r.value.id) == r.value.id
  {
    if |lines| < 3 then None
    else
      var id := PosId(lines[2]);
      Some(Pos(id, PosName(lines[2], id)))
  }

  /**
   * Removing the trim of a leading piece leaves white space followed by the
   * rest of the line.
   */
  lemma TrimRemoved(line: string, piece: string) returns (w: string)
    requires |piece| <= |line| && line[..|piece|] == piece
    ensures AllWhitespace(w)
    ensures ReplaceFirst(line, Trim(piece), []) == w + line[|piece|..]
  {
    if Trim(piece) == [] {
      TrimEmptyIff(piece);
      assert OccursAt(line, [], 0);
      assert IndexOf(line, []) == 0;
      assert line == piece + line[|piece|..];
      w := piece;
    } else {
      w := TextRemoved(line, piece);
    }
  }

  lemma TextRemoved(line: string, piece: string) returns (w: string)
    requires |piece| <= |line| && line[..|piece|] == piece && Trim(piece) != []
    ensures AllWhitespace(w)
    ensures ReplaceFirst(line, Trim(piece), []) == w + line[|piece|..]
  {
    var id := Trim(piece);
    var w1, w2 := TrimSurroundings(piece);
    var rest := line[|piece|..];
    assert line == w1 + id + w2 + rest by {
      assert line == piece + rest;
    }
    RemovedBetween(w1, id, w2, rest);
    w := w1 + w2;
  }

  /** Removing a text that white space surrounds leaves the white space. */
  lemma RemovedBetween(w1: string, id: string, w2: string, rest: string)
    requires AllWhitespace(w1) && AllWhitespace(w2) && id != [] && !IsWhitespace(id[0])
    ensures AllWhitespace(w1 + w2)
    ensures ReplaceFirst(w1 + id + w2 + rest, id, []) == (w1 + w2) + rest
  {
    WhitespaceLacksText(w1, id);
    LabelAfterFreeHead(w1, id);
    ReplaceFirstAt(w1, id, w2 + rest, []);
    assert w1 + id + w2 + rest == w1 + id + (w2 + rest);
    WhitespaceJoined(w1, w2);
  }

  /** White space lacks the first character of a trimmed text. */
  lemma WhitespaceLacksText(w: string, t: string)
    requires AllWhitespace(w) && t != [] && !IsWhitespace(t[0])
    ensures t[0] !in w
  {
    forall j | 0 <= j < |w| ensures w[j] != t[0] {
      assert IsWhitespace(w[j]);
    }
  }

  /**
   * The device name is the text after the first `-` of the line, trailing
   * white space removed; a line without `-` has an empty name.
   */
  lemma PosNameAfterDash(line: string)
    ensures '-' in line ==> PosName(line, PosId(line)) == TrimEnd(line[IndexOf(line, "-") + 1..])
    ensures '-' !in line ==> PosName(line, PosId(line)) == []
  {
    if '-' in line {
      PosNameWithDash(line);
    } else {
      PosNameWithoutDash(line);
    }
  }

  lemma PosNameWithDash(line: string)
    requires '-' in line
    ensures PosName(line, PosId(line)) == TrimEnd(line[IndexOf(line, "-") + 1..])
  {
    var piece := Split(line, "-")[0];
    ContainsChar(line, '-');
    SplitFirst(line, "-");
    var k := IndexOf(line, "-");
    assert piece == line[..k];
    var w := TrimRemoved(line, piece);
    DashTail(line, k);
    DropDash(w, line[k + 1..]);
  }

  lemma PosNameWithoutDash(line: string)
    requires '-' !in line
    ensures PosName(line, PosId(line)) == []
  {
    var piece := Split(line, "-")[0];
    ContainsChar(line, '-');
    SplitFirst(line, "-");
    assert piece == line;
    assert line[..|piece|] == piece;
    var w := TrimRemoved(line, piece);
    assert line[|piece|..] == [];
    assert w + [] == w;
    TrimEmptyIff(w);
  }

  lemma DashTail(line: string, k: nat)
    requires OccursAt(line, "-", k)
    ensures line[k..] == "-" + line[k + 1..]
  {
    assert line[k] == line[k..k + 1][0];
  }

  /** Trimming white space, a `-` and a text, then dropping the `-`, leaves the text without its trailing white space. */
  lemma DropDash(w: string, x: string)
    requires AllWhitespace(w)
    ensures var n := Trim(w + ("-" + x));
            n != [] && n[0] == '-' && n[1..] == TrimEnd(x)
  {
    TrimStartPrependWhitespace(w, "-" + x);
    TrimStartOfNonWhitespace("-" + x);
    TrimEndAfterText('-', x);
  }

  /** The id of a line `id-name`, indented or not. */
  lemma PosIdOf(indent: string, id: string, name: string)
    requires AllWhitespace(indent) && Trimmed(id) && '-' !in id
    ensures '-' !in indent + id
    ensures PosId(indent + id + "-" + name) == id
  {
    assert '-' !in indent + id by {
      forall j | 0 <= j < |indent + id| ensures (indent + id)[j] != '-' {
        if j < |indent| { assert IsWhitespace(indent[j]); } else { assert (indent + id)[j] == id[j - |indent|]; }
      }
    }
    PieceBeforeSeparator(indent + id, "-", name);
    TrimAround(indent, id, []);
    assert indent + id + [] == indent + id;
  }

  /**
   * A point-of-sale line `id-name`, indented or not, gives that id and that
   * name, however many `-` the name holds.
   */
  lemma PosOfLine(indent: string, id: string, name: string)
    requires AllWhitespace(indent) && Trimmed(id) && '-' !in id
    requires name == [] || !IsWhitespace(name[|name| - 1])
    ensures var line := indent + id + "-" + name;
            PosId(line) == id && PosName(line, id) == name
  {
    var line := indent + id + "-" + name;
    PosIdOf(indent, id, name);
    LabelAfterFreeHead(indent + id, "-");
    LabelAt(indent + id, "-", name);
    ContainsChar(line, '-');
    assert line[|indent + id| + 1..] == name;
    PosNameAfterDash(line);
    if name != [] {
      TrimEndOfNonWhitespace(name);
    }
  }

  lemma EmptyHeaderOneLine()
    ensures |HeaderLines([])| == 1
  {
    assert !Contains([], "\n");
  }

  /** Line 2 of the header, of the form `id-name`, gives that point of sale. */
  lemma PosOfDashedLine(head: string, indent: string, id: string, name: string)
    requires |HeaderLines(head)| >= 3
    requires HeaderLines(head)[2] == indent + id + "-" + name
    requires AllWhitespace(indent) && Trimmed(id) && '-' !in id
    requires name == [] || !IsWhitespace(name[|name| - 1])
    ensures PosData(head) == Some(Pos(id, name))
  {
    EmptyHeaderOneLine();
    PosOfLine(indent, id, name);
    assert PosOfLines(HeaderLines(head)) == Some(Pos(id, name));
  }

  /**
   * A point-of-sale name may hold dashes of its own: only the first `-`
   * separates, as for the indented line "1000539-103-Maxi-NBG-Zemun".
   */
  lemma DashedPosName(head: string, indent: string)
    requires |HeaderLines(head)| >= 3 && AllWhitespace(indent)
    requires HeaderLines(head)[2] == indent + "1000539-103-Maxi-NBG-Zemun"
    ensures PosData(head) == Some(Pos("1000539", "103-Maxi-NBG-Zemun"))
  {
    DashedLineParts(indent, "1000539", "103-Maxi-NBG-Zemun");
    PosOfDashedLine(head, indent, "1000539", "103-Maxi-NBG-Zemun");
  }

  /** The line splits as indent, id, `-` and name, with an id and a name the parse accepts. */
  lemma DashedLineParts(indent: string, id: string, name: string)
    requires id == "1000539" && name == "103-Maxi-NBG-Zemun"
    ensures Trimmed(id) && '-' !in id && !IsWhitespace(name[|name| - 1])
    ensures indent + "1000539-103-Maxi-NBG-Zemun" == indent + id + "-" + name
  {
    assert id + "-" + name == "1000539-103-Maxi-NBG-Zemun";
    assert indent + (id + "-" + name) == indent + id + "-" + name;
  }
}
