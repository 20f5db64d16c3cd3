/**
 * The names of an item line (serbian-fiscal-bill-parser.ts): the full name,
 * everything before the VAT tag (lines 375-389), and the short name, the full
 * name without its product id and unit tag (lines 226-263).
 */
module ItemName {
  import opened Options
  import opened JsString
  import opened Measurement

  // ---------------------------------------------------------------- the full name

  /** A match of `/\(\D\)/` at `i`: an opening bracket, one non-digit, a closing bracket. */
  predicate IsVatTagAt(s: string, i: int) {
    0 <= i && i + 3 <= |s| && s[i] == '(' && !IsDigit(s[i + 1]) && s[i + 2] == ')'
  }

  /** The first tag at or after `i`, or -1. */
  function FirstVatTagFrom(s: string, i: nat): (r: int)
    requires i <= |s|
    ensures r == -1 || (i <= r && IsVatTagAt(s, r))
    ensures forall j :: i <= j && (r == -1 || j < r) ==> !IsVatTagAt(s, j)
    decreases |s| - i
  {
    if i + 3 > |s| then -1
    else if IsVatTagAt(s, i) then i
    else FirstVatTagFrom(s, i + 1)
  }

  /**
   * `getFullItemName`: nothing for an empty line. The first VAT tag `(x)` is
   * looked up, and the line is cut at the LAST occurrence of that same tag;
   * without a tag the final character is cut off. The rest is trimmed.
   */
  function FullItemName(line: string): (r: Option<string>)
    ensures r.None? <==> line == []
    ensures r.Some? ==> Contains(line, r.value)
    ensures line != [] && (forall j :: !IsVatTagAt(line, j)) ==> r == Some(Trim(line[..|line| - 1]))
  {
    if line == [] then None
    else
      var p := FirstVatTagFrom(line, 0);
      var end := if p == -1 then |line| - 1 else
        assert OccursAt(line, line[p..p + 3], p);
        LastIndexOf(line, line[p..p + 3]);
      TrimOfSliceOccurs(line, 0, end);
      Some(Trim(line[..end]))
  }

  /**
   * With a tag, the cut falls at the last occurrence `q` of the text of the
   * first tag `p`, even when other text lies between them.
   */
  lemma FullNameAtLastTag(line: string, p: nat, tag: string, q: nat)
    requires IsVatTagAt(line, p) && forall j :: 0 <= j < p ==> !IsVatTagAt(line, j)
    requires tag == line[p..p + 3]
    requires p <= q && OccursAt(line, tag, q) && forall j :: q < j ==> !OccursAt(line, tag, j)
    ensures FullItemName(line) == Some(Trim(line[..q]))
  {
    assert FirstVatTagFrom(line, 0) == p;
    assert LastIndexOf(line, tag) == q;
  }

  /**
   * The usual item line: the name, the VAT tag, then the numbers. The full
   * name is the trimmed text before the tag, "Hleb (Е) 59,99 1 59,99" giving
   * "Hleb".
   */
  lemma FullNameOfTaggedRow(name: string, x: char, rest: string)
    requires '(' !in name && '(' !in rest && !IsDigit(x) && x != '('
    ensures FullItemName(name + "(" + [x] + ")" + rest) == Some(Trim(name))
  {
    var line := name + "(" + [x] + ")" + rest;
    var p := |name|;
    assert IsVatTagAt(line, p);
    forall j | 0 <= j < p ensures !IsVatTagAt(line, j) {
      assert line[j] == name[j];
    }
    var tag := line[p..p + 3];
    forall j | p < j ensures !OccursAt(line, tag, j) {
      if j + 3 <= |line| {
        assert line[j..j + 3][0] == line[j];
        if j >= p + 3 {
          assert line[j] == rest[j - p - 3];
        }
      }
    }
    FullNameAtLastTag(line, p, tag, p);
    assert line[..p] == name;
  }

  // ---------------------------------------------------------------- the short name

  predicate IsNameSeparator(c: char) { c == '-' || c == '/' || c == ',' }

  /**
   * The pattern `^[ ]*[-,][ ]*` removed when it matches, then `trim`: a dash or comma
   * that followed a removed prefix id.
   */
  function DropSeparatorAfterSku(s: string): (r: string)
  {
    DropSeparatorAt(s, SpaceRun(s, 0))
  }

  /** The two cases of `DropSeparatorAt`, proved apart from the context that counted `k`. */
  lemma DropSeparatorAtCases(s: string, k: nat)
    requires k <= |s|
    ensures k < |s| && (s[k] == '-' || s[k] == ',') ==> DropSeparatorAt(s, k) == Trim(s[k + 1 + SpaceRun(s, k + 1)..])
    ensures !(k < |s| && (s[k] == '-' || s[k] == ',')) ==> DropSeparatorAt(s, k) == s
  {
    if k < |s| && (s[k] == '-' || s[k] == ',') {
      var r := Trim(s[k + 1 + SpaceRun(s, k + 1)..]);
      assert DropSeparatorAt(s, k) == r;
    }
  }

  /** The same, with the leading spaces `s[..k]` already counted. */
  function DropSeparatorAt(s: string, k: nat): (r: string)
    requires k <= |s|
  {
    if k < |s| && (s[k] == '-' || s[k] == ',') then Trim(s[k + 1 + SpaceRun(s, k + 1)..]) else s
  }

  /** `/[ ]*[-\/,]$/` removed when it matches, then `trim`: a separator that preceded a removed suffix id. */
  function DropSeparatorBeforeSku(s: string): (r: string)
  {
    if s != [] && IsNameSeparator(s[|s| - 1]) then Trim(s[..SpaceRunStart(s, |s| - 1)]) else s
  }

  /** The two cases of `DropSeparatorBeforeSku`, proved apart from the context that built `s`. */
  lemma DropSeparatorBeforeSkuCases(s: string)
    ensures s != [] && IsNameSeparator(s[|s| - 1]) ==> DropSeparatorBeforeSku(s) == Trim(s[..SpaceRunStart(s, |s| - 1)])
    ensures !(s != [] && IsNameSeparator(s[|s| - 1])) ==> DropSeparatorBeforeSku(s) == s
  {
  }

  /**
   * `dashAfterSku` matching: spaces, a `-` or `,`, spaces, then the rest; what
   * is left is the rest, trimmed. " - Hleb" gives "Hleb".
   */
  lemma SeparatorAfterSkuDropped(w1: string, c: char, w2: string, rest: string)
    requires AllSpaces(w1) && (c == '-' || c == ',') && AllSpaces(w2)
    requires rest == [] || rest[0] != ' '
    ensures DropSeparatorAfterSku(w1 + [c] + w2 + rest) == Trim(rest)
  {
    var s := w1 + [c] + w2 + rest;
    assert s[|w1|] == c;
    SpaceRunOver(s, 0, |w1|);
    assert |w1| + 1 + |w2| == |s| || s[|w1| + 1 + |w2|] == rest[0];
    SpaceRunOver(s, |w1| + 1, |w2|);
    assert s[|w1| + 1 + |w2|..] == rest;
    DropSeparatorAtCases(s, |w1|);
  }

  /** `dashAfterSku` not matching: spaces followed by anything but `-` or `,` stay as they are. */
  lemma NoSeparatorAfterSku(w: string, x: string)
    requires AllSpaces(w) && (x == [] || (x[0] != ' ' && x[0] != '-' && x[0] != ','))
    ensures DropSeparatorAfterSku(w + x) == w + x
  {
    var s := w + x;
    assert |w| == |s| || s[|w|] == x[0];
    SpaceRunOver(s, 0, |w|);
    DropSeparatorAtCases(s, |w|);
  }

  /**
   * `dashBeforeSku` matching: the text, spaces, then a final `-`, `/` or `,`;
   * what is left is the text, trimmed. "Mleko 1L /" gives "Mleko 1L".
   */
  lemma SeparatorBeforeSkuDropped(x: string, w: string, c: char)
    requires AllSpaces(w) && IsNameSeparator(c) && (x == [] || x[|x| - 1] != ' ')
    ensures DropSeparatorBeforeSku(x + w + [c]) == Trim(x)
  {
    var s := x + w + [c];
    assert s[|s| - 1] == c;
    assert x == [] || s[|x| - 1] == x[|x| - 1];
    SpaceRunStartOver(s, |x|, |s| - 1);
    assert s[..|x|] == x;
    DropSeparatorBeforeSkuCases(s);
  }

  /** `dashBeforeSku` not matching: text that does not end in a separator stays as it is. */
  lemma NoSeparatorBeforeSku(s: string)
    requires s == [] || !IsNameSeparator(s[|s| - 1])
    ensures DropSeparatorBeforeSku(s) == s
  {
    DropSeparatorBeforeSkuCases(s);
  }

  /** `/[ ]*[-\/,][ ]*$/` removed when it matches: a separator left over at the end. */
  function DropTrailingSeparator(s: string): (r: string)
    ensures |r| <= |s| && r == s[..|r|]
  {
    var t := DropTrailingSpaces(s);
    if t != [] && IsNameSeparator(t[|t| - 1]) then s[..SpaceRunStart(t, |t| - 1)] else s
  }

  /**
   * The last rewrite matching: the text, spaces, a `-`, `/` or `,`, then
   * spaces; only the text is left, untrimmed at its start. "Hleb - " gives "Hleb".
   */
  lemma TrailingSeparatorDropped(x: string, w1: string, c: char, w2: string)
    requires AllSpaces(w1) && IsNameSeparator(c) && AllSpaces(w2)
    requires x == [] || x[|x| - 1] != ' '
    ensures DropTrailingSeparator(x + w1 + [c] + w2) == x
  {
    var t := x + w1 + [c];
    var s := t + w2;
    DropSpacesAfter(t, w2);
    assert x == [] || t[|x| - 1] == x[|x| - 1];
    SpaceRunStartOver(t, |x|, |t| - 1);
    assert s[..|x|] == x;
  }

  /** The last rewrite not matching: text ending in neither a space nor a separator, then spaces, is kept whole. */
  lemma NoTrailingSeparator(x: string, w: string)
    requires AllSpaces(w) && (x == [] || (x[|x| - 1] != ' ' && !IsNameSeparator(x[|x| - 1])))
    ensures DropTrailingSeparator(x + w) == x + w
  {
    DropSpacesAfter(x, w);
  }

  /**
   * `getItemName`: nothing for a missing or empty line. A non-empty sku is
   * removed (its first occurrence only) together with the separators around
   * it; then the unit tag is stripped, a separator left at the end is dropped
   * when a sku was removed, and the result is trimmed.
   */
  function ItemNameOf(line: Option<string>, sku: Option<string>): (r: Option<string>)
    ensures r.None? <==> line.None? || line.value == []
    ensures r.Some? ==> r.value == Trim(r.value)
  {
    if line.None? || line.value == [] then None
    else
      var c := if sku.Some? && sku.value != [] then DropTrailingSeparator(StripMeasurementTag(RemoveSku(line.value, sku.value)))
               else StripMeasurementTag(line.value);
      TrimIdempotent(c);
      Some(Trim(c))
  }

  /** The sku (its first occurrence) removed together with the separators on either side of it. */
  function RemoveSku(s: string, sku: string): string
  {
    DropSeparatorBeforeSku(DropSeparatorAfterSku(ReplaceFirst(s, sku, [])))
  }

  /** `getItemName` as the source writes it: a sequence of conditional rewrites of one local string. */
  method ItemName(line: Option<string>, sku: Option<string>) returns (r: Option<string>)
    ensures r == ItemNameOf(line, sku)
  {
    if line.None? || line.value == [] {
      return None;
    }
    var result := line.value;
    var skuRemoved := false;
    if sku.Some? && sku.value != [] {
      result := ReplaceFirst(result, sku.value, []);
      result := RemoveSeparatorAfterSku(result);
      result := RemoveSeparatorBeforeSku(result);
      skuRemoved := true;
    }
    result := RemoveMeasurementType(result);
    if skuRemoved {
      result := RemoveTrailingSeparator(result);
    }
    r := Some(Trim(result));
  }

  /** The `dashAfterSku` step: a leading separator and the spaces around it removed, then `trim`. */
  method RemoveSeparatorAfterSku(s: string) returns (r: string)
    ensures r == DropSeparatorAfterSku(s)
  {
    r := s;
    var k := SpaceRun(s, 0);
    DropSeparatorAtCases(s, k);
    if k < |s| && (s[k] == '-' || s[k] == ',') {
      r := Trim(s[k + 1 + SpaceRun(s, k + 1)..]);
    }
  }

  /** The first `dashBeforeSku` step: a final separator and the spaces before it removed, then `trim`. */
  method RemoveSeparatorBeforeSku(s: string) returns (r: string)
    ensures r == DropSeparatorBeforeSku(s)
  {
    r := s;
    DropSeparatorBeforeSkuCases(s);
    if s != [] && IsNameSeparator(s[|s| - 1]) {
      r := Trim(s[..SpaceRunStart(s, |s| - 1)]);
    }
  }

  /** The second `dashBeforeSku` step: a separator left at the end removed, spaces on both sides. */
  method RemoveTrailingSeparator(s: string) returns (r: string)
    ensures r == DropTrailingSeparator(s)
  {
    r := s;
    var t := DropTrailingSpaces(s);
    if t != [] && IsNameSeparator(t[|t| - 1]) {
      r := s[..SpaceRunStart(t, |t| - 1)];
    }
  }

  /** Without a sku the name is the line without its unit tag, trimmed. */
  lemma NameWithoutSku(line: string, sku: Option<string>)
    requires line != [] && (sku.None? || sku.value == [])
    ensures ItemNameOf(Some(line), sku) == Some(Trim(StripMeasurementTag(line)))
  {
    assert !(sku.Some? && sku.value != []);
  }

  /**
   * A leading id and its separator are removed: "1234 - Hleb beli" with the
   * sku "1234" gives "Hleb beli".
   */
  lemma NameAfterLeadingSku(sku: string, sep: char, name: string)
    requires sku != [] && (sep == '-' || sep == ',')
    requires Trimmed(name) && Untagged(name) && !IsNameSeparator(name[|name| - 1])
    ensures ItemNameOf(Some(sku + " " + [sep] + " " + name), Some(sku)) == Some(name)
  {
    var line := sku + " " + [sep] + " " + name;
    LeadingSkuReplaced(sku, sep, name);
    SeparatorAfterLeadingSku(sep, name);
    DropSeparatorBeforeSkuCases(name);
    NameAfterRemovedSku(line, sku, name);
    NameKept(name);
  }

  /** Once the sku and its separators are removed, only the unit tag and a final separator are left to go. */
  lemma NameAfterRemovedSku(line: string, sku: string, rest: string)
    requires line != [] && sku != [] && RemoveSku(line, sku) == rest
    ensures ItemNameOf(Some(line), Some(sku)) == Some(Trim(DropTrailingSeparator(StripMeasurementTag(rest))))
  {
  }

  /** Removing the sku at the start of the line leaves the separator and the name. */
  lemma LeadingSkuReplaced(sku: string, sep: char, name: string)
    requires sku != []
    ensures ReplaceFirst(sku + " " + [sep] + " " + name, sku, []) == " " + [sep] + " " + name
  {
    var line := sku + " " + [sep] + " " + name;
    assert OccursAt(line, sku, 0);
    assert line[|sku|..] == " " + [sep] + " " + name;
  }

  /** The separator and the spaces around it go, leaving the trimmed name. */
  lemma SeparatorAfterLeadingSku(sep: char, name: string)
    requires (sep == '-' || sep == ',') && Trimmed(name)
    ensures DropSeparatorAfterSku(" " + [sep] + " " + name) == name
  {
    var x := " " + [sep] + " " + name;
    assert SpaceRun(x, 0) == 1;
    assert SpaceRun(x, 2) == 1 by {
      assert x[3] == name[0];
    }
    assert x[3..] == name;
    TrimOfTrimmed(name);
    DropSeparatorAtCases(x, 1);
  }

  /** A trimmed name without a unit tag or a final separator survives the last steps unchanged. */
  lemma NameKept(name: string)
    requires Trimmed(name) && Untagged(name) && !IsNameSeparator(name[|name| - 1])
    ensures DropTrailingSeparator(StripMeasurementTag(name)) == name && Trim(name) == name
  {
    TrimOfTrimmed(name);
    StripUntagged(name);
    assert DropTrailingSpaces(name) == name;
  }

  /**
   * A trailing id and the separator before it are removed: "Mleko 1L/123456"
   * with the sku "123456" gives "Mleko 1L". The sku must not occur earlier in
   * the line, so that its first occurrence is the trailing one.
   */
  lemma NameBeforeTrailingSku(name: string, sep: char, sku: string)
    requires sku != [] && IsNameSeparator(sep)
    requires forall j :: 0 <= j <= |name| ==> !OccursAt(name + [sep] + sku, sku, j)
    requires Trimmed(name) && Untagged(name)
    requires !IsNameSeparator(name[0]) && !IsNameSeparator(name[|name| - 1])
    ensures ItemNameOf(Some(name + [sep] + sku), Some(sku)) == Some(name)
  {
    var line := name + [sep] + sku;
    TrailingSkuReplaced(name, sep, sku);
    SeparatorBeforeTrailingSku(name, sep);
    NameAfterRemovedSku(line, sku, name);
    NameKept(name);
  }

  /** "Mleko 1L/123456" with the sku "123456" gives "Mleko 1L", though the sku's first digit occurs in the name. */
  lemma MilkWithTrailingSku(name: string, sku: string)
    requires name == "Mleko 1L" && sku == "123456"
    ensures ItemNameOf(Some(name + "/" + sku), Some(sku)) == Some(name)
  {
    var line := name + ['/'] + sku;
    forall j | 0 <= j <= |name| ensures !OccursAt(line, sku, j) {
      if j + |sku| <= |line| {
        assert line[j + 1] != sku[1] || line[j] != sku[0];
      }
    }
    assert Untagged(name);
    NameBeforeTrailingSku(name, '/', sku);
  }

  /** With the trailing sku gone, the separator it leaves at the end goes too. */
  lemma SeparatorBeforeTrailingSku(name: string, sep: char)
    requires IsNameSeparator(sep) && Trimmed(name) && !IsNameSeparator(name[0])
    ensures DropSeparatorBeforeSku(DropSeparatorAfterSku(name + [sep])) == name
  {
    var x := name + [sep];
    assert SpaceRun(x, 0) == 0;
    DropSeparatorAtCases(x, 0);
    assert SpaceRunStart(x, |x| - 1) == |name|;
    assert x[..|name|] == name;
    TrimOfTrimmed(name);
    DropSeparatorBeforeSkuCases(x);
  }

  /** The sku's first occurrence is the trailing one, and removing it leaves the separator last. */
  lemma TrailingSkuReplaced(name: string, sep: char, sku: string)
    requires sku != []
    requires forall j :: 0 <= j <= |name| ==> !OccursAt(name + [sep] + sku, sku, j)
    ensures ReplaceFirst(name + [sep] + sku, sku, []) == name + [sep]
  {
    var line := name + [sep] + sku;
    var n := |name| + 1;
    assert OccursAt(line, sku, n);
    assert line[..n] == name + [sep];
    assert line[n + |sku|..] == [];
  }
}
