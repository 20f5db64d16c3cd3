/**
 * The product id (SKU) of an item line (serbian-fiscal-bill-parser.ts,
 * lines 185-219): an id at the start of the line wins; otherwise, once a
 * trailing unit tag is stripped, an id of at least four digits at the end.
 */
module ItemSku {
  import opened Options
  import opened JsString
  import opened Measurement

  // ---------------------------------------------------------------- the prefix id

  /**
   * The group of the pattern `^([^0-9({\[]?\d+)[ ]*[-,]*`: one optional character that
   * is not a digit or an opening bracket, then the maximal digit run. The
   * optional character is tried first, so it is taken whenever a digit
   * follows it.
   */
  function PrefixId(line: string): (r: Option<string>)
    ensures r.Some? <==> || (line != [] && IsDigit(line[0]))
                         || (|line| > 1 && line[0] !in "({[" && IsDigit(line[1]))
    ensures r.Some? ==> && 0 < |r.value| <= |line| && r.value == line[..|r.value|]
                        && AllDigits(r.value[1..]) && IsDigit(r.value[|r.value| - 1])
                        && (IsDigit(r.value[0]) || r.value[0] !in "({[")
                        && (|r.value| < |line| ==> !IsDigit(line[|r.value|]))
  {
    if |line| > 1 && !IsDigit(line[0]) && line[0] !in "({[" && IsDigit(line[1]) then
      Some(line[..1 + DigitRun(line, 1)])
    else if line != [] && IsDigit(line[0]) then
      Some(line[..DigitRun(line, 0)])
    else
      None
  }

  // ---------------------------------------------------------------- the suffix id

  /** Where a match of the id group lies: `s[start..end]`. */
  datatype Span = Span(start: nat, end: nat)

  /**
   * `\D?\d{4,}` matching `s[g..e]` with nothing but spaces after it: one
   * optional non-digit, then at least four digits.
   */
  predicate IsIdGroup(s: string, g: nat, e: nat) {
    && g <= e <= |s| && AllSpaces(s[e..])
    && (|| (AllDigits(s[g..e]) && e - g >= 4)
        || (e - g >= 5 && !IsDigit(s[g]) && AllDigits(s[g + 1..e])))
  }

  /**
   * `\d{4,}[ ]*$` from `r`, the group starting at `g`. The greedy digit run
   * is the only one that can reach the trailing spaces.
   */
  function IdTail(s: string, g: nat, r: nat): (m: Option<Span>)
    requires g <= r <= |s| && (r == g || (r == g + 1 && !IsDigit(s[g])))
    ensures m.Some? ==> m.value.start == g && IsIdGroup(s, g, m.value.end)
    ensures m.Some? <==> DigitRun(s, r) >= 4 && AllSpaces(s[r + DigitRun(s, r)..])
  {
    var n := DigitRun(s, r);
    if n >= 4 && AllSpaces(s[r + n..]) then
      assert s[g..r + n][r - g..] == s[r..r + n];
      Some(Span(g, r + n))
    else
      None
  }

  /** `(\D?\d{4,})[ ]*$` at `q`: the optional non-digit is tried taken first. */
  function GroupAt(s: string, q: nat): (m: Option<Span>)
    requires q <= |s|
    ensures m.Some? ==> m.value.start == q && IsIdGroup(s, q, m.value.end)
  {
    var taken := if q < |s| && !IsDigit(s[q]) then IdTail(s, q, q + 1) else None;
    if taken.Some? then taken else IdTail(s, q, q)
  }

  /** What may stand between the start of a match and its id group: spaces and separators. */
  predicate IsGapChar(c: char) { c == ' ' || c == '-' || c == ',' || c == '/' }

  predicate GapBetween(s: string, a: nat, b: nat) { forall i :: a <= i < b && i < |s| ==> IsGapChar(s[i]) }

  /** The second `[ ]*`, trying `k` spaces after `a`, then fewer. */
  function AfterSeparator(s: string, a: nat, k: nat): (m: Option<Span>)
    requires a + k <= |s| && SpacesBetween(s, a, a + k)
    ensures m.Some? ==> a <= m.value.start && IsIdGroup(s, m.value.start, m.value.end)
    decreases k
  {
    var here := GroupAt(s, a + k);
    if here.Some? || k == 0 then here else AfterSeparator(s, a, k - 1)
  }

  /** `[-,/]?[ ]*` at `q`: the separator is tried taken first. */
  function SeparatorAt(s: string, q: nat): (m: Option<Span>)
    requires q <= |s|
    ensures m.Some? ==> q <= m.value.start && IsIdGroup(s, m.value.start, m.value.end)
  {
    var taken := if q < |s| && s[q] in "-,/" then AfterSeparator(s, q + 1, SpaceRun(s, q + 1)) else None;
    if taken.Some? then taken else AfterSeparator(s, q, SpaceRun(s, q))
  }

  /** The first `[ ]*` from `p`, trying `k` spaces, then fewer. */
  function LeadingSpaces(s: string, p: nat, k: nat): (m: Option<Span>)
    requires p + k <= |s|
    ensures m.Some? ==> p <= m.value.start && IsIdGroup(s, m.value.start, m.value.end)
    decreases k
  {
    var here := SeparatorAt(s, p + k);
    if here.Some? || k == 0 then here else LeadingSpaces(s, p, k - 1)
  }

  /** Only spaces and separators lie between where the second `[ ]*` starts and the group. */
  lemma {:induction false} AfterSeparatorGap(s: string, a: nat, k: nat)
    requires a + k <= |s| && SpacesBetween(s, a, a + k)
    ensures var m := AfterSeparator(s, a, k); m.Some? ==> GapBetween(s, a, m.value.start)
    decreases k
  {
    if GroupAt(s, a + k).None? && k > 0 {
      AfterSeparatorGap(s, a, k - 1);
    }
  }

  /** Only spaces and separators lie between where the separator may start and the group. */
  lemma SeparatorAtGap(s: string, q: nat)
    requires q <= |s|
    ensures var m := SeparatorAt(s, q); m.Some? ==> GapBetween(s, q, m.value.start)
  {
    if q < |s| && s[q] in "-,/" {
      AfterSeparatorGap(s, q + 1, SpaceRun(s, q + 1));
    }
    AfterSeparatorGap(s, q, SpaceRun(s, q));
  }

  /** Only spaces and separators lie between where a match starts and its group. */
  lemma {:induction false} LeadingSpacesGap(s: string, p: nat, k: nat)
    requires p + k <= |s| && SpacesBetween(s, p, p + k)
    ensures var m := LeadingSpaces(s, p, k); m.Some? ==> GapBetween(s, p, m.value.start)
    decreases k
  {
    var here := SeparatorAt(s, p + k);
    if here.Some? {
      SeparatorAtGap(s, p + k);
      GapAfterSpaces(s, p, p + k, here.value.start);
    } else if k > 0 {
      LeadingSpacesGap(s, p, k - 1);
    }
  }

  /** Spaces followed by spaces and separators are spaces and separators. */
  lemma GapAfterSpaces(s: string, a: nat, b: nat, c: nat)
    requires a <= b && SpacesBetween(s, a, b) && GapBetween(s, b, c)
    ensures GapBetween(s, a, c)
  {
  }

  /**
   * The match of `/[ ]*[-,/]?[ ]*(\D?\d{4,})[ ]*$/` at the leftmost position
   * from `p` on where one exists, the alternatives at that position tried in
   * the engine's backtracking order.
   */
  function SuffixMatchFrom(s: string, p: nat): (m: Option<Span>)
    requires p <= |s|
    decreases |s| - p
  {
    var here := LeadingSpaces(s, p, SpaceRun(s, p));
    if here.Some? || p == |s| then here else SuffixMatchFrom(s, p + 1)
  }

  /** Whatever the scan finds is an id group followed by nothing but spaces. */
  lemma {:induction false} SuffixMatchIsGroup(s: string, p: nat)
    requires p <= |s|
    ensures var m := SuffixMatchFrom(s, p);
            m.Some? ==> p <= m.value.start && IsIdGroup(s, m.value.start, m.value.end)
    decreases |s| - p
  {
    var here := LeadingSpaces(s, p, SpaceRun(s, p));
    if !(here.Some? || p == |s|) {
      SuffixMatchIsGroup(s, p + 1);
    }
  }

  /**
   * The trimmed id group of the suffix pattern, when it matches: one optional
   * non-digit and at least four digits, followed by nothing but spaces.
   */
  function SuffixSku(s: string): (r: Option<string>)
    ensures r.Some? ==> exists g: nat, e: nat :: IsIdGroup(s, g, e) && r.value == Trim(s[g..e])
    ensures r.Some? ==> r.value != [] && exists i :: 0 <= i < |r.value| && IsDigit(r.value[i])
    ensures r.Some? ==> Contains(s, r.value)
  {
    match SuffixMatchFrom(s, 0)
    case None => None
    case Some(sp) =>
      SuffixMatchIsGroup(s, 0);
      var g := s[sp.start..sp.end];
      TrimKeepsDigit(g, |g| - 1);
      TrimOfSliceOccurs(s, sp.start, sp.end);
      Some(Trim(g))
  }

  /** `t` ends in at least four digits. */
  predicate EndsInLongDigitRun(t: string) {
    |t| >= 4 && AllDigits(t[|t| - 4..])
  }

  /**
   * A trailing id is found exactly when the text, trailing spaces aside,
   * ends in at least four digits.
   */
  lemma SuffixFoundIff(s: string)
    ensures SuffixMatchFrom(s, 0).Some? <==> EndsInLongDigitRun(DropTrailingSpaces(s))
  {
    var m := SuffixMatchFrom(s, 0);
    if m.Some? {
      SuffixMatchIsGroup(s, 0);
      GroupEndsText(s, m.value.start, m.value.end);
    }
    if EndsInLongDigitRun(DropTrailingSpaces(s)) {
      MatchAtLastFourDigits(s);
    }
  }

  /** An id group reaches the last character that is not a space. */
  lemma GroupEndsText(s: string, g: nat, e: nat)
    requires IsIdGroup(s, g, e)
    ensures EndsInLongDigitRun(DropTrailingSpaces(s))
  {
    var t := DropTrailingSpaces(s);
    IdGroupDigits(s, g, e);
    assert s[e - 4..e][3] == s[e - 1];
    assert forall i :: e <= i < |s| ==> s[i] == ' ' by {
      forall i | e <= i < |s| ensures s[i] == ' ' {
        assert s[e..][i - e] == s[i];
      }
    }
    assert |t| == e;
    assert t[|t| - 4..] == s[e - 4..e];
  }

  /** The pattern matches where the last four digits begin. */
  lemma MatchAtLastFourDigits(s: string)
    requires EndsInLongDigitRun(DropTrailingSpaces(s))
    ensures SuffixMatchFrom(s, 0).Some?
  {
    var t := DropTrailingSpaces(s);
    var q := |t| - 4;
    assert s[q..q + 4] == t[|t| - 4..];
    assert IsDigit(s[q]) by { assert s[q..q + 4][0] == s[q]; }
    assert SpaceRun(s, q) == 0;
    DigitRunOfDigits(s, q, q + 4);
    assert AllSpaces(s[q + 4..]);
    assert IdTail(s, q, q).Some?;
    assert LeadingSpaces(s, q, SpaceRun(s, q)).Some?;
    assert SuffixMatchFrom(s, q).Some?;
    SuffixMatchReaches(s, 0, q);
  }

  /** An id group ends in four digits. */
  lemma IdGroupDigits(s: string, g: nat, e: nat)
    requires IsIdGroup(s, g, e)
    ensures g + 4 <= e && AllDigits(s[e - 4..e])
  {
    if AllDigits(s[g..e]) && e - g >= 4 {
      assert s[e - 4..e] == s[g..e][e - 4 - g..];
    } else {
      assert s[e - 4..e] == s[g + 1..e][e - 4 - (g + 1)..];
    }
  }

  /** The leftmost search finds a match when there is one further right. */
  lemma SuffixMatchReaches(s: string, p: nat, q: nat)
    requires p <= q <= |s|
    requires SuffixMatchFrom(s, q).Some?
    ensures SuffixMatchFrom(s, p).Some?
  {
    var i := q;
    while i != p
      invariant p <= i <= |s| && SuffixMatchFrom(s, i).Some?
      decreases i
    {
      SuffixMatchStep(s, i);
      i := i - 1;
    }
  }

  /** A match from `p` is a match from the position before, if none is found there. */
  lemma SuffixMatchStep(s: string, p: nat)
    requires 0 < p <= |s| && SuffixMatchFrom(s, p).Some?
    ensures SuffixMatchFrom(s, p - 1).Some?
  {
  }

  // ---------------------------------------------------------------- the suffix id's value

  /** When the line ends in digits after a non-digit at `k`, every id group lies after `k - 1` and reaches the end. */
  lemma GroupsAfter(s: string, k: nat)
    requires k + 1 < |s| && !IsDigit(s[k]) && AllDigits(s[k + 1..])
    ensures forall g: nat, e: nat :: IsIdGroup(s, g, e) ==> k <= g && e == |s|
  {
    forall i | k < i < |s|
      ensures IsDigit(s[i])
    {
      assert s[k + 1..][i - k - 1] == s[i];
    }
    forall g: nat, e: nat | IsIdGroup(s, g, e)
      ensures k <= g && e == |s|
    {
      assert IsDigit(s[|s| - 1]);
    }
  }

  /**
   * No id group lies across spaces and separators from `p` when every group
   * starts at or after `k` and `s[q - 1]`, between the two, is neither a space
   * nor a separator.
   */
  lemma NoGroupAcross(s: string, p: nat, q: nat, k: nat, g: nat, e: nat)
    requires p < q <= k && k + 1 < |s| && !IsDigit(s[k]) && DigitsFrom(s, k + 1)
    requires !IsGapChar(s[q - 1])
    ensures !(IsIdGroup(s, g, e) && GapBetween(s, p, g))
  {
    DigitsFromAll(s, k + 1);
    GroupsAfter(s, k);
  }

  /** `s[i..]` holds only digits, stated one position at a time. */
  predicate DigitsFrom(s: string, i: nat)
    decreases |s| - i
  {
    i >= |s| || (IsDigit(s[i]) && DigitsFrom(s, i + 1))
  }

  lemma {:induction false} DigitsFromAll(s: string, i: nat)
    requires i <= |s|
    ensures DigitsFrom(s, i) <==> AllDigits(s[i..])
    decreases |s| - i
  {
    if i < |s| {
      DigitsFromAll(s, i + 1);
      assert s[i..] == [s[i]] + s[i + 1..];
    }
  }

  /** The only id group reachable across spaces and separators from before a letter-led group is that group. */
  lemma LetterGroupOnly(s: string, p: nat, q: nat, g: nat, e: nat)
    requires p < q && q + 1 < |s| && !IsDigit(s[q]) && !IsGapChar(s[q]) && AllDigits(s[q + 1..])
    ensures IsIdGroup(s, g, e) && GapBetween(s, p, g) ==> g == q && e == |s|
  {
    GroupsAfter(s, q);
  }

  /** No match of the scan starts anywhere in `[p, q)`. */
  predicate NoMatchStartsIn(s: string, p: nat, q: nat)
    requires q <= |s|
    decreases q - p
  {
    p >= q || (LeadingSpaces(s, p, SpaceRun(s, p)).None? && NoMatchStartsIn(s, p + 1, q))
  }

  /** A scan from `p` passes over positions where no match starts and finds what a scan from `q` finds. */
  lemma {:induction false} ScanSkips(s: string, p: nat, q: nat)
    requires p <= q <= |s| && NoMatchStartsIn(s, p, q)
    ensures SuffixMatchFrom(s, p) == SuffixMatchFrom(s, q)
    decreases q - p
  {
    var here := LeadingSpaces(s, p, SpaceRun(s, p));
    if p < q {
      ScanSkips(s, p + 1, q);
    }
  }

  /**
   * No match starts before `q` when every id group lies at or after `k >= q`
   * and `s[q - 1]` is neither a space nor a separator.
   */
  lemma {:induction false} NoMatchBefore(s: string, p: nat, q: nat, k: nat)
    requires p <= q && 0 < q <= k && k + 1 < |s| && !IsDigit(s[k]) && DigitsFrom(s, k + 1)
    requires !IsGapChar(s[q - 1])
    ensures NoMatchStartsIn(s, p, q)
    decreases q - p
  {
    if p < q {
      NoMatchBefore(s, p + 1, q, k);
      NoMatchAt(s, p, q, k);
    }
  }

  /** One step of `NoMatchBefore`. */
  lemma NoMatchAt(s: string, p: nat, q: nat, k: nat)
    requires p < q <= k && k + 1 < |s| && !IsDigit(s[k]) && DigitsFrom(s, k + 1)
    requires !IsGapChar(s[q - 1])
    ensures LeadingSpaces(s, p, SpaceRun(s, p)).None?
  {
    var here := LeadingSpaces(s, p, SpaceRun(s, p));
    LeadingSpacesGap(s, p, SpaceRun(s, p));
    if here.Some? {
      NoGroupAcross(s, p, q, k, here.value.start, here.value.end);
    }
  }

  /**
   * A letter-led id group at `q` is the match of every scan that starts at or
   * before `q`: any group reachable across spaces and separators is that one.
   */
  lemma {:induction false} OnlyLetterMatch(s: string, p: nat, q: nat)
    requires p <= q && q + 1 < |s| && !IsDigit(s[q]) && !IsGapChar(s[q]) && DigitsFrom(s, q + 1)
    requires SuffixMatchFrom(s, q) == Some(Span(q, |s|))
    ensures SuffixMatchFrom(s, p) == Some(Span(q, |s|))
    decreases q - p
  {
    if p < q {
      OnlyLetterMatch(s, p + 1, q);
      LetterMatchAt(s, p, q);
    }
  }

  /** One step of `OnlyLetterMatch`. */
  lemma LetterMatchAt(s: string, p: nat, q: nat)
    requires p < q && q + 1 < |s| && !IsDigit(s[q]) && !IsGapChar(s[q]) && DigitsFrom(s, q + 1)
    requires SuffixMatchFrom(s, p + 1) == Some(Span(q, |s|))
    ensures SuffixMatchFrom(s, p) == Some(Span(q, |s|))
  {
    var here := LeadingSpaces(s, p, SpaceRun(s, p));
    DigitsFromAll(s, q + 1);
    LeadingSpacesGap(s, p, SpaceRun(s, p));
    if here.Some? {
      LetterGroupOnly(s, p, q, here.value.start, here.value.end);
    }
  }

  /** Four or more digits up to the end of the line are the id group found at their start. */
  lemma DigitsGroupAt(s: string, t: nat)
    requires t + 4 <= |s| && AllDigits(s[t..])
    ensures GroupAt(s, t) == Some(Span(t, |s|))
  {
    assert IsDigit(s[t]) by { assert s[t..][0] == s[t]; }
    DigitRunOfDigits(s, t, |s|);
  }

  /** Spaces from `q`, a separator at `a`, spaces, then digits to the end: the match from `q` is the digits. */
  lemma SeparatedMatch(s: string, q: nat, a: nat, t: nat)
    requires q <= a < t && t + 4 <= |s| && AllDigits(s[t..])
    requires SpacesBetween(s, q, a) && s[a] in "-,/" && SpacesBetween(s, a + 1, t)
    ensures SuffixMatchFrom(s, q) == Some(Span(t, |s|))
  {
    assert IsDigit(s[t]) by { assert s[t..][0] == s[t]; }
    SpaceRunOver(s, q, a - q);
    SpaceRunOver(s, a + 1, t - a - 1);
    DigitsGroupAt(s, t);
    assert AfterSeparator(s, a + 1, t - a - 1) == Some(Span(t, |s|));
    assert SeparatorAt(s, a) == Some(Span(t, |s|));
  }

  /** At least one space from `q`, then digits to the end: the match from `q` is the digits. */
  lemma SpacedMatch(s: string, q: nat, t: nat)
    requires q < t && t + 4 <= |s| && AllDigits(s[t..]) && SpacesBetween(s, q, t)
    ensures SuffixMatchFrom(s, q) == Some(Span(t, |s|))
  {
    assert IsDigit(s[t]) by { assert s[t..][0] == s[t]; }
    SpaceRunOver(s, q, t - q);
    SpaceRunOver(s, t, 0);
    DigitsGroupAt(s, t);
    assert AfterSeparator(s, t, 0) == Some(Span(t, |s|));
    assert SeparatorAt(s, t) == Some(Span(t, |s|));
    assert LeadingSpaces(s, q, t - q) == Some(Span(t, |s|));
  }

  /** A letter at `q` that is neither a space nor a separator, then digits to the end: the match from `q` holds both. */
  lemma LetterMatch(s: string, q: nat)
    requires q + 5 <= |s| && !IsDigit(s[q]) && !IsGapChar(s[q]) && AllDigits(s[q + 1..])
    ensures SuffixMatchFrom(s, q) == Some(Span(q, |s|))
  {
    assert IsDigit(s[q + 1]) by { assert s[q + 1..][0] == s[q + 1]; }
    SpaceRunOver(s, q, 0);
    DigitRunOfDigits(s, q + 1, |s|);
    assert IdTail(s, q, q + 1) == Some(Span(q, |s|));
    assert GroupAt(s, q) == Some(Span(q, |s|));
    assert AfterSeparator(s, q, 0) == Some(Span(q, |s|));
    assert SeparatorAt(s, q) == Some(Span(q, |s|));
    assert LeadingSpaces(s, q, 0) == Some(Span(q, |s|));
  }

  /** The id found by a match from the start is the trimmed group of that match. */
  lemma SkuOfMatch(s: string, t: nat)
    requires t + 4 <= |s| && AllDigits(s[t..]) && SuffixMatchFrom(s, 0) == Some(Span(t, |s|))
    ensures SuffixSku(s) == Some(s[t..])
  {
    assert s[t..|s|] == s[t..];
    assert IsDigit(s[t..][0]) && IsDigit(s[t..][|s| - t - 1]);
    TrimOfTrimmed(s[t..]);
  }

  /** A scan from the start of the line finds what a scan from `q` finds when no id group starts before the digits at `t`. */
  lemma ScanFromStart(s: string, q: nat, t: nat)
    requires 0 < q < t < |s| && !IsDigit(s[t - 1]) && AllDigits(s[t..]) && !IsGapChar(s[q - 1])
    ensures SuffixMatchFrom(s, 0) == SuffixMatchFrom(s, q)
  {
    DigitsFromAll(s, t);
    NoMatchBefore(s, 0, q, t - 1);
    ScanSkips(s, 0, q);
  }

  /** `SeparatedSuffixSku` stated on positions. */
  lemma SeparatedSkuAt(s: string, q: nat, a: nat, t: nat)
    requires q <= a < t && t + 4 <= |s| && AllDigits(s[t..])
    requires SpacesBetween(s, q, a) && s[a] in "-,/" && SpacesBetween(s, a + 1, t)
    requires q == 0 || !IsGapChar(s[q - 1])
    ensures SuffixSku(s) == Some(s[t..])
  {
    SeparatedMatch(s, q, a, t);
    if q > 0 {
      ScanFromStart(s, q, t);
    }
    SkuOfMatch(s, t);
  }

  /** `SpacedSuffixSku` stated on positions. */
  lemma SpacedSkuAt(s: string, q: nat, t: nat)
    requires q < t && t + 4 <= |s| && AllDigits(s[t..]) && SpacesBetween(s, q, t)
    requires q == 0 || !IsGapChar(s[q - 1])
    ensures SuffixSku(s) == Some(s[t..])
  {
    SpacedMatch(s, q, t);
    if q > 0 {
      ScanFromStart(s, q, t);
    }
    SkuOfMatch(s, t);
  }

  /** `LetterSuffixSku` stated on positions. */
  lemma LetterSkuAt(s: string, q: nat)
    requires q + 5 <= |s| && !IsDigit(s[q]) && !IsGapChar(s[q]) && !IsWhitespace(s[q]) && AllDigits(s[q + 1..])
    ensures SuffixSku(s) == Some(s[q..])
  {
    LetterMatch(s, q);
    DigitsFromAll(s, q + 1);
    OnlyLetterMatch(s, 0, q);
    assert s[q..|s|] == s[q..];
    assert s[q..][|s| - q - 1] == s[q + 1..][|s| - q - 2];
    TrimOfTrimmed(s[q..]);
  }

  /**
   * `name` + spaces + `-`, `,` or `/` + spaces + digits: the id is the digits,
   * without the separator, when the name ends in neither a space nor a
   * separator. "Mleko 1L/123456" gives "123456".
   */
  lemma SeparatedSuffixSku(x: string, w1: string, c: char, w2: string, d: string)
    requires x == [] || !IsGapChar(x[|x| - 1])
    requires AllSpaces(w1) && c in "-,/" && AllSpaces(w2)
    requires |d| >= 4 && AllDigits(d)
    ensures SuffixSku(x + w1 + [c] + w2 + d) == Some(d)
  {
    var s := x + w1 + [c] + w2 + d;
    var a, t := |x| + |w1|, |x| + |w1| + 1 + |w2|;
    assert s[|x|..a] == w1 && s[a] == c && s[a + 1..t] == w2 && s[t..] == d;
    assert |x| > 0 ==> s[|x| - 1] == x[|x| - 1];
    assert SpacesBetween(s, |x|, a) by {
      forall i | |x| <= i < a ensures s[i] == ' ' { assert s[i] == w1[i - |x|]; }
    }
    assert SpacesBetween(s, a + 1, t) by {
      forall i | a + 1 <= i < t ensures s[i] == ' ' { assert s[i] == w2[i - a - 1]; }
    }
    SeparatedSkuAt(s, |x|, a, t);
  }

  /**
   * `name` + spaces + digits: the id is the digits when the name ends in
   * neither a space nor a separator. "Hleb 12345" gives "12345".
   */
  lemma SpacedSuffixSku(x: string, w: string, d: string)
    requires x == [] || !IsGapChar(x[|x| - 1])
    requires w != [] && AllSpaces(w)
    requires |d| >= 4 && AllDigits(d)
    ensures SuffixSku(x + w + d) == Some(d)
  {
    var s := x + w + d;
    var t := |x| + |w|;
    assert s[t..] == d;
    assert |x| > 0 ==> s[|x| - 1] == x[|x| - 1];
    assert SpacesBetween(s, |x|, t) by {
      forall i | |x| <= i < t ensures s[i] == ' ' { assert s[i] == w[i - |x|]; }
    }
    SpacedSkuAt(s, |x|, t);
  }

  /**
   * Any text, then a letter that is neither white space nor a separator,
   * then digits: the id is the letter and the digits. "Hleb A12345" gives
   * "A12345".
   */
  lemma LetterSuffixSku(x: string, l: char, d: string)
    requires !IsDigit(l) && !IsGapChar(l) && !IsWhitespace(l)
    requires |d| >= 4 && AllDigits(d)
    ensures SuffixSku(x + [l] + d) == Some([l] + d)
  {
    var s := x + [l] + d;
    assert s[|x|] == l && s[|x| + 1..] == d && s[|x|..] == [l] + d;
    LetterSkuAt(s, |x|);
  }

  /** The sku of the milk line of the source's tests. */
  lemma MilkSuffixSku()
    ensures SuffixSku("Mleko 1L/123456") == Some("123456")
  {
    assert "Mleko 1L/123456" == "Mleko 1L" + [] + ['/'] + [] + "123456";
    SeparatedSuffixSku("Mleko 1L", [], '/', [], "123456");
  }

  // ---------------------------------------------------------------- the sku

  /**
   * `getItemSku`: nothing for a missing or empty line; the trimmed prefix id
   * when there is one; else the trimmed suffix id of the line without its
   * unit tag; else nothing. A sku is never empty, always holds a digit, and
   * is a piece of the line.
   */
  function ItemSku(line: Option<string>): (r: Option<string>)
    ensures (line.None? || line.value == []) ==> r.None?
    ensures r.Some? ==> r.value != [] && exists i :: 0 <= i < |r.value| && IsDigit(r.value[i])
    ensures r.Some? ==> Contains(line.value, r.value)
  {
    if line.None? || line.value == [] then None
    else
      match PrefixId(line.value)
      case Some(g) =>
        TrimKeepsDigit(g, |g| - 1);
        TrimOfSliceOccurs(line.value, 0, |g|);
        Some(Trim(g))
      case None =>
        var rest := StripMeasurementTag(line.value);
        var r := SuffixSku(rest);
        if r.Some? then
          ContainedInPrefix(line.value, |rest|, r.value);
          r
        else r
  }

  /** Trimming keeps every digit: white space is never a digit. */
  lemma TrimKeepsDigit(s: string, i: nat)
    requires i < |s| && IsDigit(s[i])
    ensures Trim(s) != [] && exists j :: 0 <= j < |Trim(s)| && IsDigit(Trim(s)[j])
  {
    var a := TrimIsSlice(s);
    TrimKeepsNonWhitespace(s, i);
    assert Trim(s)[i - a] == s[i];
  }

  /**
   * When a sku is found: either the line opens with an id (a digit, or a
   * character other than an opening bracket followed by a digit), or the
   * line without its unit tag ends, trailing spaces aside, in four digits.
   */
  lemma ItemSkuFoundIff(line: string)
    requires line != []
    ensures ItemSku(Some(line)).Some? <==>
              || IsDigit(line[0])
              || (|line| > 1 && line[0] !in "({[" && IsDigit(line[1]))
              || EndsInLongDigitRun(DropTrailingSpaces(StripMeasurementTag(line)))
  {
    SuffixFoundIff(StripMeasurementTag(line));
  }

  /**
   * A line opening with a bracket never yields a prefix id: for
   * "(30 min) Massage" only a trailing id can be found.
   */
  lemma BracketOpeningHasNoPrefixId(line: string)
    requires line != [] && line[0] in "({["
    ensures PrefixId(line).None?
    ensures ItemSku(Some(line)) == SuffixSku(StripMeasurementTag(line))
  {
    assert line[0] == '(' || line[0] == '{' || line[0] == '[';
    assert !IsDigit(line[0]);
    SuffixIdOtherwise(line);
  }

  /** A prefix id wins: when the line opens with one, it is the sku, trimmed, whatever the line ends with. */
  lemma PrefixIdWins(line: string)
    requires line != [] && PrefixId(line).Some?
    ensures ItemSku(Some(line)) == Some(Trim(PrefixId(line).value))
  {
  }

  /** Only without a prefix id is the sku the suffix id of the line stripped of its unit tag. */
  lemma SuffixIdOtherwise(line: string)
    requires line != [] && PrefixId(line).None?
    ensures ItemSku(Some(line)) == SuffixSku(StripMeasurementTag(line))
  {
  }

  /**
   * A line opening with digits has those digits as its sku, even when it
   * also ends in an id: "1234 - Hleb 5678" gives "1234".
   */
  lemma LeadingDigitsSku(d: string, rest: string)
    requires d != [] && AllDigits(d) && (rest == [] || !IsDigit(rest[0]))
    ensures ItemSku(Some(d + rest)) == Some(d)
  {
    var line := d + rest;
    assert line[0] == d[0] && IsDigit(line[0]);
    assert line[..|d|] == d;
    DigitRunOfDigits(line, 0, |d|);
    assert PrefixId(line) == Some(d);
    assert Trimmed(d) by { assert IsDigit(d[0]) && IsDigit(d[|d| - 1]); }
    TrimOfTrimmed(d);
  }

  /**
   * A letter before the digits belongs to the id: "A1234 Hleb" gives
   * "A1234". Any character other than a digit or an opening bracket counts.
   */
  lemma LetterLedSku(c: char, d: string, rest: string)
    requires !IsDigit(c) && !IsWhitespace(c) && c !in "({["
    requires d != [] && AllDigits(d) && (rest == [] || !IsDigit(rest[0]))
    ensures ItemSku(Some([c] + d + rest)) == Some([c] + d)
  {
    var line := [c] + d + rest;
    assert line[0] == c && line[1] == d[0];
    assert line[1..1 + |d|] == d;
    DigitRunOfDigits(line, 1, 1 + |d|);
    assert line[..1 + |d|] == [c] + d;
    assert PrefixId(line) == Some([c] + d);
    assert Trimmed([c] + d) by { assert ([c] + d)[|d|] == d[|d| - 1]; }
    TrimOfTrimmed([c] + d);
  }
}
