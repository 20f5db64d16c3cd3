/**
 * Measurement units of an item line: how the parser recognises the unit
 * (serbian-fiscal-bill-parser.ts, lines 146-178) and how it strips a unit tag
 * from the end of an item's name (lines 489-513).
 */
module Measurement {
  import opened Options
  import opened JsString
  import opened BillModel

  // ---------------------------------------------------------------- recognising the unit

  /** The units in the order they are tried, which is the insertion order of the alias table. */
  const UnitOrder: seq<Unit> := [Kom, Kg, L, Kut, Pce, M, M2]

  /** The spellings of each unit, Latin first, in the order they are tried. */
  function Aliases(u: Unit): seq<string> {
    match u
    case Kom => ["kom", "\U{043A}\U{043E}\U{043C}", "komad"]
    case Kg => ["kg", "\U{043A}\U{0433}"]
    case L => ["l", "\U{043B}"]
    case Kut => ["kut", "\U{043A}\U{0443}\U{0442}"]
    case Pce => ["pce", "\U{043F}\U{0446}\U{0435}"]
    case M => ["m", "\U{043C}"]
    case M2 => ["m2", "\U{043C}2"]
  }

  /** The texts `(a)`, `( a)`, `(a )` and `( a )` for one pair of brackets. */
  function Bracketed(open: char, close: char, a: string): seq<string> {
    [[open] + a + [close], [open, ' '] + a + [close], [open] + a + [' ', close], [open, ' '] + a + [' ', close]]
  }

  /** Some text of `forms` occurs in `s`. */
  function AnyOccurs(s: string, forms: seq<string>): (b: bool)
    ensures b <==> exists f :: f in forms && Contains(s, f)
  {
    if forms == [] then false
    else
      assert forall f :: f in forms <==> f == forms[0] || f in forms[1..];
      IndexOf(s, forms[0]) != -1 || AnyOccurs(s, forms[1..])
  }

  /**
   * One of the four patterns built from the spelling `a` matches the
   * lower-cased line: `/a`, or `a` in round, square or curly brackets with at
   * most one space inside each bracket.
   */
  predicate AliasFound(lower: string, a: string) {
    || IndexOf(lower, "/" + a) != -1
    || AnyOccurs(lower, Bracketed('(', ')', a))
    || AnyOccurs(lower, Bracketed('[', ']', a))
    || AnyOccurs(lower, Bracketed('{', '}', a))
  }

  predicate UnitFound(lower: string, u: Unit) {
    exists a :: a in Aliases(u) && AliasFound(lower, a)
  }

  /**
   * `u` is what the search yields on the lower-cased line: the first unit in
   * order one of whose spellings is found, or `kom` when none is.
   */
  ghost predicate IsFirstFound(lower: string, u: Unit) {
    || (exists k :: 0 <= k < |UnitOrder| && UnitOrder[k] == u && UnitFound(lower, u)
                      && forall j :: 0 <= j < k ==> !UnitFound(lower, UnitOrder[j]))
    || (u == Kom && forall j :: 0 <= j < |UnitOrder| ==> !UnitFound(lower, UnitOrder[j]))
  }

  /** The first unit of `UnitOrder[i..]` found in `lower`, or `kom`. */
  function FirstUnitFrom(lower: string, i: nat): (u: Unit)
    requires i <= |UnitOrder|
    ensures || (exists k :: i <= k < |UnitOrder| && UnitOrder[k] == u && UnitFound(lower, u)
                             && forall j :: i <= j < k ==> !UnitFound(lower, UnitOrder[j]))
            || (u == Kom && forall j :: i <= j < |UnitOrder| ==> !UnitFound(lower, UnitOrder[j]))
    decreases |UnitOrder| - i
  {
    if i == |UnitOrder| then Kom
    else if UnitFound(lower, UnitOrder[i]) then UnitOrder[i]
    else FirstUnitFrom(lower, i + 1)
  }

  /** The unit of an item line; an empty line is counted in pieces. */
  function UnitOf(line: string): (u: Unit)
    ensures line == [] ==> u == Kom
    ensures line != [] ==> IsFirstFound(ToLower(line), u)
  {
    if line == [] then Kom else FirstUnitFrom(ToLower(line), 0)
  }

  /** The search has one outcome: the characterisation pins the unit down. */
  lemma FirstFoundUnique(lower: string, u: Unit, v: Unit)
    requires IsFirstFound(lower, u) && IsFirstFound(lower, v)
    ensures u == v
  {
    if exists k :: 0 <= k < |UnitOrder| && UnitOrder[k] == u && UnitFound(lower, u)
                   && forall j :: 0 <= j < k ==> !UnitFound(lower, UnitOrder[j]) {
      var k :| 0 <= k < |UnitOrder| && UnitOrder[k] == u && UnitFound(lower, u)
               && forall j :: 0 <= j < k ==> !UnitFound(lower, UnitOrder[j]);
      if exists m :: 0 <= m < |UnitOrder| && UnitOrder[m] == v && UnitFound(lower, v)
                     && forall j :: 0 <= j < m ==> !UnitFound(lower, UnitOrder[j]) {
        var m :| 0 <= m < |UnitOrder| && UnitOrder[m] == v && UnitFound(lower, v)
                 && forall j :: 0 <= j < m ==> !UnitFound(lower, UnitOrder[j]);
        assert !(k < m) && !(m < k);
      }
    }
  }

  /**
   * Square metres written `/m2` read as metres: `/m` is tried first and
   * occurs inside `/m2`, so the unit `m2` is only reached through brackets.
   */
  lemma SlashSquareMetreReadsAsMetre(line: string)
    requires Contains(ToLower(line), "/m2")
    ensures UnitOf(line) != M2
  {
    var lower := ToLower(line);
    var i :| OccursAt(lower, "/m2", i);
    assert lower[i..i + 2] == lower[i..i + 3][..2];
    assert OccursAt(lower, "/m", i);
    assert Contains(lower, "/m");
    assert "/" + "m" == "/m";
    assert IndexOf(lower, "/" + "m") != -1;
    assert AliasFound(lower, "m");
    assert UnitFound(lower, UnitOrder[5]);
  }

  /** The unit of an item line, trying each unit's spellings in turn. */
  method MeasurementType(line: string) returns (u: Unit)
    ensures u == UnitOf(line)
  {
    if line == [] {
      return Kom;
    }
    var lower := ToLower(line);
    var i := 0;
    while i < |UnitOrder|
      invariant 0 <= i <= |UnitOrder|
      invariant FirstUnitFrom(lower, i) == UnitOf(line)
    {
      var key := UnitOrder[i];
      var found := AliasSearch(lower, Aliases(key));
      if found {
        return key;
      }
      i := i + 1;
    }
    return Kom;
  }

  /** The inner loop: whether one of the spellings `measures` is found in `lower`. */
  method AliasSearch(lower: string, measures: seq<string>) returns (found: bool)
    ensures found <==> exists a :: a in measures && AliasFound(lower, a)
  {
    var k := 0;
    while k < |measures|
      invariant 0 <= k <= |measures|
      invariant forall m :: 0 <= m < k ==> !AliasFound(lower, measures[m])
    {
      var a := measures[k];
      if || IndexOf(lower, "/" + a) != -1
         || AnyOccurs(lower, Bracketed('(', ')', a))
         || AnyOccurs(lower, Bracketed('[', ']', a))
         || AnyOccurs(lower, Bracketed('{', '}', a))
      {
        assert AliasFound(lower, measures[k]);
        return true;
      }
      k := k + 1;
    }
    return false;
  }

  // ---------------------------------------------------------------- stripping a trailing unit tag

  predicate NoDigits(s: string) { forall i :: 0 <= i < |s| ==> !IsDigit(s[i]) }

  /** `\D{1,3}\d?` matching the whole of `t`. */
  predicate IsUnitBody(t: string) {
    if t != [] && IsDigit(t[|t| - 1]) then 2 <= |t| <= 4 && NoDigits(t[..|t| - 1])
    else 1 <= |t| <= 3 && NoDigits(t)
  }

  /** `[ ]?\D{1,3}\d?[ ]?` matching the whole of `t`. */
  predicate IsBracketBody(t: string) {
    || IsUnitBody(t)
    || (t != [] && t[0] == ' ' && IsUnitBody(t[1..]))
    || (t != [] && t[|t| - 1] == ' ' && IsUnitBody(t[..|t| - 1]))
    || (|t| >= 2 && t[0] == ' ' && t[|t| - 1] == ' ' && IsUnitBody(t[1..|t| - 1]))
  }

  /** `\/\D{1,3}\d?` matching the whole of `t`. */
  predicate IsSlashTag(t: string) {
    t != [] && t[0] == '/' && IsUnitBody(t[1..])
  }

  /** `\([ ]?\D{1,3}\d?[ ]?\)` (or its square or curly twin) matching the whole of `t`. */
  predicate IsBracketTag(open: char, close: char, t: string) {
    |t| >= 2 && t[0] == open && t[|t| - 1] == close && IsBracketBody(t[1..|t| - 1])
  }

  predicate IsParenTag(t: string) { IsBracketTag('(', ')', t) }

  predicate IsSquareTag(t: string) { IsBracketTag('[', ']', t) }

  predicate IsCurlyTag(t: string) { IsBracketTag('{', '}', t) }

  /** `s` without its trailing spaces (only U+0020). */
  function DropTrailingSpaces(s: string): (r: string)
    ensures |r| <= |s| && r == s[..|r|]
    ensures forall i :: |r| <= i < |s| ==> s[i] == ' '
    ensures r != [] ==> r[|r| - 1] != ' '
  {
    if s != [] && s[|s| - 1] == ' ' then DropTrailingSpaces(s[..|s| - 1]) else s
  }

  /** Trailing spaces after text that does not end in a space are exactly what is dropped. */
  lemma {:induction false} DropSpacesAfter(x: string, w: string)
    requires AllSpaces(w) && (x == [] || x[|x| - 1] != ' ')
    ensures DropTrailingSpaces(x + w) == x
    decreases |w|
  {
    if w == [] {
      assert x + w == x;
    } else {
      assert (x + w)[..|x + w| - 1] == x + w[..|w| - 1];
      DropSpacesAfter(x, w[..|w| - 1]);
    }
  }

  /** Lower case for ASCII letters only: the case folding of a non-Unicode `/i` pattern. */
  function AsciiLower(s: string): (r: string)
    ensures |r| == |s|
  {
    seq(|s|, i requires 0 <= i < |s| => if 'A' <= s[i] <= 'Z' then (s[i] as int + 32) as char else s[i])
  }

  predicate AllSpaceOrSlash(s: string) { forall i :: 0 <= i < |s| ==> s[i] == ' ' || s[i] == '/' }

  /** `u` is a non-empty run of spaces and slashes followed by the word `w`, in either case. */
  predicate EndsWithSpacedWord(u: string, w: string) {
    |w| < |u| && AsciiLower(u[|u| - |w|..]) == w && AllSpaceOrSlash(u[..|u| - |w|])
  }

  /** `[ /]+(kom|kg|komad)[ ]*` matching the whole of `t`, letters in either case. */
  predicate IsSpacedUnitTag(t: string) {
    var u := DropTrailingSpaces(t);
    EndsWithSpacedWord(u, "kom") || EndsWithSpacedWord(u, "kg") || EndsWithSpacedWord(u, "komad")
  }

  /**
   * The leftmost index `p >= i` at which `isTag(s[p..])` holds: where the
   * leftmost match of a pattern anchored at the end of the text starts.
   */
  function LeftmostTagFrom(s: string, i: nat, isTag: string -> bool): (r: Option<nat>)
    requires i <= |s|
    ensures r.Some? ==> i <= r.value <= |s| && isTag(s[r.value..])
    ensures forall j :: i <= j <= |s| && (r.None? || j < r.value) ==> !isTag(s[j..])
    decreases |s| - i
  {
    if isTag(s[i..]) then Some(i)
    else if i == |s| then None
    else LeftmostTagFrom(s, i + 1, isTag)
  }

  /**
   * `s.replace(re, '')` for a pattern `re` anchored at the end whose matches
   * are the texts `isTag` accepts: the text is cut where the leftmost match
   * starts, and is kept whole when nothing matches.
   */
  function CutTag(s: string, isTag: string -> bool): (r: string)
    ensures |r| <= |s| && r == s[..|r|]
    ensures forall j :: 0 <= j < |r| ==> !isTag(s[j..])
    ensures isTag(s[|r|..]) || (r == s && !isTag([]))
  {
    match LeftmostTagFrom(s, 0, isTag)
    case None => assert s[|s|..] == []; s
    case Some(p) => s[..p]
  }

  /**
   * The five tag removals in order: `/unit`, `(unit)`, `[unit]`, `{unit}`,
   * then a space- or slash-separated `kom`, `kg` or `komad`. What is left is
   * always a prefix of the line.
   */
  function StripMeasurementTag(line: string): (r: string)
    ensures |r| <= |line| && r == line[..|r|]
  {
    StripFrom(line, 0)
  }

  /** The tag of the `k`-th removal, in the order the parser applies them. */
  function StageTag(k: nat): string -> bool
  {
    if k == 0 then IsSlashTag
    else if k == 1 then IsParenTag
    else if k == 2 then IsSquareTag
    else if k == 3 then IsCurlyTag
    else IsSpacedUnitTag
  }

  /** The removals from the `k`-th on; what is left is a prefix. */
  function StripFrom(s: string, k: nat): (r: string)
    ensures |r| <= |s| && r == s[..|r|]
    decreases 5 - k
  {
    if k >= 5 then s
    else
      var a := CutTag(s, StageTag(k));
      var r := StripFrom(a, k + 1);
      PrefixOfPrefix(s, a, r);
      r
  }

  /** The five removals written out one after the other. */
  lemma StripStages(line: string)
    ensures StripMeasurementTag(line)
            == CutTag(CutTag(CutTag(CutTag(CutTag(line, IsSlashTag), IsParenTag), IsSquareTag), IsCurlyTag), IsSpacedUnitTag)
  {
    var a := CutTag(line, IsSlashTag);
    var b := CutTag(a, IsParenTag);
    var c := CutTag(b, IsSquareTag);
    var d := CutTag(c, IsCurlyTag);
    var e := CutTag(d, IsSpacedUnitTag);
    assert StripFrom(line, 0) == StripFrom(a, 1);
    assert StripFrom(a, 1) == StripFrom(b, 2);
    assert StripFrom(b, 2) == StripFrom(c, 3);
    assert StripFrom(c, 3) == StripFrom(d, 4);
    assert StripFrom(d, 4) == StripFrom(e, 5);
  }

  lemma PrefixOfPrefix(x: string, y: string, z: string)
    requires |y| <= |x| && y == x[..|y|]
    requires |z| <= |y| && z == y[..|z|]
    ensures z == x[..|z|]
  {
  }

  /** Each removal runs only when its pattern matches, and removes the match. */
  method RemoveMeasurementType(line: string) returns (r: string)
    ensures r == StripMeasurementTag(line)
  {
    r := line;
    r := RemoveTag(r, IsSlashTag);
    r := RemoveTag(r, IsParenTag);
    r := RemoveTag(r, IsSquareTag);
    r := RemoveTag(r, IsCurlyTag);
    r := RemoveTag(r, IsSpacedUnitTag);
    StripStages(line);
  }

  /** One `if (line.match(re)) line = line.replace(re, '')` step. */
  method RemoveTag(line: string, isTag: string -> bool) returns (r: string)
    ensures r == CutTag(line, isTag)
  {
    r := line;
    var m := LeftmostTagFrom(line, 0, isTag);
    if m.Some? {
      r := line[..m.value];
    }
  }

  /**
   * A name that ends in none of the tags: no slash, and a last character that
   * closes no bracket, is no space and cannot end `kom`, `kg` or `komad`.
   */
  predicate Untagged(name: string) {
    '/' !in name && (name != [] ==> name[|name| - 1] !in " mMgGdD)]}")
  }

  /** The cut falls where the leftmost match starts. */
  lemma CutAt(s: string, isTag: string -> bool, p: nat)
    requires p <= |s| && isTag(s[p..])
    requires forall j :: 0 <= j < p ==> !isTag(s[j..])
    ensures CutTag(s, isTag) == s[..p]
  {
  }

  /** Without a match the text is kept whole. */
  lemma CutNone(s: string, isTag: string -> bool)
    requires forall j :: 0 <= j <= |s| ==> !isTag(s[j..])
    ensures CutTag(s, isTag) == s
  {
  }

  /** No tag pattern matches at the end of an untagged name. */
  lemma StripUntagged(name: string)
    requires Untagged(name)
    ensures CutTag(name, IsSlashTag) == name
    ensures CutTag(name, IsParenTag) == name
    ensures CutTag(name, IsSquareTag) == name
    ensures CutTag(name, IsCurlyTag) == name
    ensures CutTag(name, IsSpacedUnitTag) == name
    ensures StripMeasurementTag(name) == name
  {
    NoSlashNoSlashTag(name);
    forall j, o: char, c: char | 0 <= j <= |name| && c in ")]}" ensures !IsBracketTag(o, c, name[j..]) {
      if |name[j..]| >= 2 {
        assert name[j..][|name[j..]| - 1] == name[|name| - 1];
      }
    }
    forall j | 0 <= j <= |name| ensures !IsSpacedUnitTag(name[j..]) {
      var t := name[j..];
      if t != [] {
        assert t[|t| - 1] == name[|name| - 1];
        assert DropTrailingSpaces(t) == t;
        NotEndingInWord(t, "kom");
        NotEndingInWord(t, "kg");
        NotEndingInWord(t, "komad");
      }
    }
    CutNone(name, IsSlashTag);
    CutNone(name, IsParenTag);
    CutNone(name, IsSquareTag);
    CutNone(name, IsCurlyTag);
    CutNone(name, IsSpacedUnitTag);
    StripStages(name);
  }

  /** Without a slash the slash pattern cannot match. */
  lemma NoSlashNoSlashTag(s: string)
    requires '/' !in s
    ensures CutTag(s, IsSlashTag) == s
  {
    forall j | 0 <= j <= |s| ensures !IsSlashTag(s[j..]) {
      if j < |s| {
        assert s[j..][0] == s[j];
      }
    }
    CutNone(s, IsSlashTag);
  }

  lemma NotEndingInWord(u: string, w: string)
    requires u != [] && u[|u| - 1] !in "mMgGdD"
    requires w != [] && w[|w| - 1] in "mgd"
    ensures !EndsWithSpacedWord(u, w)
  {
    if |w| < |u| {
      var x := u[|u| - |w|..];
      assert x[|x| - 1] == u[|u| - 1];
      assert AsciiLower(x)[|x| - 1] != w[|w| - 1];
    }
  }

  /** `name/unit` loses its slash tag: "Rotkvica, veza/KOM" becomes "Rotkvica, veza". */
  lemma StripSlashUnit(name: string, unit: string)
    requires Untagged(name) && IsUnitBody(unit) && '/' !in unit
    ensures StripMeasurementTag(name + "/" + unit) == name
  {
    var s := name + "/" + unit;
    assert s[|name|..] == "/" + unit;
    assert IsSlashTag(s[|name|..]);
    forall j | 0 <= j < |name| ensures !IsSlashTag(s[j..]) {
      assert s[j..][0] == name[j];
    }
    CutAt(s, IsSlashTag, |name|);
    assert s[..|name|] == name;
    StripUntagged(name);
    StripStages(s);
  }

  /** `name(unit)` loses its bracket tag when the name holds no bracket. */
  lemma StripBracketUnit(name: string, body: string)
    requires Untagged(name) && '(' !in name && IsBracketBody(body) && '/' !in body
    ensures StripMeasurementTag(name + "(" + body + ")") == name
  {
    var s := name + "(" + body + ")";
    assert '/' !in s;
    NoSlashNoSlashTag(s);
    CutParenTag(name, body);
    StripUntagged(name);
    StripStages(s);
  }

  /** The round-bracket rewrite cuts `(body)` off a name without a `(`. */
  lemma CutParenTag(name: string, body: string)
    requires '(' !in name && IsBracketBody(body)
    ensures CutTag(name + "(" + body + ")", IsParenTag) == name
  {
    var s := name + "(" + body + ")";
    var t := s[|name|..];
    assert t == "(" + body + ")";
    assert t[1..|t| - 1] == body;
    assert IsParenTag(t);
    forall j | 0 <= j < |name| ensures !IsParenTag(s[j..]) {
      assert s[j..][0] == name[j];
    }
    CutAt(s, IsParenTag, |name|);
    assert s[..|name|] == name;
  }
}
