/**
 * The JavaScript string built-ins the parser relies on, as functions over
 * `seq<char>`: `trim`, `indexOf`, `lastIndexOf`, `split`, `join`, `replace`
 * with a string pattern (first occurrence only) and with a global pattern,
 * the space-collapsing `replace(/[ ]+/g, ' ')`, and `toLowerCase` restricted
 * to the letters the receipts use.
 */
module JsString {
  import opened Options

  predicate IsDigit(c: char) { '0' <= c <= '9' }

  predicate AllDigits(s: string) { forall i :: 0 <= i < |s| ==> IsDigit(s[i]) }

  /** The number of consecutive digits in `s` from index `i` on. */
  function DigitRun(s: string, i: nat): (n: nat)
    requires i <= |s|
    ensures i + n <= |s|
    ensures AllDigits(s[i..i + n])
    ensures i + n < |s| ==> !IsDigit(s[i + n])
    decreases |s| - i
  {
    if i < |s| && IsDigit(s[i]) then
      var n := DigitRun(s, i + 1);
      DigitsExtend(s, i, n);
      1 + n
    else 0
  }

  /** A digit in front of a digit run makes a longer digit run. */
  lemma DigitsExtend(s: string, i: nat, n: nat)
    requires i + 1 + n <= |s| && IsDigit(s[i]) && AllDigits(s[i + 1..i + 1 + n])
    ensures AllDigits(s[i..i + 1 + n])
  {
    var t, u := s[i..i + 1 + n], s[i + 1..i + 1 + n];
    forall j | 0 <= j < |t|
      ensures IsDigit(t[j])
    {
      if 0 < j {
        assert t[j] == u[j - 1];
      }
    }
  }

  /** The digit run from `i` reaches `j` when `s[i..j]` are digits and `s[j]` is not. */
  lemma {:induction false} DigitRunOfDigits(s: string, i: nat, j: nat)
    requires i <= j <= |s|
    requires AllDigits(s[i..j])
    requires j < |s| ==> !IsDigit(s[j])
    ensures DigitRun(s, i) == j - i
    decreases j - i
  {
    if i < j {
      assert IsDigit(s[i..j][0]);
      assert s[i + 1..j] == s[i..j][1..];
      DigitRunOfDigits(s, i + 1, j);
    }
  }

  predicate AllSpaces(s: string) { forall i :: 0 <= i < |s| ==> s[i] == ' ' }

  predicate SpacesBetween(s: string, a: nat, b: nat) { forall i :: a <= i < b && i < |s| ==> s[i] == ' ' }

  /** The number of spaces in a row from index `i` on. */
  function SpaceRun(s: string, i: nat): (n: nat)
    requires i <= |s|
    ensures i + n <= |s| && SpacesBetween(s, i, i + n)
    ensures i + n < |s| ==> s[i + n] != ' '
    decreases |s| - i
  {
    if i < |s| && s[i] == ' ' then 1 + SpaceRun(s, i + 1) else 0
  }

  /** Where the run of spaces that ends just before index `n` starts. */
  function SpaceRunStart(s: string, n: nat): (p: nat)
    requires n <= |s|
    ensures p <= n && SpacesBetween(s, p, n)
    ensures p > 0 ==> s[p - 1] != ' '
  {
    if n > 0 && s[n - 1] == ' ' then SpaceRunStart(s, n - 1) else n
  }

  /** A run of `n` spaces from `i` that stops at a non-space or the end is what `SpaceRun` counts. */
  lemma {:induction false} SpaceRunOver(s: string, i: nat, n: nat)
    requires i + n <= |s| && SpacesBetween(s, i, i + n)
    requires i + n == |s| || s[i + n] != ' '
    ensures SpaceRun(s, i) == n
    decreases n
  {
    if n > 0 {
      SpaceRunOver(s, i + 1, n - 1);
    }
  }

  /** A run of spaces `s[p..n]` after a non-space or the start is where `SpaceRunStart` lands. */
  lemma {:induction false} SpaceRunStartOver(s: string, p: nat, n: nat)
    requires p <= n <= |s| && SpacesBetween(s, p, n)
    requires p == 0 || s[p - 1] != ' '
    ensures SpaceRunStart(s, n) == p
    decreases n
  {
    if n > p {
      SpaceRunStartOver(s, p, n - 1);
    }
  }

  /** WhiteSpace and LineTerminator code points of ECMA-262: what `trim` removes. */
  predicate IsWhitespace(c: char) {
    || c == '\t' || c == '\n' || c == '\U{000B}' || c == '\U{000C}' || c == '\r' || c == ' '
    || c == '\U{00A0}' || c == '\U{1680}' || ('\U{2000}' <= c <= '\U{200A}')
    || c == '\U{2028}' || c == '\U{2029}' || c == '\U{202F}' || c == '\U{205F}'
    || c == '\U{3000}' || c == '\U{FEFF}'
  }

  predicate AllWhitespace(s: string) { forall i :: 0 <= i < |s| ==> IsWhitespace(s[i]) }

  // ---------------------------------------------------------------- trim

  /** `trimStart`: drops the leading white space and nothing else. */
  function TrimStart(s: string): (r: string)
    ensures |r| <= |s|
    ensures r != [] ==> !IsWhitespace(r[0])
  {
    if s != [] && IsWhitespace(s[0]) then TrimStart(s[1..]) else s
  }

  /** What `trimStart` keeps is a suffix, and what it drops is white space. */
  lemma {:induction false} TrimStartSuffix(s: string)
    ensures |TrimStart(s)| <= |s| && TrimStart(s) == s[|s| - |TrimStart(s)|..]
    ensures AllWhitespace(s[..|s| - |TrimStart(s)|])
    decreases |s|
  {
    if s != [] && IsWhitespace(s[0]) {
      var t := s[1..];
      TrimStartSuffix(t);
      var n := |TrimStart(t)|;
      assert t[|t| - n..] == s[|s| - n..];
      forall i | 0 <= i < |s| - n ensures IsWhitespace(s[i]) {
        if i > 0 {
          assert s[i] == t[..|t| - n][i - 1];
        }
      }
    } else {
      assert s[..0] == [];
    }
  }

  /** `trimEnd`: drops the trailing white space and nothing else. */
  function TrimEnd(s: string): (r: string)
    ensures |r| <= |s| && r == s[..|r|]
    ensures AllWhitespace(s[|r|..])
    ensures r != [] ==> !IsWhitespace(r[|r| - 1])
  {
    if s != [] && IsWhitespace(s[|s| - 1]) then TrimEnd(s[..|s| - 1]) else s
  }

  /** `trim`: a slice of `s` that neither starts nor ends with white space. */
  function Trim(s: string): (r: string)
    ensures |r| <= |s|
    ensures r != [] ==> !IsWhitespace(r[0]) && !IsWhitespace(r[|r| - 1])
  {
    TrimEnd(TrimStart(s))
  }

  /** The trim is empty exactly when the text is all white space. */
  lemma TrimEmptyIff(s: string)
    ensures Trim(s) == [] <==> AllWhitespace(s)
  {
    TrimStartSuffix(s);
    var t := TrimStart(s);
    if t == [] {
      assert s[..|s|] == s;
    }
  }

  lemma TrimStartOfNonWhitespace(s: string)
    requires s != [] && !IsWhitespace(s[0])
    ensures TrimStart(s) == s
  {
  }

  lemma TrimEndOfNonWhitespace(s: string)
    requires s != [] && !IsWhitespace(s[|s| - 1])
    ensures TrimEnd(s) == s
  {
  }

  /** Trailing white space never survives a trim of what it follows. */
  lemma {:induction false} TrimEndAppendWhitespace(s: string, w: string)
    requires AllWhitespace(w)
    ensures TrimEnd(s + w) == TrimEnd(s)
    decreases |w|
  {
    if w == [] {
      assert s + w == s;
    } else {
      var w' := w[..|w| - 1];
      assert (s + w)[|s + w| - 1] == w[|w| - 1];
      assert (s + w)[..|s + w| - 1] == s + w';
      TrimEndAppendWhitespace(s, w');
    }
  }

  lemma {:induction false} TrimStartPrependWhitespace(w: string, s: string)
    requires AllWhitespace(w)
    ensures TrimStart(w + s) == TrimStart(s)
    decreases |w|
  {
    if w == [] {
      assert w + s == s;
    } else {
      assert (w + s)[0] == w[0];
      assert (w + s)[1..] == w[1..] + s;
      TrimStartPrependWhitespace(w[1..], s);
    }
  }

  /** Trimming distributes over a middle that neither starts nor ends with white space. */
  lemma TrimAround(w1: string, s: string, w2: string)
    requires AllWhitespace(w1) && AllWhitespace(w2)
    requires s != [] && !IsWhitespace(s[0]) && !IsWhitespace(s[|s| - 1])
    ensures Trim(w1 + s + w2) == s
  {
    assert w1 + s + w2 == w1 + (s + w2);
    TrimStartPrependWhitespace(w1, s + w2);
    TrimStartOfNonWhitespace(s + w2);
    TrimEndAppendWhitespace(s, w2);
    TrimEndOfNonWhitespace(s);
  }

  /** A text that white space neither opens nor closes. */
  predicate Trimmed(s: string) {
    s != [] && !IsWhitespace(s[0]) && !IsWhitespace(s[|s| - 1])
  }

  lemma TrimOfTrimmed(s: string)
    requires Trimmed(s)
    ensures Trim(s) == s
  {
    TrimStartOfNonWhitespace(s);
    TrimEndOfNonWhitespace(s);
  }

  lemma TrimIdempotent(s: string)
    ensures Trim(Trim(s)) == Trim(s)
  {
    var t := Trim(s);
    if t == [] {
      assert TrimStart(t) == [];
    } else {
      TrimOfTrimmed(t);
    }
  }

  /** A text is its trimmed part with white space on either side. */
  lemma TrimSurroundings(s: string) returns (w1: string, w2: string)
    ensures s == w1 + Trim(s) + w2
    ensures AllWhitespace(w1) && AllWhitespace(w2)
  {
    w1 := TrimStartSplit(s);
    w2 := TrimEndSplit(TrimStart(s));
    TrimOfStart(s);
    Associated(w1, Trim(s), w2);
  }

  lemma TrimOfStart(s: string)
    ensures Trim(s) == TrimEnd(TrimStart(s))
  {
  }

  lemma Associated(a: string, b: string, c: string)
    ensures a + (b + c) == a + b + c
  {
  }

  lemma TrimStartSplit(s: string) returns (w: string)
    ensures s == w + TrimStart(s) && AllWhitespace(w)
  {
    TrimStartSuffix(s);
    var u := TrimStart(s);
    w := s[..|s| - |u|];
    assert s == w + u;
  }

  lemma TrimEndSplit(u: string) returns (w: string)
    ensures u == TrimEnd(u) + w && AllWhitespace(w)
  {
    var t := TrimEnd(u);
    w := u[|t|..];
    assert u == t + w;
  }

  /** `trim` keeps a contiguous slice `s[a..a + |Trim(s)|]` with only white space around it. */
  lemma TrimIsSlice(s: string) returns (a: nat)
    ensures a + |Trim(s)| <= |s| && Trim(s) == s[a..a + |Trim(s)|]
    ensures forall j :: 0 <= j < a ==> IsWhitespace(s[j])
    ensures forall j :: a + |Trim(s)| <= j < |s| ==> IsWhitespace(s[j])
  {
    var w1, w2 := TrimSurroundings(s);
    a := |w1|;
    SurroundedSlice(s, w1, Trim(s), w2);
  }

  /** Where the trimmed text starts in `s`. */
  lemma TrimStartsAt(s: string) returns (a: nat)
    ensures a + |Trim(s)| <= |s| && Trim(s) == s[a..a + |Trim(s)|]
  {
    var w1, w2 := TrimSurroundings(s);
    a := |w1|;
    MiddleSlice(s, w1, Trim(s), w2);
  }

  lemma MiddleSlice(s: string, w1: string, t: string, w2: string)
    requires s == w1 + t + w2
    ensures t == s[|w1|..|w1| + |t|]
  {
  }

  lemma SurroundedSlice(s: string, w1: string, t: string, w2: string)
    requires s == w1 + t + w2 && AllWhitespace(w1) && AllWhitespace(w2)
    ensures t == s[|w1|..|w1| + |t|]
    ensures forall j :: 0 <= j < |w1| ==> IsWhitespace(s[j])
    ensures forall j :: |w1| + |t| <= j < |s| ==> IsWhitespace(s[j])
  {
    forall j | 0 <= j < |w1| ensures IsWhitespace(s[j]) {
      assert s[j] == w1[j];
    }
    forall j | |w1| + |t| <= j < |s| ensures IsWhitespace(s[j]) {
      assert s[j] == w2[j - |w1| - |t|];
    }
  }

  /** A character that is not white space survives `trim`. */
  lemma TrimKeepsNonWhitespace(s: string, i: nat)
    requires i < |s| && !IsWhitespace(s[i])
    ensures var a := |s| - |TrimStart(s)|;
            a <= i < a + |Trim(s)| && Trim(s)[i - a] == s[i]
  {
    TrimStartSuffix(s);
    var a := TrimIsSlice(s);
    assert a == |s| - |TrimStart(s)|;
  }

  // ---------------------------------------------------------------- search

  /** `t` occurs in `s` starting at index `i`. */
  predicate OccursAt(s: string, t: string, i: int) {
    0 <= i && i + |t| <= |s| && s[i..i + |t|] == t
  }

  ghost predicate Contains(s: string, t: string) {
    exists i :: OccursAt(s, t, i)
  }

  /** The first occurrence of `t` at or after `i`, or -1. */
  function IndexOfFrom(s: string, t: string, i: nat): (r: int)
    ensures r == -1 || (i <= r && OccursAt(s, t, r))
    ensures forall j :: i <= j && (r == -1 || j < r) ==> !OccursAt(s, t, j)
    decreases |s| - i
  {
    if i + |t| > |s| then -1
    else if s[i..i + |t|] == t then i
    else IndexOfFrom(s, t, i + 1)
  }

  /** `s.indexOf(t)`: the first occurrence of `t`, or -1 when there is none. */
  function IndexOf(s: string, t: string): (r: int)
    ensures r == -1 <==> !Contains(s, t)
    ensures r != -1 ==> OccursAt(s, t, r) && forall j :: 0 <= j < r ==> !OccursAt(s, t, j)
  {
    IndexOfFrom(s, t, 0)
  }

  /** The last occurrence of `t` starting before `n`, or -1. */
  function LastIndexBelow(s: string, t: string, n: nat): (r: int)
    ensures r == -1 || (r < n && OccursAt(s, t, r))
    ensures forall j :: r < j < n ==> !OccursAt(s, t, j)
  {
    if n == 0 then -1
    else if n - 1 + |t| <= |s| && s[n - 1..n - 1 + |t|] == t then n - 1
    else LastIndexBelow(s, t, n - 1)
  }

  /** `s.lastIndexOf(t)`: the last occurrence of `t`, or -1 when there is none. */
  function LastIndexOf(s: string, t: string): (r: int)
    ensures r == -1 <==> !Contains(s, t)
    ensures r != -1 ==> OccursAt(s, t, r) && forall j :: r < j ==> !OccursAt(s, t, j)
  {
    LastIndexBelow(s, t, |s| + 1)
  }

  /** A one-character pattern occurs exactly when the character does. */
  lemma ContainsChar(s: string, c: char)
    ensures Contains(s, [c]) <==> c in s
  {
    if c in s {
      var i :| 0 <= i < |s| && s[i] == c;
      assert OccursAt(s, [c], i);
    }
    if Contains(s, [c]) {
      var i :| OccursAt(s, [c], i);
      assert s[i] == s[i..i + 1][0];
    }
  }

  /** An occurrence inside a prefix is an occurrence in the whole. */
  lemma OccursInPrefix(s: string, n: nat, t: string, j: int)
    requires n <= |s| && OccursAt(s[..n], t, j)
    ensures OccursAt(s, t, j)
  {
    assert s[..n][j..j + |t|] == s[j..j + |t|];
  }

  lemma SliceOfSlice(s: string, a: nat, b: nat, i: nat, j: nat)
    requires a <= b <= |s| && i <= j <= b - a
    ensures s[a..b][i..j] == s[a + i..a + j]
  {
    forall k | 0 <= k < j - i ensures s[a..b][i..j][k] == s[a + i..a + j][k] {
    }
  }

  /** The trimmed slice `s[a..b]` occurs in `s`. */
  lemma TrimOfSliceOccurs(s: string, a: nat, b: nat)
    requires a <= b <= |s|
    ensures Contains(s, Trim(s[a..b]))
  {
    var w1, w2 := TrimSurroundings(s[a..b]);
    PieceOccurs(s, a, b, w1, Trim(s[a..b]), w2);
  }

  /** The middle piece of a slice occurs in the whole text. */
  lemma PieceOccurs(s: string, a: nat, b: nat, w1: string, t: string, w2: string)
    requires a <= b <= |s| && s[a..b] == w1 + t + w2
    ensures Contains(s, t)
  {
    SliceOfSlice(s, a, b, |w1|, |w1| + |t|);
    assert (w1 + t + w2)[|w1|..|w1| + |t|] == t;
    assert OccursAt(s, t, a + |w1|);
  }

  lemma ContainedInPrefix(s: string, n: nat, t: string)
    requires n <= |s| && Contains(s[..n], t)
    ensures Contains(s, t)
  {
    var i :| OccursAt(s[..n], t, i);
    OccursInPrefix(s, n, t, i);
  }

  // ---------------------------------------------------------------- split and join

  /** `parts.join(sep)`. */
  function Join(parts: seq<string>, sep: string): string
  {
    if |parts| == 0 then []
    else if |parts| == 1 then parts[0]
    else parts[0] + sep + Join(parts[1..], sep)
  }

  /**
   * `s.split(sep)` for a non-empty separator: the pieces between the
   * occurrences of `sep`, found left to right. There is always at least one
   * piece, joining them back gives `s`, and no piece holds the separator.
   */
  function Split(s: string, sep: string): (parts: seq<string>)
    requires sep != []
    ensures |parts| >= 1
    ensures Join(parts, sep) == s
    ensures forall k :: 0 <= k < |parts| ==> !Contains(parts[k], sep)
    decreases |s|
  {
    var i := IndexOf(s, sep);
    if i < 0 then [s]
    else
      var rest := Split(s[i + |sep|..], sep);
      assert !Contains(s[..i], sep) by {
        forall j | OccursAt(s[..i], sep, j) ensures false {
          OccursInPrefix(s, i, sep, j);
        }
      }
      assert s == s[..i] + sep + s[i + |sep|..];
      [s[..i]] + rest
  }

  /** The first piece of `s.split(sep)` is the text before the first separator. */
  lemma SplitFirst(s: string, sep: string)
    requires sep != []
    ensures var i := IndexOf(s, sep);
            Split(s, sep)[0] == if i < 0 then s else s[..i]
  {
  }

  /** The second piece of `s.split(sep)` exists exactly when `sep` occurs. */
  lemma SplitSecond(s: string, sep: string)
    requires sep != []
    ensures |Split(s, sep)| > 1 <==> Contains(s, sep)
    ensures Contains(s, sep) ==>
              var i := IndexOf(s, sep);
              Split(s, sep)[1] == Split(s[i + |sep|..], sep)[0]
  {
  }

  /**
   * Splitting on one character undoes joining on it, as long as no piece
   * holds that character.
   */
  lemma {:induction false} SplitJoin(parts: seq<string>, c: char)
    requires |parts| >= 1
    requires forall k :: 0 <= k < |parts| ==> c !in parts[k]
    ensures Split(Join(parts, [c]), [c]) == parts
    decreases |parts|
  {
    var s := Join(parts, [c]);
    if |parts| == 1 {
      ContainsChar(s, c);
    } else {
      var rest := Join(parts[1..], [c]);
      assert s == parts[0] + [c] + rest;
      var n := |parts[0]|;
      assert OccursAt(s, [c], n);
      forall j | 0 <= j < n ensures !OccursAt(s, [c], j) {
        assert s[j] == parts[0][j];
      }
      assert IndexOf(s, [c]) == n;
      assert s[n + 1..] == rest;
      SplitJoin(parts[1..], c);
      assert parts == [parts[0]] + parts[1..];
    }
  }

  // ---------------------------------------------------------------- replace

  /** `s.replace(pat, rep)` with a string pattern: only the first occurrence is replaced. */
  function ReplaceFirst(s: string, pat: string, rep: string): (r: string)
    ensures !Contains(s, pat) ==> r == s
    ensures Contains(s, pat) ==>
              var i := IndexOf(s, pat);
              r == s[..i] + rep + s[i + |pat|..]
  {
    var i := IndexOf(s, pat);
    if i < 0 then s else s[..i] + rep + s[i + |pat|..]
  }

  /**
   * `s.replace(/pat/g, rep)` for a literal pattern: occurrences are found
   * left to right and do not overlap.
   */
  function ReplaceAll(s: string, pat: string, rep: string): string
    requires pat != []
    decreases |s|
  {
    if |pat| <= |s| && s[..|pat|] == pat then rep + ReplaceAll(s[|pat|..], pat, rep)
    else if s == [] then []
    else [s[0]] + ReplaceAll(s[1..], pat, rep)
  }

  /** `s.replace(/c/g, '')`: every `c` removed, every other character kept in order. */
  function RemoveChar(s: string, c: char): (r: string)
    ensures c !in r
    ensures forall x :: x != c ==> (x in r <==> x in s)
    decreases |s|
  {
    if s == [] then []
    else
      var rest := RemoveChar(s[1..], c);
      assert forall x :: x in s <==> x == s[0] || x in s[1..];
      if s[0] == c then rest else [s[0]] + rest
  }

  /** Removing every `c` is `s.replace(/c/g, '')`. */
  lemma {:induction false} RemoveCharIsReplaceAll(s: string, c: char)
    ensures RemoveChar(s, c) == ReplaceAll(s, [c], [])
    decreases |s|
  {
    if s != [] {
      assert s[..1] == [s[0]];
      RemoveCharIsReplaceAll(s[1..], c);
    }
  }

  lemma {:induction false} RemoveCharConcat(a: string, b: string, c: char)
    ensures RemoveChar(a + b, c) == RemoveChar(a, c) + RemoveChar(b, c)
    decreases |a|
  {
    if a == [] {
      assert a + b == b;
    } else {
      assert (a + b)[0] == a[0];
      assert (a + b)[1..] == a[1..] + b;
      RemoveCharConcat(a[1..], b, c);
    }
  }

  lemma RemoveCharAbsent(s: string, c: char)
    requires c !in s
    ensures RemoveChar(s, c) == s
  {
    if s != [] {
      RemoveCharAbsent(s[1..], c);
    }
  }

  // ---------------------------------------------------------------- collapsing spaces

  /** No two spaces in a row. */
  predicate SingleSpaced(s: string) {
    forall i :: 0 <= i < |s| - 1 ==> !(s[i] == ' ' && s[i + 1] == ' ')
  }

  /**
   * `s.replace(/[ ]+/g, ' ')`: every run of spaces becomes one space. Here a
   * space is dropped when another space follows it, which keeps the last
   * space of each run.
   */
  function CollapseSpaces(s: string): (r: string)
    ensures SingleSpaced(r)
    ensures |r| <= |s|
    ensures s != [] ==> r != [] && r[0] == s[0]
    ensures forall c :: c in r <==> c in s
    decreases |s|
  {
    if |s| <= 1 then s
    else
      var rest := CollapseSpaces(s[1..]);
      assert forall c :: c in s <==> c == s[0] || c in s[1..];
      if s[0] == ' ' && s[1] == ' ' then rest else [s[0]] + rest
  }

  /** Collapsing is idempotent. */
  lemma {:induction false} CollapseSingleSpaced(s: string)
    requires SingleSpaced(s)
    ensures CollapseSpaces(s) == s
    decreases |s|
  {
    if |s| > 1 {
      CollapseSingleSpaced(s[1..]);
    }
  }

  /**
   * Collapsing an accumulator before appending to it changes nothing once
   * the whole is collapsed again: the loop that collapses after every append
   * computes the collapse of the concatenation.
   */
  lemma {:induction false} CollapseAppend(a: string, b: string)
    ensures CollapseSpaces(CollapseSpaces(a) + b) == CollapseSpaces(a + b)
    decreases |a|
  {
    if |a| == 0 {
      assert a + b == b;
    } else if |a| == 1 {
    } else {
      assert (a + b)[1..] == a[1..] + b;
      CollapseAppend(a[1..], b);
      if a[0] == ' ' && a[1] == ' ' {
      } else {
        var x := CollapseSpaces(a[1..]) + b;
        assert ([a[0]] + CollapseSpaces(a[1..])) + b == [a[0]] + x;
        assert ([a[0]] + x)[1..] == x;
      }
    }
  }

  // ---------------------------------------------------------------- lower case

  /**
   * `toLowerCase` on one character, for the letters that matter to the
   * parser's patterns: ASCII A-Z, Cyrillic U+0400-U+042F and the Kelvin sign,
   * whose lower case is the ASCII `k`. Every other character is kept: what
   * JavaScript maps it to is neither a letter of a unit alias nor a bracket.
   */
  function LowerChar(c: char): (r: char)
  {
    if 'A' <= c <= 'Z' then (c as int + 32) as char
    else if '\U{0410}' <= c <= '\U{042F}' then (c as int + 32) as char
    else if '\U{0400}' <= c <= '\U{040F}' then (c as int + 80) as char
    else if c == '\U{212A}' then 'k'
    else c
  }

  function ToLower(s: string): (r: string)
    ensures |r| == |s|
    ensures forall i :: 0 <= i < |s| ==> r[i] == LowerChar(s[i])
  {
    seq(|s|, i requires 0 <= i < |s| => LowerChar(s[i]))
  }

  // ---------------------------------------------------------------- labels and pieces

  /** When a label's first character is absent from `pre`, the label appended to it is its first occurrence. */
  lemma LabelAfterFreeHead(pre: string, t: string)
    requires t != [] && t[0] !in pre
    ensures IndexOf(pre + t, t) == |pre|
  {
    var s := pre + t;
    assert OccursAt(s, t, |pre|);
    forall j | 0 <= j < |pre| ensures !OccursAt(s, t, j) {
      assert s[j] == pre[j];
      assert s[j] != t[0];
      assert s[j..j + |t|][0] == s[j];
    }
  }

  /** Whatever follows, the first occurrence of a label stays where it was in `pre + t`. */
  lemma LabelAt(pre: string, t: string, rest: string)
    requires t != [] && IndexOf(pre + t, t) == |pre|
    ensures IndexOf(pre + t + rest, t) == |pre|
  {
    var s := pre + t + rest;
    assert s[|pre|..|pre| + |t|] == t;
    assert OccursAt(s, t, |pre|);
    forall j | 0 <= j < |pre| ensures !OccursAt(s, t, j) {
      assert (pre + t)[j..j + |t|] == s[j..j + |t|];
      assert !OccursAt(pre + t, t, j);
    }
  }

  /** `s.replace(t, rep)` replaces the label where it first occurs. */
  lemma ReplaceFirstAt(pre: string, t: string, rest: string, rep: string)
    requires t != [] && IndexOf(pre + t, t) == |pre|
    ensures ReplaceFirst(pre + t + rest, t, rep) == pre + rep + rest
  {
    var s := pre + t + rest;
    LabelAt(pre, t, rest);
    assert OccursAt(s, t, |pre|);
    assert s[..|pre|] == pre && s[|pre| + |t|..] == rest;
  }

  /** `s.split(t)[1]` is the text after the first label, up to the next one. */
  lemma PieceAfterLabel(pre: string, t: string, rest: string)
    requires t != [] && IndexOf(pre + t, t) == |pre|
    ensures |Split(pre + t + rest, t)| > 1
    ensures Split(pre + t + rest, t)[1] == Split(rest, t)[0]
  {
    var s := pre + t + rest;
    LabelAt(pre, t, rest);
    assert s[|pre| + |t|..] == rest;
  }

  /** `s.split(t)[0]` is the text before the first separator. */
  lemma PieceBeforeSeparator(x: string, t: string, rest: string)
    requires t != [] && t[0] !in x
    ensures Split(x + t + rest, t)[0] == x
  {
    LabelAfterFreeHead(x, t);
    LabelAt(x, t, rest);
    SplitFirst(x + t + rest, t);
    assert (x + t + rest)[..|x|] == x;
  }

  /**
   * A first piece starts with any head in which no separator can begin: it
   * is a prefix of the text at least as long as that head.
   */
  lemma FirstPieceKeepsHead(y: string, z: string, t: string)
    requires t != [] && t[0] !in y
    ensures var p := Split(y + z, t)[0];
            |y| <= |p| <= |y + z| && p == (y + z)[..|p|]
  {
    var s := y + z;
    SplitFirst(s, t);
    forall j | 0 <= j < |y| ensures !OccursAt(s, t, j) {
      assert s[j] == y[j];
      if j + |t| <= |s| { assert s[j..j + |t|][0] == s[j]; }
    }
    assert s[..|s|] == s;
  }

  /** No piece of a split holds the one-character separator. */
  lemma SplitPiecesLackSeparator(s: string, c: char)
    ensures forall k :: 0 <= k < |Split(s, [c])| ==> c !in Split(s, [c])[k]
  {
    var parts := Split(s, [c]);
    forall k | 0 <= k < |parts| ensures c !in parts[k] {
      ContainsChar(parts[k], c);
    }
  }

  /** A pattern cannot occur in a text that lacks its first character. */
  lemma LacksStart(s: string, pat: string)
    requires pat != [] && pat[0] !in s
    ensures !Contains(s, pat)
  {
    forall i | 0 <= i ensures !OccursAt(s, pat, i) {
      if i + |pat| <= |s| {
        assert s[i..i + |pat|][0] == s[i];
      }
    }
  }

  /** Trimming the end stops at the first character when that is not white space. */
  lemma {:induction false} TrimEndAfterText(c: char, x: string)
    requires !IsWhitespace(c)
    ensures TrimEnd([c] + x) == [c] + TrimEnd(x)
    decreases |x|
  {
    if x != [] && IsWhitespace(x[|x| - 1]) {
      assert ([c] + x)[..|x|] == [c] + x[..|x| - 1];
      TrimEndAfterText(c, x[..|x| - 1]);
    }
  }

  /** A joined text holds a character only when some piece or the separator does. */
  lemma {:induction false} JoinLacks(parts: seq<string>, sep: string, c: char)
    requires c !in sep
    requires forall k :: 0 <= k < |parts| ==> c !in parts[k]
    ensures c !in Join(parts, sep)
    decreases |parts|
  {
    if |parts| > 1 {
      JoinLacks(parts[1..], sep, c);
    }
  }

  /** Trimming keeps only characters of the text. */
  lemma TrimLacks(s: string, c: char)
    requires c !in s
    ensures c !in Trim(s)
  {
    var a := TrimStartsAt(s);
    assert Trim(s) == s[a..a + |Trim(s)|];
  }

  lemma WhitespaceJoined(a: string, b: string)
    requires AllWhitespace(a) && AllWhitespace(b)
    ensures AllWhitespace(a + b)
  {
    forall j | 0 <= j < |a + b| ensures IsWhitespace((a + b)[j]) {
      if j < |a| { assert (a + b)[j] == a[j]; } else { assert (a + b)[j] == b[j - |a|]; }
    }
  }

  /** Trailing white space never survives a trim. */
  lemma TrimDropsTrailingWhitespace(s: string, w: string)
    requires AllWhitespace(w)
    ensures Trim(s + w) == Trim(s)
  {
    if AllWhitespace(s) {
      WhitespaceJoined(s, w);
      TrimEmptyIff(s);
      TrimEmptyIff(s + w);
    } else {
      TrimDropsTrailingWhitespaceAfterText(s, w);
    }
  }

  lemma TrimDropsTrailingWhitespaceAfterText(s: string, w: string)
    requires AllWhitespace(w) && !AllWhitespace(s)
    ensures Trim(s + w) == Trim(s)
  {
    TrimStartAppend(s, w);
    TrimEndAppendWhitespace(TrimStart(s), w);
    TrimOfStart(s);
    TrimOfStart(s + w);
  }

  /** Once text has been reached, what follows it is kept by `trimStart`. */
  lemma {:induction false} TrimStartAppend(s: string, w: string)
    requires !AllWhitespace(s)
    ensures TrimStart(s + w) == TrimStart(s) + w
    decreases |s|
  {
    assert (s + w)[0] == s[0];
    if IsWhitespace(s[0]) {
      var j :| 0 <= j < |s| && !IsWhitespace(s[j]);
      assert s[1..][j - 1] == s[j];
      assert (s + w)[1..] == s[1..] + w;
      TrimStartAppend(s[1..], w);
    }
  }

  /**
   * Deleting every occurrence of a pattern never adds a character.
   */
  lemma {:induction false} DeletionLacks(s: string, pat: string, c: char)
    requires pat != [] && c !in s
    ensures c !in ReplaceAll(s, pat, [])
    decreases |s|
  {
    if |pat| <= |s| && s[..|pat|] == pat {
      assert c !in s[|pat|..];
      DeletionLacks(s[|pat|..], pat, c);
    } else if s != [] {
      assert c !in s[1..];
      DeletionLacks(s[1..], pat, c);
    }
  }

  /** Deleting a pattern that starts with a character the text lacks changes nothing. */
  lemma {:induction false} DeletionAbsent(s: string, pat: string)
    requires pat != [] && pat[0] !in s
    ensures ReplaceAll(s, pat, []) == s
    decreases |s|
  {
    if s != [] {
      assert s[0] != pat[0];
      assert s[1..] == s[1..];
      DeletionAbsent(s[1..], pat);
      assert s == [s[0]] + s[1..];
    }
  }

  /** Deleting a pattern: the text up to its first start character is kept, that occurrence dropped. */
  lemma {:induction false} DeletionAfter(a: string, pat: string, b: string)
    requires pat != [] && pat[0] !in a
    ensures ReplaceAll(a + pat + b, pat, []) == a + ReplaceAll(b, pat, [])
    decreases |a|
  {
    var s := a + pat + b;
    if a == [] {
      assert s == pat + b;
      assert s[..|pat|] == pat;
      assert s[|pat|..] == b;
    } else {
      assert s[0] == a[0] && a[0] != pat[0];
      assert s[..|pat|] != pat by { if |pat| <= |s| { assert s[..|pat|][0] == s[0]; } }
      assert s[1..] == a[1..] + pat + b;
      DeletionAfter(a[1..], pat, b);
      assert a == [a[0]] + a[1..];
    }
  }

  // ---------------------------------------------------------------- runs of a character class

  /** The first position at or after `i` holding a character of the class, or `|s|`. */
  function ClassStartFrom(s: string, i: nat, inClass: char -> bool): (k: nat)
    requires i <= |s|
    ensures i <= k <= |s|
    ensures forall j :: i <= j < k ==> !inClass(s[j])
    ensures k < |s| ==> inClass(s[k])
    decreases |s| - i
  {
    if i == |s| || inClass(s[i]) then i else ClassStartFrom(s, i + 1, inClass)
  }

  /** The length of the run of class characters starting at `i`. */
  function ClassRunFrom(s: string, i: nat, inClass: char -> bool): (n: nat)
    requires i <= |s|
    ensures i + n <= |s|
    ensures forall j :: i <= j < i + n ==> inClass(s[j])
    ensures i + n < |s| ==> !inClass(s[i + n])
    decreases |s| - i
  {
    if i < |s| && inClass(s[i]) then 1 + ClassRunFrom(s, i + 1, inClass) else 0
  }

  /**
   * `s.match(/[...]+/)` for a character class: the leftmost run of class
   * characters, taken whole; nothing when the text has none.
   */
  function FirstRun(s: string, inClass: char -> bool): (r: Option<string>)
    ensures r.Some? ==> r.value != [] && forall j :: 0 <= j < |r.value| ==> inClass(r.value[j])
    ensures r.None? <==> forall j :: 0 <= j < |s| ==> !inClass(s[j])
  {
    var k := ClassStartFrom(s, 0, inClass);
    if k == |s| then None
    else
      var n := ClassRunFrom(s, k, inClass);
      var run := s[k..k + n];
      assert forall j :: 0 <= j < n ==> run[j] == s[k + j];
      Some(run)
  }

  lemma {:induction false} ClassStartAt(s: string, i: nat, k: nat, inClass: char -> bool)
    requires i <= k < |s| && inClass(s[k])
    requires forall j :: i <= j < k ==> !inClass(s[j])
    ensures ClassStartFrom(s, i, inClass) == k
    decreases k - i
  {
    if i < k {
      ClassStartAt(s, i + 1, k, inClass);
    }
  }

  lemma {:induction false} ClassRunAt(s: string, i: nat, n: nat, inClass: char -> bool)
    requires i + n <= |s|
    requires forall j :: i <= j < i + n ==> inClass(s[j])
    requires i + n < |s| ==> !inClass(s[i + n])
    ensures ClassRunFrom(s, i, inClass) == n
    decreases n
  {
    if n > 0 {
      ClassRunAt(s, i + 1, n - 1, inClass);
    }
  }

  /**
   * The run found is the first one: after a gap free of class characters, a
   * run that the rest does not continue.
   */
  lemma FirstRunAfterGap(gap: string, run: string, tail: string, inClass: char -> bool)
    requires forall j :: 0 <= j < |gap| ==> !inClass(gap[j])
    requires run != [] && forall j :: 0 <= j < |run| ==> inClass(run[j])
    requires tail == [] || !inClass(tail[0])
    ensures FirstRun(gap + run + tail, inClass) == Some(run)
  {
    var s := gap + run + tail;
    assert forall j :: 0 <= j < |gap| ==> s[j] == gap[j];
    assert forall j :: 0 <= j < |run| ==> s[|gap| + j] == run[j];
    ClassStartAt(s, 0, |gap|, inClass);
    if tail != [] {
      assert s[|gap| + |run|] == tail[0];
    }
    ClassRunAt(s, |gap|, |run|, inClass);
    assert s[|gap|..|gap| + |run|] == run;
  }

  /** A text without the separator character is a single piece. */
  lemma SplitWhole(x: string, c: char)
    requires c !in x
    ensures Split(x, [c]) == [x]
  {
    LacksStart(x, [c]);
  }

  /** Splitting on a character peels off the text before its first occurrence. */
  lemma SplitCons(x: string, c: char, rest: string)
    requires c !in x
    ensures Split(x + [c] + rest, [c]) == [x] + Split(rest, [c])
  {
    var s := x + [c] + rest;
    LabelAfterFreeHead(x, [c]);
    LabelAt(x, [c], rest);
    assert s[..|x|] == x && s[|x| + 1..] == rest;
  }

  /** A first piece that starts with a head free of the separator's first character: the head, then a prefix of the rest. */
  lemma FirstPieceHead(head: string, post: string, sep: string) returns (tail: string)
    requires sep != [] && sep[0] !in head
    ensures Split(head + post, sep)[0] == head + tail
    ensures tail == [] || (post != [] && tail[0] == post[0])
  {
    FirstPieceKeepsHead(head, post, sep);
    var p := Split(head + post, sep)[0];
    tail := p[|head|..];
    assert p == (head + post)[..|p|];
    assert p[..|head|] == head;
    assert p == head + tail;
    if tail != [] {
      assert p[|head|] == (head + post)[|head|];
    }
  }

  /** Concatenation regrouped around a label. */
  lemma Regrouped(pre: string, l: string, x: string, y: string, post: string)
    ensures pre + l + x + y + post == pre + l + (x + y + post)
    ensures x + y + post == (x + y) + post
  {
  }

  /** The first label occurrence of a text that starts with it. */
  lemma LabelAtStart(t: string)
    requires t != []
    ensures IndexOf([] + t, t) == 0
  {
    assert [] + t == t;
    assert OccursAt(t, t, 0);
  }}
