/** The VAT class of an item line (serbian-fiscal-bill-parser.ts, lines 121-139). */
module VatType {
  import opened JsString

  /** The tags of the 10% rate: Latin `(e)`, `(E)` and Cyrillic `(е)`, `(Е)`. */
  const ReducedTags: seq<string> := ["(e)", "(E)", "(\U{0435})", "(\U{0415})"]

  /** The tags of the 0% rate: Latin `(a)`, `(A)`, `(g)`, `(G)` and Cyrillic `(г)`, `(Г)`. */
  const ZeroTags: seq<string> := ["(a)", "(A)", "(g)", "(G)", "(\U{0433})", "(\U{0413})"]

  ghost predicate HasTag(line: string, tags: seq<string>) {
    exists t :: t in tags && Contains(line, t)
  }

  /**
   * The rate as a fraction. An empty line gives 0. A 10% tag wins over a 0%
   * tag, since it is looked for first; with neither, the rate is the standard
   * 20%.
   */
  function VatType(line: string): (r: real)
    ensures r == 0.0 || r == 0.1 || r == 0.2
    ensures line == [] ==> r == 0.0
    ensures line != [] ==> (r == 0.1 <==> HasTag(line, ReducedTags))
    ensures line != [] ==> (r == 0.0 <==> !HasTag(line, ReducedTags) && HasTag(line, ZeroTags))
  {
    if line == [] then 0.0
    else if IndexOf(line, ReducedTags[0]) != -1 || IndexOf(line, ReducedTags[1]) != -1 then 0.1
    else if IndexOf(line, ReducedTags[2]) != -1 || IndexOf(line, ReducedTags[3]) != -1 then 0.1
    else if IndexOf(line, ZeroTags[0]) != -1 || IndexOf(line, ZeroTags[1]) != -1 then 0.0
    else if IndexOf(line, ZeroTags[2]) != -1 || IndexOf(line, ZeroTags[3]) != -1 then 0.0
    else if IndexOf(line, ZeroTags[4]) != -1 || IndexOf(line, ZeroTags[5]) != -1 then 0.0
    else 0.2
  }
}
