/**
 * The text form of a knot vector shown on the B-Spline page and offered as
 * the editable default of a Custom vector: each knot followed by ", ", the
 * whole prefixed by "[", and then the LAST ", " replaced by "]".
 *
 * The rendering of a single number is not modelled; the knots arrive here
 * already rendered, one string each.
 */
module KnotText {
  import opened Wrappers

  /** Each item followed by ", ", concatenated. */
  function Listing(items: seq<string>): string
  {
    if |items| == 0 then "" else Listing(items[..|items| - 1]) + items[|items| - 1] + ", "
  }

  /** The items with sep between consecutive ones. */
  function Join(items: seq<string>, sep: string): string
  {
    if |items| == 0 then ""
    else if |items| == 1 then items[0]
    else Join(items[..|items| - 1], sep) + sep + items[|items| - 1]
  }

  predicate OccursAt(s: string, pat: string, i: nat)
  {
    i + |pat| <= |s| && s[i..i + |pat|] == pat
  }

  /** The last position, among the first count, where pat occurs in s. */
  function LastIndexBelow(s: string, pat: string, count: nat): (r: Option<nat>)
    ensures r.Some? ==> r.value < count && OccursAt(s, pat, r.value)
    ensures r.Some? ==> forall j :: r.value < j < count ==> !OccursAt(s, pat, j)
    ensures r.None? ==> forall j :: 0 <= j < count ==> !OccursAt(s, pat, j)
  {
    if count == 0 then None
    else if OccursAt(s, pat, count - 1) then Some(count - 1)
    else LastIndexBelow(s, pat, count - 1)
  }

  /** The position of the last occurrence of pat in s, if any. */
  function LastIndexOf(s: string, pat: string): (r: Option<nat>)
    ensures r.Some? ==> OccursAt(s, pat, r.value)
    ensures r.Some? ==> forall j :: r.value < j ==> !OccursAt(s, pat, j)
    ensures r.None? ==> forall j :: !OccursAt(s, pat, j)
  {
    LastIndexBelow(s, pat, |s| + 1)
  }

  /**
   * rep.join(s.rsplit(pat, 1)): the last occurrence of pat replaced by rep,
   * or s unchanged when pat does not occur. An empty pat is an error for
   * rsplit, so it is excluded.
   */
  function ReplaceLast(s: string, pat: string, rep: string): (r: string)
    requires |pat| > 0
    ensures LastIndexOf(s, pat).None? ==> r == s
    ensures LastIndexOf(s, pat).Some? ==>
              var i := LastIndexOf(s, pat).value;
              && |r| == |s| - |pat| + |rep|
              && r[..i] == s[..i]
              && r[i..i + |rep|] == rep
              && r[i + |rep|..] == s[i + |pat|..]
  {
    match LastIndexOf(s, pat)
    case None => s
    case Some(i) => s[..i] + rep + s[i + |pat|..]
  }

  /** get_knot_vec_str over the rendered knots. */
  function KnotVecStr(items: seq<string>): string
  {
    ReplaceLast("[" + Listing(items), ", ", "]")
  }

  /** A non-empty listing is the items joined by ", " with one more ", " after them. */
  lemma {:induction false} ListingIsJoin(items: seq<string>)
    requires |items| > 0
    ensures Listing(items) == Join(items, ", ") + ", "
  {
    if |items| > 1 {
      ListingIsJoin(items[..|items| - 1]);
    }
  }

  /** When s ends with pat, the last occurrence is that final one. */
  lemma ReplaceTrailing(body: string, pat: string, rep: string)
    requires |pat| > 0
    ensures ReplaceLast(body + pat, pat, rep) == body + rep
  {
    var s := body + pat;
    assert OccursAt(s, pat, |body|);
    var i := LastIndexOf(s, pat).value;
    assert i == |body|;
    assert s[..i] == body;
  }

  /**
   * For a non-empty knot list the text is "[", the knots joined by ", ",
   * and "]"; for an empty one it is just "[".
   */
  lemma KnotVecStrShape(items: seq<string>)
    ensures |items| > 0 ==> KnotVecStr(items) == "[" + Join(items, ", ") + "]"
    ensures |items| == 0 ==> KnotVecStr(items) == "["
  {
    if |items| > 0 {
      ListingIsJoin(items);
      assert "[" + Listing(items) == ("[" + Join(items, ", ")) + ", ";
      ReplaceTrailing("[" + Join(items, ", "), ", ", "]");
    } else {
      assert !OccursAt("[", ", ", 0);
    }
  }
}
