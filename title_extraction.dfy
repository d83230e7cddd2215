/** `fetchUrlTitle` of backend/controllers/bookmarkController.js: the first
    match of `/<title>(.*?)<\/title>/i` in the fetched page, trimmed. The
    page is given (None when the request fails); nothing is fetched here. */
module TitleExtraction {
  import opened Wrappers
  import opened Text

  const OpenTag := "<title>"
  const CloseTag := "</title>"

  /** The lower-case ASCII `tag` occurs at `i`. Under the `i` flag without
      `u`, a code point matches an ASCII letter of the pattern exactly when
      it is that letter in either case, which is what LowerChar compares. */
  predicate TagAt(html: string, i: int, tag: string) {
    0 <= i && i + |tag| <= |html| && forall k :: 0 <= k < |tag| ==> LowerChar(html[i + k]) == tag[k]
  }

  /** `.` matches everything but a line terminator. */
  predicate SingleLine(html: string, a: int, b: int)
    requires 0 <= a <= b <= |html|
  {
    forall l :: a <= l < b ==> !IsLineTerminator(html[l])
  }

  /** The regex matches with `<title>` at `i` and `</title>` at `j`. */
  predicate Pair(html: string, i: int, j: int) {
    TagAt(html, i, OpenTag) && i + |OpenTag| <= j && TagAt(html, j, CloseTag)
    && SingleLine(html, i + |OpenTag|, j)
  }

  /** The lazy `(.*?)<\/title>` from position `k`: try the closing tag, else
      consume one code point that is not a line terminator. */
  function CloseFrom(html: string, k: nat): (r: Option<nat>)
    requires k <= |html|
    ensures r.Some? ==> k <= r.value <= |html| && TagAt(html, r.value, CloseTag)
                        && SingleLine(html, k, r.value)
    ensures r.Some? ==> forall m :: k <= m < r.value ==> !TagAt(html, m, CloseTag)
    ensures r.None? ==> forall m :: k <= m <= |html| && TagAt(html, m, CloseTag) ==> !SingleLine(html, k, m)
    decreases |html| - k
  {
    if TagAt(html, k, CloseTag) then Some(k)
    else if k < |html| && !IsLineTerminator(html[k]) then
      var r := CloseFrom(html, k + 1);
      assert r.None? ==> forall m :: k < m <= |html| && SingleLine(html, k, m) ==> SingleLine(html, k + 1, m);
      r
    else
      assert forall m :: k < m <= |html| ==> !SingleLine(html, k, m);
      None
  }

  /** The regex's search: the leftmost start position `i >= p` at which the
      whole pattern matches, together with the closing tag the lazy group stops at. */
  function FirstMatch(html: string, p: nat): (r: Option<(nat, nat)>)
    requires p <= |html|
    ensures r.Some? ==> p <= r.value.0 && Pair(html, r.value.0, r.value.1)
    ensures r.Some? ==> forall q, j :: p <= q < r.value.0 ==> !Pair(html, q, j)
    ensures r.Some? ==> forall j :: j < r.value.1 ==> !Pair(html, r.value.0, j)
    ensures r.None? ==> forall q, j :: p <= q ==> !Pair(html, q, j)
    decreases |html| - p
  {
    if TagAt(html, p, OpenTag) && CloseFrom(html, p + |OpenTag|).Some? then
      Some((p, CloseFrom(html, p + |OpenTag|).value))
    else if p < |html| then
      assert forall j :: !Pair(html, p, j);
      FirstMatch(html, p + 1)
    else
      assert forall q, j :: p <= q ==> !Pair(html, q, j);
      None
  }

  /** `titleMatch ? titleMatch[1].trim() : ''` */
  function ExtractTitle(html: string): (r: string)
    ensures IsTrimmed(r)
  {
    match FirstMatch(html, 0)
    case Some((i, j)) => Trim(html[i + |OpenTag|..j])
    case None => ""
  }

  /** fetchUrlTitle: a failed request gives '' instead of an exception. */
  function FetchUrlTitle(page: Option<string>): (r: string)
    ensures IsTrimmed(r)
    ensures page.None? ==> r == ""
  {
    if page.None? then "" else ExtractTitle(page.value)
  }

  /** The title is the trimmed text between the leftmost opening tag that
      has a closing tag on the same line and the first such closing tag;
      with no such pair it is ''. */
  lemma ExtractTitleSpec(html: string)
    ensures (forall i, j :: !Pair(html, i, j)) ==> ExtractTitle(html) == ""
    ensures (exists i, j :: Pair(html, i, j)) ==>
              exists i, j :: && Pair(html, i, j)
                             && (forall q, l :: q < i ==> !Pair(html, q, l))
                             && (forall l :: l < j ==> !Pair(html, i, l))
                             && ExtractTitle(html) == Trim(html[i + |OpenTag|..j])
  {
    var r := FirstMatch(html, 0);
    if r.Some? {
      var i, j := r.value.0, r.value.1;
      assert Pair(html, i, j);
    }
  }

  /** The extracted title never spans a line break. */
  lemma ExtractTitleSingleLine(html: string, c: char)
    requires c in ExtractTitle(html)
    ensures !IsLineTerminator(c)
  {
    match FirstMatch(html, 0)
    case Some((i, j)) =>
      var inner := html[i + |OpenTag|..j];
      TrimKeepsCodePoints(inner, c);
      var k :| 0 <= k < |inner| && inner[k] == c;
      assert html[i + |OpenTag| + k] == c;
    case None =>
  }
}
