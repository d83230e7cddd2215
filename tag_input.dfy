/** The comma-separated tag field of the create and edit forms: the string
    is split on ',', every piece trimmed and lower-cased, empty pieces dropped
    (CreateNoteModal, CreateBookmarkModal, NoteDetailModal and
    BookmarkDetailModal all use the same chain); the edit forms show the
    stored tags joined with ", ". */
module TagInput {
  import opened Text

  /** What the parser produces: non-empty, trimmed, lower case, comma-free. */
  predicate IsCanonicalTag(t: string) {
    t != "" && IsNormalised(t) && ',' !in t
  }

  /** `.filter(tag => tag.length > 0)`: the non-empty elements, in order. */
  function NonEmpty(xs: seq<string>): (r: seq<string>)
    ensures forall k :: 0 <= k < |r| ==> r[k] != ""
    ensures forall x :: x in r <==> x in xs && x != ""
  {
    if xs == [] then []
    else (if xs[0] == "" then [] else [xs[0]]) + NonEmpty(xs[1..])
  }

  /** The tag string of a form as the array sent to the server. */
  function ParseTags(s: string): (r: seq<string>)
    ensures forall k :: 0 <= k < |r| ==> IsCanonicalTag(r[k])
  {
    var r := NonEmpty(NormaliseAll(Split(s, ',')));
    forall k | 0 <= k < |r| ensures IsCanonicalTag(r[k]) {
      ParsedTagCanonical(s, k);
    }
    r
  }

  lemma ParsedTagCanonical(s: string, k: nat)
    requires k < |NonEmpty(NormaliseAll(Split(s, ',')))|
    ensures IsCanonicalTag(NonEmpty(NormaliseAll(Split(s, ',')))[k])
  {
    var pieces := Split(s, ',');
    var normal := NormaliseAll(pieces);
    var r := NonEmpty(normal);
    assert r[k] in r;
    var j :| 0 <= j < |normal| && normal[j] == r[k];
    NormaliseCommaFree(pieces[j]);
  }

  lemma NormaliseCommaFree(p: string)
    requires ',' !in p
    ensures ',' !in Normalise(p)
  {
    if ',' in Normalise(p) {
      NormaliseKeepsCodePoints(p, ',');
    }
  }

  /** The edit form's tag string: `tags.join(', ')`. */
  function EditFormTags(tags: seq<string>): string {
    Join(tags, ", ")
  }

  /** A tag appears in the parse exactly when it is the non-empty
      normalisation of one of the comma-separated pieces. */
  lemma ParseTagsMembership(s: string, t: string)
    ensures t in ParseTags(s) <==> t != "" && exists p :: p in Split(s, ',') && Normalise(p) == t
  {
    var pieces := Split(s, ',');
    if t != "" && exists p :: p in pieces && Normalise(p) == t {
      var p :| p in pieces && Normalise(p) == t;
      var k :| 0 <= k < |pieces| && pieces[k] == p;
      assert NormaliseAll(pieces)[k] == t;
    }
  }

  lemma {:induction false} NonEmptyKeepsNonEmpty(xs: seq<string>)
    requires forall k :: 0 <= k < |xs| ==> xs[k] != ""
    ensures NonEmpty(xs) == xs
  {
    if xs != [] {
      NonEmptyKeepsNonEmpty(xs[1..]);
      assert [xs[0]] + xs[1..] == xs;
    }
  }

  /** Normalising canonical tags, some with a space in front, gives the tags. */
  lemma NormaliseAllCanonical(ys: seq<string>, tags: seq<string>)
    requires |ys| == |tags|
    requires forall k :: 0 <= k < |tags| ==> IsCanonicalTag(tags[k])
    requires forall k :: 0 <= k < |tags| ==> ys[k] == tags[k] || ys[k] == " " + tags[k]
    ensures NormaliseAll(ys) == tags
  {
    forall k | 0 <= k < |tags| ensures NormaliseAll(ys)[k] == tags[k] {
      if ys[k] == tags[k] {
        NormaliseNormalised("", tags[k]);
        assert "" + tags[k] == tags[k];
      } else {
        NormaliseNormalised(" ", tags[k]);
      }
    }
  }

  /** Canonical tags pass through the schema's trim-and-lower-case setter. */
  lemma NormaliseCanonicalTags(tags: seq<string>)
    requires forall k :: 0 <= k < |tags| ==> IsCanonicalTag(tags[k])
    ensures NormaliseAll(tags) == tags
  {
    NormaliseAllCanonical(tags, tags);
  }

  /** Parsing the edit form's tag string gives back the stored tags when
      they are canonical. */
  lemma ParseJoinRoundTrip(tags: seq<string>)
    requires forall k :: 0 <= k < |tags| ==> IsCanonicalTag(tags[k])
    ensures ParseTags(EditFormTags(tags)) == tags
  {
    if tags == [] {
      assert Split("", ',') == [""];
      assert NormaliseAll([""]) == [""];
    } else {
      var ys := [tags[0]] + SpacePrefixed(tags[1..]);
      JoinCommaSpace(tags);
      SplitJoin(ys, ',');
      NormaliseAllCanonical(ys, tags);
      NonEmptyKeepsNonEmpty(tags);
    }
  }

  /** The same round trip for a plain ',' join. */
  lemma ParseCommaJoinRoundTrip(tags: seq<string>)
    requires forall k :: 0 <= k < |tags| ==> IsCanonicalTag(tags[k])
    ensures ParseTags(Join(tags, ",")) == tags
  {
    if tags == [] {
      assert Split("", ',') == [""];
      assert NormaliseAll([""]) == [""];
    } else {
      SplitJoin(tags, ',');
      NormaliseAllCanonical(tags, tags);
      NonEmptyKeepsNonEmpty(tags);
    }
  }

  /** Parsing is idempotent: re-parsing the ','-join of a parse changes nothing. */
  lemma ParseTagsIdempotent(s: string)
    ensures ParseTags(Join(ParseTags(s), ",")) == ParseTags(s)
    ensures ParseTags(EditFormTags(ParseTags(s))) == ParseTags(s)
  {
    ParseJoinRoundTrip(ParseTags(s));
    ParseCommaJoinRoundTrip(ParseTags(s));
  }
}
