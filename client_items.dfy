/** The notes and bookmarks as the pages hold them (the JSON the API
    returns), and the list transformations the pages apply after a
    successful request. */
module ClientItems {
  import opened Wrappers
  import opened StringOrder

  /** What a note has that a bookmark does not, and the other way round. */
  datatype Detail =
    | NoteDetail(content: string)
    | BookmarkDetail(url: string, description: Option<string>)

  /** One record as received: `_id` is the server's id as a string. */
  datatype Item = Item(
    id: string,
    title: string,
    detail: Detail,
    tags: seq<string>,
    isFavorite: bool,
    createdAt: string,
    updatedAt: string)

  /** `{...item, isFavorite: !item.isFavorite}`: the body every favourite
      toggle sends. */
  function ToggleRequest(x: Item): (r: Item)
    ensures r.isFavorite == !x.isFavorite
    ensures r.(isFavorite := x.isFavorite) == x
  {
    x.(isFavorite := !x.isFavorite)
  }

  lemma ToggleRequestTwice(x: Item)
    ensures ToggleRequest(ToggleRequest(x)) == x
  {
  }

  /** The local flip after a toggle succeeded: the matching records get their
      own `isFavorite` negated, every other record is left alone. */
  function FlipFavorite(items: seq<Item>, id: string): (r: seq<Item>)
    ensures |r| == |items|
    ensures forall k :: 0 <= k < |r| ==> r[k].(isFavorite := items[k].isFavorite) == items[k]
    ensures forall k :: 0 <= k < |r| ==> (r[k].isFavorite != items[k].isFavorite <==> items[k].id == id)
  {
    seq(|items|, k requires 0 <= k < |items| =>
      if items[k].id == id then ToggleRequest(items[k]) else items[k])
  }

  lemma FlipFavoriteTwice(items: seq<Item>, id: string)
    ensures FlipFavorite(FlipFavorite(items, id), id) == items
  {
    var once := FlipFavorite(items, id);
    var twice := FlipFavorite(once, id);
    forall k | 0 <= k < |items| ensures twice[k] == items[k] {
      assert once[k].id == items[k].id;
    }
  }

  /** `prev.filter(x => x._id !== id)` */
  function RemoveById(items: seq<Item>, id: string): (r: seq<Item>)
    ensures forall x :: x in r <==> x in items && x.id != id
    ensures |r| <= |items|
  {
    if items == [] then []
    else (if items[0].id == id then [] else [items[0]]) + RemoveById(items[1..], id)
  }

  /** Removal keeps the order of what remains: it works piecewise over a
      concatenation. */
  lemma {:induction false} RemoveByIdAppend(a: seq<Item>, b: seq<Item>, id: string)
    ensures RemoveById(a + b, id) == RemoveById(a, id) + RemoveById(b, id)
    decreases |a|
  {
    if a == [] {
      assert a + b == b;
    } else {
      assert (a + b)[1..] == a[1..] + b;
      RemoveByIdAppend(a[1..], b, id);
    }
  }

  /** Removing an id that no record has changes nothing. */
  lemma {:induction false} RemoveAbsentId(items: seq<Item>, id: string)
    requires forall k :: 0 <= k < |items| ==> items[k].id != id
    ensures RemoveById(items, id) == items
    decreases |items|
  {
    if items != [] {
      RemoveAbsentId(items[1..], id);
      assert [items[0]] + items[1..] == items;
    }
  }

  /** How many records carry `id`. */
  function Occurrences(items: seq<Item>, id: string): (n: nat)
    ensures n <= |items|
    ensures n == 0 <==> forall k :: 0 <= k < |items| ==> items[k].id != id
  {
    if items == [] then 0
    else (if items[0].id == id then 1 else 0) + Occurrences(items[1..], id)
  }

  lemma {:induction false} RemoveByIdLength(items: seq<Item>, id: string)
    ensures |RemoveById(items, id)| == |items| - Occurrences(items, id)
    decreases |items|
  {
    if items != [] {
      RemoveByIdLength(items[1..], id);
    }
  }

  /** `prev.map(x => x._id === updated._id ? updated : x)` */
  function ReplaceById(items: seq<Item>, updated: Item): (r: seq<Item>)
    ensures |r| == |items|
    ensures forall k :: 0 <= k < |r| ==> r[k].id == items[k].id
    ensures forall k :: 0 <= k < |r| ==> items[k].id != updated.id ==> r[k] == items[k]
    ensures forall k :: 0 <= k < |r| ==> items[k].id == updated.id ==> r[k] == updated
  {
    seq(|items|, k requires 0 <= k < |items| =>
      if items[k].id == updated.id then updated else items[k])
  }

  lemma ReplaceByIdIdempotent(items: seq<Item>, updated: Item)
    ensures ReplaceById(ReplaceById(items, updated), updated) == ReplaceById(items, updated)
  {
  }

  /** `items.find(x => x._id === id)`: the first record with that id. */
  function FindById(items: seq<Item>, id: string): (r: Option<Item>)
    ensures r.None? <==> Occurrences(items, id) == 0
    ensures r.Some? ==> r.value in items && r.value.id == id
    ensures r.Some? ==> exists k :: 0 <= k < |items| && items[k] == r.value
                          && forall j :: 0 <= j < k ==> items[j].id != id
  {
    if items == [] then None
    else if items[0].id == id then Some(items[0])
    else
      var r := FindById(items[1..], id);
      FirstInTail(items, id, r);
      r
  }

  lemma FirstInTail(items: seq<Item>, id: string, r: Option<Item>)
    requires items != [] && items[0].id != id
    requires r.Some? ==> exists k :: 0 <= k < |items[1..]| && items[1..][k] == r.value
                          && forall j :: 0 <= j < k ==> items[1..][j].id != id
    ensures r.Some? ==> exists k :: 0 <= k < |items| && items[k] == r.value
                          && forall j :: 0 <= j < k ==> items[j].id != id
  {
    if r.Some? {
      var k :| 0 <= k < |items[1..]| && items[1..][k] == r.value
               && forall j :: 0 <= j < k ==> items[1..][j].id != id;
      assert items[k + 1] == r.value;
      assert forall j :: 0 < j < k + 1 ==> items[j] == items[1..][j - 1];
    }
  }

  /** `items.filter(x => x.isFavorite).length` */
  function CountFavorites(items: seq<Item>): (n: nat)
    ensures n <= |items|
    ensures n == 0 <==> forall k :: 0 <= k < |items| ==> !items[k].isFavorite
    ensures n == |items| <==> forall k :: 0 <= k < |items| ==> items[k].isFavorite
  {
    if items == [] then 0
    else (if items[0].isFavorite then 1 else 0) + CountFavorites(items[1..])
  }

  lemma {:induction false} CountFavoritesAppend(a: seq<Item>, b: seq<Item>)
    ensures CountFavorites(a + b) == CountFavorites(a) + CountFavorites(b)
    decreases |a|
  {
    if a == [] {
      assert a + b == b;
    } else {
      assert (a + b)[1..] == a[1..] + b;
      CountFavoritesAppend(a[1..], b);
    }
  }

  /** Removing a record that occurs once takes away exactly its own
      contribution to the favourite count. */
  lemma {:induction false} CountFavoritesRemoveUnique(items: seq<Item>, id: string)
    requires Occurrences(items, id) == 1
    ensures CountFavorites(RemoveById(items, id))
            == CountFavorites(items) - (if FindById(items, id).value.isFavorite then 1 else 0)
    decreases |items|
  {
    var rest := items[1..];
    if items[0].id == id {
      assert Occurrences(rest, id) == 0;
      RemoveAbsentId(rest, id);
      assert RemoveById(items, id) == rest;
    } else {
      assert Occurrences(rest, id) == 1;
      CountFavoritesRemoveUnique(rest, id);
      assert RemoveById(items, id) == [items[0]] + RemoveById(rest, id);
      assert FindById(items, id) == FindById(rest, id);
      CountFavoritesAppend([items[0]], RemoveById(rest, id));
    }
  }

  /** `tags.filter(t => t !== tag)` */
  function Omit(xs: seq<string>, x: string): (r: seq<string>)
    ensures forall y :: y in r <==> y in xs && y != x
    ensures |r| <= |xs|
  {
    if xs == [] then []
    else (if xs[0] == x then [] else [xs[0]]) + Omit(xs[1..], x)
  }

  predicate NoDuplicates(xs: seq<string>) {
    forall i, j :: 0 <= i < j < |xs| ==> xs[i] != xs[j]
  }

  lemma {:induction false} OmitAbsent(xs: seq<string>, x: string)
    requires x !in xs
    ensures Omit(xs, x) == xs
    decreases |xs|
  {
    if xs != [] {
      OmitAbsent(xs[1..], x);
      assert [xs[0]] + xs[1..] == xs;
    }
  }

  lemma {:induction false} OmitKeepsNoDuplicates(xs: seq<string>, x: string)
    requires NoDuplicates(xs)
    ensures NoDuplicates(Omit(xs, x))
    decreases |xs|
  {
    if xs != [] {
      OmitKeepsNoDuplicates(xs[1..], x);
      assert xs[0] !in xs[1..];
    }
  }

  /** `toggleTag`: a selected tag is deselected, any other is appended. */
  function ToggleTag(selected: seq<string>, tag: string): (r: seq<string>)
    ensures forall t :: t in r <==> (t in selected) != (t == tag)
  {
    if tag in selected then Omit(selected, tag) else selected + [tag]
  }

  lemma ToggleTagKeepsNoDuplicates(selected: seq<string>, tag: string)
    requires NoDuplicates(selected)
    ensures NoDuplicates(ToggleTag(selected, tag))
  {
    if tag in selected {
      OmitKeepsNoDuplicates(selected, tag);
    }
  }

  /** Selecting a tag and deselecting it again restores the exact selection. */
  lemma ToggleTagTwiceAbsent(selected: seq<string>, tag: string)
    requires tag !in selected
    ensures ToggleTag(ToggleTag(selected, tag), tag) == selected
  {
    assert tag in selected + [tag];
    OmitAbsentAppend(selected, tag);
  }

  lemma {:induction false} OmitAbsentAppend(xs: seq<string>, x: string)
    requires x !in xs
    ensures Omit(xs + [x], x) == xs
    decreases |xs|
  {
    if xs == [] {
    } else {
      assert (xs + [x])[1..] == xs[1..] + [x];
      OmitAbsentAppend(xs[1..], x);
      assert [xs[0]] + xs[1..] == xs;
    }
  }

  /** Deselecting and selecting again moves the tag to the end. */
  lemma ToggleTagTwicePresent(selected: seq<string>, tag: string)
    requires tag in selected
    ensures ToggleTag(ToggleTag(selected, tag), tag) == Omit(selected, tag) + [tag]
  {
  }

  /** Every tag of every record, once each. */
  ghost predicate HasTag(items: seq<Item>, t: string) {
    exists k :: 0 <= k < |items| && t in items[k].tags
  }

  /** `allTags`: the fetched records' tags gathered into a `Set` and sorted;
      the result is strictly ascending and holds exactly the tags that
      occur, so it is the one list with those two properties. */
  method CollectTags(items: seq<Item>) returns (allTags: seq<string>)
    ensures StrictlyAscending(allTags)
    ensures forall t :: t in allTags <==> HasTag(items, t)
  {
    allTags := [];
    var i := 0;
    while i < |items|
      invariant 0 <= i <= |items|
      invariant StrictlyAscending(allTags)
      invariant forall t :: t in allTags <==> HasTag(items[..i], t)
    {
      var tags := items[i].tags;
      var j := 0;
      while j < |tags|
        invariant 0 <= j <= |tags|
        invariant StrictlyAscending(allTags)
        invariant forall t :: t in allTags <==> HasTag(items[..i], t) || t in tags[..j]
      {
        allTags := InsertAscending(allTags, tags[j]);
        assert tags[..j + 1] == tags[..j] + [tags[j]];
        j := j + 1;
      }
      assert tags[..j] == tags;
      HasTagExtend(items, i);
      i := i + 1;
    }
    assert items[..i] == items;
  }

  lemma HasTagExtend(items: seq<Item>, i: nat)
    requires i < |items|
    ensures forall t :: HasTag(items[..i + 1], t) <==> HasTag(items[..i], t) || t in items[i].tags
  {
    forall t ensures HasTag(items[..i + 1], t) <==> HasTag(items[..i], t) || t in items[i].tags {
      if HasTag(items[..i + 1], t) {
        var k :| 0 <= k < i + 1 && t in items[..i + 1][k].tags;
        if k < i {
          assert items[..i][k] == items[k];
        }
      }
      if HasTag(items[..i], t) {
        var k :| 0 <= k < i && t in items[..i][k].tags;
        assert items[..i + 1][k] == items[k];
      }
      if t in items[i].tags {
        assert items[..i + 1][i] == items[i];
      }
    }
  }
}
