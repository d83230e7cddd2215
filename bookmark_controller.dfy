/** backend/controllers/bookmarkController.js over an in-memory collection:
    the title policy of createBookmark, and the owner-scoped create, get,
    update and delete with the duplicate-url answer of the unique index. */
module BookmarkController {
  import opened Wrappers
  import opened Text
  import opened Responses
  import opened BookmarkSchema
  import opened TitleExtraction
  import ListFilter

  const NotFoundMessage := "Bookmark not found"
  const UntitledBookmark := "Untitled Bookmark"

  /** The title createBookmark hands to the schema, whether it came from
      the page, and whether the page was fetched at all. */
  datatype TitleResolution = TitleResolution(title: string, autoFetched: bool, fetchAttempted: bool)

  /** Lines 95-106: fetch only for an absent or whitespace-only title, take
      the fetched title when it is non-empty, then `title || 'Untitled
      Bookmark'`. `page` is what fetching the url returned. */
  function ResolveTitle(title: Option<string>, page: Option<string>): (r: TitleResolution)
    ensures r.fetchAttempted <==> title.None? || IsBlank(title.value)
    ensures r.autoFetched <==> r.fetchAttempted && FetchUrlTitle(page) != ""
    ensures r.autoFetched ==> r.title == FetchUrlTitle(page)
    ensures !r.autoFetched && (title.None? || title.value == "") ==> r.title == UntitledBookmark
    ensures !r.autoFetched && title.Some? && title.value != "" ==> r.title == title.value
  {
    var attempted := title.None? || IsBlank(title.value);
    var fetched := if attempted then FetchUrlTitle(page) else "";
    var local := if fetched != "" then Some(fetched) else title;
    var passed := if local.None? || local.value == "" then UntitledBookmark else local.value;
    TitleResolution(passed, fetched != "", attempted)
  }

  /** A caller's non-blank title is kept as sent and nothing is fetched. */
  lemma GivenTitleWins(title: string, page: Option<string>)
    requires !IsBlank(title)
    ensures ResolveTitle(Some(title), page) == TitleResolution(title, false, false)
  {
  }

  /** An absent or empty title never fails `required`: either the fetched
      title or 'Untitled Bookmark' takes its place. */
  lemma MissingTitleIsReplaced(title: Option<string>, page: Option<string>)
    requires title.None? || title.value == ""
    ensures !IsBlank(ResolveTitle(title, page).title)
  {
    var r := ResolveTitle(title, page);
    TrimOfTrimmed(r.title);
    if !r.autoFetched {
      assert r.title == UntitledBookmark;
      assert r.title[0] == 'U';
    }
  }

  /** A whitespace-only title the page cannot replace reaches the schema
      as it is, and `required` rejects it after the trim setter. */
  lemma BlankTitleRejected(title: string, page: Option<string>, url: Option<string>,
                           description: string, parses: string -> bool)
    requires title != "" && IsBlank(title) && FetchUrlTitle(page) == ""
    ensures ResolveTitle(Some(title), page).title == title
    ensures TitleRequired in CreateErrors(url, ResolveTitle(Some(title), page).title, description, parses)
  {
  }

  /** What the list filter sees of a bookmark. */
  function View(b: Bookmark): ListFilter.RecordView {
    ListFilter.RecordView(b.userId, b.tags, b.isFavorite, SearchableFields(b))
  }

  /** The bookmarks collection; `parses` is the `new URL(v)` check. */
  class BookmarkStore {
    var bookmarks: map<Id, Bookmark>
    var nextId: Id
    const parses: string -> bool

    /** Every stored bookmark sits under its own id, below the next fresh
        id, satisfies the schema, and no owner has a url twice. */
    predicate Valid()
      reads this
    {
      && (forall id :: id in bookmarks ==>
            bookmarks[id].id == id && id < nextId && WellFormed(bookmarks[id], parses))
      && UniqueUrls(bookmarks)
    }

    constructor (parses: string -> bool)
      ensures Valid() && bookmarks == map[] && nextId == 0 && this.parses == parses
    {
      bookmarks := map[];
      nextId := 0;
      this.parses := parses;
    }

    predicate Owns(userId: UserId, id: Id)
      reads this
    {
      id in bookmarks && bookmarks[id].userId == userId
    }

    /** getBookmarks: the caller's bookmarks the parameters select, newest
        `updatedAt` first, with `count` their number. */
    method GetBookmarks(userId: UserId, params: ListFilter.ListParams,
                        textMatches: (string, seq<string>) -> bool)
      returns (resp: ListResponse<Bookmark>)
      requires Valid()
      ensures resp.count == |resp.data|
      ensures forall k :: 0 <= k < |resp.data| ==>
                resp.data[k].id in bookmarks && bookmarks[resp.data[k].id] == resp.data[k]
                && ListFilter.Selected(userId, params, View(resp.data[k]), textMatches)
      ensures forall id :: id in bookmarks && ListFilter.Selected(userId, params, View(bookmarks[id]), textMatches)
                ==> bookmarks[id] in resp.data
      ensures forall a, b :: 0 <= a < b < |resp.data| ==>
                resp.data[a].updatedAt >= resp.data[b].updatedAt && resp.data[a].id != resp.data[b].id
    {
      var query := ListFilter.BuildQuery(userId, params);
      var all := bookmarks;
      var keep := (b: Bookmark) => ListFilter.Matches(View(b), query, textMatches);
      var stamp := (b: Bookmark) => b.updatedAt;
      var ids := ListFilter.FindSorted(all, keep, stamp);
      var data := seq(|ids|, k requires 0 <= k < |ids| => all[ids[k]]);
      ListFilter.ListedRecords(all, keep, stamp, ids, data);
      forall k | 0 <= k < |data|
        ensures data[k].id in all && all[data[k].id] == data[k]
        ensures ListFilter.Selected(userId, params, View(data[k]), textMatches)
      {
        assert keep(data[k]);
      }
      forall a, b | 0 <= a < b < |data| ensures data[a].id != data[b].id {
        assert data[a].id == ids[a] && data[b].id == ids[b];
      }
      resp := ListResponse(|data|, data);
    }

    /** getBookmarkById: a missing and a foreign bookmark give the same 404. */
    method GetBookmarkById(userId: UserId, id: Id) returns (resp: Response<Bookmark>)
      requires Valid()
      ensures Owns(userId, id) ==> resp == Ok(200, None, bookmarks[id])
      ensures !Owns(userId, id) ==> resp == NotFound(NotFoundMessage)
    {
      if !Owns(userId, id) {
        return NotFound(NotFoundMessage);
      }
      resp := Ok(200, None, bookmarks[id]);
    }

    /** createBookmark: resolve the title, apply the defaults
        (`description || ''`, `tags || []`, `isFavorite || false`), validate,
        then let the unique index refuse a url the caller already has. */
    method CreateBookmark(userId: UserId, body: BookmarkBody, page: Option<string>, now: int)
      returns (resp: Response<Bookmark>)
      requires Valid()
      modifies this
      ensures Valid()
      ensures var res := ResolveTitle(body.title, page);
              var errors := CreateErrors(body.url, res.title, body.description.GetOr(""), parses);
              && (errors != [] ==>
                    resp == ValidationFailed(MapSeq(errors, Message)) && bookmarks == old(bookmarks) && nextId == old(nextId))
              && (errors == [] ==>
                    var b := NewBookmark(old(nextId), userId, body.url, res.title, body.description.GetOr(""),
                                         body.tags.GetOr([]), body.isFavorite.GetOr(false), res.autoFetched,
                                         now, parses);
                    if UrlTaken(old(bookmarks), userId, b.url, None) then
                      resp == DuplicateUrl && bookmarks == old(bookmarks) && nextId == old(nextId)
                    else
                      && resp == Ok(201, Some("Bookmark created successfully"), b)
                      && old(nextId) !in old(bookmarks)
                      && bookmarks == old(bookmarks)[old(nextId) := b] && nextId == old(nextId) + 1)
    {
      var res := ResolveTitle(body.title, page);
      var description := body.description.GetOr("");
      var errors := CreateErrors(body.url, res.title, description, parses);
      if errors != [] {
        return ValidationFailed(MapSeq(errors, Message));
      }
      var b := NewBookmark(nextId, userId, body.url, res.title, description,
                           body.tags.GetOr([]), body.isFavorite.GetOr(false), res.autoFetched, now, parses);
      if UrlTaken(bookmarks, userId, b.url, None) {
        return DuplicateUrl;
      }
      bookmarks := bookmarks[nextId := b];
      nextId := nextId + 1;
      resp := Ok(201, Some("Bookmark created successfully"), b);
    }

    /** updateBookmark: validate the update, find the caller's bookmark,
        refuse a url another of the caller's bookmarks has, then write. */
    method UpdateBookmark(userId: UserId, id: Id, body: BookmarkBody, now: int)
      returns (resp: Response<Bookmark>)
      requires Valid()
      modifies this
      ensures Valid() && nextId == old(nextId)
      ensures UpdateErrors(body, parses) != [] ==>
                resp == ValidationFailed(MapSeq(UpdateErrors(body, parses), Message)) && bookmarks == old(bookmarks)
      ensures UpdateErrors(body, parses) == [] && !old(Owns(userId, id)) ==>
                resp == NotFound(NotFoundMessage) && bookmarks == old(bookmarks)
      ensures UpdateErrors(body, parses) == [] && old(Owns(userId, id)) ==>
                var b := ApplyUpdate(old(bookmarks)[id], body, now);
                if UrlTaken(old(bookmarks), userId, b.url, Some(id)) then
                  resp == DuplicateUrl && bookmarks == old(bookmarks)
                else
                  resp == Ok(200, Some("Bookmark updated successfully"), b) && bookmarks == old(bookmarks)[id := b]
    {
      var errors := UpdateErrors(body, parses);
      if errors != [] {
        return ValidationFailed(MapSeq(errors, Message));
      }
      if !Owns(userId, id) {
        return NotFound(NotFoundMessage);
      }
      var b := ApplyUpdate(bookmarks[id], body, now);
      if UrlTaken(bookmarks, userId, b.url, Some(id)) {
        return DuplicateUrl;
      }
      UpdateKeepsWellFormed(bookmarks[id], body, now, parses);
      bookmarks := bookmarks[id := b];
      resp := Ok(200, Some("Bookmark updated successfully"), b);
    }

    /** deleteBookmark: `findOneAndDelete({ _id, userId })`. */
    method DeleteBookmark(userId: UserId, id: Id) returns (resp: Response<()>)
      requires Valid()
      modifies this
      ensures Valid() && nextId == old(nextId)
      ensures !old(Owns(userId, id)) ==> resp == NotFound(NotFoundMessage) && bookmarks == old(bookmarks)
      ensures old(Owns(userId, id)) ==>
                resp == Ok(200, Some("Bookmark deleted successfully"), ()) && bookmarks == old(bookmarks) - {id}
    {
      if !Owns(userId, id) {
        return NotFound(NotFoundMessage);
      }
      bookmarks := bookmarks - {id};
      resp := Ok(200, Some("Bookmark deleted successfully"), ());
    }
  }
}
