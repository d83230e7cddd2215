/** The Bookmark schema of backend/models/Bookmark.js: the stored document,
    its setters (trim, lower-case tags), its defaults, the messages its
    validators report and the unique `(userId, url)` index. */
module BookmarkSchema {
  import opened Wrappers
  import opened Text

  type Id = nat
  type UserId = nat

  /** A stored bookmark; timestamps are given integers. */
  datatype Bookmark = Bookmark(id: Id, url: string, title: string, description: string,
                               tags: seq<string>, isFavorite: bool, userId: UserId,
                               favicon: string, autoFetched: bool,
                               createdAt: int, updatedAt: int)

  const MaxTitleLength := 300
  const MaxDescriptionLength := 1000

  /** The validator failures Mongoose can report for a bookmark path. */
  datatype Violation = UrlRequired | UrlInvalid | TitleRequired | TitleTooLong | DescriptionTooLong

  /** The `message` each validator is declared with. */
  function Message(v: Violation): string {
    match v
    case UrlRequired => "URL is required"
    case UrlInvalid => "Please provide a valid URL"
    case TitleRequired => "Bookmark title is required"
    case TitleTooLong => "Title cannot exceed 300 characters"
    case DescriptionTooLong => "Description cannot exceed 1000 characters"
  }

  /** What the schema guarantees of every stored bookmark; `parses` is the
      `new URL(v)` check of the custom validator. */
  predicate WellFormed(b: Bookmark, parses: string -> bool) {
    && b.url != "" && IsTrimmed(b.url) && parses(b.url)
    && b.title != "" && IsTrimmed(b.title) && |b.title| <= MaxTitleLength
    && IsTrimmed(b.description) && |b.description| <= MaxDescriptionLength
    && (forall k :: 0 <= k < |b.tags| ==> IsNormalised(b.tags[k]))
    && b.favicon == ""
  }

  /** The body fields the controller reads; None is `undefined`. */
  datatype BookmarkBody = BookmarkBody(url: Option<string>, title: Option<string>,
                                       description: Option<string>,
                                       tags: Option<seq<string>>, isFavorite: Option<bool>)

  /** The url path: trim setter, `required`, then the URL validator. */
  function UrlError(url: Option<string>, parses: string -> bool): Option<Violation> {
    if url.None? || IsBlank(url.value) then Some(UrlRequired)
    else if !parses(Trim(url.value)) then Some(UrlInvalid)
    else None
  }

  /** The title path: trim setter, `required`, then `maxLength`. */
  function TitleError(title: Option<string>): Option<Violation> {
    if title.None? || IsBlank(title.value) then Some(TitleRequired)
    else if |Trim(title.value)| > MaxTitleLength then Some(TitleTooLong)
    else None
  }

  /** The description path: trim setter, then `maxLength`; it is optional. */
  function DescriptionError(description: Option<string>): Option<Violation> {
    if description.Some? && |Trim(description.value)| > MaxDescriptionLength
    then Some(DescriptionTooLong) else None
  }

  /** The failing paths' violations, in schema order. */
  function PathViolations(url: Option<Violation>, title: Option<Violation>,
                          description: Option<Violation>): (r: seq<Violation>)
    ensures forall v :: v in r <==> url == Some(v) || title == Some(v) || description == Some(v)
    ensures r == [] <==> url.None? && title.None? && description.None?
    ensures |r| <= 3
  {
    var first := if url.Some? then [url.value] else [];
    var second := if title.Some? then first + [title.value] else first;
    if description.Some? then second + [description.value] else second
  }

  /** The violations `bookmark.save()` reports for the document the
      controller builds (its title and description are always strings). */
  function CreateErrors(url: Option<string>, title: string, description: string,
                        parses: string -> bool): (errors: seq<Violation>)
    ensures errors == [] <==> && url.Some? && !IsBlank(url.value) && parses(Trim(url.value))
                              && !IsBlank(title) && |Trim(title)| <= MaxTitleLength
                              && |Trim(description)| <= MaxDescriptionLength
    ensures UrlRequired in errors <==> url.None? || IsBlank(url.value)
    ensures UrlInvalid in errors <==> url.Some? && !IsBlank(url.value) && !parses(Trim(url.value))
    ensures TitleRequired in errors <==> IsBlank(title)
    ensures TitleTooLong in errors <==> |Trim(title)| > MaxTitleLength
    ensures DescriptionTooLong in errors <==> |Trim(description)| > MaxDescriptionLength
    ensures |errors| <= 3
  {
    PathViolations(UrlError(url, parses), TitleError(Some(title)), DescriptionError(Some(description)))
  }

  /** The document createBookmark saves once validation passes: the
      setters applied, the caller as owner, `favicon` at its default ''. */
  function NewBookmark(id: Id, userId: UserId, url: Option<string>, title: string, description: string,
                       tags: seq<string>, isFavorite: bool, autoFetched: bool, now: int,
                       parses: string -> bool): (b: Bookmark)
    requires CreateErrors(url, title, description, parses) == []
    ensures WellFormed(b, parses)
    ensures b.id == id && b.userId == userId && b.createdAt == now && b.updatedAt == now
    ensures b.favicon == "" && b.autoFetched == autoFetched && b.isFavorite == isFavorite
  {
    NormaliseAllNormalised(tags);
    Bookmark(id, Trim(url.value), Trim(title), Trim(description), NormaliseAll(tags), isFavorite,
             userId, "", autoFetched, now, now)
  }

  /** The violations the update validators report: only the paths the
      update sets are validated. */
  function UpdateErrors(body: BookmarkBody, parses: string -> bool): (errors: seq<Violation>)
    ensures errors == [] <==> && (body.url.Some? ==> !IsBlank(body.url.value) && parses(Trim(body.url.value)))
                              && (body.title.Some? ==> 0 < |Trim(body.title.value)| <= MaxTitleLength)
                              && (body.description.Some? ==> |Trim(body.description.value)| <= MaxDescriptionLength)
    ensures UrlRequired in errors <==> body.url.Some? && IsBlank(body.url.value)
    ensures UrlInvalid in errors <==> body.url.Some? && !IsBlank(body.url.value) && !parses(Trim(body.url.value))
    ensures TitleRequired in errors <==> body.title.Some? && IsBlank(body.title.value)
    ensures TitleTooLong in errors <==> body.title.Some? && |Trim(body.title.value)| > MaxTitleLength
    ensures DescriptionTooLong in errors <==> body.description.Some? && |Trim(body.description.value)| > MaxDescriptionLength
    ensures |errors| <= 3
  {
    PathViolations(if body.url.Some? then UrlError(body.url, parses) else None,
                   if body.title.Some? then TitleError(body.title) else None,
                   DescriptionError(body.description))
  }

  /** `findOneAndUpdate(filter, { url, title, description, tags, isFavorite })`:
      the fields the body sets are overwritten (after the setters), all
      others keep their stored value; `updatedAt` becomes `now`. */
  function ApplyUpdate(b: Bookmark, body: BookmarkBody, now: int): (r: Bookmark)
    ensures r.id == b.id && r.userId == b.userId && r.createdAt == b.createdAt && r.updatedAt == now
    ensures r.favicon == b.favicon && r.autoFetched == b.autoFetched
    ensures r.url == (if body.url.Some? then Trim(body.url.value) else b.url)
    ensures r.title == (if body.title.Some? then Trim(body.title.value) else b.title)
    ensures r.description == (if body.description.Some? then Trim(body.description.value) else b.description)
    ensures r.tags == (if body.tags.Some? then NormaliseAll(body.tags.value) else b.tags)
    ensures r.isFavorite == body.isFavorite.GetOr(b.isFavorite)
  {
    b.(url := if body.url.Some? then Trim(body.url.value) else b.url,
       title := if body.title.Some? then Trim(body.title.value) else b.title,
       description := if body.description.Some? then Trim(body.description.value) else b.description,
       tags := if body.tags.Some? then NormaliseAll(body.tags.value) else b.tags,
       isFavorite := body.isFavorite.GetOr(b.isFavorite),
       updatedAt := now)
  }

  /** An update the validators accept keeps a bookmark well formed. */
  lemma UpdateKeepsWellFormed(b: Bookmark, body: BookmarkBody, now: int, parses: string -> bool)
    requires WellFormed(b, parses) && UpdateErrors(body, parses) == []
    ensures WellFormed(ApplyUpdate(b, body, now), parses)
  {
    NormaliseAllNormalised(body.tags.GetOr([]));
  }

  /** The unique index `{ userId: 1, url: 1 }`: no two bookmarks of one
      owner share a url. */
  predicate UniqueUrls(bookmarks: map<Id, Bookmark>) {
    forall i, j ::
      i in bookmarks && j in bookmarks && i != j && bookmarks[i].userId == bookmarks[j].userId
      ==> bookmarks[i].url != bookmarks[j].url
  }

  /** Whether a bookmark other than `except` already has this owner and url. */
  predicate UrlTaken(bookmarks: map<Id, Bookmark>, userId: UserId, url: string, except: Option<Id>) {
    exists i :: i in bookmarks && Some(i) != except && bookmarks[i].userId == userId && bookmarks[i].url == url
  }

  /** The words a text search looks at: title, description, tags and url. */
  function SearchableFields(b: Bookmark): seq<string> {
    [b.title, b.description] + b.tags + [b.url]
  }
}
