/** The Note schema of backend/models/Note.js: the document Mongoose stores
    for a note, the setters it applies (trim, lower-case tags) and the
    messages its validators report. */
module NoteSchema {
  import opened Wrappers
  import opened Text

  type Id = nat
  type UserId = nat

  /** A stored note; timestamps are given integers. */
  datatype Note = Note(id: Id, title: string, content: string, tags: seq<string>,
                       isFavorite: bool, userId: UserId, createdAt: int, updatedAt: int)

  const MaxTitleLength := 200

  /** The validator failures Mongoose can report for a note path. */
  datatype Violation = TitleRequired | TitleTooLong | ContentRequired

  /** The `message` each validator is declared with. */
  function Message(v: Violation): string {
    match v
    case TitleRequired => "Note title is required"
    case TitleTooLong => "Title cannot exceed 200 characters"
    case ContentRequired => "Note content is required"
  }

  /** What the schema guarantees of every stored note. */
  predicate WellFormed(n: Note) {
    && n.title != "" && IsTrimmed(n.title) && |n.title| <= MaxTitleLength
    && n.content != "" && IsTrimmed(n.content)
    && forall k :: 0 <= k < |n.tags| ==> IsNormalised(n.tags[k])
  }

  /** The body fields createNote and updateNote read; None is `undefined`. */
  datatype NoteBody = NoteBody(title: Option<string>, content: Option<string>,
                               tags: Option<seq<string>>, isFavorite: Option<bool>)

  /** The title path: trim setter, then `required`, then `maxLength`;
      Mongoose reports the first validator that fails. */
  function TitleError(title: Option<string>): Option<Violation> {
    if title.None? || IsBlank(title.value) then Some(TitleRequired)
    else if |Trim(title.value)| > MaxTitleLength then Some(TitleTooLong)
    else None
  }

  /** The content path: trim setter, then `required`; no length bound. */
  function ContentError(content: Option<string>): Option<Violation> {
    if content.None? || IsBlank(content.value) then Some(ContentRequired) else None
  }

  /** The failing paths' violations, in schema order. */
  function PathViolations(title: Option<Violation>, content: Option<Violation>): seq<Violation> {
    match (title, content)
    case (Some(t), Some(c)) => [t, c]
    case (Some(t), None) => [t]
    case (None, Some(c)) => [c]
    case (None, None) => []
  }

  /** The violations `note.save()` reports for a new note, in path order. */
  function CreateErrors(body: NoteBody): (errors: seq<Violation>)
    ensures errors == [] <==> && body.title.Some? && 0 < |Trim(body.title.value)| <= MaxTitleLength
                              && body.content.Some? && !IsBlank(body.content.value)
    ensures TitleRequired in errors <==> body.title.None? || IsBlank(body.title.value)
    ensures TitleTooLong in errors <==> body.title.Some? && |Trim(body.title.value)| > MaxTitleLength
    ensures ContentRequired in errors <==> body.content.None? || IsBlank(body.content.value)
    ensures |errors| <= 2 && (ContentRequired in errors ==> errors[|errors| - 1] == ContentRequired)
  {
    PathViolations(TitleError(body.title), ContentError(body.content))
  }

  /** The document createNote builds: `tags || []`, `isFavorite || false`,
      the owner is the caller; then the schema's setters. */
  function NewNote(id: Id, userId: UserId, body: NoteBody, now: int): (n: Note)
    requires CreateErrors(body) == []
    ensures WellFormed(n)
    ensures n.id == id && n.userId == userId && n.createdAt == now && n.updatedAt == now
    ensures n.isFavorite == (body.isFavorite == Some(true))
    ensures body.tags.None? ==> n.tags == []
  {
    NormaliseAllNormalised(body.tags.GetOr([]));
    Note(id, Trim(body.title.value), Trim(body.content.value),
         NormaliseAll(body.tags.GetOr([])), body.isFavorite.GetOr(false), userId, now, now)
  }

  /** The violations the update validators report: only the paths the update
      sets are validated, in the order `{ title, content, tags, isFavorite }`. */
  function UpdateErrors(body: NoteBody): (errors: seq<Violation>)
    ensures errors == [] <==> && (body.title.Some? ==> 0 < |Trim(body.title.value)| <= MaxTitleLength)
                              && (body.content.Some? ==> !IsBlank(body.content.value))
    ensures TitleRequired in errors <==> body.title.Some? && IsBlank(body.title.value)
    ensures TitleTooLong in errors <==> body.title.Some? && |Trim(body.title.value)| > MaxTitleLength
    ensures ContentRequired in errors <==> body.content.Some? && IsBlank(body.content.value)
    ensures |errors| <= 2 && (ContentRequired in errors ==> errors[|errors| - 1] == ContentRequired)
  {
    match (body.title, body.content)
    case (None, None) => []
    case (Some(_), None) => PathViolations(TitleError(body.title), None)
    case (None, Some(_)) => PathViolations(None, ContentError(body.content))
    case (Some(_), Some(_)) => CreateErrors(body)
  }

  /** `findOneAndUpdate(filter, { title, content, tags, isFavorite })`: the
      fields the body sets are overwritten (after the setters), the others
      keep their stored value; the timestamp plugin sets `updatedAt`. */
  function ApplyUpdate(n: Note, body: NoteBody, now: int): (r: Note)
    ensures r.id == n.id && r.userId == n.userId && r.createdAt == n.createdAt && r.updatedAt == now
    ensures r.title == (if body.title.Some? then Trim(body.title.value) else n.title)
    ensures r.content == (if body.content.Some? then Trim(body.content.value) else n.content)
    ensures r.tags == (if body.tags.Some? then NormaliseAll(body.tags.value) else n.tags)
    ensures r.isFavorite == body.isFavorite.GetOr(n.isFavorite)
    ensures WellFormed(n) && UpdateErrors(body) == [] ==> WellFormed(r)
  {
    n.(title := if body.title.Some? then Trim(body.title.value) else n.title,
       content := if body.content.Some? then Trim(body.content.value) else n.content,
       tags := if body.tags.Some? then NormaliseAll(body.tags.value) else n.tags,
       isFavorite := body.isFavorite.GetOr(n.isFavorite),
       updatedAt := now)
  }

  /** The words a text search looks at: the text index covers exactly
      title, content and tags. */
  function SearchableFields(n: Note): seq<string> {
    [n.title, n.content] + n.tags
  }
}
