/** BookmarkDetailModal: the bookmark counterpart of the note detail modal;
    the form edits url, title, description, tags and the favourite flag, and
    the answers and failure texts name bookmarks. */
module BookmarkDetail {
  import opened Wrappers
  import opened Text
  import opened TagInput
  import opened ClientItems
  import opened ClientReply
  import BookmarkSchema

  const LoadFailedText := "Failed to load bookmark"
  const FetchFallback := "Failed to fetch bookmark"
  const UpdateFailedText := "Failed to update bookmark"
  const DeleteFailedText := "Failed to delete bookmark"

  /** The `editForm` state. */
  datatype EditForm = EditForm(title: string, url: string, description: string, tags: string,
                               isFavorite: bool)

  datatype Field = Title | Url | Description | Tags

  /** What the modal body shows, decided in the order the markup tests. */
  datatype Panel = Spinner | ErrorPanel(message: string) | EditPanel(form: EditForm)
                 | DetailPanel(bookmark: Item) | Empty

  /** `data.data.url`; an answer without one reads as the empty text. */
  function UrlOf(x: Item): string {
    match x.detail
    case BookmarkDetail(u, _) => u
    case NoteDetail(_) => ""
  }

  /** `data.data.description`, absent read as the empty text. */
  function DescriptionOf(x: Item): string {
    match x.detail
    case BookmarkDetail(_, d) => d.GetOr("")
    case NoteDetail(_) => ""
  }

  /** The form filled from a loaded bookmark. */
  function FormOf(x: Item): EditForm {
    EditForm(x.title, UrlOf(x), DescriptionOf(x), EditFormTags(x.tags), x.isFavorite)
  }

  /** The body `handleSaveEdit` sends, as the bookmark controller reads it:
      nothing trimmed, tags parsed from the field. */
  function SaveBody(f: EditForm): BookmarkSchema.BookmarkBody {
    BookmarkSchema.BookmarkBody(Some(f.url), Some(f.title), Some(f.description),
                                Some(ParseTags(f.tags)), Some(f.isFavorite))
  }

  /** The body a favourite toggle sends, as the controller reads it. */
  function ToggleBody(x: Item): BookmarkSchema.BookmarkBody {
    var t := ToggleRequest(x);
    var description := match t.detail
                       case BookmarkDetail(_, d) => d
                       case NoteDetail(_) => None;
    BookmarkSchema.BookmarkBody(Some(UrlOf(t)), Some(t.title), description, Some(t.tags),
                                Some(t.isFavorite))
  }

  /** The client record `x` is the JSON of the stored bookmark `b`. */
  predicate Shows(x: Item, b: BookmarkSchema.Bookmark) {
    x.title == b.title && x.detail == BookmarkDetail(b.url, Some(b.description))
    && x.tags == b.tags && x.isFavorite == b.isFavorite
  }

  /** A save passes the validators exactly when the url parses once
      trimmed, the title trims to 1..300 code points and the description to
      at most 1000; the bookmark then holds the trimmed texts and exactly the
      parsed tags. */
  lemma SaveStoresForm(b: BookmarkSchema.Bookmark, f: EditForm, now: int, parses: string -> bool)
    ensures BookmarkSchema.UpdateErrors(SaveBody(f), parses) == [] <==>
              && !IsBlank(f.url) && parses(Trim(f.url))
              && 0 < |Trim(f.title)| <= BookmarkSchema.MaxTitleLength
              && |Trim(f.description)| <= BookmarkSchema.MaxDescriptionLength
    ensures BookmarkSchema.ApplyUpdate(b, SaveBody(f), now)
              == b.(url := Trim(f.url), title := Trim(f.title), description := Trim(f.description),
                    tags := ParseTags(f.tags), isFavorite := f.isFavorite, updatedAt := now)
  {
    NormaliseCanonicalTags(ParseTags(f.tags));
  }

  /** Saving a form nobody edited passes the validators and changes nothing
      but the timestamp, provided the stored tags are ones the tag field can
      give back. */
  lemma {:induction false} UneditedSaveKeepsBookmark(b: BookmarkSchema.Bookmark, x: Item, now: int,
                                                    parses: string -> bool)
    requires BookmarkSchema.WellFormed(b, parses) && Shows(x, b)
    requires forall k :: 0 <= k < |b.tags| ==> IsCanonicalTag(b.tags[k])
    ensures BookmarkSchema.UpdateErrors(SaveBody(FormOf(x)), parses) == []
    ensures BookmarkSchema.ApplyUpdate(b, SaveBody(FormOf(x)), now) == b.(updatedAt := now)
  {
    ParseJoinRoundTrip(b.tags);
    NormaliseCanonicalTags(b.tags);
    TrimOfTrimmed(b.url);
    TrimOfTrimmed(b.title);
    TrimOfTrimmed(b.description);
  }

  /** A favourite toggle of a displayed bookmark passes the validators and
      flips the stored flag, leaving every other field as stored. */
  lemma {:induction false} ToggleFlipsOnlyFavorite(b: BookmarkSchema.Bookmark, x: Item, now: int,
                                                  parses: string -> bool)
    requires BookmarkSchema.WellFormed(b, parses) && Shows(x, b)
    ensures BookmarkSchema.UpdateErrors(ToggleBody(x), parses) == []
    ensures BookmarkSchema.ApplyUpdate(b, ToggleBody(x), now)
              == b.(isFavorite := !b.isFavorite, updatedAt := now)
  {
    TrimOfTrimmed(b.url);
    TrimOfTrimmed(b.title);
    TrimOfTrimmed(b.description);
    forall k | 0 <= k < |b.tags| ensures NormaliseAll(b.tags)[k] == b.tags[k] {
      NormaliseNormalised("", b.tags[k]);
      assert "" + b.tags[k] == b.tags[k];
    }
  }

  /** When urls are unique per owner, a bookmark's own url is not taken by
      any other bookmark, so an update that keeps the url is no duplicate. */
  lemma OwnUrlNotTaken(bookmarks: map<BookmarkSchema.Id, BookmarkSchema.Bookmark>, id: BookmarkSchema.Id)
    requires BookmarkSchema.UniqueUrls(bookmarks) && id in bookmarks
    ensures !BookmarkSchema.UrlTaken(bookmarks, bookmarks[id].userId, bookmarks[id].url, Some(id))
  {
  }

  class BookmarkDetailModal {
    var bookmark: Option<Item>
    var loading: bool
    var error: Option<string>
    var isEditing: bool
    var form: EditForm

    constructor()
      ensures bookmark.None? && !loading && error.None? && !isEditing
      ensures form == EditForm("", "", "", "", false)
    {
      bookmark, loading, error, isEditing := None, false, None, false;
      form := EditForm("", "", "", "", false);
    }

    /** The body panel: spinner, then error (a non-empty one), then the edit
        form, then the bookmark. */
    function Shown(): (p: Panel)
      reads this
      ensures p.EditPanel? ==> isEditing && p.form == form
    {
      if loading then Spinner
      else if error.Some? && error.value != "" then ErrorPanel(error.value)
      else if bookmark.Some? && isEditing then EditPanel(form)
      else if bookmark.Some? then DetailPanel(bookmark.value)
      else Empty
    }

    /** `fetchBookmark` up to the request: nothing without an id; otherwise the
        error is cleared and, without a token, the load fails at once. */
    method Fetch(bookmarkId: Option<string>, token: Option<string>) returns (request: Option<string>)
      modifies this
      ensures bookmarkId.None? || bookmarkId.value == "" ==>
                request.None? && loading == old(loading) && error == old(error)
      ensures request.Some? <==> bookmarkId.Some? && bookmarkId.value != "" && token.Some? && token.value != ""
      ensures request.Some? ==> request == bookmarkId && loading && error.None?
      ensures bookmarkId.Some? && bookmarkId.value != "" && (token.None? || token.value == "") ==>
                !loading && error == Some(LoadFailedText)
      ensures bookmark == old(bookmark) && isEditing == old(isEditing) && form == old(form)
    {
      request := None;
      if bookmarkId.None? || bookmarkId.value == "" {
        return;
      }
      loading := true;
      error := None;
      if token.None? || token.value == "" {
        error := Some(LoadFailedText);
        loading := false;
        return;
      }
      request := bookmarkId;
    }

    /** The end of `fetchBookmark`: a loaded bookmark refills the form (whatever was
        typed into it); a refusal shows the server's message. */
    method FetchDone(outcome: Outcome<Item>)
      modifies this
      ensures !loading && isEditing == old(isEditing)
      ensures outcome.Answered? && outcome.reply.success ==> bookmark == outcome.reply.data
      ensures outcome.Answered? && outcome.reply.success && outcome.reply.data.Some? ==>
                form == FormOf(outcome.reply.data.value) && error == old(error)
      ensures outcome.Answered? && outcome.reply.success && outcome.reply.data.None? ==>
                form == old(form) && error == Some(LoadFailedText)
      ensures outcome.Answered? && !outcome.reply.success ==>
                bookmark == old(bookmark) && form == old(form)
                && error == Some(MessageOr(outcome.reply.message, FetchFallback))
      ensures outcome.Thrown? ==> bookmark == old(bookmark) && form == old(form) && error == Some(LoadFailedText)
    {
      match outcome {
        case Answered(reply) =>
          if reply.success {
            bookmark := reply.data;
            if reply.data.Some? {
              form := FormOf(reply.data.value);
            } else {
              error := Some(LoadFailedText);
            }
          } else {
            error := Some(MessageOr(reply.message, FetchFallback));
          }
        case Thrown(_) =>
          error := Some(LoadFailedText);
      }
      loading := false;
    }

    /** `toggleFavorite` up to the request: the bookmark's id and the whole bookmark
        with its flag negated. Nothing changes here. */
    method ToggleFavorite(token: Option<string>) returns (request: Option<(string, Item)>)
      ensures request.Some? <==> bookmark.Some? && token.Some? && token.value != ""
      ensures request.Some? ==> request.value.0 == bookmark.value.id
      ensures request.Some? ==> request.value.1.isFavorite == !bookmark.value.isFavorite
                                && request.value.1 == ToggleRequest(bookmark.value)
    {
      if bookmark.None? || token.None? || token.value == "" {
        return None;
      }
      request := Some((bookmark.value.id, ToggleRequest(bookmark.value)));
    }

    /** The end of `toggleFavorite`: on success the returned bookmark replaces
        the shown one, the form takes only its flag, and the bookmark goes to the
        page. Failures are only logged. */
    method ToggleDone(outcome: Outcome<Item>) returns (updated: Option<Item>)
      modifies this
      ensures loading == old(loading) && error == old(error) && isEditing == old(isEditing)
      ensures outcome.Answered? && outcome.reply.success ==> bookmark == outcome.reply.data
      ensures outcome.Answered? && outcome.reply.success && outcome.reply.data.Some? ==>
                updated == outcome.reply.data
                && form == old(form).(isFavorite := outcome.reply.data.value.isFavorite)
      ensures !(outcome.Answered? && outcome.reply.success && outcome.reply.data.Some?) ==>
                updated.None? && form == old(form)
      ensures !(outcome.Answered? && outcome.reply.success) ==> bookmark == old(bookmark)
    {
      updated := None;
      if outcome.Answered? && outcome.reply.success {
        bookmark := outcome.reply.data;
        if outcome.reply.data.Some? {
          form := form.(isFavorite := outcome.reply.data.value.isFavorite);
          updated := outcome.reply.data;
        }
      }
    }

    /** The edit button. */
    method StartEditing()
      modifies this
      ensures isEditing
      ensures bookmark == old(bookmark) && loading == old(loading) && error == old(error) && form == old(form)
    {
      isEditing := true;
    }

    /** Cancel: the form is left as typed; the next load refills it. */
    method CancelEditing()
      modifies this
      ensures !isEditing
      ensures bookmark == old(bookmark) && loading == old(loading) && error == old(error) && form == old(form)
    {
      isEditing := false;
    }

    /** A keystroke in one of the form's text fields. */
    method EditText(field: Field, value: string)
      modifies this
      ensures form.title == (if field == Title then value else old(form.title))
      ensures form.url == (if field == Url then value else old(form.url))
      ensures form.description == (if field == Description then value else old(form.description))
      ensures form.tags == (if field == Tags then value else old(form.tags))
      ensures form.isFavorite == old(form.isFavorite)
      ensures bookmark == old(bookmark) && loading == old(loading) && error == old(error) && isEditing == old(isEditing)
    {
      match field {
        case Title => form := form.(title := value);
        case Url => form := form.(url := value);
        case Description => form := form.(description := value);
        case Tags => form := form.(tags := value);
      }
    }

    /** The form's favourite checkbox. */
    method EditFavorite(checked: bool)
      modifies this
      ensures form == old(form).(isFavorite := checked)
      ensures bookmark == old(bookmark) && loading == old(loading) && error == old(error) && isEditing == old(isEditing)
    {
      form := form.(isFavorite := checked);
    }

    /** `handleSaveEdit` up to the request: the bookmark's id and the form as
        the controller reads it. Without a token the save fails at once. */
    method Save(token: Option<string>) returns (request: Option<(string, BookmarkSchema.BookmarkBody)>)
      modifies this
      ensures bookmark.None? ==> request.None? && loading == old(loading) && error == old(error)
      ensures request.Some? <==> bookmark.Some? && token.Some? && token.value != ""
      ensures request.Some? ==> request.value == (bookmark.value.id, SaveBody(form)) && loading
                                && error == old(error)
      ensures bookmark.Some? && (token.None? || token.value == "") ==>
                !loading && error == Some(UpdateFailedText)
      ensures bookmark == old(bookmark) && isEditing == old(isEditing) && form == old(form)
    {
      request := None;
      if bookmark.None? {
        return;
      }
      loading := true;
      if token.None? || token.value == "" {
        error := Some(UpdateFailedText);
        loading := false;
        return;
      }
      request := Some((bookmark.value.id, SaveBody(form)));
    }

    /** The end of `handleSaveEdit`: success shows the saved bookmark and leaves
        edit mode; a failure replaces the form by the error panel, with the
        edits kept in the form. */
    method SaveDone(outcome: Outcome<Item>) returns (updated: Option<Item>)
      modifies this
      ensures !loading && form == old(form)
      ensures outcome.Answered? && outcome.reply.success ==>
                bookmark == outcome.reply.data && updated == bookmark && !isEditing && error == old(error)
      ensures outcome.Answered? && !outcome.reply.success ==>
                updated.None? && bookmark == old(bookmark) && isEditing == old(isEditing)
                && error == Some(MessageOr(outcome.reply.message, UpdateFailedText))
                && Shown() == ErrorPanel(error.value)
      ensures outcome.Thrown? ==>
                updated.None? && bookmark == old(bookmark) && isEditing == old(isEditing)
                && error == Some(UpdateFailedText) && Shown() == ErrorPanel(UpdateFailedText)
    {
      updated := None;
      match outcome {
        case Answered(reply) =>
          if reply.success {
            bookmark := reply.data;
            isEditing := false;
            updated := reply.data;
          } else {
            error := Some(MessageOr(reply.message, UpdateFailedText));
          }
        case Thrown(_) =>
          error := Some(UpdateFailedText);
      }
      loading := false;
    }

    /** `handleDelete` up to the request: nothing happens unless the user
        confirms; without a token the delete fails at once. */
    method Delete(confirmed: bool, token: Option<string>) returns (request: Option<string>)
      modifies this
      ensures bookmark.None? || !confirmed ==> request.None? && loading == old(loading) && error == old(error)
      ensures request.Some? <==> bookmark.Some? && confirmed && token.Some? && token.value != ""
      ensures request.Some? ==> request == Some(bookmark.value.id) && loading && error == old(error)
      ensures bookmark.Some? && confirmed && (token.None? || token.value == "") ==>
                !loading && error == Some(DeleteFailedText)
      ensures bookmark == old(bookmark) && isEditing == old(isEditing) && form == old(form)
    {
      request := None;
      if bookmark.None? || !confirmed {
        return;
      }
      loading := true;
      if token.None? || token.value == "" {
        error := Some(DeleteFailedText);
        loading := false;
        return;
      }
      request := Some(bookmark.value.id);
    }

    /** The end of `handleDelete` for the bookmark `id` it was sent for: success
        hands the id to the page and closes the modal. */
    method DeleteDone(id: string, outcome: Outcome<()>) returns (deleted: Option<string>, close: bool)
      modifies this
      ensures !loading && bookmark == old(bookmark) && isEditing == old(isEditing) && form == old(form)
      ensures close <==> outcome.Answered? && outcome.reply.success
      ensures close ==> deleted == Some(id) && error == old(error)
      ensures !close ==> deleted.None?
      ensures outcome.Answered? && !outcome.reply.success ==>
                error == Some(MessageOr(outcome.reply.message, DeleteFailedText))
      ensures outcome.Thrown? ==> error == Some(DeleteFailedText)
    {
      deleted, close := None, false;
      match outcome {
        case Answered(reply) =>
          if reply.success {
            deleted, close := Some(id), true;
          } else {
            error := Some(MessageOr(reply.message, DeleteFailedText));
          }
        case Thrown(_) =>
          error := Some(DeleteFailedText);
      }
      loading := false;
    }

    /** The close button: edit mode ends; bookmark, error and form stay. */
    method Close()
      modifies this
      ensures !isEditing
      ensures bookmark == old(bookmark) && loading == old(loading) && error == old(error) && form == old(form)
    {
      isEditing := false;
    }
  }
}
