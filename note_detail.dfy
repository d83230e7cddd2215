/** NoteDetailModal: one note loaded by id, shown, edited in a form whose tag
    field is the stored tags joined with ", ", saved, favourite-toggled and
    deleted. Requests are returned to the caller; their answers come back
    through the `...Done` methods. */
module NoteDetail {
  import opened Wrappers
  import opened Text
  import opened TagInput
  import opened ClientItems
  import opened ClientReply
  import NoteSchema

  const LoadFailedText := "Failed to load note"
  const FetchFallback := "Failed to fetch note"
  const UpdateFailedText := "Failed to update note"
  const DeleteFailedText := "Failed to delete note"

  /** The `editForm` state. */
  datatype EditForm = EditForm(title: string, content: string, tags: string, isFavorite: bool)

  datatype Field = Title | Content | Tags

  /** What the modal body shows, decided in the order the markup tests. */
  datatype Panel = Spinner | ErrorPanel(message: string) | EditPanel(form: EditForm)
                 | DetailPanel(note: Item) | Empty

  /** `data.data.content`; an answer without one reads as the empty text. */
  function ContentOf(x: Item): string {
    match x.detail
    case NoteDetail(c) => c
    case BookmarkDetail(_, _) => ""
  }

  /** The form filled from a loaded note. */
  function FormOf(x: Item): EditForm {
    EditForm(x.title, ContentOf(x), EditFormTags(x.tags), x.isFavorite)
  }

  /** The body `handleSaveEdit` sends, as the note controller reads it:
      title and content untrimmed, tags parsed from the field. */
  function SaveBody(f: EditForm): NoteSchema.NoteBody {
    NoteSchema.NoteBody(Some(f.title), Some(f.content), Some(ParseTags(f.tags)), Some(f.isFavorite))
  }

  /** The body a favourite toggle sends (`{...note, isFavorite: !note.isFavorite}`),
      as the note controller reads it: only its four fields matter. */
  function ToggleBody(x: Item): NoteSchema.NoteBody {
    var t := ToggleRequest(x);
    NoteSchema.NoteBody(Some(t.title), Some(ContentOf(t)), Some(t.tags), Some(t.isFavorite))
  }

  /** The client record `x` is the JSON of the stored note `n`. */
  predicate Shows(x: Item, n: NoteSchema.Note) {
    x.title == n.title && x.detail == NoteDetail(n.content) && x.tags == n.tags
    && x.isFavorite == n.isFavorite
  }

  /** A save is accepted exactly when the edited title trims to 1..200 code
      points and the content is not blank; the note then holds the trimmed
      title and content and exactly the parsed tags. */
  lemma SaveStoresForm(n: NoteSchema.Note, f: EditForm, now: int)
    ensures NoteSchema.UpdateErrors(SaveBody(f)) == [] <==>
              0 < |Trim(f.title)| <= NoteSchema.MaxTitleLength && !IsBlank(f.content)
    ensures NoteSchema.ApplyUpdate(n, SaveBody(f), now)
              == n.(title := Trim(f.title), content := Trim(f.content), tags := ParseTags(f.tags),
                    isFavorite := f.isFavorite, updatedAt := now)
  {
    NormaliseCanonicalTags(ParseTags(f.tags));
  }

  /** Saving a form nobody edited is accepted and changes nothing but the
      timestamp, provided the stored tags are ones the tag field can give
      back (non-empty and comma-free as well as normalised). */
  lemma {:induction false} UneditedSaveKeepsNote(n: NoteSchema.Note, x: Item, now: int)
    requires NoteSchema.WellFormed(n) && Shows(x, n)
    requires forall k :: 0 <= k < |n.tags| ==> IsCanonicalTag(n.tags[k])
    ensures NoteSchema.UpdateErrors(SaveBody(FormOf(x))) == []
    ensures NoteSchema.ApplyUpdate(n, SaveBody(FormOf(x)), now) == n.(updatedAt := now)
  {
    ParseJoinRoundTrip(n.tags);
    NormaliseCanonicalTags(n.tags);
    TrimOfTrimmed(n.title);
    TrimOfTrimmed(n.content);
  }

  /** A favourite toggle of a displayed note is accepted and flips the stored
      flag, leaving every other field as stored. */
  lemma {:induction false} ToggleFlipsOnlyFavorite(n: NoteSchema.Note, x: Item, now: int)
    requires NoteSchema.WellFormed(n) && Shows(x, n)
    ensures NoteSchema.UpdateErrors(ToggleBody(x)) == []
    ensures NoteSchema.ApplyUpdate(n, ToggleBody(x), now)
              == n.(isFavorite := !n.isFavorite, updatedAt := now)
  {
    TrimOfTrimmed(n.title);
    TrimOfTrimmed(n.content);
    forall k | 0 <= k < |n.tags| ensures NormaliseAll(n.tags)[k] == n.tags[k] {
      NormaliseNormalised("", n.tags[k]);
      assert "" + n.tags[k] == n.tags[k];
    }
  }

  class NoteDetailModal {
    var note: Option<Item>
    var loading: bool
    var error: Option<string>
    var isEditing: bool
    var form: EditForm

    constructor()
      ensures note.None? && !loading && error.None? && !isEditing
      ensures form == EditForm("", "", "", false)
    {
      note, loading, error, isEditing := None, false, None, false;
      form := EditForm("", "", "", false);
    }

    /** The body panel: spinner, then error (a non-empty one), then the edit
        form, then the note. */
    function Shown(): (p: Panel)
      reads this
      ensures p.EditPanel? ==> isEditing && p.form == form
    {
      if loading then Spinner
      else if error.Some? && error.value != "" then ErrorPanel(error.value)
      else if note.Some? && isEditing then EditPanel(form)
      else if note.Some? then DetailPanel(note.value)
      else Empty
    }

    /** `fetchNote` up to the request: nothing without an id; otherwise the
        error is cleared and, without a token, the load fails at once. */
    method Fetch(noteId: Option<string>, token: Option<string>) returns (request: Option<string>)
      modifies this
      ensures noteId.None? || noteId.value == "" ==>
                request.None? && loading == old(loading) && error == old(error)
      ensures request.Some? <==> noteId.Some? && noteId.value != "" && token.Some? && token.value != ""
      ensures request.Some? ==> request == noteId && loading && error.None?
      ensures noteId.Some? && noteId.value != "" && (token.None? || token.value == "") ==>
                !loading && error == Some(LoadFailedText)
      ensures note == old(note) && isEditing == old(isEditing) && form == old(form)
    {
      request := None;
      if noteId.None? || noteId.value == "" {
        return;
      }
      loading := true;
      error := None;
      if token.None? || token.value == "" {
        error := Some(LoadFailedText);
        loading := false;
        return;
      }
      request := noteId;
    }

    /** The end of `fetchNote`: a loaded note refills the form (whatever was
        typed into it); a refusal shows the server's message. */
    method FetchDone(outcome: Outcome<Item>)
      modifies this
      ensures !loading && isEditing == old(isEditing)
      ensures outcome.Answered? && outcome.reply.success ==> note == outcome.reply.data
      ensures outcome.Answered? && outcome.reply.success && outcome.reply.data.Some? ==>
                form == FormOf(outcome.reply.data.value) && error == old(error)
      ensures outcome.Answered? && outcome.reply.success && outcome.reply.data.None? ==>
                form == old(form) && error == Some(LoadFailedText)
      ensures outcome.Answered? && !outcome.reply.success ==>
                note == old(note) && form == old(form)
                && error == Some(MessageOr(outcome.reply.message, FetchFallback))
      ensures outcome.Thrown? ==> note == old(note) && form == old(form) && error == Some(LoadFailedText)
    {
      match outcome {
        case Answered(reply) =>
          if reply.success {
            note := reply.data;
            if reply.data.Some? {
              form := FormOf(reply.data.value);
            } else {
              error := Some(LoadFailedText);
            }
          } else {
            error := Some(MessageOr(reply.message, FetchFallback));
          }
        case Thrown(_) =>
          error := Some(LoadFailedText);
      }
      loading := false;
    }

    /** `toggleFavorite` up to the request: the note's id and the whole note
        with its flag negated. Nothing changes here. */
    method ToggleFavorite(token: Option<string>) returns (request: Option<(string, Item)>)
      ensures request.Some? <==> note.Some? && token.Some? && token.value != ""
      ensures request.Some? ==> request.value.0 == note.value.id
      ensures request.Some? ==> request.value.1.isFavorite == !note.value.isFavorite
                                && request.value.1 == ToggleRequest(note.value)
    {
      if note.None? || token.None? || token.value == "" {
        return None;
      }
      request := Some((note.value.id, ToggleRequest(note.value)));
    }

    /** The end of `toggleFavorite`: on success the returned note replaces
        the shown one, the form takes only its flag, and the note goes to the
        page. Failures are only logged. */
    method ToggleDone(outcome: Outcome<Item>) returns (updated: Option<Item>)
      modifies this
      ensures loading == old(loading) && error == old(error) && isEditing == old(isEditing)
      ensures outcome.Answered? && outcome.reply.success ==> note == outcome.reply.data
      ensures outcome.Answered? && outcome.reply.success && outcome.reply.data.Some? ==>
                updated == outcome.reply.data
                && form == old(form).(isFavorite := outcome.reply.data.value.isFavorite)
      ensures !(outcome.Answered? && outcome.reply.success && outcome.reply.data.Some?) ==>
                updated.None? && form == old(form)
      ensures !(outcome.Answered? && outcome.reply.success) ==> note == old(note)
    {
      updated := None;
      if outcome.Answered? && outcome.reply.success {
        note := outcome.reply.data;
        if outcome.reply.data.Some? {
          form := form.(isFavorite := outcome.reply.data.value.isFavorite);
          updated := outcome.reply.data;
        }
      }
    }

    /** The edit button. */
    method StartEditing()
      modifies this
      ensures isEditing
      ensures note == old(note) && loading == old(loading) && error == old(error) && form == old(form)
    {
      isEditing := true;
    }

    /** Cancel: the form is left as typed; the next load refills it. */
    method CancelEditing()
      modifies this
      ensures !isEditing
      ensures note == old(note) && loading == old(loading) && error == old(error) && form == old(form)
    {
      isEditing := false;
    }

    /** A keystroke in one of the form's text fields. */
    method EditText(field: Field, value: string)
      modifies this
      ensures form.title == (if field == Title then value else old(form.title))
      ensures form.content == (if field == Content then value else old(form.content))
      ensures form.tags == (if field == Tags then value else old(form.tags))
      ensures form.isFavorite == old(form.isFavorite)
      ensures note == old(note) && loading == old(loading) && error == old(error) && isEditing == old(isEditing)
    {
      match field {
        case Title => form := form.(title := value);
        case Content => form := form.(content := value);
        case Tags => form := form.(tags := value);
      }
    }

    /** The form's favourite checkbox. */
    method EditFavorite(checked: bool)
      modifies this
      ensures form == old(form).(isFavorite := checked)
      ensures note == old(note) && loading == old(loading) && error == old(error) && isEditing == old(isEditing)
    {
      form := form.(isFavorite := checked);
    }

    /** `handleSaveEdit` up to the request: the note's id and the form as
        the controller reads it. Without a token the save fails at once. */
    method Save(token: Option<string>) returns (request: Option<(string, NoteSchema.NoteBody)>)
      modifies this
      ensures note.None? ==> request.None? && loading == old(loading) && error == old(error)
      ensures request.Some? <==> note.Some? && token.Some? && token.value != ""
      ensures request.Some? ==> request.value == (note.value.id, SaveBody(form)) && loading
                                && error == old(error)
      ensures note.Some? && (token.None? || token.value == "") ==>
                !loading && error == Some(UpdateFailedText)
      ensures note == old(note) && isEditing == old(isEditing) && form == old(form)
    {
      request := None;
      if note.None? {
        return;
      }
      loading := true;
      if token.None? || token.value == "" {
        error := Some(UpdateFailedText);
        loading := false;
        return;
      }
      request := Some((note.value.id, SaveBody(form)));
    }

    /** The end of `handleSaveEdit`: success shows the saved note and leaves
        edit mode; a failure replaces the form by the error panel, with the
        edits kept in the form. */
    method SaveDone(outcome: Outcome<Item>) returns (updated: Option<Item>)
      modifies this
      ensures !loading && form == old(form)
      ensures outcome.Answered? && outcome.reply.success ==>
                note == outcome.reply.data && updated == note && !isEditing && error == old(error)
      ensures outcome.Answered? && !outcome.reply.success ==>
                updated.None? && note == old(note) && isEditing == old(isEditing)
                && error == Some(MessageOr(outcome.reply.message, UpdateFailedText))
                && Shown() == ErrorPanel(error.value)
      ensures outcome.Thrown? ==>
                updated.None? && note == old(note) && isEditing == old(isEditing)
                && error == Some(UpdateFailedText) && Shown() == ErrorPanel(UpdateFailedText)
    {
      updated := None;
      match outcome {
        case Answered(reply) =>
          if reply.success {
            note := reply.data;
            isEditing := false;
            updated := reply.data;
          } else {
            error := Some(MessageOr(reply.message, UpdateFailedText));
          }
        case Thrown(_) =>
          error := Some(UpdateFailedText);
      }
      loading := false;
    }

    /** `handleDelete` up to the request: nothing happens unless the user
        confirms; without a token the delete fails at once. */
    method Delete(confirmed: bool, token: Option<string>) returns (request: Option<string>)
      modifies this
      ensures note.None? || !confirmed ==> request.None? && loading == old(loading) && error == old(error)
      ensures request.Some? <==> note.Some? && confirmed && token.Some? && token.value != ""
      ensures request.Some? ==> request == Some(note.value.id) && loading && error == old(error)
      ensures note.Some? && confirmed && (token.None? || token.value == "") ==>
                !loading && error == Some(DeleteFailedText)
      ensures note == old(note) && isEditing == old(isEditing) && form == old(form)
    {
      request := None;
      if note.None? || !confirmed {
        return;
      }
      loading := true;
      if token.None? || token.value == "" {
        error := Some(DeleteFailedText);
        loading := false;
        return;
      }
      request := Some(note.value.id);
    }

    /** The end of `handleDelete` for the note `id` it was sent for: success
        hands the id to the page and closes the modal. */
    method DeleteDone(id: string, outcome: Outcome<()>) returns (deleted: Option<string>, close: bool)
      modifies this
      ensures !loading && note == old(note) && isEditing == old(isEditing) && form == old(form)
      ensures close <==> outcome.Answered? && outcome.reply.success
      ensures close ==> deleted == Some(id) && error == old(error)
      ensures !close ==> deleted.None?
      ensures outcome.Answered? && !outcome.reply.success ==>
                error == Some(MessageOr(outcome.reply.message, DeleteFailedText))
      ensures outcome.Thrown? ==> error == Some(DeleteFailedText)
    {
      deleted, close := None, false;
      match outcome {
        case Answered(reply) =>
          if reply.success {
            deleted, close := Some(id), true;
          } else {
            error := Some(MessageOr(reply.message, DeleteFailedText));
          }
        case Thrown(_) =>
          error := Some(DeleteFailedText);
      }
      loading := false;
    }

    /** The close button: edit mode ends; note, error and form stay. */
    method Close()
      modifies this
      ensures !isEditing
      ensures note == old(note) && loading == old(loading) && error == old(error) && form == old(form)
    {
      isEditing := false;
    }
  }
}
