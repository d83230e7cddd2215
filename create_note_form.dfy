/** The create-note modal: its fields, the client-side checks, the payload
    it posts, and how it reacts to the answer. */
module CreateNoteForm {
  import opened Wrappers
  import opened Text
  import opened TagInput
  import opened ClientReply
  import opened ClientItems
  import NoteSchema

  datatype Field = Title | Content | Tags

  datatype Problem = TitleRequired | ContentRequired

  function ProblemMessage(p: Problem): string {
    match p
    case TitleRequired => "Title is required"
    case ContentRequired => "Content is required"
  }

  const AuthRequiredText := "Authentication required. Please log in again."
  const FailureFallback := "Failed to create note"
  const NetworkErrorText := "Network error. Please check your connection and try again."

  /** What `validateForm` returns. */
  function Problems(title: string, content: string): seq<Problem> {
    (if IsBlank(title) then [TitleRequired] else [])
    + (if IsBlank(content) then [ContentRequired] else [])
  }

  lemma ProblemsSpec(title: string, content: string)
    ensures var ps := Problems(title, content);
      && (TitleRequired in ps <==> IsBlank(title))
      && (ContentRequired in ps <==> IsBlank(content))
      && (ps == [] <==> !IsBlank(title) && !IsBlank(content))
      && (|ps| == 2 ==> ps == [TitleRequired, ContentRequired])
  {
  }

  /** The JSON body of `POST /api/notes`. */
  datatype NotePayload = NotePayload(title: string, content: string, tags: seq<string>, isFavorite: bool)

  /** The payload built from the form: trimmed title and content, the tag
      field parsed, the checkbox as it is. */
  function Payload(title: string, content: string, tags: string, isFavorite: bool): (p: NotePayload)
    ensures IsTrimmed(p.title) && IsTrimmed(p.content)
    ensures |p.title| <= |title| && |p.content| <= |content|
    ensures forall k :: 0 <= k < |p.tags| ==> IsCanonicalTag(p.tags[k])
    ensures p.isFavorite == isFavorite
  {
    NotePayload(Trim(title), Trim(content), ParseTags(tags), isFavorite)
  }

  /** The request body as the note controller reads it. */
  function AsBody(p: NotePayload): NoteSchema.NoteBody {
    NoteSchema.NoteBody(Some(p.title), Some(p.content), Some(p.tags), Some(p.isFavorite))
  }

  /** A payload that passed the client checks is accepted by the server
      exactly when its title fits the schema's 200 code points (the form
      itself sets no limit), and the note stored then keeps the parsed tags
      and the title and content as sent. */
  lemma PayloadMeetsSchema(title: string, content: string, tags: string, isFavorite: bool,
                           id: NoteSchema.Id, userId: NoteSchema.UserId, now: int)
    requires Problems(title, content) == []
    ensures var body := AsBody(Payload(title, content, tags, isFavorite));
      NoteSchema.CreateErrors(body) == [] <==> |Trim(title)| <= NoteSchema.MaxTitleLength
    ensures var p := Payload(title, content, tags, isFavorite);
      NoteSchema.CreateErrors(AsBody(p)) == [] ==>
        var n := NoteSchema.NewNote(id, userId, AsBody(p), now);
        n.title == p.title && n.content == p.content && n.tags == p.tags && n.isFavorite == isFavorite
  {
    var p := Payload(title, content, tags, isFavorite);
    TrimOfTrimmed(p.title);
    TrimOfTrimmed(p.content);
    NormaliseCanonicalTags(p.tags);
  }

  class CreateNoteModal {
    var title: string
    var content: string
    var tags: string
    var isFavorite: bool
    var loading: bool
    var errors: seq<string>

    predicate Valid()
      reads this
    {
      loading ==> errors == []
    }

    /** The form's initial field values. */
    predicate IsReset()
      reads this
    {
      title == "" && content == "" && tags == "" && !isFavorite
    }

    constructor()
      ensures Valid() && IsReset() && !loading && errors == []
    {
      title, content, tags, isFavorite := "", "", "", false;
      loading, errors := false, [];
    }

    /** `handleInputChange`: a text field takes the value and shown errors
        disappear. */
    method SetText(field: Field, value: string)
      requires Valid()
      modifies this
      ensures Valid()
      ensures title == (if field == Title then value else old(title))
      ensures content == (if field == Content then value else old(content))
      ensures tags == (if field == Tags then value else old(tags))
      ensures errors == []
      ensures isFavorite == old(isFavorite) && loading == old(loading)
    {
      match field {
        case Title => title := value;
        case Content => content := value;
        case Tags => tags := value;
      }
      if |errors| > 0 {
        errors := [];
      }
    }

    /** `handleCheckboxChange`: only the flag changes; shown errors stay. */
    method SetFavorite(checked: bool)
      modifies this
      ensures isFavorite == checked
      ensures title == old(title) && content == old(content) && tags == old(tags)
      ensures errors == old(errors) && loading == old(loading)
    {
      isFavorite := checked;
    }

    method ValidateForm() returns (problems: seq<Problem>)
      ensures problems == Problems(title, content)
    {
      problems := [];
      if IsBlank(title) {
        problems := problems + [TitleRequired];
      }
      if IsBlank(content) {
        problems := problems + [ContentRequired];
      }
    }

    /** `handleSubmit` up to the request. Nothing is sent when a check fails
        or when there is no token (`null`, or the empty string). */
    method Submit(token: Option<string>) returns (request: Option<NotePayload>)
      requires Valid() && !loading
      modifies this
      ensures Valid()
      ensures request.Some? <==> Problems(title, content) == [] && token.Some? && token.value != ""
      ensures Problems(title, content) != [] ==> errors == MapSeq(Problems(title, content), ProblemMessage)
      ensures Problems(title, content) == [] && (token.None? || token.value == "") ==> errors == [AuthRequiredText]
      ensures request.Some? ==> request.value == Payload(title, content, tags, isFavorite) && loading && errors == []
      ensures request.None? ==> !loading && errors != []
      ensures title == old(title) && content == old(content) && tags == old(tags) && isFavorite == old(isFavorite)
    {
      var problems := ValidateForm();
      ProblemsSpec(title, content);
      if |problems| > 0 {
        errors := MapSeq(problems, ProblemMessage);
        request := None;
        return;
      }
      loading := true;
      errors := [];
      if token.None? || token.value == "" {
        errors := [AuthRequiredText];
        loading := false;
        request := None;
        return;
      }
      request := Some(Payload(title, content, tags, isFavorite));
    }

    /** The end of `handleSubmit`. On success the created note is handed to
        the page and the form is reset; otherwise the reasons are shown. */
    method Complete(outcome: Outcome<Item>) returns (created: Option<Item>)
      requires Valid()
      modifies this
      ensures Valid() && !loading
      ensures outcome.Answered? && outcome.reply.success ==>
                created == outcome.reply.data && IsReset() && errors == old(errors)
      ensures outcome.Answered? && !outcome.reply.success ==>
                created.None? && errors == RefusalErrors(outcome.reply, FailureFallback)
      ensures outcome.Thrown? ==> created.None? && errors == [NetworkErrorText]
      ensures !(outcome.Answered? && outcome.reply.success) ==>
                title == old(title) && content == old(content) && tags == old(tags) && isFavorite == old(isFavorite)
    {
      created := None;
      match outcome {
        case Answered(reply) =>
          if reply.success {
            created := reply.data;
            title, content, tags, isFavorite := "", "", "", false;
          } else {
            errors := RefusalErrors(reply, FailureFallback);
          }
        case Thrown(_) =>
          errors := [NetworkErrorText];
      }
      loading := false;
    }

    /** `handleClose`: ignored while a request is pending; otherwise the form
        and its errors are cleared. */
    method Close() returns (closed: bool)
      requires Valid()
      modifies this
      ensures Valid()
      ensures closed <==> !old(loading)
      ensures closed ==> IsReset() && errors == [] && !loading
      ensures !closed ==> title == old(title) && content == old(content) && tags == old(tags)
                          && isFavorite == old(isFavorite) && errors == old(errors) && loading
    {
      closed := !loading;
      if closed {
        title, content, tags, isFavorite := "", "", "", false;
        errors := [];
      }
    }
  }
}
