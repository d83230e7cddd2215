/** The create-bookmark modal: its fields, the title auto-fetch on leaving
    the url field, the client-side checks, the payload and the answer. */
module CreateBookmarkForm {
  import opened Wrappers
  import opened Text
  import opened TagInput
  import opened ClientReply
  import opened ClientItems
  import BookmarkSchema
  import BookmarkController
  import Responses

  datatype Field = Url | Title | Description | Tags

  datatype Problem = UrlRequired | UrlInvalid | TitleRequired

  function ProblemMessage(p: Problem): string {
    match p
    case UrlRequired => "URL is required"
    case UrlInvalid => "Please enter a valid URL"
    case TitleRequired => "Title is required"
  }

  const AuthRequiredText := "Authentication required. Please log in again."
  const FailureFallback := "Failed to create bookmark"
  const ThrownText := "Failed to create bookmark. Please try again."

  /** What `validateForm` returns. `parses` is `new URL(...)` not throwing;
      the form tests the url as typed, untrimmed. */
  function Problems(url: string, title: string, parses: string -> bool): seq<Problem> {
    (if IsBlank(url) then [UrlRequired] else if !parses(url) then [UrlInvalid] else [])
    + (if IsBlank(title) then [TitleRequired] else [])
  }

  /** The two url messages exclude each other, and the title message comes
      after whichever url message there is. */
  lemma ProblemsSpec(url: string, title: string, parses: string -> bool)
    ensures var ps := Problems(url, title, parses);
      && (UrlRequired in ps <==> IsBlank(url))
      && (UrlInvalid in ps <==> !IsBlank(url) && !parses(url))
      && !(UrlRequired in ps && UrlInvalid in ps)
      && (TitleRequired in ps <==> IsBlank(title))
      && (ps == [] <==> !IsBlank(url) && parses(url) && !IsBlank(title))
      && (TitleRequired in ps ==> ps[|ps| - 1] == TitleRequired)
      && |ps| <= 2
  {
  }

  /** The JSON body of `POST /api/bookmarks`. */
  datatype BookmarkPayload = BookmarkPayload(url: string, title: string, description: string,
                                             tags: seq<string>, isFavorite: bool)

  function Payload(url: string, title: string, description: string, tags: string, isFavorite: bool): (p: BookmarkPayload)
    ensures IsTrimmed(p.url) && IsTrimmed(p.title) && IsTrimmed(p.description)
    ensures forall k :: 0 <= k < |p.tags| ==> IsCanonicalTag(p.tags[k])
    ensures p.isFavorite == isFavorite
  {
    BookmarkPayload(Trim(url), Trim(title), Trim(description), ParseTags(tags), isFavorite)
  }

  /** A payload that passed the client checks is never sent with an empty
      title, so the server keeps that title and fetches nothing. */
  lemma PayloadKeepsTitle(url: string, title: string, description: string, tags: string,
                          isFavorite: bool, page: Option<string>, parses: string -> bool)
    requires Problems(url, title, parses) == []
    ensures var p := Payload(url, title, description, tags, isFavorite);
      && p.title != ""
      && BookmarkController.ResolveTitle(Some(p.title), page)
         == BookmarkController.TitleResolution(p.title, false, false)
  {
    var p := Payload(url, title, description, tags, isFavorite);
    TrimOfTrimmed(p.title);
    BookmarkController.GivenTitleWins(p.title, page);
  }

  /** The schema accepts a payload that passed the client checks exactly
      when the trimmed url parses and the two length limits hold (the form
      checks neither limit). */
  lemma PayloadMeetsSchema(url: string, title: string, description: string, tags: string,
                           isFavorite: bool, parses: string -> bool)
    requires Problems(url, title, parses) == []
    ensures var p := Payload(url, title, description, tags, isFavorite);
      BookmarkSchema.CreateErrors(Some(p.url), p.title, p.description, parses) == [] <==>
        parses(p.url) && |p.title| <= BookmarkSchema.MaxTitleLength
        && |p.description| <= BookmarkSchema.MaxDescriptionLength
  {
    var p := Payload(url, title, description, tags, isFavorite);
    TrimOfTrimmed(p.url);
    TrimOfTrimmed(p.title);
    TrimOfTrimmed(p.description);
  }

  /** The answer of the auto-fetch request: `{ success, title }`, or a
      failure (the request throws, or the body is not JSON). */
  datatype TitleAnswer = TitleAnswer(success: bool, title: Option<string>) | TitleFetchFailed

  class CreateBookmarkModal {
    var url: string
    var title: string
    var description: string
    var tags: string
    var isFavorite: bool
    var loading: bool
    var isAutoFetching: bool
    var errors: seq<string>
    const parses: string -> bool

    predicate Valid()
      reads this
    {
      loading ==> errors == []
    }

    predicate IsReset()
      reads this
    {
      url == "" && title == "" && description == "" && tags == "" && !isFavorite
    }

    constructor(parses: string -> bool)
      ensures Valid() && IsReset() && !loading && !isAutoFetching && errors == []
      ensures this.parses == parses
    {
      url, title, description, tags, isFavorite := "", "", "", "", false;
      loading, isAutoFetching, errors := false, false, [];
      this.parses := parses;
    }

    method SetText(field: Field, value: string)
      requires Valid()
      modifies this
      ensures Valid()
      ensures url == (if field == Url then value else old(url))
      ensures title == (if field == Title then value else old(title))
      ensures description == (if field == Description then value else old(description))
      ensures tags == (if field == Tags then value else old(tags))
      ensures errors == []
      ensures isFavorite == old(isFavorite) && loading == old(loading) && isAutoFetching == old(isAutoFetching)
    {
      match field {
        case Url => url := value;
        case Title => title := value;
        case Description => description := value;
        case Tags => tags := value;
      }
      if |errors| > 0 {
        errors := [];
      }
    }

    method SetFavorite(checked: bool)
      modifies this
      ensures isFavorite == checked
      ensures url == old(url) && title == old(title) && description == old(description) && tags == old(tags)
      ensures errors == old(errors) && loading == old(loading) && isAutoFetching == old(isAutoFetching)
    {
      isFavorite := checked;
    }

    /** `handleUrlBlur` up to the request: only for a non-empty url and an
        empty title; the request goes out only for a url that parses and
        when there is a token. The form's fields are not touched. */
    method UrlBlur(token: Option<string>) returns (request: Option<string>)
      modifies this
      ensures request.Some? <==> url != "" && title == "" && parses(url) && token.Some? && token.value != ""
      ensures request.Some? ==> request.value == url && isAutoFetching
      ensures request.None? ==> isAutoFetching == (if url != "" && title == "" then false else old(isAutoFetching))
      ensures url == old(url) && title == old(title) && description == old(description) && tags == old(tags)
      ensures isFavorite == old(isFavorite) && errors == old(errors) && loading == old(loading)
    {
      request := None;
      if url != "" && title == "" {
        isAutoFetching := true;
        if !parses(url) || token.None? || token.value == "" {
          isAutoFetching := false;
          return;
        }
        request := Some(url);
      }
    }

    /** The end of `handleUrlBlur`: the title is replaced only by a
        successful answer with a non-empty title; otherwise nothing changes. */
    method AutoFetchDone(answer: TitleAnswer)
      modifies this
      ensures !isAutoFetching
      ensures answer.TitleAnswer? && answer.success && answer.title.Some? && answer.title.value != "" ==>
                title == answer.title.value
      ensures !(answer.TitleAnswer? && answer.success && answer.title.Some? && answer.title.value != "") ==>
                title == old(title)
      ensures url == old(url) && description == old(description) && tags == old(tags)
      ensures isFavorite == old(isFavorite) && errors == old(errors) && loading == old(loading)
    {
      if answer.TitleAnswer? && answer.success && answer.title.Some? && answer.title.value != "" {
        title := answer.title.value;
      }
      isAutoFetching := false;
    }

    method ValidateForm() returns (problems: seq<Problem>)
      ensures problems == Problems(url, title, parses)
    {
      problems := [];
      if IsBlank(url) {
        problems := problems + [UrlRequired];
      } else if !parses(url) {
        problems := problems + [UrlInvalid];
      }
      if IsBlank(title) {
        problems := problems + [TitleRequired];
      }
    }

    /** `handleSubmit` up to the request. */
    method Submit(token: Option<string>) returns (request: Option<BookmarkPayload>)
      requires Valid() && !loading
      modifies this
      ensures Valid()
      ensures request.Some? <==> Problems(url, title, parses) == [] && token.Some? && token.value != ""
      ensures Problems(url, title, parses) != [] ==> errors == MapSeq(Problems(url, title, parses), ProblemMessage)
      ensures Problems(url, title, parses) == [] && (token.None? || token.value == "") ==> errors == [AuthRequiredText]
      ensures request.Some? ==> request.value == Payload(url, title, description, tags, isFavorite)
                                && request.value.title != "" && loading && errors == []
      ensures request.None? ==> !loading && errors != []
      ensures url == old(url) && title == old(title) && description == old(description)
      ensures tags == old(tags) && isFavorite == old(isFavorite) && isAutoFetching == old(isAutoFetching)
    {
      var problems := ValidateForm();
      ProblemsSpec(url, title, parses);
      if |problems| > 0 {
        errors := MapSeq(problems, ProblemMessage);
        request := None;
        return;
      }
      loading := true;
      errors := [];
      if token.None? || token.value == "" {
        errors := [AuthRequiredText];
        loading := false;
        request := None;
        return;
      }
      request := Some(Payload(url, title, description, tags, isFavorite));
      assert !IsBlank(title);
    }

    /** The end of `handleSubmit`: a refusal shows only the answer's
        `message` (never its per-field list). */
    method Complete(outcome: Outcome<Item>) returns (created: Option<Item>)
      requires Valid()
      modifies this
      ensures Valid() && !loading
      ensures outcome.Answered? && outcome.reply.success ==>
                created == outcome.reply.data && IsReset() && errors == old(errors)
      ensures outcome.Answered? && !outcome.reply.success ==>
                created.None? && errors == [MessageOr(outcome.reply.message, FailureFallback)]
      ensures outcome.Thrown? ==> created.None? && errors == [ThrownText]
      ensures !(outcome.Answered? && outcome.reply.success) ==>
                url == old(url) && title == old(title) && description == old(description)
                && tags == old(tags) && isFavorite == old(isFavorite)
      ensures isAutoFetching == old(isAutoFetching)
    {
      created := None;
      match outcome {
        case Answered(reply) =>
          if reply.success {
            created := reply.data;
            url, title, description, tags, isFavorite := "", "", "", "", false;
          } else {
            errors := [MessageOr(reply.message, FailureFallback)];
          }
        case Thrown(_) =>
          errors := [ThrownText];
      }
      loading := false;
    }

    /** `handleClose`: always clears the form, the errors and both
        pending flags, even while a request is pending. */
    method Close()
      modifies this
      ensures Valid() && IsReset() && errors == [] && !loading && !isAutoFetching
    {
      url, title, description, tags, isFavorite := "", "", "", "", false;
      errors, loading, isAutoFetching := [], false, false;
    }
  }

  /** A validation failure on the server reaches this form only as the
      generic 'Validation error', not as the per-field messages. */
  lemma RefusalHidesFieldMessages(r: Responses.Response<Item>)
    requires r.ValidationFailed?
    ensures MessageOr(FromResponse(r).message, FailureFallback) == "Validation error"
  {
  }
}
