/** The login page: the two client-side checks and what the page shows
    after the request. */
module LoginForm {
  import opened Wrappers
  import opened Text
  import opened EmailRule
  import opened ClientReply

  datatype Field = Email | Password

  datatype Problem = BadEmail(issue: EmailIssue) | PasswordRequired

  function ProblemMessage(p: Problem): string {
    match p
    case BadEmail(issue) => EmailRule.Message(issue)
    case PasswordRequired => "Password is required"
  }

  const FailureFallback := "Login failed"
  const NetworkErrorText := "Network error. Please check your connection and try again."

  /** What `validateForm` returns: the e-mail rule, then a password that is
      the empty string (it is neither trimmed nor measured). */
  function Problems(email: string, password: string): seq<Problem> {
    var e := CheckEmail(email);
    (if e.Some? then [BadEmail(e.value)] else [])
    + (if password == "" then [PasswordRequired] else [])
  }

  lemma ProblemsSpec(email: string, password: string)
    ensures var ps := Problems(email, password);
      && (BadEmail(EmailRequired) in ps <==> IsBlank(email))
      && (BadEmail(EmailInvalid) in ps <==> !IsBlank(email) && !IsEmail(email))
      && (PasswordRequired in ps <==> password == "")
      && (ps == [] <==> IsEmail(email) && password != "")
      && |ps| <= 2
      && (|ps| == 2 ==> ps[0].BadEmail? && ps[1] == PasswordRequired)
  {
  }

  /** The body of `POST /api/auth/login`. */
  datatype LoginRequest = LoginRequest(email: string, password: string)

  class LoginPage {
    var email: string
    var password: string
    var loading: bool
    var errors: seq<string>

    predicate Valid()
      reads this
    {
      loading ==> errors == []
    }

    constructor()
      ensures Valid()
      ensures email == "" && password == "" && !loading && errors == []
    {
      email, password := "", "";
      loading, errors := false, [];
    }

    /** `handleInputChange` on a text field: the value is taken and any
        shown errors disappear. */
    method SetText(field: Field, value: string)
      requires Valid()
      modifies this
      ensures Valid()
      ensures email == (if field == Email then value else old(email))
      ensures password == (if field == Password then value else old(password))
      ensures errors == []
      ensures loading == old(loading)
    {
      if field == Email {
        email := value;
      } else {
        password := value;
      }
      if |errors| > 0 {
        errors := [];
      }
    }

    /** `validateForm`: the e-mail check pushes at most one message, then
        the password check at most one. */
    method ValidateForm() returns (problems: seq<Problem>)
      ensures problems == Problems(email, password)
    {
      problems := [];
      var emailIssue := CheckEmail(email);
      if emailIssue.Some? {
        problems := problems + [BadEmail(emailIssue.value)];
      }
      if password == "" {
        problems := problems + [PasswordRequired];
      }
    }

    /** `handleSubmit` up to the request. */
    method Submit() returns (request: Option<LoginRequest>)
      requires Valid() && !loading
      modifies this
      ensures Valid()
      ensures request.Some? <==> IsEmail(email) && password != ""
      ensures request.None? ==> errors == MapSeq(Problems(email, password), ProblemMessage) && errors != [] && !loading
      ensures request.Some? ==> request.value == LoginRequest(email, password) && loading && errors == []
      ensures email == old(email) && password == old(password)
    {
      var problems := ValidateForm();
      ProblemsSpec(email, password);
      if |problems| > 0 {
        errors := MapSeq(problems, ProblemMessage);
        request := None;
        return;
      }
      loading := true;
      errors := [];
      request := Some(LoginRequest(email, password));
    }

    /** The end of `handleSubmit`: a refusal shows exactly one message, a
        thrown error the network text followed by the error's own text. */
    method Complete(outcome: Outcome<()>)
      requires Valid()
      modifies this
      ensures Valid() && !loading
      ensures outcome.Answered? && outcome.reply.success ==> errors == old(errors)
      ensures outcome.Answered? && !outcome.reply.success ==>
                errors == [MessageOr(outcome.reply.message, FailureFallback)]
      ensures outcome.Thrown? ==> errors == [NetworkErrorText + outcome.detail]
      ensures |errors| == 1 || errors == old(errors)
      ensures email == old(email) && password == old(password)
    {
      match outcome {
        case Answered(reply) =>
          if !reply.success {
            errors := [MessageOr(reply.message, FailureFallback)];
          }
        case Thrown(detail) =>
          errors := [NetworkErrorText + detail];
      }
      loading := false;
    }
  }
}
