/** The signup page: its four fields, the client-side checks run before
    anything is sent, and what the page shows afterwards. */
module SignupForm {
  import opened Wrappers
  import opened Text
  import opened EmailRule
  import opened ClientReply

  datatype Field = Username | Email | Password | ConfirmPassword

  datatype Problem =
    | UsernameRequired
    | UsernameTooShort
    | BadEmail(issue: EmailIssue)
    | PasswordRequired
    | PasswordTooShort
    | PasswordsDiffer

  function ProblemMessage(p: Problem): string {
    match p
    case UsernameRequired => "Username is required"
    case UsernameTooShort => "Username must be at least 3 characters"
    case BadEmail(issue) => EmailRule.Message(issue)
    case PasswordRequired => "Password is required"
    case PasswordTooShort => "Password must be at least 6 characters"
    case PasswordsDiffer => "Passwords do not match"
  }

  /** The position of a check in the form, which is the order of the messages. */
  function Rank(p: Problem): nat {
    match p
    case UsernameRequired => 0
    case UsernameTooShort => 0
    case BadEmail(_) => 1
    case PasswordRequired => 2
    case PasswordTooShort => 2
    case PasswordsDiffer => 3
  }

  /** One problem per field at most, fields in the form's order. */
  predicate InFormOrder(ps: seq<Problem>) {
    forall i, j :: 0 <= i < j < |ps| ==> Rank(ps[i]) < Rank(ps[j])
  }

  function AsList(p: Option<Problem>): seq<Problem> {
    if p.Some? then [p.value] else []
  }

  /** The problems of the four checks, one optional problem each, laid end to end. */
  lemma Layout(u: Option<Problem>, e: Option<Problem>, p: Option<Problem>, m: Option<Problem>)
    requires u.Some? ==> Rank(u.value) == 0
    requires e.Some? ==> Rank(e.value) == 1
    requires p.Some? ==> Rank(p.value) == 2
    requires m.Some? ==> Rank(m.value) == 3
    ensures InFormOrder(AsList(u) + AsList(e) + AsList(p) + AsList(m))
    ensures forall x :: x in AsList(u) + AsList(e) + AsList(p) + AsList(m) <==>
                          u == Some(x) || e == Some(x) || p == Some(x) || m == Some(x)
    ensures AsList(u) + AsList(e) + AsList(p) + AsList(m) == [] <==>
              u.None? && e.None? && p.None? && m.None?
  {
    var ps := AsList(u) + AsList(e) + AsList(p) + AsList(m);
    forall i, j | 0 <= i < j < |ps| ensures Rank(ps[i]) < Rank(ps[j]) {
      assert forall k :: 0 <= k < |ps| ==> ps[k] in ps;
    }
  }

  const MinUsernameLength := 3
  const MinPasswordLength := 6

  /** The username check: blank after trimming, or else shorter than three
      code points counting any surrounding whitespace. */
  function UsernameRule(username: string): (r: Option<Problem>)
    ensures r == Some(UsernameRequired) <==> IsBlank(username)
    ensures r == Some(UsernameTooShort) <==> !IsBlank(username) && |username| < MinUsernameLength
    ensures r.None? <==> !IsBlank(username) && |username| >= MinUsernameLength
  {
    if IsBlank(username) then Some(UsernameRequired)
    else if |username| < MinUsernameLength then Some(UsernameTooShort)
    else None
  }

  /** The password check: empty (no trimming), or else shorter than six. */
  function PasswordRule(password: string): (r: Option<Problem>)
    ensures r == Some(PasswordRequired) <==> password == ""
    ensures r == Some(PasswordTooShort) <==> password != "" && |password| < MinPasswordLength
    ensures r.None? <==> |password| >= MinPasswordLength
  {
    if password == "" then Some(PasswordRequired)
    else if |password| < MinPasswordLength then Some(PasswordTooShort)
    else None
  }

  function EmailRuleProblem(email: string): (r: Option<Problem>)
    ensures r == Some(BadEmail(EmailRequired)) <==> IsBlank(email)
    ensures r == Some(BadEmail(EmailInvalid)) <==> !IsBlank(email) && !IsEmail(email)
    ensures r.None? <==> IsEmail(email)
  {
    var issue := CheckEmail(email);
    if issue.Some? then Some(BadEmail(issue.value)) else None
  }

  function MatchRule(password: string, confirmPassword: string): (r: Option<Problem>) {
    if password != confirmPassword then Some(PasswordsDiffer) else None
  }

  /** What `validateForm` returns for the four field values. */
  function Problems(username: string, email: string, password: string, confirmPassword: string): seq<Problem> {
    AsList(UsernameRule(username)) + AsList(EmailRuleProblem(email))
    + AsList(PasswordRule(password)) + AsList(MatchRule(password, confirmPassword))
  }

  /** The username, password and confirmation messages each appear exactly
      when their rule fails. */
  lemma ProblemsFieldMessages(username: string, email: string, password: string, confirmPassword: string)
    ensures var ps := Problems(username, email, password, confirmPassword);
      && (UsernameRequired in ps <==> IsBlank(username))
      && (UsernameTooShort in ps <==> !IsBlank(username) && |username| < MinUsernameLength)
      && (PasswordRequired in ps <==> password == "")
      && (PasswordTooShort in ps <==> password != "" && |password| < MinPasswordLength)
      && (PasswordsDiffer in ps <==> password != confirmPassword)
  {
    Layout(UsernameRule(username), EmailRuleProblem(email), PasswordRule(password), MatchRule(password, confirmPassword));
  }

  /** The two email messages each appear exactly when their rule fails. */
  lemma ProblemsEmailMessages(username: string, email: string, password: string, confirmPassword: string)
    ensures var ps := Problems(username, email, password, confirmPassword);
      && (BadEmail(EmailRequired) in ps <==> IsBlank(email))
      && (BadEmail(EmailInvalid) in ps <==> !IsBlank(email) && !IsEmail(email))
  {
    Layout(UsernameRule(username), EmailRuleProblem(email), PasswordRule(password), MatchRule(password, confirmPassword));
  }

  /** The list is empty exactly when every rule passes, and the fields come
      in the form's order, one problem per field at most. */
  lemma ProblemsOrder(username: string, email: string, password: string, confirmPassword: string)
    ensures var ps := Problems(username, email, password, confirmPassword);
      && (ps == [] <==>
            !IsBlank(username) && |username| >= MinUsernameLength && IsEmail(email)
            && |password| >= MinPasswordLength && password == confirmPassword)
      && InFormOrder(ps)
  {
    Layout(UsernameRule(username), EmailRuleProblem(email), PasswordRule(password), MatchRule(password, confirmPassword));
  }

  const SuccessText := "Account created successfully! Redirecting..."
  const FailureFallback := "Registration failed"
  const NetworkErrorText := "Network error. Please check your connection and try again."

  /** The body of `POST /api/auth/register`; the confirmation is not sent. */
  datatype RegisterRequest = RegisterRequest(username: string, email: string, password: string)

  class SignupPage {
    var username: string
    var email: string
    var password: string
    var confirmPassword: string
    var loading: bool
    var errors: seq<string>
    var success: string

    /** Nothing is shown as an error while a request is pending. */
    predicate Valid()
      reads this
    {
      loading ==> errors == []
    }

    constructor()
      ensures Valid()
      ensures username == "" && email == "" && password == "" && confirmPassword == ""
      ensures !loading && errors == [] && success == ""
    {
      username, email, password, confirmPassword := "", "", "", "";
      loading, errors, success := false, [], "";
    }

    /** `handleInputChange`: one field takes the typed value and any shown
        errors disappear. */
    method SetField(field: Field, value: string)
      requires Valid()
      modifies this
      ensures Valid()
      ensures username == (if field == Username then value else old(username))
      ensures email == (if field == Email then value else old(email))
      ensures password == (if field == Password then value else old(password))
      ensures confirmPassword == (if field == ConfirmPassword then value else old(confirmPassword))
      ensures errors == []
      ensures loading == old(loading) && success == old(success)
    {
      match field {
        case Username => username := value;
        case Email => email := value;
        case Password => password := value;
        case ConfirmPassword => confirmPassword := value;
      }
      if |errors| > 0 {
        errors := [];
      }
    }

    /** `validateForm`: the checks in the form's order, each pushing at
        most one message; the passwords are compared whatever the others found. */
    method ValidateForm() returns (problems: seq<Problem>)
      ensures problems == Problems(username, email, password, confirmPassword)
    {
      problems := [];
      if IsBlank(username) {
        problems := problems + [UsernameRequired];
      } else if |username| < MinUsernameLength {
        problems := problems + [UsernameTooShort];
      }
      assert problems == AsList(UsernameRule(username));
      var emailIssue := CheckEmail(email);
      if emailIssue.Some? {
        problems := problems + [BadEmail(emailIssue.value)];
      }
      assert problems == AsList(UsernameRule(username)) + AsList(EmailRuleProblem(email));
      if password == "" {
        problems := problems + [PasswordRequired];
      } else if |password| < MinPasswordLength {
        problems := problems + [PasswordTooShort];
      }
      assert problems == AsList(UsernameRule(username)) + AsList(EmailRuleProblem(email))
                         + AsList(PasswordRule(password));
      if password != confirmPassword {
        problems := problems + [PasswordsDiffer];
      }
      assert problems == AsList(UsernameRule(username)) + AsList(EmailRuleProblem(email))
                         + AsList(PasswordRule(password)) + AsList(MatchRule(password, confirmPassword));
    }

    /** `handleSubmit` up to the request: the problems are shown and nothing
        is sent, or the errors are cleared and the registration is sent. */
    method Submit() returns (request: Option<RegisterRequest>)
      requires Valid() && !loading
      modifies this
      ensures Valid()
      ensures request.None? ==>
                errors == MapSeq(Problems(username, email, password, confirmPassword), ProblemMessage)
                && errors != [] && !loading
      ensures request.Some? <==>
                !IsBlank(username) && |username| >= MinUsernameLength && IsEmail(email)
                && |password| >= MinPasswordLength && password == confirmPassword
      ensures request.Some? ==> request.value == RegisterRequest(username, email, password) && loading && errors == []
      ensures username == old(username) && email == old(email)
      ensures password == old(password) && confirmPassword == old(confirmPassword)
      ensures success == old(success)
    {
      var problems := ValidateForm();
      ProblemsOrder(username, email, password, confirmPassword);
      if |problems| > 0 {
        errors := MapSeq(problems, ProblemMessage);
        request := None;
        return;
      }
      loading := true;
      errors := [];
      request := Some(RegisterRequest(username, email, password));
    }

    /** The end of `handleSubmit`: the success text, the server's reasons,
        or the network message; the form is usable again. */
    method Complete(outcome: Outcome<()>)
      requires Valid()
      modifies this
      ensures Valid() && !loading
      ensures outcome.Answered? && outcome.reply.success ==> success == SuccessText && errors == old(errors)
      ensures outcome.Answered? && !outcome.reply.success ==>
                errors == RefusalErrors(outcome.reply, FailureFallback) && success == old(success)
      ensures outcome.Thrown? ==> errors == [NetworkErrorText] && success == old(success)
      ensures username == old(username) && email == old(email)
      ensures password == old(password) && confirmPassword == old(confirmPassword)
    {
      match outcome {
        case Answered(reply) =>
          if reply.success {
            success := SuccessText;
          } else {
            errors := RefusalErrors(reply, FailureFallback);
          }
        case Thrown(_) =>
          errors := [NetworkErrorText];
      }
      loading := false;
    }
  }
}
