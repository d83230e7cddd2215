/** The e-mail pattern both auth forms test,
    `^\w+([.-]?\w+)*@\w+([.-]?\w+)*(\.\w{2,3})+$`, stated as the language it
    accepts (`\w` is `[A-Za-z0-9_]`; without the `u` flag it is ASCII only). */
module EmailRule {
  import opened Wrappers
  import opened Text

  predicate IsWordChar(c: char) {
    'a' <= c <= 'z' || 'A' <= c <= 'Z' || '0' <= c <= '9' || c == '_'
  }

  predicate IsSeparator(c: char) {
    c == '.' || c == '-'
  }

  /** The code point after index `k` exists and is a word character. */
  predicate WordCharFollows(s: string, k: nat) {
    k + 1 < |s| && IsWordChar(s[k + 1])
  }

  /** `\w+([.-]?\w+)*`: word characters, where a '.' or '-' may stand only
      between two of them (so none at either end and never two in a row). */
  predicate WordRun(s: string) {
    |s| > 0 && IsWordChar(s[0])
    && forall k :: 0 <= k < |s| ==>
         IsWordChar(s[k]) || (IsSeparator(s[k]) && WordCharFollows(s, k))
  }

  /** `(\.\w{2,3})+`: one or more groups of a '.' and two or three word characters. */
  predicate TldRun(s: string)
    decreases |s|
  {
    |s| >= 3 && s[0] == '.' && IsWordChar(s[1]) && IsWordChar(s[2])
    && (|s| == 3 || TldRun(s[3..]) || (IsWordChar(s[3]) && (|s| == 4 || TldRun(s[4..]))))
  }

  /** `\w+([.-]?\w+)*(\.\w{2,3})+` */
  predicate IsDomain(d: string) {
    exists k :: 0 < k < |d| && WordRun(d[..k]) && TldRun(d[k..])
  }

  /** The whole pattern, anchored at both ends. */
  predicate IsEmail(e: string) {
    exists i :: 0 <= i < |e| && e[i] == '@' && WordRun(e[..i]) && IsDomain(e[i + 1..])
  }

  lemma {:induction false} TldRunChars(s: string)
    requires TldRun(s)
    ensures forall k :: 0 <= k < |s| ==> IsWordChar(s[k]) || s[k] == '.'
    decreases |s|
  {
    if |s| > 3 && TldRun(s[3..]) {
      TldRunChars(s[3..]);
      assert forall k :: 3 <= k < |s| ==> s[k] == s[3..][k - 3];
    } else if |s| > 4 && TldRun(s[4..]) {
      TldRunChars(s[4..]);
      assert forall k :: 4 <= k < |s| ==> s[k] == s[4..][k - 4];
    }
  }

  lemma {:induction false} TldRunEndsInWordChar(s: string)
    requires TldRun(s)
    ensures IsWordChar(s[|s| - 1])
    decreases |s|
  {
    if |s| > 3 && TldRun(s[3..]) {
      TldRunEndsInWordChar(s[3..]);
    } else if |s| > 4 && TldRun(s[4..]) {
      TldRunEndsInWordChar(s[4..]);
    }
  }

  lemma WordRunChars(s: string)
    requires WordRun(s)
    ensures IsWordChar(s[|s| - 1])
    ensures forall k :: 0 <= k < |s| ==> IsWordChar(s[k]) || IsSeparator(s[k])
  {
    assert s[|s| - 1] in s;
  }

  /** Every non-empty run of word characters is a `WordRun`. */
  lemma WordCharsWordRun(s: string)
    requires |s| > 0 && forall k :: 0 <= k < |s| ==> IsWordChar(s[k])
    ensures WordRun(s)
  {
  }

  /** The characters of a matching domain: no '@' among them, a word character last. */
  lemma DomainChars(d: string)
    requires IsDomain(d)
    ensures IsWordChar(d[|d| - 1])
    ensures forall j :: 0 <= j < |d| ==> IsWordChar(d[j]) || IsSeparator(d[j])
  {
    var k :| 0 < k < |d| && WordRun(d[..k]) && TldRun(d[k..]);
    WordRunChars(d[..k]);
    TldRunChars(d[k..]);
    TldRunEndsInWordChar(d[k..]);
    assert d[|d| - 1] == d[k..][|d| - 1 - k];
    forall j | 0 <= j < |d| ensures IsWordChar(d[j]) || IsSeparator(d[j]) {
      if j < k {
        assert d[j] == d[..k][j];
      } else {
        assert d[j] == d[k..][j - k];
      }
    }
  }

  /** The one '@' of a matching address. */
  lemma AtSign(e: string) returns (i: nat)
    requires IsEmail(e)
    ensures i < |e| && e[i] == '@' && WordRun(e[..i]) && IsDomain(e[i + 1..])
    ensures forall j :: 0 <= j < |e| && j != i ==> IsWordChar(e[j]) || IsSeparator(e[j])
  {
    i :| 0 <= i < |e| && e[i] == '@' && WordRun(e[..i]) && IsDomain(e[i + 1..]);
    WordRunChars(e[..i]);
    DomainChars(e[i + 1..]);
    forall j | 0 <= j < |e| && j != i ensures IsWordChar(e[j]) || IsSeparator(e[j]) {
      if j < i {
        assert e[j] == e[..i][j];
      } else {
        assert e[j] == e[i + 1..][j - i - 1];
      }
    }
  }

  /** What a matching address looks like: it starts and ends with a word
      character, has exactly one '@', and nothing but word characters, '.',
      '-' and that '@' -- in particular no whitespace. */
  lemma EmailShape(e: string)
    requires IsEmail(e)
    ensures IsWordChar(e[0]) && IsWordChar(e[|e| - 1])
    ensures forall k :: 0 <= k < |e| ==> IsWordChar(e[k]) || IsSeparator(e[k]) || e[k] == '@'
    ensures forall a, b :: 0 <= a < b < |e| && e[a] == '@' ==> e[b] != '@'
  {
    var i := AtSign(e);
    assert e[0] == e[..i][0];
    DomainChars(e[i + 1..]);
    assert e[|e| - 1] == e[i + 1..][|e| - i - 2];
  }

  /** A matching address is never blank, so 'Email is required' and
      'Please enter a valid email' exclude each other. */
  lemma EmailNotBlank(e: string)
    requires IsEmail(e)
    ensures !IsBlank(e)
  {
    EmailShape(e);
    BlankIffAllWhitespace(e);
  }

  lemma BlankIsNotEmail(e: string)
    requires IsBlank(e)
    ensures !IsEmail(e)
  {
    if IsEmail(e) {
      EmailNotBlank(e);
    }
  }

  /** An address of the usual form matches. */
  lemma AcceptsPlainAddress()
    ensures IsEmail("jo@mail.com")
  {
    var e := "jo@mail.com";
    var d := e[3..];
    assert d == "mail.com";
    assert d[..4] == "mail";
    WordCharsWordRun(d[..4]);
    assert d[4..] == ".com" && TldRun(d[4..]);
    assert IsDomain(d);
    assert e[..2] == "jo";
    WordCharsWordRun(e[..2]);
  }

  /** A domain without a dot does not match. */
  lemma RejectsDotlessDomain()
    ensures !IsEmail("jo@mail")
  {
    var e := "jo@mail";
    forall i | 0 <= i < |e| && e[i] == '@' ensures !IsDomain(e[i + 1..]) {
      assert i == 2;
      var d := e[3..];
      forall k | 0 < k < |d| ensures !TldRun(d[k..]) {
        assert d[k..][0] == d[k] != '.';
      }
    }
  }

  /** A last label of one code point does not match: it must have two or three. */
  lemma RejectsShortTopLevelLabel()
    ensures !IsEmail("jo@mail.c")
  {
    var d := "mail.c";
    var e := "jo@" + d;
    assert e == "jo@mail.c";
    forall i | 0 <= i < |e| && e[i] == '@' ensures !IsDomain(e[i + 1..]) {
      assert forall j :: 0 <= j < |e| && j != 2 ==> e[j] != '@';
      assert e[i + 1..] == d;
      ShortLabelIsNoDomain();
    }
  }

  lemma ShortLabelIsNoDomain()
    ensures !IsDomain("mail.c")
  {
    var d := "mail.c";
    forall k | 0 < k < |d| ensures !TldRun(d[k..]) {
      if k != 4 {
        assert d[k..][0] == d[k] != '.';
      } else {
        assert |d[k..]| == 2;
      }
    }
  }

  /** The two e-mail messages of the auth forms. */
  datatype EmailIssue = EmailRequired | EmailInvalid

  function Message(issue: EmailIssue): string {
    match issue
    case EmailRequired => "Email is required"
    case EmailInvalid => "Please enter a valid email"
  }

  /** The e-mail rule both auth forms apply: blank after trimming, or else
      not matching the pattern (which is tested on the untrimmed text). */
  function CheckEmail(email: string): (r: Option<EmailIssue>)
    ensures r == Some(EmailRequired) <==> IsBlank(email)
    ensures r == Some(EmailInvalid) <==> !IsBlank(email) && !IsEmail(email)
    ensures r == None <==> IsEmail(email)
  {
    if IsBlank(email) then BlankIsNotEmail(email); Some(EmailRequired)
    else if !IsEmail(email) then Some(EmailInvalid)
    else None
  }
}
