/** The JavaScript string operations the application relies on:
    String.prototype.trim, toLowerCase, split on a one-character separator
    and Array.prototype.join. `trim` is modelled exactly (the WhiteSpace and
    LineTerminator code points of ECMA-262, section 12.2 and 12.3);
    `toLowerCase` is modelled on ASCII letters only. */
module Text {

  /** LineTerminator code points (ECMA-262, section 12.3). */
  predicate IsLineTerminator(c: char) {
    c == '\n' || c == '\r' || c == '\U{2028}' || c == '\U{2029}'
  }

  /** The code points String.prototype.trim removes: WhiteSpace (tab, VT, FF,
      ZWNBSP and the Unicode category Zs) and LineTerminator. */
  predicate IsWhitespace(c: char) {
    || c == '\t' || c == '\U{000B}' || c == '\U{000C}' || c == ' '
    || c == '\U{00A0}' || c == '\U{FEFF}' || c == '\U{1680}'
    || ('\U{2000}' <= c <= '\U{200A}')
    || c == '\U{202F}' || c == '\U{205F}' || c == '\U{3000}'
    || IsLineTerminator(c)
  }

  predicate AllWhitespace(s: string) {
    forall i :: 0 <= i < |s| ==> IsWhitespace(s[i])
  }

  /** Neither end of `s` is a whitespace code point. */
  predicate IsTrimmed(s: string) {
    s == [] || (!IsWhitespace(s[0]) && !IsWhitespace(s[|s| - 1]))
  }

  /** `s` with its longest whitespace prefix removed. */
  function TrimStart(s: string): (r: string)
    ensures |r| <= |s| && (r == [] || !IsWhitespace(r[0]))
  {
    if |s| > 0 && IsWhitespace(s[0]) then TrimStart(s[1..]) else s
  }

  /** TrimStart removes exactly a whitespace prefix. */
  lemma {:induction false} TrimStartIsSuffix(s: string)
    ensures TrimStart(s) == s[|s| - |TrimStart(s)|..]
    ensures AllWhitespace(s[..|s| - |TrimStart(s)|])
  {
    if |s| > 0 && IsWhitespace(s[0]) {
      TrimStartIsSuffix(s[1..]);
    }
  }

  /** `s` with its longest whitespace suffix removed. */
  function TrimEnd(s: string): (r: string)
    ensures |r| <= |s| && (r == [] || !IsWhitespace(r[|r| - 1]))
  {
    if |s| > 0 && IsWhitespace(s[|s| - 1]) then TrimEnd(s[..|s| - 1]) else s
  }

  /** TrimEnd removes exactly a whitespace suffix. */
  lemma {:induction false} TrimEndIsPrefix(s: string)
    ensures TrimEnd(s) == s[..|TrimEnd(s)|]
    ensures AllWhitespace(s[|TrimEnd(s)|..])
  {
    if |s| > 0 && IsWhitespace(s[|s| - 1]) {
      TrimEndIsPrefix(s[..|s| - 1]);
      assert s[..|s| - 1][|TrimEnd(s)|..] + [s[|s| - 1]] == s[|TrimEnd(s)|..];
    }
  }

  /** String.prototype.trim: whitespace removed from both ends. */
  function Trim(s: string): (r: string)
    ensures IsTrimmed(r) && |r| <= |s|
  {
    var a := TrimStart(s);
    TrimEndIsPrefix(a);
    TrimEnd(a)
  }

  /** JavaScript's `!s.trim()`: nothing but whitespace. */
  predicate IsBlank(s: string) {
    |Trim(s)| == 0
  }

  /** `r` sits in `s` at offset `i` with only whitespace on either side. */
  predicate WhitespaceAround(s: string, r: string, i: int) {
    0 <= i <= |s| - |r| && r == s[i..i + |r|]
    && AllWhitespace(s[..i]) && AllWhitespace(s[i + |r|..])
  }

  /** Trim(s) is an infix of `s` with only whitespace on either side. */
  lemma TrimIsInfix(s: string)
    ensures exists i :: WhitespaceAround(s, Trim(s), i)
  {
    var a := TrimStart(s);
    var r := TrimEnd(a);
    assert r == Trim(s);
    TrimStartIsSuffix(s);
    TrimEndIsPrefix(a);
    var i := |s| - |a|;
    assert r == s[i..i + |r|];
    assert s[i + |r|..] == a[|r|..];
    assert WhitespaceAround(s, r, i);
  }

  lemma {:induction false} TrimStartOfTrimmedStart(s: string)
    requires s == [] || !IsWhitespace(s[0])
    ensures TrimStart(s) == s
  {
  }

  /** Trimming a trimmed string changes nothing, so trim is idempotent. */
  lemma {:induction false} TrimOfTrimmed(s: string)
    requires IsTrimmed(s)
    ensures Trim(s) == s
  {
    TrimStartOfTrimmedStart(s);
  }

  lemma {:induction false} TrimStartOfWhitespacePrefix(w: string, t: string)
    requires AllWhitespace(w)
    requires t == [] || !IsWhitespace(t[0])
    ensures TrimStart(w + t) == t
  {
    if w == [] {
      assert w + t == t;
    } else {
      assert (w + t)[1..] == w[1..] + t;
      TrimStartOfWhitespacePrefix(w[1..], t);
    }
  }

  /** Leading whitespace in front of a trimmed string is exactly what trim removes. */
  lemma {:induction false} TrimWhitespacePrefix(w: string, t: string)
    requires AllWhitespace(w) && IsTrimmed(t)
    ensures Trim(w + t) == t
  {
    TrimStartOfWhitespacePrefix(w, t);
    TrimOfTrimmed(t);
  }

  /** A string is blank iff every code point in it is whitespace. */
  lemma {:induction false} BlankIffAllWhitespace(s: string)
    ensures IsBlank(s) <==> AllWhitespace(s)
  {
    var r := Trim(s);
    TrimIsInfix(s);
    var i :| WhitespaceAround(s, r, i);
    if r == [] {
      assert s == s[..i] + s[i..];
      forall k | 0 <= k < |s| ensures IsWhitespace(s[k]) {
        if k < i { assert s[k] == s[..i][k]; } else { assert s[k] == s[i..][k - i]; }
      }
    } else {
      assert !IsWhitespace(s[i]);
    }
  }

  /** Every code point of Trim(s) occurs in `s`. */
  lemma TrimKeepsCodePoints(s: string, c: char)
    requires c in Trim(s)
    ensures c in s
  {
    var r := Trim(s);
    TrimIsInfix(s);
    var i :| WhitespaceAround(s, r, i);
    var k :| 0 <= k < |r| && r[k] == c;
    assert s[i + k] == c;
  }

  /** toLowerCase on one code point (ASCII letters only). */
  function LowerChar(c: char): char {
    if 'A' <= c <= 'Z' then (c as int + 32) as char else c
  }

  predicate IsLowercase(s: string) {
    forall i :: 0 <= i < |s| ==> !('A' <= s[i] <= 'Z')
  }

  /** String.prototype.toLowerCase, on ASCII letters only. */
  function ToLower(s: string): string {
    seq(|s|, i requires 0 <= i < |s| => LowerChar(s[i]))
  }

  /** Lower-casing yields a lower-case string of the same length, changes
      nothing in a string that is already lower case, keeps trimmedness and
      never introduces a code point other than an ASCII lower-case letter. */
  lemma ToLowerFacts(s: string)
    ensures |ToLower(s)| == |s| && IsLowercase(ToLower(s))
    ensures IsLowercase(s) ==> ToLower(s) == s
    ensures IsTrimmed(s) ==> IsTrimmed(ToLower(s))
    ensures forall c :: c in ToLower(s) && !('a' <= c <= 'z') ==> c in s
  {
    forall c | c in ToLower(s) && !('a' <= c <= 'z') ensures c in s {
      var k :| 0 <= k < |s| && ToLower(s)[k] == c;
      assert s[k] == c;
    }
  }

  /** The normalisation applied to every tag: `tag.trim().toLowerCase()`. */
  function Normalise(s: string): (r: string)
    ensures IsTrimmed(r) && IsLowercase(r)
  {
    ToLowerFacts(Trim(s));
    ToLower(Trim(s))
  }

  /** Normalising never introduces a code point other than an ASCII
      lower-case letter. */
  lemma NormaliseKeepsCodePoints(s: string, c: char)
    requires c in Normalise(s) && !('a' <= c <= 'z')
    ensures c in s
  {
    ToLowerFacts(Trim(s));
    TrimKeepsCodePoints(s, c);
  }

  /** `.map(tag => tag.trim().toLowerCase())` */
  function NormaliseAll(xs: seq<string>): (r: seq<string>)
    ensures |r| == |xs|
  {
    seq(|xs|, k requires 0 <= k < |xs| => Normalise(xs[k]))
  }

  /** A tag that normalisation leaves as it is. */
  predicate IsNormalised(s: string) {
    IsTrimmed(s) && IsLowercase(s)
  }

  /** Every element of `NormaliseAll(xs)` is normalised. */
  lemma NormaliseAllNormalised(xs: seq<string>)
    ensures forall k :: 0 <= k < |xs| ==> IsNormalised(NormaliseAll(xs)[k])
  {
  }

  /** Normalising a normalised string, with any whitespace in front, gives it back. */
  lemma NormaliseNormalised(w: string, s: string)
    requires AllWhitespace(w) && IsNormalised(s)
    ensures Normalise(w + s) == s
  {
    TrimWhitespacePrefix(w, s);
    ToLowerFacts(s);
  }

  /** String.prototype.split with a one-character separator: the pieces
      between separators, at least one (`"".split(",")` is `[""]`). */
  function Split(s: string, sep: char): (r: seq<string>)
    ensures |r| >= 1
    ensures forall k :: 0 <= k < |r| ==> sep !in r[k]
  {
    if |s| == 0 then [""]
    else
      var rest := Split(s[1..], sep);
      if s[0] == sep then [""] + rest
      else [[s[0]] + rest[0]] + rest[1..]
  }

  /** A string of separators alone splits into empty pieces only. */
  lemma {:induction false} SplitOnlySeparators(s: string, sep: char)
    ensures (forall k :: 0 <= k < |s| ==> s[k] == sep) ==>
              forall k :: 0 <= k < |Split(s, sep)| ==> Split(s, sep)[k] == ""
  {
    if |s| > 0 && forall k :: 0 <= k < |s| ==> s[k] == sep {
      assert forall k :: 0 <= k < |s[1..]| ==> s[1..][k] == s[k + 1];
      SplitOnlySeparators(s[1..], sep);
    }
  }

  /** Array.prototype.join. */
  function Join(xs: seq<string>, sep: string): string {
    if |xs| == 0 then ""
    else if |xs| == 1 then xs[0]
    else xs[0] + sep + Join(xs[1..], sep)
  }

  /** Joining the pieces of a split with the separator restores the string. */
  lemma {:induction false} JoinSplit(s: string, sep: char)
    ensures Join(Split(s, sep), [sep]) == s
  {
    if |s| > 0 {
      var rest := Split(s[1..], sep);
      JoinSplit(s[1..], sep);
      if s[0] == sep {
        assert Join([""] + rest, [sep]) == "" + [sep] + Join(rest, [sep]);
      } else if |rest| == 1 {
        assert s == [s[0]] + s[1..];
      } else {
        var r := [[s[0]] + rest[0]] + rest[1..];
        assert r[1..] == rest[1..];
        assert Join(rest, [sep]) == rest[0] + [sep] + Join(rest[1..], [sep]);
        assert s == [s[0]] + s[1..];
      }
    }
  }

  lemma {:induction false} SplitWithoutSeparator(x: string, sep: char)
    requires sep !in x
    ensures Split(x, sep) == [x]
  {
    if |x| > 0 {
      SplitWithoutSeparator(x[1..], sep);
      assert [x[0]] + x[1..] == x;
    }
  }

  lemma {:induction false} SplitAtFirstSeparator(x: string, sep: char, y: string)
    requires sep !in x
    ensures Split(x + [sep] + y, sep) == [x] + Split(y, sep)
  {
    if |x| == 0 {
      assert x + [sep] + y == [sep] + y;
      assert ([sep] + y)[1..] == y;
    } else {
      assert (x + [sep] + y)[1..] == x[1..] + [sep] + y;
      SplitAtFirstSeparator(x[1..], sep, y);
      assert [x[0]] + x[1..] == x;
    }
  }

  /** Splitting a join of separator-free pieces gives the pieces back. */
  lemma {:induction false} SplitJoin(xs: seq<string>, sep: char)
    requires |xs| >= 1
    requires forall k :: 0 <= k < |xs| ==> sep !in xs[k]
    ensures Split(Join(xs, [sep]), sep) == xs
  {
    if |xs| == 1 {
      SplitWithoutSeparator(xs[0], sep);
    } else {
      SplitJoin(xs[1..], sep);
      SplitAtFirstSeparator(xs[0], sep, Join(xs[1..], [sep]));
      assert [xs[0]] + xs[1..] == xs;
    }
  }

  /** The sequence `xs` with a space put in front of every element. */
  function SpacePrefixed(xs: seq<string>): (r: seq<string>)
    ensures |r| == |xs| && forall k :: 0 <= k < |xs| ==> r[k] == " " + xs[k]
  {
    seq(|xs|, k requires 0 <= k < |xs| => " " + xs[k])
  }

  /** Joining with ", " is joining with "," after a space is put in front of
      every element but the first. */
  lemma JoinCommaSpace(xs: seq<string>)
    requires |xs| >= 1
    ensures Join(xs, ", ") == Join([xs[0]] + SpacePrefixed(xs[1..]), ",")
  {
    JoinSpaced(xs[0], xs[1..]);
    assert [xs[0]] + xs[1..] == xs;
  }

  lemma {:induction false} JoinSpaced(first: string, xs: seq<string>)
    ensures Join([first] + xs, ", ") == Join([first] + SpacePrefixed(xs), ",")
    decreases |xs|
  {
    if xs != [] {
      var rest := SpacePrefixed(xs[1..]);
      var j := Join([xs[0]] + rest, ",");
      JoinSpaced(xs[0], xs[1..]);
      JoinCons(first, xs, ", ");
      assert xs == [xs[0]] + xs[1..];
      JoinCons(first, [" " + xs[0]] + rest, ",");
      assert SpacePrefixed(xs) == [" " + xs[0]] + rest;
      JoinSpaceFront(xs[0], rest);
      assert first + ", " + j == first + "," + (" " + j);
    }
  }

  /** Joining an element in front of a non-empty sequence. */
  lemma JoinCons(first: string, xs: seq<string>, sep: string)
    requires xs != []
    ensures Join([first] + xs, sep) == first + sep + Join(xs, sep)
  {
    assert ([first] + xs)[1..] == xs;
  }

  /** A space in front of the first element comes out in front of the join. */
  lemma JoinSpaceFront(a: string, rest: seq<string>)
    ensures Join([" " + a] + rest, ",") == " " + Join([a] + rest, ",")
  {
    if rest != [] {
      assert ([" " + a] + rest)[1..] == rest == ([a] + rest)[1..];
    }
  }
}
