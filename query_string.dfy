/** The list pages' request URL: a `URLSearchParams` built from the filters
    and serialised as `application/x-www-form-urlencoded` (section 5.2 of
    the WHATWG URL Standard), together with that format's parser as the
    reference to check the serialisation against. */
module QueryString {
  import opened Text
  import TagInput

  type Byte = x: int | 0 <= x < 256

  /** The UTF-8 encoding of one code point (a `char` is a Unicode scalar value). */
  function Utf8(c: char): (r: seq<Byte>)
    ensures 1 <= |r| <= 4
    ensures (c as int < 0x80) <==> |r| == 1
    ensures c as int < 0x80 ==> r == [c as int]
  {
    var cp := c as int;
    if cp < 0x80 then [cp]
    else if cp < 0x800 then [0xC0 + cp / 64, 0x80 + cp % 64]
    else if cp < 0x10000 then [0xE0 + cp / 4096, 0x80 + (cp / 64) % 64, 0x80 + cp % 64]
    else [0xF0 + cp / 262144, 0x80 + (cp / 4096) % 64, 0x80 + (cp / 64) % 64, 0x80 + cp % 64]
  }

  function Utf8Bytes(s: string): seq<Byte> {
    if s == [] then [] else Utf8(s[0]) + Utf8Bytes(s[1..])
  }

  /** The bytes the serialiser writes as themselves: `*`, `-`, `.`, `_`, and
      ASCII digits and letters. */
  predicate Unreserved(b: Byte) {
    b == 0x2A || b == 0x2D || b == 0x2E || b == 0x5F
    || 0x30 <= b <= 0x39 || 0x41 <= b <= 0x5A || 0x61 <= b <= 0x7A
  }

  const HexDigits: string := "0123456789ABCDEF"

  predicate IsHexDigit(c: char) {
    '0' <= c <= '9' || 'A' <= c <= 'F' || 'a' <= c <= 'f'
  }

  function HexValue(c: char): (v: nat)
    requires IsHexDigit(c)
    ensures v < 16
  {
    if '0' <= c <= '9' then c as int - '0' as int
    else if 'A' <= c <= 'F' then c as int - 'A' as int + 10
    else c as int - 'a' as int + 10
  }

  /** One byte as the serialiser writes it: space as '+', an unreserved byte
      as its character, anything else as '%' and two upper-case hex digits. */
  function EncodeByte(b: Byte): (r: string)
    ensures '&' !in r && '=' !in r
  {
    if b == 0x20 then "+"
    else if Unreserved(b) then [b as char]
    else ['%', HexDigits[b / 16], HexDigits[b % 16]]
  }

  function EncodeBytes(bs: seq<Byte>): (r: string)
    ensures '&' !in r && '=' !in r
  {
    if bs == [] then "" else EncodeByte(bs[0]) + EncodeBytes(bs[1..])
  }

  /** The percent-encoding of a name or a value. */
  function Encode(s: string): (r: string)
    ensures '&' !in r && '=' !in r
  {
    if s == [] then "" else EncodeBytes(Utf8(s[0])) + Encode(s[1..])
  }

  /** The serialiser: `name=value` pairs, encoded, joined with '&'. */
  function Serialize(pairs: seq<(string, string)>): (r: string)
    ensures r == "" <==> pairs == []
  {
    var pieces := seq(|pairs|, k requires 0 <= k < |pairs| => Encode(pairs[k].0) + "=" + Encode(pairs[k].1));
    assert pairs != [] ==> '=' in pieces[0];
    Join(pieces, "&")
  }

  /** The parser's decoding of one name or value: '+' is a space, '%' and two
      hex digits are that byte, and any other code point stands for its own
      UTF-8 bytes (so does a '%' without two hex digits after it). */
  function FormDecode(t: string): seq<Byte> {
    if t == [] then []
    else if t[0] == '+' then [0x20] + FormDecode(t[1..])
    else if t[0] == '%' && |t| >= 3 && IsHexDigit(t[1]) && IsHexDigit(t[2]) then
      [HexValue(t[1]) * 16 + HexValue(t[2])] + FormDecode(t[3..])
    else Utf8(t[0]) + FormDecode(t[1..])
  }

  /** A sequence split at its first '=' (all of it is the name if there is none). */
  function CutAtEquals(p: string): (string, string) {
    if p == [] then ("", "")
    else if p[0] == '=' then ("", p[1..])
    else
      var r := CutAtEquals(p[1..]);
      ([p[0]] + r.0, r.1)
  }

  /** The parser: the '&'-separated sequences, empty ones skipped, each cut
      at its first '=' and both halves decoded to bytes. A string of
      separators alone holds no pair. */
  function ParseQuery(s: string): (r: seq<(seq<Byte>, seq<Byte>)>)
    ensures (forall k :: 0 <= k < |s| ==> s[k] == '&') ==> r == []
  {
    NoPairsFromSeparators(s);
    var pieces := TagInput.NonEmpty(Split(s, '&'));
    seq(|pieces|, k requires 0 <= k < |pieces| =>
      (FormDecode(CutAtEquals(pieces[k]).0), FormDecode(CutAtEquals(pieces[k]).1)))
  }

  lemma NoPairsFromSeparators(s: string)
    ensures (forall k :: 0 <= k < |s| ==> s[k] == '&') ==> TagInput.NonEmpty(Split(s, '&')) == []
  {
    SplitOnlySeparators(s, '&');
    var pieces := TagInput.NonEmpty(Split(s, '&'));
    if forall k :: 0 <= k < |s| ==> s[k] == '&' {
      assert forall x :: x in Split(s, '&') ==> x == "";
    }
  }

  lemma HexDigitsDecode(d: nat)
    requires d < 16
    ensures IsHexDigit(HexDigits[d]) && HexValue(HexDigits[d]) == d
  {
  }

  /** Decoding undoes the encoding of a single byte. */
  lemma DecodeEncodeByte(b: Byte, rest: string)
    ensures FormDecode(EncodeByte(b) + rest) == [b] + FormDecode(rest)
  {
    var t := EncodeByte(b) + rest;
    if b == 0x20 {
      assert t[0] == '+' && t[1..] == rest;
    } else if Unreserved(b) {
      assert t[0] == b as char && t[1..] == rest;
    } else {
      HexDigitsDecode(b / 16);
      HexDigitsDecode(b % 16);
      assert t[0] == '%' && t[1] == HexDigits[b / 16] && t[2] == HexDigits[b % 16];
      assert t[3..] == rest;
    }
  }

  lemma {:induction false} DecodeEncodeBytes(bs: seq<Byte>, rest: string)
    ensures FormDecode(EncodeBytes(bs) + rest) == bs + FormDecode(rest)
    decreases |bs|
  {
    if bs == [] {
      assert EncodeBytes(bs) + rest == rest;
    } else {
      var more := bs[1..];
      var tail := EncodeBytes(more) + rest;
      DecodeEncodeBytes(more, rest);
      EncodeBytesCons(bs, rest);
      assert EncodeBytes(bs) + rest == EncodeByte(bs[0]) + tail;
      DecodeEncodeByteBefore(bs[0], more, rest);
      SeqConsAppend(bs, FormDecode(rest));
    }
  }

  /** Putting the head back in front of the tail, with more bytes after it. */
  lemma SeqConsAppend(bs: seq<Byte>, d: seq<Byte>)
    requires bs != []
    ensures [bs[0]] + (bs[1..] + d) == bs + d
  {
    assert [bs[0]] + bs[1..] == bs;
  }

  /** One unfolding of the byte encoding, followed by more text. Kept apart
      from the induction, whose context makes this step costly. */
  lemma EncodeBytesCons(bs: seq<Byte>, rest: string)
    requires bs != []
    ensures EncodeBytes(bs) + rest == EncodeByte(bs[0]) + (EncodeBytes(bs[1..]) + rest)
  {
  }

  /** One step of the induction: a byte's encoding in front of encoded
      bytes decodes to the byte in front of them. */
  lemma DecodeEncodeByteBefore(b: Byte, more: seq<Byte>, rest: string)
    requires FormDecode(EncodeBytes(more) + rest) == more + FormDecode(rest)
    ensures FormDecode(EncodeByte(b) + (EncodeBytes(more) + rest)) == [b] + (more + FormDecode(rest))
  {
    DecodeEncodeByte(b, EncodeBytes(more) + rest);
  }

  /** Decoding an encoded name or value gives back its UTF-8 bytes. */
  lemma {:induction false} DecodeEncode(s: string)
    ensures FormDecode(Encode(s)) == Utf8Bytes(s)
    decreases |s|
  {
    if s != [] {
      DecodeEncodeBytes(Utf8(s[0]), Encode(s[1..]));
      DecodeEncode(s[1..]);
    }
  }

  lemma {:induction false} CutAtEqualsJoin(a: string, b: string)
    requires '=' !in a
    ensures CutAtEquals(a + "=" + b) == (a, b)
    decreases |a|
  {
    if a == [] {
      assert a + "=" + b == ['='] + b;
    } else {
      assert a[0] in a;
      assert (a + "=" + b)[0] == a[0];
      assert (a + "=" + b)[1..] == a[1..] + "=" + b;
      CutAtEqualsJoin(a[1..], b);
      assert [a[0]] + a[1..] == a;
    }
  }

  /** Parsing a serialisation gives back every pair, in order, as the UTF-8
      bytes of its name and value. */
  lemma ParseSerialize(pairs: seq<(string, string)>)
    ensures ParseQuery(Serialize(pairs))
            == seq(|pairs|, k requires 0 <= k < |pairs| => (Utf8Bytes(pairs[k].0), Utf8Bytes(pairs[k].1)))
  {
    if pairs != [] {
      var pieces := seq(|pairs|, k requires 0 <= k < |pairs| => Encode(pairs[k].0) + "=" + Encode(pairs[k].1));
      assert Serialize(pairs) == Join(pieces, "&");
      forall k | 0 <= k < |pieces| ensures '&' !in pieces[k] && pieces[k] != "" {
        assert pieces[k] == Encode(pairs[k].0) + "=" + Encode(pairs[k].1);
      }
      SplitJoin(pieces, '&');
      TagInput.NonEmptyKeepsNonEmpty(pieces);
      forall k | 0 <= k < |pairs|
        ensures CutAtEquals(pieces[k]) == (Encode(pairs[k].0), Encode(pairs[k].1))
      {
        CutAtEqualsJoin(Encode(pairs[k].0), Encode(pairs[k].1));
      }
      forall k | 0 <= k < |pairs| ensures FormDecode(Encode(pairs[k].0)) == Utf8Bytes(pairs[k].0)
                                         && FormDecode(Encode(pairs[k].1)) == Utf8Bytes(pairs[k].1) {
        DecodeEncode(pairs[k].0);
        DecodeEncode(pairs[k].1);
      }
    }
  }

  /** The pairs a list page appends, in its order: `q` for a non-empty
      search, `tags` (joined with ',') for a non-empty selection, and
      `favorite=true` when only favourites are shown. */
  function RequestParams(search: string, tags: seq<string>, favoritesOnly: bool): (r: seq<(string, string)>)
    ensures ("q", search) in r <==> search != ""
    ensures ("tags", Join(tags, ",")) in r <==> tags != []
    ensures ("favorite", "true") in r <==> favoritesOnly
    ensures |r| == (if search != "" then 1 else 0) + (if tags != [] then 1 else 0) + (if favoritesOnly then 1 else 0)
    ensures forall k :: 0 <= k < |r| ==> r[k] == ("q", search) || r[k] == ("tags", Join(tags, ",")) || r[k] == ("favorite", "true")
  {
    (if search != "" then [("q", search)] else [])
    + (if tags != [] then [("tags", Join(tags, ","))] else [])
    + (if favoritesOnly then [("favorite", "true")] else [])
  }

  /** The list endpoint with its filters: '?' and the serialised parameters
      follow only when at least one filter is set. */
  function UrlFor(base: string, search: string, tags: seq<string>, favoritesOnly: bool): string {
    if search == "" && tags == [] && !favoritesOnly then base
    else base + "?" + Serialize(RequestParams(search, tags, favoritesOnly))
  }

  /** `fetchNotes` / `fetchBookmarks`: the endpoint, and '?' and the
      serialised parameters only when there is at least one. */
  method RequestUrl(base: string, search: string, tags: seq<string>, favoritesOnly: bool) returns (url: string)
    ensures url == UrlFor(base, search, tags, favoritesOnly)
    ensures search == "" && tags == [] && !favoritesOnly ==> url == base
    ensures search != "" || tags != [] || favoritesOnly ==>
              url == base + "?" + Serialize(RequestParams(search, tags, favoritesOnly))
  {
    url := base;
    var params: seq<(string, string)> := [];
    if search != "" {
      params := params + [("q", search)];
    }
    if |tags| > 0 {
      params := params + [("tags", Join(tags, ","))];
    }
    if favoritesOnly {
      params := params + [("favorite", "true")];
    }
    assert params == RequestParams(search, tags, favoritesOnly);
    var query := Serialize(params);
    if query != "" {
      url := url + "?" + query;
    }
  }

  /** The server reads back exactly the selected tags from the `tags`
      parameter when none of them holds a ','. */
  lemma SelectedTagsRecovered(tags: seq<string>)
    requires tags != []
    requires forall k :: 0 <= k < |tags| ==> ',' !in tags[k]
    ensures Split(Join(tags, ","), ',') == tags
  {
    SplitJoin(tags, ',');
  }

  /** A name or value made only of unreserved ASCII characters is written as it is. */
  lemma {:induction false} EncodeUnreserved(s: string)
    requires forall k :: 0 <= k < |s| ==> s[k] as int < 0x80 && Unreserved(s[k] as int)
    ensures Encode(s) == s
    decreases |s|
  {
    if s != [] {
      assert EncodeBytes(Utf8(s[0])) == [s[0]];
      EncodeUnreserved(s[1..]);
      assert [s[0]] + s[1..] == s;
    }
  }

  lemma SerializeSingle(name: string, value: string)
    ensures Serialize([(name, value)]) == Encode(name) + "=" + Encode(value)
  {
    var pairs := [(name, value)];
    var pieces := seq(|pairs|, k requires 0 <= k < |pairs| => Encode(pairs[k].0) + "=" + Encode(pairs[k].1));
    assert pieces == [Encode(name) + "=" + Encode(value)];
  }

  /** A single pair whose name and value are unreserved ASCII is sent as
      `name=value`, as in the favourites page's `favorite=true`. */
  lemma SerializeUnreservedPair(name: string, value: string)
    requires forall k :: 0 <= k < |name| ==> name[k] as int < 0x80 && Unreserved(name[k] as int)
    requires forall k :: 0 <= k < |value| ==> value[k] as int < 0x80 && Unreserved(value[k] as int)
    ensures Serialize([(name, value)]) == name + "=" + value
  {
    SerializeSingle(name, value);
    EncodeUnreserved(name);
    EncodeUnreserved(value);
  }
}
