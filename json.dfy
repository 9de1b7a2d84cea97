/** The part of `JSON.stringify` the text-generation handler relies on: an object
    whose values are all strings, written without whitespace, with string
    literals escaped as ECMAScript's QuoteJSONString escapes them. `ParseObject`
    is the decoder a client applies to such a body; decoding what is written gives it back. */
module Json {
  import opened Wrappers
  import Strings

  /** No raw control character: JSON forbids them inside string literals. */
  predicate NoControl(s: string)
  {
    forall i :: 0 <= i < |s| ==> (s[i] as int) >= 0x20
  }

  /** Every quote in `s[lo..hi]` directly follows a backslash in `s`. */
  predicate QuotesEscaped(s: string, lo: int, hi: int)
  {
    forall i :: 0 <= lo <= i < hi <= |s| && s[i] == '"' ==> 0 < i && s[i - 1] == '\\'
  }

  /** Lower-case hexadecimal digit, as ECMAScript's UnicodeEscape writes it. */
  function HexDigit(n: nat): char
    requires n < 16
  {
    if n < 10 then ('0' as int + n) as char else ('a' as int + n - 10) as char
  }

  /** Value of a hexadecimal digit of either case. */
  function HexValue(c: char): (r: Option<nat>)
    ensures r.Some? ==> r.value < 16
  {
    if '0' <= c <= '9' then Some(c as int - '0' as int)
    else if 'a' <= c <= 'f' then Some(c as int - 'a' as int + 10)
    else if 'A' <= c <= 'F' then Some(c as int - 'A' as int + 10)
    else None
  }

  /** One character inside a JSON string literal: quote and backslash escaped,
      the five short control escapes, `\u00XX` for the other control characters,
      everything else as itself. */
  function EscapeChar(c: char): (r: string)
    ensures |r| == 1 <==> (c != '"' && c != '\\' && (c as int) >= 0x20)
    ensures |r| == 1 ==> r == [c]
    ensures |r| > 1 ==> r[0] == '\\' && (|r| == 2 || |r| == 6)
    ensures |r| == 2 <==> c in {'"', '\\', 8 as char, '\t', '\n', 12 as char, '\r'}
    ensures |r| == 6 ==>
      && r[..4] == "\\u00" && r[4] in "01" && r[5] in "0123456789abcdef"
      && HexValue(r[4]).Some? && HexValue(r[5]).Some?
      && HexValue(r[4]).value * 16 + HexValue(r[5]).value == c as int
    ensures NoControl(r)
  {
    if c == '"' then ['\\', '"']
    else if c == '\\' then ['\\', '\\']
    else if c == 8 as char then ['\\', 'b']
    else if c == '\t' then ['\\', 't']
    else if c == '\n' then ['\\', 'n']
    else if c == 12 as char then ['\\', 'f']
    else if c == '\r' then ['\\', 'r']
    else if (c as int) < 0x20 then ['\\', 'u', '0', '0', HexDigit(c as int / 16), HexDigit(c as int % 16)]
    else [c]
  }

  function EscapeChars(s: string): string
  {
    if s == [] then [] else EscapeChar(s[0]) + EscapeChars(s[1..])
  }

  /** `JSON.stringify` of a string: the escaped text between two quotes. */
  function Quote(s: string): (r: string)
    ensures |r| >= 2 && r[0] == '"' && r[|r| - 1] == '"'
  {
    ['"'] + EscapeChars(s) + ['"']
  }

  /** `JSON.stringify` of one property, `"key":"value"`. */
  function Member(key: string, value: string): string
  {
    Quote(key) + [':'] + Quote(value)
  }

  function Members(fields: seq<(string, string)>): (r: string)
    ensures |fields| > 0 ==> |r| > 1
  {
    if |fields| == 0 then ""
    else if |fields| == 1 then Member(fields[0].0, fields[0].1)
    else Member(fields[0].0, fields[0].1) + [','] + Members(fields[1..])
  }

  /** `JSON.stringify` of an object with string values, written field by field
      in the order given: braced, and `{}` exactly when there are no fields.
      This is a JavaScript object's own order only for distinct keys that are
      not array indices (integer-like keys come first, in numeric order), as
      with the fixed keys `answer` and `chatHistory` of the handler's body. */
  function StringifyObject(fields: seq<(string, string)>): (r: string)
    ensures |r| >= 2 && r[0] == '{' && r[|r| - 1] == '}'
    ensures r == "{}" <==> |fields| == 0
  {
    ['{'] + Members(fields) + ['}']
  }

  /** The escaped text holds no raw control character, and every quote in it
      is preceded by a backslash. */
  lemma {:induction false} EscapedText(s: string)
    ensures NoControl(EscapeChars(s))
    ensures QuotesEscaped(EscapeChars(s), 0, |EscapeChars(s)|)
  {
    if s != [] {
      EscapedText(s[1..]);
      var e, t := EscapeChar(s[0]), EscapeChars(s[1..]);
      assert EscapeChars(s) == e + t;
      forall i | 0 <= i < |e + t| && (e + t)[i] == '"'
        ensures 0 < i && (e + t)[i - 1] == '\\'
      {
        if i >= |e| {
          assert t[i - |e|] == '"';
        }
      }
    }
  }

  /** A quoted string holds no raw control character, and every quote between
      its two delimiters directly follows a backslash. (That backslash may
      itself be escaped; that the literal ends exactly at its closing quote is
      `ParseQuote`.) */
  lemma QuoteWellFormed(s: string)
    ensures NoControl(Quote(s))
    ensures QuotesEscaped(Quote(s), 1, |Quote(s)| - 1)
  {
    EscapedText(s);
    var e := EscapeChars(s);
    var q := Quote(s);
    assert q == ['"'] + e + ['"'];
    forall i | 1 <= i < |q| - 1 && q[i] == '"' ensures q[i - 1] == '\\' {
      assert e[i - 1] == '"';
    }
  }

  // ---------------------------------------------------------------------------
  // Decoder

  /** The escape sequence at the head of `s` (which starts with a backslash):
      the character it stands for and its length. Escapes of surrogate code
      units are refused, since a Dafny `char` is a Unicode scalar value. */
  function Unescape(s: string): (r: Option<(char, nat)>)
    requires |s| >= 2 && s[0] == '\\'
    ensures r.Some? ==> 2 <= r.value.1 <= |s|
  {
    var e := s[1];
    if e == '"' then Some(('"', 2))
    else if e == '\\' then Some(('\\', 2))
    else if e == '/' then Some(('/', 2))
    else if e == 'b' then Some((8 as char, 2))
    else if e == 'f' then Some((12 as char, 2))
    else if e == 'n' then Some(('\n', 2))
    else if e == 'r' then Some(('\r', 2))
    else if e == 't' then Some(('\t', 2))
    else if e == 'u' && |s| >= 6 then
      match (HexValue(s[2]), HexValue(s[3]), HexValue(s[4]), HexValue(s[5]))
      case (Some(a), Some(b), Some(c), Some(d)) =>
        var code := a * 4096 + b * 256 + c * 16 + d;
        if code < 0xD800 || 0xE000 <= code then Some((code as char, 6)) else None
      case _ => None
    else None
  }

  function Cons(c: char, r: Option<(string, string)>): Option<(string, string)>
  {
    match r
    case Some((t, rest)) => Some(([c] + t, rest))
    case None => None
  }

  /** The body of a string literal up to and including its closing quote: the
      decoded text and what follows the literal. */
  function ParseChars(s: string): (r: Option<(string, string)>)
    ensures r.Some? ==> |r.value.1| < |s|
    decreases |s|
  {
    if |s| == 0 then None
    else if s[0] == '"' then Some(("", s[1..]))
    else if s[0] == '\\' then
      if |s| < 2 then None
      else match Unescape(s)
        case None => None
        case Some((c, n)) => Cons(c, ParseChars(s[n..]))
    else if (s[0] as int) < 0x20 then None
    else Cons(s[0], ParseChars(s[1..]))
  }

  /** A string literal at the head of `s`: its text and what follows it. */
  function ParseString(s: string): (r: Option<(string, string)>)
    ensures r.Some? ==> |r.value.1| < |s|
  {
    if |s| > 0 && s[0] == '"' then ParseChars(s[1..]) else None
  }

  /** One `"key":"value"` member at the head of `s`, and what follows it. */
  function ParseMember(s: string): (r: Option<((string, string), string)>)
    ensures r.Some? ==> |r.value.1| < |s|
  {
    match ParseString(s)
    case None => None
    case Some((key, r1)) =>
      if |r1| == 0 || r1[0] != ':' then None
      else match ParseString(r1[1..])
        case None => None
        case Some((value, r2)) => Some(((key, value), r2))
  }

  /** One or more members separated by commas, followed by the closing brace. */
  function ParseMembers(s: string): Option<seq<(string, string)>>
    decreases |s|
  {
    match ParseMember(s)
    case None => None
    case Some((field, rest)) =>
      if rest == "}" then Some([field])
      else if |rest| > 0 && rest[0] == ',' then
        match ParseMembers(rest[1..])
        case None => None
        case Some(more) => Some([field] + more)
      else None
  }

  /** Decoder for compact objects whose values are strings. */
  function ParseObject(s: string): Option<seq<(string, string)>>
  {
    if s == "{}" then Some([])
    else if |s| > 0 && s[0] == '{' then ParseMembers(s[1..])
    else None
  }

  // ---------------------------------------------------------------------------
  // Round trip

  lemma HexRoundTrip(n: nat)
    requires n < 16
    ensures HexValue(HexDigit(n)) == Some(n)
  {
  }

  /** Decoding one escaped character and then the rest of the literal. */
  lemma {:induction false} EscapeCharThenParse(c: char, u: string)
    ensures ParseChars(EscapeChar(c) + u) == Cons(c, ParseChars(u))
  {
    var e := EscapeChar(c);
    var s := e + u;
    if |e| == 1 {
      assert s[0] == c && s[1..] == u;
    } else if |e| == 2 {
      assert s[0] == '\\' && s[2..] == u;
    } else {
      UnicodeEscapeThenParse(c, u);
    }
  }

  /** The `\u00xx` case: the six-character escape decodes to `c`. */
  lemma UnicodeEscapeThenParse(c: char, u: string)
    requires |EscapeChar(c)| == 6
    ensures var s := EscapeChar(c) + u;
      |s| >= 6 && s[0] == '\\' && Unescape(s) == Some((c, 6)) && s[6..] == u
  {
    var s := EscapeChar(c) + u;
    var code := c as int;
    HexRoundTrip(code / 16);
    HexRoundTrip(code % 16);
    assert s[0] == '\\' && s[1] == 'u' && s[6..] == u;
    assert s[2] == '0' && s[3] == '0';
    assert s[4] == HexDigit(code / 16) && s[5] == HexDigit(code % 16);
  }

  lemma {:induction false} ParseEscaped(s: string, rest: string)
    ensures ParseChars(EscapeChars(s) + ['"'] + rest) == Some((s, rest))
  {
    if s == [] {
      assert EscapeChars(s) + ['"'] + rest == ['"'] + rest;
    } else {
      var tail := EscapeChars(s[1..]) + ['"'] + rest;
      assert EscapeChars(s) + ['"'] + rest == EscapeChar(s[0]) + tail;
      EscapeCharThenParse(s[0], tail);
      ParseEscaped(s[1..], rest);
      assert [s[0]] + s[1..] == s;
    }
  }

  /** A quoted string, followed by anything, decodes to that string and leaves
      exactly what followed. */
  lemma ParseQuote(s: string, rest: string)
    ensures ParseString(Quote(s) + rest) == Some((s, rest))
  {
    var t := Quote(s) + rest;
    assert t[1..] == EscapeChars(s) + ['"'] + rest;
    ParseEscaped(s, rest);
  }

  /** One unfolding of `ParseMember`, over abstract text. */
  lemma ParseMemberStep(s: string, k: string, after: string, v: string, tail: string)
    requires ParseString(s) == Some((k, after))
    requires |after| > 0 && after[0] == ':'
    requires ParseString(after[1..]) == Some((v, tail))
    ensures ParseMember(s) == Some(((k, v), tail))
  {
  }

  /** One unfolding of `ParseMembers`, over abstract text: a member, then
      either the closing brace or a comma and the members `more`. */
  lemma ParseMembersStep(s: string, field: (string, string), rest: string, more: seq<(string, string)>)
    requires ParseMember(s) == Some((field, rest))
    ensures rest == "}" ==> ParseMembers(s) == Some([field])
    ensures rest != "}" && |rest| > 0 && rest[0] == ',' && ParseMembers(rest[1..]) == Some(more) ==>
      ParseMembers(s) == Some([field] + more)
  {
  }

  /** A written member, followed by `tail`, is the quoted key, a colon, and
      the quoted value followed by `tail`. */
  lemma MemberText(k: string, v: string, tail: string)
    ensures Member(k, v) + tail == Quote(k) + ([':'] + (Quote(v) + tail))
  {
    Strings.Regroup(Quote(k), [':'], Quote(v), tail);
  }

  /** A written member decodes to its key and value and leaves what followed. */
  lemma ParseMemberRoundTrip(k: string, v: string, tail: string)
    ensures ParseMember(Member(k, v) + tail) == Some(((k, v), tail))
  {
    var after := [':'] + (Quote(v) + tail);
    MemberText(k, v, tail);
    ParseQuote(k, after);
    assert after[1..] == Quote(v) + tail;
    ParseQuote(v, tail);
    ParseMemberStep(Member(k, v) + tail, k, after, v, tail);
  }

  /** Two or more written members, then the closing brace: the first member,
      a comma, and the rest written the same way. */
  lemma MembersText(fields: seq<(string, string)>)
    requires |fields| > 1
    ensures Members(fields) + ['}']
         == Member(fields[0].0, fields[0].1) + ([','] + (Members(fields[1..]) + ['}']))
  {
    Strings.Regroup(Member(fields[0].0, fields[0].1), [','], Members(fields[1..]), ['}']);
  }

  /** One written member, then the closing brace. */
  lemma LastMemberText(fields: seq<(string, string)>)
    requires |fields| == 1
    ensures Members(fields) + ['}'] == Member(fields[0].0, fields[0].1) + ['}']
    ensures fields == [(fields[0].0, fields[0].1)]
  {
  }

  /** A single written member, then the closing brace, decodes to that member. */
  lemma ParseLastMember(fields: seq<(string, string)>)
    requires |fields| == 1
    ensures ParseMembers(Members(fields) + ['}']) == Some(fields)
  {
    var k, v := fields[0].0, fields[0].1;
    LastMemberText(fields);
    ParseMemberRoundTrip(k, v, ['}']);
    ParseMembersStep(Members(fields) + ['}'], (k, v), ['}'], []);
  }

  /** The first of two or more written members decodes, leaving a comma and
      the later members. */
  lemma ParseFirstMember(fields: seq<(string, string)>)
    requires |fields| > 1
    ensures ParseMember(Members(fields) + ['}'])
         == Some(((fields[0].0, fields[0].1), [','] + (Members(fields[1..]) + ['}'])))
  {
    MembersText(fields);
    ParseMemberRoundTrip(fields[0].0, fields[0].1, [','] + (Members(fields[1..]) + ['}']));
  }

  /** A comma followed by at least two characters: not the closing brace, and
      dropping the comma leaves the rest. */
  lemma CommaThen(inner: string)
    requires |inner| > 1
    ensures [','] + inner != "}" && ([','] + inner)[0] == ',' && ([','] + inner)[1..] == inner
  {
    assert |[','] + inner| > 1;
  }

  /** If the later members decode, so do all of them: the first member, a
      comma, and the rest. */
  lemma ParseMembersCons(fields: seq<(string, string)>)
    requires |fields| > 1
    requires ParseMembers(Members(fields[1..]) + ['}']) == Some(fields[1..])
    ensures ParseMembers(Members(fields) + ['}']) == Some(fields)
  {
    var inner := Members(fields[1..]) + ['}'];
    ParseFirstMember(fields);
    CommaThen(inner);
    ParseMembersStep(Members(fields) + ['}'], (fields[0].0, fields[0].1), [','] + inner, fields[1..]);
    ConsFields(fields);
  }

  /** A field list is its first field, rebuilt from its key and value, and the rest. */
  lemma ConsFields(fields: seq<(string, string)>)
    requires |fields| > 0
    ensures [(fields[0].0, fields[0].1)] + fields[1..] == fields
  {
    assert (fields[0].0, fields[0].1) == fields[0];
  }

  /** Written members, then the closing brace, decode to the same members. */
  lemma {:induction false} ParseMembersRoundTrip(fields: seq<(string, string)>)
    requires |fields| > 0
    ensures ParseMembers(Members(fields) + ['}']) == Some(fields)
  {
    if |fields| == 1 {
      ParseLastMember(fields);
    } else {
      ParseMembersRoundTrip(fields[1..]);
      ParseMembersCons(fields);
    }
  }

  /** After its opening brace, a written object is its members and the
      closing brace. */
  lemma ObjectText(fields: seq<(string, string)>)
    ensures StringifyObject(fields)[1..] == Members(fields) + ['}']
  {
    Strings.DropHead('{', Members(fields), ['}']);
  }

  /** Decoding what `StringifyObject` wrote gives back the same fields, in order. */
  lemma ObjectRoundTrip(fields: seq<(string, string)>)
    ensures ParseObject(StringifyObject(fields)) == Some(fields)
  {
    if |fields| > 0 {
      ObjectText(fields);
      ParseMembersRoundTrip(fields);
    }
  }
}
