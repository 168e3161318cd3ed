/**
 * JSON string literals as section 7 of RFC 8259 defines them: the quoting `JSON.stringify`
 * applies to a string (control characters, quotation mark and reverse solidus escaped)
 * and the reading `JSON.parse` applies to one.
 */
module JsonString {
  import opened Wrappers

  const Backspace: char := '\U{0008}'
  const FormFeed: char := '\U{000C}'

  /** Characters that must be escaped: U+0000 through U+001F. */
  predicate IsControl(c: char) {
    (c as int) < 0x20
  }

  function HexDigit(n: int): (c: char)
    requires 0 <= n < 16
  {
    if n < 10 then ('0' as int + n) as char else ('a' as int + n - 10) as char
  }

  /** The value of a hexadecimal digit of either case. */
  function HexValue(c: char): (r: Option<int>)
    ensures r.Some? ==> 0 <= r.value < 16
  {
    if '0' <= c <= '9' then Some(c as int - '0' as int)
    else if 'a' <= c <= 'f' then Some(c as int - 'a' as int + 10)
    else if 'A' <= c <= 'F' then Some(c as int - 'A' as int + 10)
    else None
  }

  lemma HexRoundTrip(n: int)
    requires 0 <= n < 16
    ensures HexValue(HexDigit(n)) == Some(n)
  {
  }

  /** How `JSON.stringify` writes one character inside a string literal. */
  function EscapeChar(c: char): (r: string)
    ensures |r| >= 1
    ensures forall i :: 0 <= i < |r| ==> !IsControl(r[i]) && (i > 0 || r[i] != '"')
  {
    if c == '"' then "\\\""
    else if c == '\\' then "\\\\"
    else if c == Backspace then "\\b"
    else if c == '\t' then "\\t"
    else if c == '\n' then "\\n"
    else if c == FormFeed then "\\f"
    else if c == '\r' then "\\r"
    else if IsControl(c) then "\\u00" + [HexDigit(c as int / 16), HexDigit(c as int % 16)]
    else [c]
  }

  function EscapeAll(s: string): string {
    if s == [] then "" else EscapeChar(s[0]) + EscapeAll(s[1..])
  }

  /** `JSON.stringify(s)` for a string `s`. */
  function Quote(s: string): (r: string)
    ensures |r| >= 2 && r[0] == '"' && r[|r| - 1] == '"'
    ensures forall i :: 0 <= i < |r| ==> !IsControl(r[i])
  {
    EscapeAllNoControl(s);
    "\"" + EscapeAll(s) + "\""
  }

  /** The escaped form of a string holds no control character, so in particular no raw newline. */
  lemma {:induction false} EscapeAllNoControl(s: string)
    ensures forall i :: 0 <= i < |EscapeAll(s)| ==> !IsControl(EscapeAll(s)[i])
  {
    if s != [] {
      EscapeAllNoControl(s[1..]);
      var e, t := EscapeChar(s[0]), EscapeAll(s[1..]);
      forall i | 0 <= i < |e + t| ensures !IsControl((e + t)[i]) {
        if i >= |e| { assert (e + t)[i] == t[i - |e|]; }
      }
    }
  }

  lemma QuoteHasNoNewline(s: string)
    ensures '\n' !in Quote(s)
  {
    EscapeAllNoControl(s);
    var e := EscapeAll(s);
    forall i | 0 <= i < |Quote(s)| ensures Quote(s)[i] != '\n' {
      if 0 < i < |Quote(s)| - 1 { assert Quote(s)[i] == e[i - 1]; }
    }
  }

  /**
   * The character an escape sequence stands for and how many characters of `t` (the text
   * after the reverse solidus) the sequence takes. `\u` escapes of UTF-16 surrogates are refused.
   */
  function Unescape(t: string): (r: Option<(char, nat)>)
    ensures r.Some? ==> 1 <= r.value.1 <= |t|
  {
    if |t| == 0 then None
    else if t[0] == '"' then Some(('"', 1))
    else if t[0] == '\\' then Some(('\\', 1))
    else if t[0] == '/' then Some(('/', 1))
    else if t[0] == 'b' then Some((Backspace, 1))
    else if t[0] == 'f' then Some((FormFeed, 1))
    else if t[0] == 'n' then Some(('\n', 1))
    else if t[0] == 'r' then Some(('\r', 1))
    else if t[0] == 't' then Some(('\t', 1))
    else if t[0] == 'u' && |t| >= 5 then
      match (HexValue(t[1]), HexValue(t[2]), HexValue(t[3]), HexValue(t[4]))
      case (Some(d1), Some(d2), Some(d3), Some(d4)) =>
        var v := ((d1 * 16 + d2) * 16 + d3) * 16 + d4;
        if 0xD800 <= v < 0xE000 then None else Some((v as char, 5))
      case _ => None
    else None
  }

  /**
   * Reads the body of a string literal up to and including its closing quotation mark,
   * giving the characters it denotes and the text after it; None for a malformed literal.
   */
  function ParseBody(s: string): (r: Option<(string, string)>)
    ensures r.Some? ==> |r.value.1| < |s|
    decreases |s|
  {
    if |s| == 0 then None
    else if s[0] == '"' then Some(("", s[1..]))
    else if s[0] == '\\' then
      match Unescape(s[1..])
      case None => None
      case Some((c, n)) =>
        match ParseBody(s[1 + n..])
        case None => None
        case Some((t, rest)) => Some(([c] + t, rest))
    else if IsControl(s[0]) then None
    else
      match ParseBody(s[1..])
      case None => None
      case Some((t, rest)) => Some(([s[0]] + t, rest))
  }

  /** Reads a string literal at the start of `s`: the string it denotes and the text after it. */
  function ParseString(s: string): (r: Option<(string, string)>)
    ensures r.Some? ==> |r.value.1| < |s|
  {
    if |s| > 0 && s[0] == '"' then ParseBody(s[1..]) else None
  }

  /** The escaped form of one character is read back as that character. */
  lemma ParseEscapedChar(c: char, tail: string)
    ensures ParseBody(EscapeChar(c) + tail) ==
      match ParseBody(tail)
      case None => None
      case Some((t, rest)) => Some(([c] + t, rest))
  {
    var e := EscapeChar(c);
    assert (e + tail)[0] == e[0];
    if |e| == 1 {
      assert (e + tail)[1..] == tail;
    } else if |e| == 2 {
      assert (e + tail)[1..] == [e[1]] + tail;
      assert (e + tail)[1 + 1..] == tail;
    } else {
      var n := c as int;
      HexRoundTrip(n / 16);
      HexRoundTrip(n % 16);
      var u := (e + tail)[1..];
      assert u == "u00" + [HexDigit(n / 16), HexDigit(n % 16)] + tail;
      assert u[1] == '0' && u[2] == '0' && u[3] == HexDigit(n / 16) && u[4] == HexDigit(n % 16);
      assert Unescape(u) == Some((c, 5));
      assert (e + tail)[1 + 5..] == tail;
    }
  }

  /** Reading what EscapeAll wrote, followed by a closing quote, gives back the string and the rest. */
  lemma {:induction false} ParseEscapeAll(s: string, rest: string)
    ensures ParseBody(EscapeAll(s) + "\"" + rest) == Some((s, rest))
  {
    if s == [] {
      assert EscapeAll(s) + "\"" + rest == "\"" + rest;
      assert ("\"" + rest)[1..] == rest;
    } else {
      ParseEscapeAll(s[1..], rest);
      ParseEscapedChar(s[0], EscapeAll(s[1..]) + "\"" + rest);
      assert EscapeAll(s) + "\"" + rest == EscapeChar(s[0]) + (EscapeAll(s[1..]) + "\"" + rest);
      assert [s[0]] + s[1..] == s;
    }
  }

  /** Round trip: JSON.parse of JSON.stringify(s) is s, whatever text follows the literal. */
  lemma ParseQuote(s: string, rest: string)
    ensures ParseString(Quote(s) + rest) == Some((s, rest))
  {
    ParseEscapeAll(s, rest);
    assert (Quote(s) + rest)[1..] == EscapeAll(s) + "\"" + rest;
  }

  /** What precedes the content literal in the one JSON object the event stream carries. */
  const ContentPrefix: string := "{\"message\":{\"content\":"

  /** `JSON.stringify({ message: { content: text } })` */
  function MessageJson(text: string): string {
    ContentPrefix + Quote(text) + "}}"
  }

  /**
   * `JSON.parse(p).message.content` for text of exactly the shape MessageJson writes;
   * None (a parse failure) for any other text.
   */
  function ParseMessageJson(p: string): Option<string> {
    if |p| >= |ContentPrefix| && p[..|ContentPrefix|] == ContentPrefix then
      match ParseString(p[|ContentPrefix|..])
      case Some((t, rest)) => if rest == "}}" then Some(t) else None
      case None => None
    else None
  }

  lemma MessageJsonRoundTrip(text: string)
    ensures ParseMessageJson(MessageJson(text)) == Some(text)
  {
    var p := MessageJson(text);
    assert p[..|ContentPrefix|] == ContentPrefix;
    assert p[|ContentPrefix|..] == Quote(text) + "}}";
    ParseQuote(text, "}}");
  }

  lemma MessageJsonStart(text: string)
    ensures |MessageJson(text)| > 0 && MessageJson(text)[0] == '{'
  {
  }

  lemma MessageJsonNoNewline(text: string)
    ensures '\n' !in MessageJson(text)
  {
    QuoteHasNoNewline(text);
    var p := MessageJson(text);
    forall i | 0 <= i < |p| ensures p[i] != '\n' {
      if |ContentPrefix| <= i < |ContentPrefix| + |Quote(text)| {
        assert p[i] == Quote(text)[i - |ContentPrefix|];
      }
    }
  }
}
