/** The three Server-Sent Events the chat stream writes
    (src/routes/chat.js:136,145,150) and their JSON payloads, as
    `JSON.stringify` spells them and as the widget's `JSON.parse` reads them
    back. Only these three object shapes are modelled. */
module EventCodec {
  import opened Common

  datatype ChatEvent = Token(text: string) | Done | Error(message: string)

  const TokenPrefix: string := "{\"token\":\""
  const ErrorPrefix: string := "{\"error\":\""
  const DonePayload: string := "{\"done\":true}"

  // ---------------------------------------------------------------------
  // Encoding: JSON.stringify of a string value
  // ---------------------------------------------------------------------

  function HexDigit(d: nat): char
    requires d < 16
  {
    if d < 10 then ('0' as int + d) as char else ('a' as int + d - 10) as char
  }

  /** How `JSON.stringify` writes one character inside a string literal:
      the quote and the backslash are escaped, five control characters get
      a short escape, the other controls below U+0020 a lower-case `\u00xx`
      escape, and everything else stands for itself. */
  function EscapeChar(c: char): string {
    if c == '"' then "\\\""
    else if c == '\\' then "\\\\"
    else if c == '\U{0008}' then "\\b"
    else if c == '\U{000C}' then "\\f"
    else if c == '\n' then "\\n"
    else if c == '\r' then "\\r"
    else if c == '\t' then "\\t"
    else if (c as int) < 0x20 then "\\u00" + [HexDigit(c as int / 16), HexDigit(c as int % 16)]
    else [c]
  }

  function Escape(s: string): string
    decreases |s|
  {
    if |s| == 0 then "" else EscapeChar(s[0]) + Escape(s[1..])
  }

  /** `JSON.stringify({ token })`, `JSON.stringify({ done: true })` and
      `JSON.stringify({ error })`. */
  function Encode(e: ChatEvent): string {
    match e
    case Token(t) => TokenPrefix + Escape(t) + "\"}"
    case Done => DonePayload
    case Error(m) => ErrorPrefix + Escape(m) + "\"}"
  }

  /** The line `data: <json>` of one event. */
  function Line(e: ChatEvent): string {
    "data: " + Encode(e)
  }

  /** One SSE frame as `res.write` sends it: the line and a blank line. */
  function Frame(e: ChatEvent): string {
    Line(e) + "\n\n"
  }

  /** The whole body written for a sequence of events. */
  function Frames(es: seq<ChatEvent>): string
    decreases |es|
  {
    if |es| == 0 then "" else Frame(es[0]) + Frames(es[1..])
  }

  // ---------------------------------------------------------------------
  // Decoding: JSON.parse, restricted to the three shapes
  // ---------------------------------------------------------------------

  function HexValue(c: char): (r: Option<nat>)
    ensures r.Some? ==> r.value < 16
  {
    if '0' <= c <= '9' then Some(c as int - '0' as int)
    else if 'a' <= c <= 'f' then Some(c as int - 'a' as int + 10)
    else if 'A' <= c <= 'F' then Some(c as int - 'A' as int + 10)
    else None
  }

  /** The character a `\uXXXX` escape denotes, when it is one on its own
      (a lone surrogate half is not a character of a Dafny string). */
  function CodeUnit(s: string): Option<char>
    requires |s| == 4
  {
    match (HexValue(s[0]), HexValue(s[1]), HexValue(s[2]), HexValue(s[3]))
    case (Some(a), Some(b), Some(c), Some(d)) =>
      var v := a * 4096 + b * 256 + c * 16 + d;
      if v < 0xD800 || 0xE000 <= v then Some(v as char) else None
    case _ => None
  }

  /** The escape sequence at the start of `s` (just after a backslash): the
      character it denotes and how many characters it spans. */
  function Unescape1(s: string): (r: Option<(char, nat)>)
    ensures r.Some? ==> 1 <= r.value.1 <= |s|
  {
    if |s| == 0 then None
    else if s[0] == '"' then Some(('"', 1))
    else if s[0] == '\\' then Some(('\\', 1))
    else if s[0] == '/' then Some(('/', 1))
    else if s[0] == 'b' then Some(('\U{0008}', 1))
    else if s[0] == 'f' then Some(('\U{000C}', 1))
    else if s[0] == 'n' then Some(('\n', 1))
    else if s[0] == 'r' then Some(('\r', 1))
    else if s[0] == 't' then Some(('\t', 1))
    else if s[0] == 'u' && |s| >= 5 then
      match CodeUnit(s[1..5])
      case Some(c) => Some((c, 5))
      case None => None
    else None
  }

  /** The body of a JSON string literal whose opening quote has been read:
      its value and what follows the closing quote. A raw control character
      or an unknown escape makes it fail. */
  function Unquote(s: string): Option<(string, string)>
    decreases |s|
  {
    if |s| == 0 then None
    else if s[0] == '"' then Some(("", s[1..]))
    else if s[0] == '\\' then
      match Unescape1(s[1..])
      case None => None
      case Some((c, n)) =>
        match Unquote(s[1 + n..])
        case None => None
        case Some((t, rest)) => Some(([c] + t, rest))
    else if (s[0] as int) < 0x20 then None
    else
      match Unquote(s[1..])
      case None => None
      case Some((t, rest)) => Some(([s[0]] + t, rest))
  }

  /** `JSON.parse` of a payload, for the three shapes the server writes;
      any other text is a parse failure. */
  function Decode(s: string): Option<ChatEvent> {
    if s == DonePayload then Some(Done)
    else if StartsWith(s, TokenPrefix) then
      match Unquote(s[|TokenPrefix|..])
      case Some((t, rest)) => if rest == "}" then Some(Token(t)) else None
      case None => None
    else if StartsWith(s, ErrorPrefix) then
      match Unquote(s[|ErrorPrefix|..])
      case Some((m, rest)) => if rest == "}" then Some(Error(m)) else None
      case None => None
    else None
  }

  // ---------------------------------------------------------------------
  // Properties
  // ---------------------------------------------------------------------

  lemma HexRoundTrip(d: nat)
    requires d < 16
    ensures HexValue(HexDigit(d)) == Some(d)
  {
  }

  /** Reading back one escaped character. */
  lemma UnquoteEscapeChar(c: char, x: string)
    ensures Unquote(EscapeChar(c) + x) ==
      match Unquote(x)
      case None => None
      case Some((t, rest)) => Some(([c] + t, rest))
  {
    if (c as int) < 0x20 && c != '\U{0008}' && c != '\U{000C}' && c != '\n' && c != '\r' && c != '\t' {
      UnquoteControl(c, x);
    } else if c == '"' || c == '\\' || (c as int) < 0x20 {
      var s := EscapeChar(c) + x;
      assert s[0] == '\\' && s[2..] == x && |EscapeChar(c)| == 2;
    } else {
      var s := EscapeChar(c) + x;
      assert EscapeChar(c) == [c] && s[1..] == x;
    }
  }

  /** Reading back a `\u00xx` escape. */
  lemma UnquoteControl(c: char, x: string)
    requires (c as int) < 0x20 && c != '\U{0008}' && c != '\U{000C}' && c != '\n' && c != '\r' && c != '\t'
    ensures Unquote(EscapeChar(c) + x) ==
      match Unquote(x)
      case None => None
      case Some((t, rest)) => Some(([c] + t, rest))
  {
    var s := EscapeChar(c) + x;
    var hi, lo := c as int / 16, c as int % 16;
    HexRoundTrip(hi);
    HexRoundTrip(lo);
    assert s[1..] == "u00" + [HexDigit(hi), HexDigit(lo)] + x;
    assert s[1..][1..5] == ['0', '0', HexDigit(hi), HexDigit(lo)];
    assert CodeUnit(s[1..][1..5]) == Some(c);
    assert Unescape1(s[1..]) == Some((c, 5));
    assert s[6..] == x;
  }

  /** `Unquote` inverts `Escape` followed by the closing quote. */
  lemma {:induction false} UnquoteEscape(t: string, rest: string)
    ensures Unquote(Escape(t) + "\"" + rest) == Some((t, rest))
    decreases |t|
  {
    if |t| == 0 {
      assert Escape(t) + "\"" + rest == ['"'] + rest;
    } else {
      UnquoteEscape(t[1..], rest);
      assert Escape(t) + "\"" + rest == EscapeChar(t[0]) + (Escape(t[1..]) + "\"" + rest);
      UnquoteEscapeChar(t[0], Escape(t[1..]) + "\"" + rest);
      assert [t[0]] + t[1..] == t;
    }
  }

  /** What the widget parses is the event the server stringified. */
  lemma DecodeEncode(e: ChatEvent)
    ensures Decode(Encode(e)) == Some(e)
  {
    match e
    case Token(t) => DecodeToken(t);
    case Done =>
    case Error(m) => DecodeError(m);
  }

  lemma DecodeToken(t: string)
    ensures Decode(Encode(Token(t))) == Some(Token(t))
  {
    var s := Encode(Token(t));
    assert s[2] == 't' && DonePayload[2] == 'd';
    assert s[..|TokenPrefix|] == TokenPrefix;
    assert s[|TokenPrefix|..] == Escape(t) + "\"" + "}";
    UnquoteEscape(t, "}");
  }

  lemma DecodeError(m: string)
    ensures Decode(Encode(Error(m))) == Some(Error(m))
  {
    var s := Encode(Error(m));
    assert s[2] == 'e' && TokenPrefix[2] == 't' && DonePayload[2] == 'd';
    assert s[..|ErrorPrefix|] == ErrorPrefix;
    assert s[|ErrorPrefix|..] == Escape(m) + "\"" + "}";
    UnquoteEscape(m, "}");
  }

  /** No escaped character is a control character. */
  lemma {:induction false} EscapePrintable(s: string)
    ensures forall i :: 0 <= i < |Escape(s)| ==> Escape(s)[i] as int >= 0x20
    decreases |s|
  {
    if |s| > 0 {
      EscapePrintable(s[1..]);
      var a, b := EscapeChar(s[0]), Escape(s[1..]);
      forall i | 0 <= i < |a + b| ensures (a + b)[i] as int >= 0x20 {
        if i >= |a| {
          assert (a + b)[i] == b[i - |a|];
        }
      }
    }
  }

  /** A payload holds no control character, so in particular no newline: a
      frame's only line break is its terminating blank line. */
  lemma EncodePrintable(e: ChatEvent)
    ensures forall i :: 0 <= i < |Encode(e)| ==> Encode(e)[i] as int >= 0x20
  {
    match e
    case Token(t) =>
      EscapePrintable(t);
      var s := Encode(e);
      forall i | 0 <= i < |s| ensures s[i] as int >= 0x20 {
        if |TokenPrefix| <= i < |TokenPrefix| + |Escape(t)| {
          assert s[i] == Escape(t)[i - |TokenPrefix|];
        }
      }
    case Done =>
    case Error(m) =>
      EscapePrintable(m);
      var s := Encode(e);
      forall i | 0 <= i < |s| ensures s[i] as int >= 0x20 {
        if |ErrorPrefix| <= i < |ErrorPrefix| + |Escape(m)| {
          assert s[i] == Escape(m)[i - |ErrorPrefix|];
        }
      }
  }

  /** A line contains no newline, starts with `data: ` and ends with the
      payload's closing brace. */
  lemma LineShape(e: ChatEvent)
    ensures forall i :: 0 <= i < |Line(e)| ==> Line(e)[i] != '\n'
    ensures StartsWith(Line(e), "data: ") && Line(e)[6..] == Encode(e)
    ensures Line(e)[|Line(e)| - 1] == '}'
  {
    EncodePrintable(e);
    var l := Line(e);
    forall i | 0 <= i < |l| ensures l[i] != '\n' {
      if i >= 6 {
        assert l[i] == Encode(e)[i - 6];
      }
    }
  }

  /** `trim()` leaves a line as it is. */
  lemma LineTrimmed(e: ChatEvent)
    ensures Trim(Line(e)) == Line(e)
  {
    LineShape(e);
    TrimUnchanged(Line(e));
  }

  lemma {:induction false} FramesAppend(a: seq<ChatEvent>, b: seq<ChatEvent>)
    ensures Frames(a + b) == Frames(a) + Frames(b)
    decreases |a|
  {
    if |a| == 0 {
      assert a + b == b;
    } else {
      assert (a + b)[1..] == a[1..] + b;
      FramesAppend(a[1..], b);
    }
  }

  lemma FramesSnoc(es: seq<ChatEvent>, e: ChatEvent)
    ensures Frames(es + [e]) == Frames(es) + Frame(e)
  {
    FramesAppend(es, [e]);
    assert Frames([e]) == Frame(e) + Frames([]);
  }
}
