/**
 * JSON string escaping as Jackson's `JsonStringEncoder.quoteAsString` does
 * it, and an independent reader of JSON string contents (section 7 of
 * RFC 8259) used to state that escaping loses nothing.
 *
 * Jackson escapes exactly '"', '\' and the control characters U+0000 to
 * U+001F. Backspace, tab, line feed, form feed and carriage return get the
 * two-character forms \b \t \n \f \r; the other control characters get
 * \u00XX with upper-case hex digits. Everything else, including '/', DEL
 * and all non-ASCII text, is copied unchanged.
 */
module JsonEscape {
  import opened Wrappers

  const Backspace: char := 8 as char
  const FormFeed: char := 12 as char

  /** The characters that must not appear unescaped inside a JSON string. */
  predicate NeedsEscape(c: char)
  {
    c == '"' || c == '\\' || (c as int) < 0x20
  }

  function HexDigit(d: int): (c: char)
    requires 0 <= d < 16
    ensures '0' <= c <= '9' || 'A' <= c <= 'F'
    ensures HexValue(c) == Some(d)
  {
    if d < 10 then ('0' as int + d) as char else ('A' as int + (d - 10)) as char
  }

  function HexValue(c: char): Option<int>
  {
    if '0' <= c <= '9' then Some(c as int - '0' as int)
    else if 'A' <= c <= 'F' then Some(c as int - 'A' as int + 10)
    else if 'a' <= c <= 'f' then Some(c as int - 'a' as int + 10)
    else None
  }

  /** What Jackson writes for one character. */
  function EscapeChar(c: char): seq<char>
  {
    if c == '"' then ['\\', '"']
    else if c == '\\' then ['\\', '\\']
    else if c == Backspace then ['\\', 'b']
    else if c == '\t' then ['\\', 't']
    else if c == '\n' then ['\\', 'n']
    else if c == FormFeed then ['\\', 'f']
    else if c == '\r' then ['\\', 'r']
    else if (c as int) < 0x20 then ['\\', 'u', '0', '0', HexDigit(c as int / 16), HexDigit(c as int % 16)]
    else [c]
  }

  /** `quoteAsString`: the escaped body of a JSON string literal, without the quotes. */
  function Escape(s: string): string
  {
    if s == [] then [] else EscapeChar(s[0]) + Escape(s[1..])
  }

  // ---------------------------------------------------------------------
  // The reader
  // ---------------------------------------------------------------------

  /** The value of four hexadecimal digits. */
  function Hex4(t: seq<char>): Option<int>
    requires |t| == 4
  {
    match (HexValue(t[0]), HexValue(t[1]), HexValue(t[2]), HexValue(t[3]))
    case (Some(a), Some(b), Some(c), Some(d)) => Some(((a * 16 + b) * 16 + c) * 16 + d)
    case _ => None
  }

  /**
   * Reads the body of a JSON string literal back to its text; `None` when
   * it holds a raw '"' or control character, or an escape that RFC 8259
   * does not define. A \u escape naming a UTF-16 surrogate is refused too:
   * Jackson never writes one, so this reader does not pair them.
   */
  function Unescape(t: seq<char>): Option<string>
    decreases |t|
  {
    if t == [] then Some([])
    else if t[0] == '\\' then
      if |t| < 2 then None
      else
        var e := t[1];
        if e == 'u' then
          if |t| < 6 then None
          else match Hex4(t[2..6])
            case None => None
            case Some(v) =>
              if 0xD800 <= v <= 0xDFFF then None
              else Prepend(v as char, Unescape(t[6..]))
        else
          var c :=
            if e == '"' then Some('"')
            else if e == '\\' then Some('\\')
            else if e == '/' then Some('/')
            else if e == 'b' then Some(Backspace)
            else if e == 'f' then Some(FormFeed)
            else if e == 'n' then Some('\n')
            else if e == 'r' then Some('\r')
            else if e == 't' then Some('\t')
            else None;
          match c
          case None => None
          case Some(c) => Prepend(c, Unescape(t[2..]))
    else if NeedsEscape(t[0]) then None
    else Prepend(t[0], Unescape(t[1..]))
  }

  function Prepend(c: char, r: Option<string>): Option<string>
  {
    match r
    case None => None
    case Some(s) => Some([c] + s)
  }

  // ---------------------------------------------------------------------
  // Properties
  // ---------------------------------------------------------------------

  /** One escaped character in front of an escaped rest reads back as that character in front. */
  lemma UnescapeChar(c: char, rest: seq<char>)
    ensures Unescape(EscapeChar(c) + rest) == Prepend(c, Unescape(rest))
  {
    var t := EscapeChar(c) + rest;
    if (c as int) < 0x20 && c != Backspace && c != '\t' && c != '\n' && c != FormFeed && c != '\r' {
      var v := c as int;
      assert t[2..6] == ['0', '0', HexDigit(v / 16), HexDigit(v % 16)];
      assert Hex4(t[2..6]) == Some(v);
      assert t[6..] == rest;
    } else if NeedsEscape(c) || c == Backspace || c == FormFeed {
      assert t[2..] == rest;
    } else {
      assert t[1..] == rest;
    }
  }

  /** Reading back what Jackson wrote gives the original text, for every text. */
  lemma {:induction false} RoundTrip(s: string)
    ensures Unescape(Escape(s)) == Some(s)
  {
    if s != [] {
      UnescapeChar(s[0], Escape(s[1..]));
      RoundTrip(s[1..]);
      assert [s[0]] + s[1..] == s;
    }
  }

  /** The escaped text holds no raw control character. */
  lemma {:induction false} EscapedHasNoControl(s: string)
    ensures forall i :: 0 <= i < |Escape(s)| ==> (Escape(s)[i] as int) >= 0x20
  {
    if s != [] {
      EscapedHasNoControl(s[1..]);
      var e := EscapeChar(s[0]);
      assert forall i :: 0 <= i < |e| ==> (e[i] as int) >= 0x20;
      assert Escape(s) == e + Escape(s[1..]);
    }
  }

  /**
   * The escaped text is a well-formed JSON string body: the reader, which
   * refuses a raw '"' and a backslash that opens no escape, accepts it.
   */
  lemma EscapedIsWellFormed(s: string)
    ensures Unescape(Escape(s)).Some?
  {
    RoundTrip(s);
  }

  /** Text with nothing to escape is copied unchanged. */
  lemma {:induction false} EscapeUnchanged(s: string)
    requires forall i :: 0 <= i < |s| ==> !NeedsEscape(s[i])
    ensures Escape(s) == s
  {
    if s != [] {
      EscapeUnchanged(s[1..]);
      assert [s[0]] + s[1..] == s;
    }
  }

  /** Escaping distributes over concatenation, so it works character by character. */
  lemma {:induction false} EscapeAppend(a: string, b: string)
    ensures Escape(a + b) == Escape(a) + Escape(b)
  {
    if a != [] {
      assert (a + b)[1..] == a[1..] + b;
      EscapeAppend(a[1..], b);
    } else {
      assert a + b == b;
    }
  }
}
