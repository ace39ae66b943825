/**
 * The double-quoted string literals of Go's `strconv.Quote` and
 * `strconv.Unquote`, restricted to the single-character escapes
 * `\a \b \f \n \r \t \v \\ \"`.
 */
module Strconv {
  import opened Wrappers

  /** The character a one-letter escape after a backslash stands for, inside double quotes. */
  function EscapeValue(c: char): (r: Option<char>)
    ensures r.Some? <==> c in "abfnrtv\\\""
  {
    match c
    case 'a' => Some('\U{7}')
    case 'b' => Some('\U{8}')
    case 'f' => Some('\U{C}')
    case 'n' => Some('\n')
    case 'r' => Some('\r')
    case 't' => Some('\t')
    case 'v' => Some('\U{B}')
    case '\\' => Some('\\')
    case '"' => Some('"')
    case _ => None
  }

  /** How `strconv.Quote` writes one character between the quotes. */
  function QuoteChar(c: char): (r: string)
    ensures 1 <= |r| <= 2
    ensures |r| == 1 <==> EscapeLetter(c).None?
    ensures |r| == 1 ==> r == [c]
    ensures |r| == 2 ==> r[0] == '\\' && EscapeValue(r[1]) == Some(c)
  {
    match EscapeLetter(c)
    case None => [c]
    case Some(l) => ['\\', l]
  }

  /** The escape letter `strconv.Quote` uses for `c`, if it escapes it. */
  function EscapeLetter(c: char): (r: Option<char>)
    ensures r.Some? ==> EscapeValue(r.value) == Some(c)
    ensures r.None? ==> c != '"' && c != '\\' && c != '\n'
  {
    match c
    case '\U{7}' => Some('a')
    case '\U{8}' => Some('b')
    case '\U{C}' => Some('f')
    case '\n' => Some('n')
    case '\r' => Some('r')
    case '\t' => Some('t')
    case '\U{B}' => Some('v')
    case '\\' => Some('\\')
    case '"' => Some('"')
    case _ => None
  }

  function QuoteBody(s: string): string {
    if s == [] then [] else QuoteChar(s[0]) + QuoteBody(s[1..])
  }

  /** `strconv.Quote`: the text between double quotes, with the special characters escaped. */
  function Quote(s: string): (r: string)
    ensures |r| >= 2 && r[0] == '"' && r[|r| - 1] == '"'
  {
    "\"" + QuoteBody(s) + "\""
  }

  /** The characters between the quotes, decoded; a bare `"`, an unknown escape or a dangling backslash is an error. */
  function UnquoteBody(b: string): Option<string> {
    if b == [] then Some([])
    else if b[0] == '"' then None
    else if b[0] == '\\' then
      if |b| < 2 then None
      else match (EscapeValue(b[1]), UnquoteBody(b[2..]))
        case (Some(c), Some(rest)) => Some([c] + rest)
        case _ => None
    else match UnquoteBody(b[1..])
      case Some(rest) => Some([b[0]] + rest)
      case None => None
  }

  /**
   * `strconv.Unquote` for a double-quoted literal: it must start and end
   * with `"`, hold no newline, and decode cleanly.
   */
  function Unquote(s: string): (r: Option<string>)
    ensures r.Some? ==> |s| >= 2 && s[0] == '"' && s[|s| - 1] == '"' && '\n' !in s
  {
    if |s| < 2 || s[0] != '"' || s[|s| - 1] != '"' || '\n' in s then None
    else UnquoteBody(s[1..|s| - 1])
  }

  /**
   * Every character of a quoted body is a character of the input that is
   * written unescaped, a backslash, or an escape letter; so a raw newline,
   * for one, never appears.
   */
  lemma {:induction false} QuoteBodyChars(s: string, c: char)
    requires c in QuoteBody(s)
    ensures (c in s && EscapeLetter(c).None?) || c == '\\' || EscapeValue(c).Some?
    decreases |s|
  {
    if c !in QuoteChar(s[0]) {
      QuoteBodyChars(s[1..], c);
    }
  }

  /**
   * A character that is no escape letter and no backslash appears in the
   * quoted body only if the input holds it and it needs no escape.
   */
  lemma QuoteBodyAvoids(s: string, c: char)
    requires c !in s || EscapeLetter(c).Some?
    requires c != '\\' && EscapeValue(c).None?
    ensures c !in QuoteBody(s)
  {
    if c in QuoteBody(s) {
      QuoteBodyChars(s, c);
    }
  }

  lemma {:induction false} UnquoteQuoteBody(s: string)
    ensures UnquoteBody(QuoteBody(s)) == Some(s)
    decreases |s|
  {
    if s != [] {
      UnquoteQuoteBody(s[1..]);
      var q := QuoteChar(s[0]);
      var rest := QuoteBody(s[1..]);
      assert QuoteBody(s) == q + rest;
      if |q| == 2 {
        assert (q + rest)[2..] == rest;
      } else {
        assert (q + rest)[1..] == rest;
      }
      assert s == [s[0]] + s[1..];
    }
  }

  /** A quoted string holds no raw newline: it stays on one line. */
  lemma QuoteOneLine(s: string)
    ensures '\n' !in Quote(s)
  {
    QuoteBodyAvoids(s, '\n');
  }

  /** Unquoting a quoted string gives the original back. */
  lemma UnquoteQuote(s: string)
    ensures Unquote(Quote(s)) == Some(s)
  {
    var q := Quote(s);
    QuoteBodyAvoids(s, '\n');
    assert q[1..|q| - 1] == QuoteBody(s);
    assert '\n' !in q;
    UnquoteQuoteBody(s);
  }
}
