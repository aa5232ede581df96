/** TSDef_TranslateStringLiteral (ts/api/tsdef/source/lexerutil.c): turns
    a quoted literal as the scanner matched it into the string it denotes.
    The scan starts after the opening quote and stops at the first quote not
    preceded by a backslash; `\n` is a newline, `\a` is BEL, and a backslash
    before any other character yields that character. */
module LexerUtil {

  const Quote: char := '"'
  const Backslash: char := '\\'
  const Bell: char := 7 as char

  /** The character an escape sequence `\c` stands for. */
  function Unescape(c: char): char
  {
    if c == 'n' then '\n' else if c == 'a' then Bell else c
  }

  /** Scanning from `i` meets an unescaped closing quote inside `raw`; the
      scanner only hands over literals of this shape. */
  predicate Terminated(raw: string, i: nat)
    decreases |raw| - i
  {
    i < |raw| &&
    (raw[i] == Quote ||
     (raw[i] == Backslash && i + 1 < |raw| && Terminated(raw, i + 2)) ||
     (raw[i] != Backslash && raw[i] != Quote && Terminated(raw, i + 1)))
  }

  /** Index of the closing quote found by the scan that starts at `i`. */
  function ClosingQuote(raw: string, i: nat): (q: nat)
    requires Terminated(raw, i)
    ensures i <= q < |raw| && raw[q] == Quote
    decreases |raw| - i
  {
    if raw[i] == Quote then i
    else if raw[i] == Backslash then ClosingQuote(raw, i + 2)
    else ClosingQuote(raw, i + 1)
  }

  /** The characters the scan from `i` produces, up to the closing quote. */
  function Decoded(raw: string, i: nat): (out: string)
    requires Terminated(raw, i)
    ensures |out| <= ClosingQuote(raw, i) - i
    decreases |raw| - i
  {
    if raw[i] == Quote then []
    else if raw[i] == Backslash then [Unescape(raw[i + 1])] + Decoded(raw, i + 2)
    else [raw[i]] + Decoded(raw, i + 1)
  }

  /** A well-formed literal: opening quote, then a terminated scan. */
  predicate Literal(raw: string)
  {
    |raw| >= 2 && raw[0] == Quote && Terminated(raw, 1)
  }

  /** The translation loop. Its output fits the buffer of strlen(raw) - 1
      bytes the source allocates (raw length - 2 characters plus NUL). */
  method TranslateStringLiteral(raw: string) returns (translated: string)
    requires Literal(raw)
    ensures translated == Decoded(raw, 1)
    ensures |translated| <= |raw| - 2
  {
    var i := 1;
    translated := [];
    while raw[i] != Quote
      invariant 1 <= i < |raw|
      invariant Terminated(raw, i)
      invariant translated + Decoded(raw, i) == Decoded(raw, 1)
      invariant |translated| <= i - 1
      invariant ClosingQuote(raw, i) == ClosingQuote(raw, 1)
      decreases |raw| - i
    {
      if raw[i] == Backslash {
        i := i + 1;
        translated := translated + [Unescape(raw[i])];
      } else {
        translated := translated + [raw[i]];
      }
      i := i + 1;
    }
  }

  /** The inverse direction: how a string is written as a literal. Quotes and
      backslashes are escaped, as are the two characters with letter escapes. */
  function Escape(s: string): string
  {
    if |s| == 0 then []
    else
      EscapeChar(s[0]) + Escape(s[1..])
  }

  /** The escape sequence written for one character. */
  function EscapeChar(c: char): (e: string)
    ensures 1 <= |e| <= 2
  {
    if c == Quote then [Backslash, Quote]
    else if c == Backslash then [Backslash, Backslash]
    else if c == '\n' then [Backslash, 'n']
    else if c == Bell then [Backslash, 'a']
    else [c]
  }

  /** Scanning an escaped string that is followed by a quote yields the
      string back and stops at that quote. */
  lemma {:induction false} DecodeEscaped(raw: string, i: nat, s: string, rest: string)
    requires i <= |raw| && |rest| > 0 && rest[0] == Quote
    requires raw[i..] == Escape(s) + rest
    ensures Terminated(raw, i)
    ensures Decoded(raw, i) == s
    ensures ClosingQuote(raw, i) == i + |Escape(s)|
    decreases |s|
  {
    if |s| == 0 {
      assert raw[i] == raw[i..][0] == rest[0];
    } else {
      var h := EscapeChar(s[0]);
      var t := Escape(s[1..]) + rest;
      assert Escape(s) == h + Escape(s[1..]);
      assert raw[i..] == h + t;
      assert s == [s[0]] + s[1..];
      EscapeCharShape(s[0]);
      if |h| == 2 {
        assert raw[i] == h[0] && raw[i + 1] == h[1];
        assert raw[i + 2..] == raw[i..][2..] == t;
        DecodeEscaped(raw, i + 2, s[1..], rest);
      } else {
        assert raw[i] == h[0];
        assert raw[i + 1..] == raw[i..][1..] == t;
        DecodeEscaped(raw, i + 1, s[1..], rest);
      }
    }
  }

  /** A character's escape is a backslash and a character that unescapes
      to it, or the character itself when it is neither a backslash nor a
      quote. */
  lemma EscapeCharShape(c: char)
    ensures var e := EscapeChar(c);
            (|e| == 2 && e[0] == Backslash && Unescape(e[1]) == c) ||
            (e == [c] && c != Backslash && c != Quote)
  {
  }

  /** Writing a string as a literal and translating it gives the string back. */
  lemma {:induction false} TranslateEscapedLiteral(s: string)
    ensures Literal([Quote] + Escape(s) + [Quote])
    ensures Decoded([Quote] + Escape(s) + [Quote], 1) == s
  {
    var raw := [Quote] + Escape(s) + [Quote];
    assert raw[1..] == Escape(s) + [Quote];
    DecodeEscaped(raw, 1, s, [Quote]);
  }

  /** A literal whose interior has neither backslashes nor quotes decodes to
      exactly its interior. */
  lemma {:induction false} PlainLiteral(raw: string, i: nat)
    requires 1 <= i < |raw| && raw[|raw| - 1] == Quote
    requires forall k :: i <= k < |raw| - 1 ==> raw[k] != Backslash && raw[k] != Quote
    ensures Terminated(raw, i)
    ensures Decoded(raw, i) == raw[i..|raw| - 1]
    decreases |raw| - i
  {
    if i < |raw| - 1 {
      PlainLiteral(raw, i + 1);
    }
  }
}
