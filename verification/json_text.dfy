/**
  JSON text for strings, as Python's `json.dumps` writes it with the default `ensure_ascii=True`:
  every character outside the printable ASCII range becomes a `\uXXXX` escape (a surrogate pair
  above U+FFFF), and the result is plain ASCII. `Unescape` reads the escapes back by the string
  grammar of section 7 of RFC 8259.
*/
module JsonText {
  import opened Wrappers
  import opened Utf8

  function HexDigit(d: nat): (c: char)
    requires d < 16
    ensures 0x30 <= c as int < 0x7F
  {
    if d < 10 then ('0' as int + d) as char else ('a' as int + d - 10) as char
  }

  /** The value of a hex digit of either case. */
  function HexValue(c: char): (r: Option<nat>)
    ensures r.Some? ==> r.value < 16
  {
    if '0' <= c <= '9' then Some(c as int - '0' as int)
    else if 'a' <= c <= 'f' then Some(c as int - 'a' as int + 10)
    else if 'A' <= c <= 'F' then Some(c as int - 'A' as int + 10)
    else None
  }

  /** `'{0:04x}'.format(n)` */
  function Hex4(n: nat): (s: string)
    requires n < 0x10000
    ensures |s| == 4
  {
    [HexDigit(n / 4096), HexDigit((n / 256) % 16), HexDigit((n / 16) % 16), HexDigit(n % 16)]
  }

  /** The value of four hex digits. */
  function Hex4Value(s: string): (r: Option<nat>)
    requires |s| == 4
    ensures r.Some? ==> r.value < 0x10000
  {
    match (HexValue(s[0]), HexValue(s[1]), HexValue(s[2]), HexValue(s[3]))
    case (Some(a), Some(b), Some(c), Some(d)) => Some(a * 4096 + b * 256 + c * 16 + d)
    case _ => None
  }

  lemma HexDigitValue(d: nat)
    requires d < 16
    ensures HexValue(HexDigit(d)) == Some(d)
  {
  }

  lemma Nibbles(n: nat)
    requires n < 0x10000
    ensures n / 4096 < 16 && (n / 4096) * 4096 + ((n / 256) % 16) * 256 + ((n / 16) % 16) * 16 + n % 16 == n
  {
  }

  lemma Hex4RoundTrip(n: nat)
    requires n < 0x10000
    ensures Hex4Value(Hex4(n)) == Some(n)
  {
    Nibbles(n);
    HexDigitValue(n / 4096);
    HexDigitValue((n / 256) % 16);
    HexDigitValue((n / 16) % 16);
    HexDigitValue(n % 16);
  }

  predicate Printable(c: char) {
    0x20 <= c as int < 0x7F
  }

  /** How `json.dumps` writes one character inside a string literal. */
  function EscapeChar(c: char): (s: string)
    ensures |s| > 0 && forall i :: 0 <= i < |s| ==> Printable(s[i])
  {
    var n := c as int;
    if c == '"' then "\\\""
    else if c == '\\' then "\\\\"
    else if c == '\n' then "\\n"
    else if c == '\r' then "\\r"
    else if c == '\t' then "\\t"
    else if n == 0x08 then "\\b"
    else if n == 0x0C then "\\f"
    else if Printable(c) then [c]
    else if n < 0x10000 then "\\u" + Hex4(n)
    else
      var v := n - 0x10000;
      "\\u" + Hex4(0xD800 + v / 1024) + "\\u" + Hex4(0xDC00 + v % 1024)
  }

  /** The escaped characters of a string, without the quotes. */
  function Escape(s: string): (r: string)
    ensures forall i :: 0 <= i < |r| ==> Printable(r[i])
  {
    if |s| == 0 then "" else EscapeChar(s[0]) + Escape(s[1..])
  }

  /** `json.dumps(s)` for a string. */
  function Quote(s: string): (r: string)
    ensures IsAscii(r)
  {
    "\"" + Escape(s) + "\""
  }

  /** A decoded `\uXXXX` code unit, or the character a surrogate pair stands for. */
  function FromUnits(hi: nat, lo: nat): (c: char)
    requires 0xD800 <= hi < 0xDC00 && 0xDC00 <= lo < 0xE000
  {
    (0x10000 + (hi - 0xD800) * 1024 + (lo - 0xDC00)) as char
  }

  /**
    The characters a string literal's body stands for: unescaped characters other than '"',
    '\' and controls; the two-character escapes; `\uXXXX`, with a high surrogate followed by a
    low one combined. A lone surrogate is refused.
  */
  function Unescape(t: string): (r: Option<string>)
    decreases |t|
  {
    if |t| == 0 then Some("")
    else if t[0] != '\\' then
      if t[0] == '"' || t[0] as int < 0x20 then None
      else match Unescape(t[1..]) case None => None case Some(rest) => Some([t[0]] + rest)
    else if |t| < 2 then None
    else
      var e := t[1];
      var simple :=
        if e == '"' then Some('"') else if e == '\\' then Some('\\') else if e == '/' then Some('/')
        else if e == 'b' then Some(0x08 as char) else if e == 'f' then Some(0x0C as char)
        else if e == 'n' then Some('\n') else if e == 'r' then Some('\r') else if e == 't' then Some('\t')
        else None;
      if simple.Some? then
        match Unescape(t[2..]) case None => None case Some(rest) => Some([simple.value] + rest)
      else if e != 'u' || |t| < 6 then None
      else match Hex4Value(t[2..6])
        case None => None
        case Some(u) =>
          if u < 0xD800 || u >= 0xE000 then
            match Unescape(t[6..]) case None => None case Some(rest) => Some([u as char] + rest)
          else if u >= 0xDC00 || |t| < 12 || t[6] != '\\' || t[7] != 'u' then None
          else match Hex4Value(t[8..12])
            case None => None
            case Some(l) =>
              if 0xDC00 <= l < 0xE000 then
                match Unescape(t[12..]) case None => None case Some(rest) => Some([FromUnits(u, l)] + rest)
              else None
  }

  /** Surrogate arithmetic: the pair `json.dumps` writes stands for the character. */
  lemma SurrogatePair(n: int)
    requires 0x10000 <= n < 0x110000
    ensures var v := n - 0x10000;
      && 0xD800 <= 0xD800 + v / 1024 < 0xDC00 && 0xDC00 <= 0xDC00 + v % 1024 < 0xE000
      && 0x10000 + (v / 1024) * 1024 + v % 1024 == n
  {
  }

  /** What `Unescape` gives for one character read off the front, followed by `rest`. */
  function Then(c: char, rest: string): Option<string> {
    match Unescape(rest) case None => None case Some(r) => Some([c] + r)
  }

  lemma UnescapeShort(c: char, rest: string)
    requires c == '"' || c == '\\' || c == '\n' || c == '\r' || c == '\t' || c as int == 0x08 || c as int == 0x0C
    ensures Unescape(EscapeChar(c) + rest) == Then(c, rest)
  {
    var t := EscapeChar(c) + rest;
    assert |EscapeChar(c)| == 2 && t[0] == '\\';
    assert t[2..] == rest;
  }

  lemma UnescapePlain(c: char, rest: string)
    requires Printable(c) && c != '"' && c != '\\'
    ensures Unescape(EscapeChar(c) + rest) == Then(c, rest)
  {
    var t := EscapeChar(c) + rest;
    assert t[1..] == rest;
  }

  lemma UnescapeUnit(c: char, rest: string)
    requires !Printable(c) && c as int < 0x10000
    requires c != '"' && c != '\\' && c != '\n' && c != '\r' && c != '\t' && c as int != 0x08 && c as int != 0x0C
    ensures Unescape(EscapeChar(c) + rest) == Then(c, rest)
  {
    var n := c as int;
    var t := EscapeChar(c) + rest;
    Hex4RoundTrip(n);
    assert EscapeChar(c) == "\\u" + Hex4(n);
    assert t[2..6] == Hex4(n);
    assert t[6..] == rest;
  }

  /** A surrogate pair's escapes, followed by `rest`, read back as the pair's character. */
  lemma UnescapeUnits(hi: nat, lo: nat, rest: string)
    requires 0xD800 <= hi < 0xDC00 && 0xDC00 <= lo < 0xE000
    ensures Unescape("\\u" + Hex4(hi) + "\\u" + Hex4(lo) + rest) == Then(FromUnits(hi, lo), rest)
  {
    var t := "\\u" + Hex4(hi) + "\\u" + Hex4(lo) + rest;
    Hex4RoundTrip(hi);
    Hex4RoundTrip(lo);
    assert t[0] == '\\' && t[1] == 'u';
    assert t[2..6] == Hex4(hi);
    assert t[6] == '\\' && t[7] == 'u';
    assert t[8..12] == Hex4(lo);
    assert t[12..] == rest;
  }

  lemma UnescapePair(c: char, rest: string)
    requires c as int >= 0x10000
    ensures Unescape(EscapeChar(c) + rest) == Then(c, rest)
  {
    var n := c as int;
    var v := n - 0x10000;
    var hi := 0xD800 + v / 1024;
    var lo := 0xDC00 + v % 1024;
    SurrogatePair(n);
    assert EscapeChar(c) == "\\u" + Hex4(hi) + "\\u" + Hex4(lo);
    UnescapeUnits(hi, lo, rest);
    assert FromUnits(hi, lo) == c;
  }

  /** One escaped character reads back as itself, whatever follows. */
  lemma UnescapeChar(c: char, rest: string)
    ensures Unescape(EscapeChar(c) + rest) == Then(c, rest)
  {
    var n := c as int;
    if c == '"' || c == '\\' || c == '\n' || c == '\r' || c == '\t' || n == 0x08 || n == 0x0C {
      UnescapeShort(c, rest);
    } else if Printable(c) {
      UnescapePlain(c, rest);
    } else if n < 0x10000 {
      UnescapeUnit(c, rest);
    } else {
      UnescapePair(c, rest);
    }
  }

  /** Reading the escapes back gives the string: the encoding loses nothing. */
  lemma {:induction false} UnescapeEscape(s: string)
    ensures Unescape(Escape(s)) == Some(s)
  {
    if |s| > 0 {
      UnescapeChar(s[0], Escape(s[1..]));
      UnescapeEscape(s[1..]);
      assert [s[0]] + s[1..] == s;
    }
  }

  /** Two strings with the same JSON text are the same string. */
  lemma QuoteInjective(a: string, b: string)
    requires Quote(a) == Quote(b)
    ensures a == b
  {
    assert Escape(a) == Quote(a)[1..|Quote(a)| - 1];
    assert Escape(b) == Quote(b)[1..|Quote(b)| - 1];
    UnescapeEscape(a);
    UnescapeEscape(b);
  }
}
