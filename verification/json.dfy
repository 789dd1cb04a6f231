/** Python's `json.dumps` with its default settings (`", "` and `": "` separators,
    `ensure_ascii=True`), restricted to the property values the graph carries. */
module Json {

  import opened Wrappers
  import opened Text
  import opened Schema

  predicate IsAscii(s: string) {
    forall i :: 0 <= i < |s| ==> s[i] as int < 0x80
  }

  function HexDigit(d: nat): (c: char)
    requires d < 16
    ensures c as int < 0x80
  {
    if d < 10 then ('0' as int + d) as char else ('a' as int + d - 10) as char
  }

  /** `'%04x' % n`. */
  function Hex4(n: nat): (h: string)
    requires n < 0x10000
    ensures |h| == 4 && IsAscii(h)
  {
    [HexDigit(n / 4096), HexDigit(n / 256 % 16), HexDigit(n / 16 % 16), HexDigit(n % 16)]
  }

  function UnicodeEscape(n: nat): (e: string)
    requires n < 0x10000
    ensures |e| == 6 && IsAscii(e)
  {
    "\\u" + Hex4(n)
  }

  /** One character of a string literal: `"` and `\` and the five control characters
      with short forms are backslash-escaped, the printable ASCII range `' '..'~'` is
      kept, everything else becomes `\uXXXX`, through a UTF-16 surrogate pair above
      U+FFFF. */
  function EscapeChar(c: char): (e: string)
    ensures |e| > 0 && IsAscii(e)
  {
    if c == '"' then "\\\""
    else if c == '\\' then "\\\\"
    else if c == '\n' then "\\n"
    else if c == '\r' then "\\r"
    else if c == '\t' then "\\t"
    else if c == '\U{8}' then "\\b"
    else if c == '\U{C}' then "\\f"
    else if ' ' <= c <= '~' then [c]
    else if c as int < 0x10000 then UnicodeEscape(c as int)
    else
      var v := c as int - 0x10000;
      UnicodeEscape(0xD800 + v / 1024) + UnicodeEscape(0xDC00 + v % 1024)
  }

  function EscapeChars(s: string): (e: string)
    ensures IsAscii(e)
  {
    if |s| == 0 then [] else EscapeChar(s[0]) + EscapeChars(s[1..])
  }

  /** A JSON string literal. */
  function Quote(s: string): (q: string)
    ensures IsAscii(q) && |q| >= 2 && q[0] == '"' && q[|q| - 1] == '"'
  {
    "\"" + EscapeChars(s) + "\""
  }

  function HexValue(c: char): Option<nat> {
    if '0' <= c <= '9' then Some(c as int - '0' as int)
    else if 'a' <= c <= 'f' then Some(c as int - 'a' as int + 10)
    else if 'A' <= c <= 'F' then Some(c as int - 'A' as int + 10)
    else None
  }

  function ParseHex4(h: string): (r: Option<nat>)
    requires |h| == 4
    ensures r.Some? ==> r.value < 0x10000
  {
    match (HexValue(h[0]), HexValue(h[1]), HexValue(h[2]), HexValue(h[3]))
    case (Some(a), Some(b), Some(c), Some(d)) =>
      if a < 16 && b < 16 && c < 16 && d < 16 then Some(((a * 16 + b) * 16 + c) * 16 + d) else None
    case _ => None
  }

  lemma HexDigitValue(d: nat)
    requires d < 16
    ensures HexValue(HexDigit(d)) == Some(d)
  {
  }

  lemma {:induction false} ParseHex4OfHex4(n: nat)
    requires n < 0x10000
    ensures ParseHex4(Hex4(n)) == Some(n)
  {
    var h := Hex4(n);
    HexDigitValue(n / 4096);
    HexDigitValue(n / 256 % 16);
    HexDigitValue(n / 16 % 16);
    HexDigitValue(n % 16);
    assert n / 256 == (n / 4096) * 16 + n / 256 % 16;
    assert n / 16 == (n / 256) * 16 + n / 16 % 16;
    assert n == (n / 16) * 16 + n % 16;
  }

  /** The inverse of `EscapeChars`: reads a literal's body back, joining surrogate
      pairs; `None` on a malformed body. */
  function Unescape(e: string): Option<string>
    decreases |e|
  {
    if |e| == 0 then Some([])
    else if e[0] != '\\' then
      if e[0] == '"' then None else Prepend(e[0], Unescape(e[1..]))
    else if |e| < 2 then None
    else if e[1] == 'u' then
      if |e| < 6 then None
      else match ParseHex4(e[2..6])
        case None => None
        case Some(hi) =>
          if 0xD800 <= hi < 0xDC00 then
            if |e| < 12 || e[6..8] != "\\u" then None
            else match ParseHex4(e[8..12])
              case None => None
              case Some(lo) =>
                if 0xDC00 <= lo < 0xE000 then
                  Prepend((0x10000 + (hi - 0xD800) * 1024 + (lo - 0xDC00)) as char, Unescape(e[12..]))
                else None
          else if 0xDC00 <= hi < 0xE000 then None
          else Prepend(hi as char, Unescape(e[6..]))
    else
      match ShortEscape(e[1])
      case None => None
      case Some(c) => Prepend(c, Unescape(e[2..]))
  }

  function ShortEscape(c: char): Option<char> {
    if c == '"' then Some('"')
    else if c == '\\' then Some('\\')
    else if c == '/' then Some('/')
    else if c == 'n' then Some('\n')
    else if c == 'r' then Some('\r')
    else if c == 't' then Some('\t')
    else if c == 'b' then Some('\U{8}')
    else if c == 'f' then Some('\U{C}')
    else None
  }

  function Prepend(c: char, r: Option<string>): Option<string> {
    match r
    case None => None
    case Some(s) => Some([c] + s)
  }

  /** Reading one escaped character back, in front of any rest. */
  lemma {:induction false} UnescapeChar(c: char, rest: string)
    ensures Unescape(EscapeChar(c) + rest) == Prepend(c, Unescape(rest))
  {
    if c == '"' || c == '\\' || c == '\n' || c == '\r' || c == '\t' || c == '\U{8}' || c == '\U{C}' {
      UnescapeShort(c, rest);
    } else if ' ' <= c <= '~' {
      var e := EscapeChar(c) + rest;
      assert e[1..] == rest;
    } else if c as int < 0x10000 {
      UnescapeBmp(c, rest);
    } else {
      UnescapeAstral(c, rest);
    }
  }

  lemma UnescapeShort(c: char, rest: string)
    requires c == '"' || c == '\\' || c == '\n' || c == '\r' || c == '\t' || c == '\U{8}' || c == '\U{C}'
    ensures Unescape(EscapeChar(c) + rest) == Prepend(c, Unescape(rest))
  {
    var e := EscapeChar(c) + rest;
    assert |EscapeChar(c)| == 2 && e[0] == '\\' && ShortEscape(e[1]) == Some(c);
    assert e[2..] == rest;
  }

  lemma UnescapeBmp(c: char, rest: string)
    requires !(' ' <= c <= '~') && c != '"' && c != '\\' && c != '\n' && c != '\r' && c != '\t'
    requires c != '\U{8}' && c != '\U{C}' && c as int < 0x10000
    ensures Unescape(EscapeChar(c) + rest) == Prepend(c, Unescape(rest))
  {
    var e := EscapeChar(c) + rest;
    assert EscapeChar(c) == UnicodeEscape(c as int);
    ParseHex4OfHex4(c as int);
    assert e[2..6] == Hex4(c as int);
    assert e[6..] == rest;
  }

  lemma UnescapeAstral(c: char, rest: string)
    requires c as int >= 0x10000
    ensures Unescape(EscapeChar(c) + rest) == Prepend(c, Unescape(rest))
  {
    var v := c as int - 0x10000;
    var hi := 0xD800 + v / 1024;
    var lo := 0xDC00 + v % 1024;
    SurrogatePair(c as int);
    var e := EscapeChar(c) + rest;
    assert EscapeChar(c) == UnicodeEscape(hi) + UnicodeEscape(lo);
    ParseHex4OfHex4(hi);
    ParseHex4OfHex4(lo);
    assert e[2..6] == Hex4(hi);
    assert e[6..8] == "\\u";
    assert e[8..12] == Hex4(lo);
    assert e[12..] == rest;
  }

  /** The UTF-16 surrogate pair of an astral code point, and how it recombines. */
  lemma SurrogatePair(n: int)
    requires 0x10000 <= n < 0x110000
    ensures var v := n - 0x10000;
      var hi := 0xD800 + v / 1024;
      var lo := 0xDC00 + v % 1024;
      && 0xD800 <= hi < 0xDC00 && 0xDC00 <= lo < 0xE000
      && 0x10000 + (hi - 0xD800) * 1024 + (lo - 0xDC00) == n
  {
  }

  /** Escaping loses nothing: the body of every literal reads back as the original text. */
  lemma {:induction false} UnescapeEscapeChars(s: string)
    ensures Unescape(EscapeChars(s)) == Some(s)
  {
    if |s| > 0 {
      UnescapeEscapeChars(s[1..]);
      UnescapeChar(s[0], EscapeChars(s[1..]));
      assert [s[0]] + s[1..] == s;
    }
  }

  /** `json.dumps(v)`. Floats are rendered by `showReal`, Python's `float.__repr__`,
      which the model takes as given. A string becomes a quoted literal, an integer
      its decimal text that `int()` reads back, and lists and dictionaries are
      bracketed and braced. */
  function Encode(v: Value, showReal: real -> string): (r: string)
    ensures v.VStr? ==> IsAscii(r) && |r| >= 2 && r[0] == '"' && r[|r| - 1] == '"'
    ensures v.VInt? ==> ParseInt(r) == Some(v.num)
    ensures v.VList? ==> |r| >= 2 && r[0] == '[' && r[|r| - 1] == ']'
    ensures v.VDict? ==> |r| >= 2 && r[0] == '{' && r[|r| - 1] == '}'
    decreases v, 2
  {
    match v
    case VStr(s) => Quote(s)
    case VInt(n) => IntToStringRoundTrip(n); IntToString(n)
    case VReal(r) => showReal(r)
    case VBool(b) => if b then "true" else "false"
    case VNone => "null"
    case VList(items) => "[" + EncodeItems(items, showReal) + "]"
    case VDict(entries) => "{" + EncodeEntries(entries, showReal) + "}"
  }

  function EncodeItems(items: seq<Value>, showReal: real -> string): string
    decreases items, 1
  {
    if |items| == 0 then ""
    else if |items| == 1 then Encode(items[0], showReal)
    else Encode(items[0], showReal) + ", " + EncodeItems(items[1..], showReal)
  }

  function EncodeEntries(entries: seq<Entry>, showReal: real -> string): string
    decreases entries, 1
  {
    if |entries| == 0 then ""
    else
      var e := entries[0];
      assert e in entries;
      var head := Quote(e.key) + ": " + Encode(e.val, showReal);
      if |entries| == 1 then head
      else head + ", " + EncodeEntries(entries[1..], showReal)
  }

  lemma AsciiConcat(a: string, b: string)
    requires IsAscii(a) && IsAscii(b)
    ensures IsAscii(a + b)
  {
    assert forall i :: 0 <= i < |a + b| ==> (a + b)[i] == (if i < |a| then a[i] else b[i - |a|]);
  }

  lemma IntToStringAscii(n: int)
    ensures IsAscii(IntToString(n))
  {
    var d := NatToString(if n < 0 then -n else n);
    assert IsAscii(d) by {
      forall i | 0 <= i < |d| ensures d[i] as int < 0x80 {
        assert IsDigit(d[i]);
      }
    }
    if n < 0 {
      AsciiConcat("-", d);
    }
  }

  /** With an ASCII float rendering, the whole document is ASCII: `ensure_ascii`
      escapes every other character of every string and key. */
  lemma {:induction false} EncodeIsAscii(v: Value, showReal: real -> string)
    requires forall r :: IsAscii(showReal(r))
    ensures IsAscii(Encode(v, showReal))
    decreases v, 2
  {
    match v
    case VStr(s) =>
    case VInt(n) => IntToStringAscii(n);
    case VReal(r) =>
    case VBool(b) =>
    case VNone =>
    case VList(items) =>
      EncodeItemsAscii(items, showReal);
      AsciiConcat("[", EncodeItems(items, showReal));
      AsciiConcat("[" + EncodeItems(items, showReal), "]");
    case VDict(entries) =>
      EncodeEntriesAscii(entries, showReal);
      AsciiConcat("{", EncodeEntries(entries, showReal));
      AsciiConcat("{" + EncodeEntries(entries, showReal), "}");
  }

  lemma {:induction false} EncodeItemsAscii(items: seq<Value>, showReal: real -> string)
    requires forall r :: IsAscii(showReal(r))
    ensures IsAscii(EncodeItems(items, showReal))
    decreases items, 1
  {
    if |items| > 0 {
      EncodeIsAscii(items[0], showReal);
      if |items| > 1 {
        EncodeItemsAscii(items[1..], showReal);
        AsciiConcat(Encode(items[0], showReal), ", ");
        AsciiConcat(Encode(items[0], showReal) + ", ", EncodeItems(items[1..], showReal));
      }
    }
  }

  lemma {:induction false} EncodeEntriesAscii(entries: seq<Entry>, showReal: real -> string)
    requires forall r :: IsAscii(showReal(r))
    ensures IsAscii(EncodeEntries(entries, showReal))
    decreases entries, 1
  {
    if |entries| > 0 {
      var e := entries[0];
      assert e in entries;
      EncodeIsAscii(e.val, showReal);
      var head := Quote(e.key) + ": " + Encode(e.val, showReal);
      AsciiConcat(Quote(e.key), ": ");
      AsciiConcat(Quote(e.key) + ": ", Encode(e.val, showReal));
      if |entries| > 1 {
        EncodeEntriesAscii(entries[1..], showReal);
        AsciiConcat(head, ", ");
        AsciiConcat(head + ", ", EncodeEntries(entries[1..], showReal));
      }
    }
  }

  /** A string value encodes as a literal whose body reads back as the string. */
  lemma EncodeStringRoundTrip(s: string, showReal: real -> string)
    ensures var q := Encode(VStr(s), showReal);
            |q| >= 2 && q[0] == '"' && q[|q| - 1] == '"' && Unescape(q[1..|q| - 1]) == Some(s)
  {
    var q := Quote(s);
    assert q[1..|q| - 1] == EscapeChars(s);
    UnescapeEscapeChars(s);
  }
}
