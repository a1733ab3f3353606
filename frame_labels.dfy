/** The frame-label attribute of the developmental atlas: Python's `str` of the
    list of time-point names with its first and last characters (the brackets)
    cut off, i.e. the `repr` of each name joined by ", ".

    `Repr` follows CPython's string `repr`: single quotes unless the text holds a
    single quote and no double quote; a backslash and the chosen quote are
    escaped with a backslash; tab, newline and carriage return become \t, \n
    and \r; the other control characters below U+00A0 become \xhh. */
module FrameLabels {
  import opened Wrappers

  function HexDigit(n: nat): (d: char)
    requires n < 16
    ensures IsHexDigit(d) && HexValue(d) == n
  {
    if n < 10 then ('0' as int + n) as char else ('a' as int + n - 10) as char
  }

  predicate IsHexDigit(d: char) {
    '0' <= d <= '9' || 'a' <= d <= 'f'
  }

  function HexValue(d: char): (n: nat)
    requires IsHexDigit(d)
    ensures n < 16
  {
    if d <= '9' then d as int - '0' as int else d as int - 'a' as int + 10
  }

  /** The quote character `repr` puts around `s`. */
  function QuoteFor(s: string): (q: char)
    ensures q == '\'' || q == '"'
    ensures q == '"' <==> '\'' in s && '"' !in s
  {
    if '\'' in s && '"' !in s then '"' else '\''
  }

  /** Characters `repr` writes as \xhh. */
  predicate IsHexEscaped(c: char) {
    (c as int < 0x20 && c != '\t' && c != '\n' && c != '\r') || (0x7f <= c as int < 0xa0)
  }

  /** How one character appears inside a string literal quoted with `q`. */
  function EscapeChar(c: char, q: char): string {
    if c == q || c == '\\' then ['\\', c]
    else if c == '\t' then "\\t"
    else if c == '\n' then "\\n"
    else if c == '\r' then "\\r"
    else if IsHexEscaped(c) then ['\\', 'x', HexDigit(c as int / 16), HexDigit(c as int % 16)]
    else [c]
  }

  function Escape(s: string, q: char): string {
    if |s| == 0 then "" else EscapeChar(s[0], q) + Escape(s[1..], q)
  }

  /** Python's `repr` of a string. */
  function Repr(s: string): string {
    var q := QuoteFor(s);
    [q] + Escape(s, q) + [q]
  }

  /** The items of Python's `str` of a list of strings: each `repr`, separated by ", ". */
  function JoinReprs(names: seq<string>): string {
    if |names| == 0 then ""
    else if |names| == 1 then Repr(names[0])
    else Repr(names[0]) + ", " + JoinReprs(names[1..])
  }

  /** Python's `str` of a list of strings. */
  function ListRepr(names: seq<string>): string {
    "[" + JoinReprs(names) + "]"
  }

  /** `str(names)[1:-1]`: the list's text without its enclosing brackets. */
  function FrameLabelString(names: seq<string>): (labels: string)
    ensures "[" + labels + "]" == ListRepr(names)
    ensures labels == JoinReprs(names)
  {
    var text := ListRepr(names);
    text[1..|text| - 1]
  }

  /** A name with no quote, backslash or control character is shown between single quotes as it is. */
  predicate Plain(s: string) {
    forall i :: 0 <= i < |s| ==> s[i] != '\'' && s[i] != '"' && s[i] != '\\' && ' ' <= s[i] <= '~'
  }

  lemma {:induction false} EscapePlain(s: string, q: char)
    requires Plain(s)
    requires q == '\'' || q == '"'
    ensures Escape(s, q) == s
  {
    if |s| > 0 {
      EscapePlain(s[1..], q);
      assert s == [s[0]] + s[1..];
    }
  }

  lemma ReprPlain(s: string)
    requires Plain(s)
    ensures Repr(s) == "'" + s + "'"
  {
    EscapePlain(s, '\'');
  }

  /** Names between single quotes, separated by ", ". */
  function Quoted(names: seq<string>): string {
    if |names| == 0 then ""
    else if |names| == 1 then "'" + names[0] + "'"
    else "'" + names[0] + "', " + Quoted(names[1..])
  }

  /** For plain names the frame labels are just the names in single quotes, separated by ", ". */
  lemma {:induction false} FrameLabelsOfPlainNames(names: seq<string>)
    requires forall k :: 0 <= k < |names| ==> Plain(names[k])
    ensures FrameLabelString(names) == Quoted(names)
  {
    if |names| > 0 {
      ReprPlain(names[0]);
    }
    if |names| > 1 {
      FrameLabelsOfPlainNames(names[1..]);
    }
  }

  /** Reads the escape sequence after a backslash: the character it stands for and the text after it. */
  function Unescape(e: string): (r: Option<(char, string)>)
    ensures r.Some? ==> |r.value.1| < |e|
  {
    if |e| == 0 then None
    else if e[0] == 't' then Some(('\t', e[1..]))
    else if e[0] == 'n' then Some(('\n', e[1..]))
    else if e[0] == 'r' then Some(('\r', e[1..]))
    else if e[0] == '\\' || e[0] == '\'' || e[0] == '"' then Some((e[0], e[1..]))
    else if e[0] == 'x' && |e| >= 3 && IsHexDigit(e[1]) && IsHexDigit(e[2]) then
      Some(((16 * HexValue(e[1]) + HexValue(e[2])) as char, e[3..]))
    else None
  }

  /** Reads the body of a string literal quoted with `q` up to its closing quote:
      the text it stands for and what follows the closing quote. */
  function ParseBody(e: string, q: char): (r: Option<(string, string)>)
    ensures r.Some? ==> |r.value.1| < |e|
    decreases |e|
  {
    if |e| == 0 then None
    else if e[0] == q then Some(("", e[1..]))
    else if e[0] == '\\' then
      match Unescape(e[1..])
      case None => None
      case Some((c, after)) => Prefixed(c, ParseBody(after, q))
    else Prefixed(e[0], ParseBody(e[1..], q))
  }

  function Prefixed(c: char, r: Option<(string, string)>): Option<(string, string)> {
    match r
    case None => None
    case Some((text, after)) => Some(([c] + text, after))
  }

  /** Reads one quoted name from the front of `e`. */
  function ParseItem(e: string): (r: Option<(string, string)>)
    ensures r.Some? ==> |r.value.1| < |e|
  {
    if |e| > 0 && (e[0] == '\'' || e[0] == '"') then ParseBody(e[1..], e[0]) else None
  }

  /** Reads quoted names separated by ", " up to the end of `e`. */
  function ParseItems(e: string): Option<seq<string>>
    decreases |e|
  {
    match ParseItem(e)
    case None => None
    case Some((name, after)) =>
      if |after| == 0 then Some([name])
      else if |after| >= 2 && after[..2] == ", " then
        match ParseItems(after[2..])
        case None => None
        case Some(more) => Some([name] + more)
      else None
  }

  /** Reads a frame-label attribute back into the list of names. */
  function ParseLabels(labels: string): Option<seq<string>> {
    if |labels| == 0 then Some([]) else ParseItems(labels)
  }

  lemma ParseEscapeChar(c: char, q: char, t: string)
    requires q == '\'' || q == '"'
    ensures ParseBody(EscapeChar(c, q) + t, q) == Prefixed(c, ParseBody(t, q))
  {
    var e := EscapeChar(c, q) + t;
    if c == q || c == '\\' || c == '\t' || c == '\n' || c == '\r' {
      assert e[1..] == [e[1]] + t;
    } else if IsHexEscaped(c) {
      ParseHexEscape(c, q, t);
    } else {
      assert e[1..] == t;
    }
  }

  lemma ParseHexEscape(c: char, q: char, t: string)
    requires q == '\'' || q == '"'
    requires IsHexEscaped(c)
    ensures ParseBody(EscapeChar(c, q) + t, q) == Prefixed(c, ParseBody(t, q))
  {
    var n := c as int;
    var e := ['\\', 'x', HexDigit(n / 16), HexDigit(n % 16)] + t;
    assert EscapeChar(c, q) + t == e;
    assert e[1..][1..] == [HexDigit(n / 16), HexDigit(n % 16)] + t;
    assert 16 * (n / 16) + n % 16 == n;
    assert Unescape(e[1..]) == Some((c, t));
  }

  lemma {:induction false} ParseEscape(s: string, q: char, rest: string)
    requires q == '\'' || q == '"'
    ensures ParseBody(Escape(s, q) + [q] + rest, q) == Some((s, rest))
  {
    if |s| == 0 {
      assert Escape(s, q) + [q] + rest == [q] + rest;
    } else {
      var t := Escape(s[1..], q) + [q] + rest;
      assert Escape(s, q) + [q] + rest == EscapeChar(s[0], q) + t;
      ParseEscapeChar(s[0], q, t);
      ParseEscape(s[1..], q, rest);
      assert [s[0]] + s[1..] == s;
    }
  }

  /** `repr` loses nothing: the name is read back from the front of any text that starts with its `repr`. */
  lemma ParseRepr(s: string, rest: string)
    ensures ParseItem(Repr(s) + rest) == Some((s, rest))
  {
    var q := QuoteFor(s);
    var e := Repr(s) + rest;
    assert e[1..] == Escape(s, q) + [q] + rest;
    ParseEscape(s, q, rest);
  }

  /** The frame-label attribute determines the list of names it was made from. */
  lemma {:induction false} LabelsRoundTrip(names: seq<string>)
    ensures ParseLabels(FrameLabelString(names)) == Some(names)
  {
    if |names| == 1 {
      ParseRepr(names[0], "");
      assert Repr(names[0]) + "" == Repr(names[0]);
      assert ParseItems(Repr(names[0])) == Some([names[0]]);
      assert [names[0]] == names;
    } else if |names| > 1 {
      var more := JoinReprs(names[1..]);
      LabelsRoundTrip(names[1..]);
      ParseRepr(names[0], ", " + more);
      assert JoinReprs(names) == Repr(names[0]) + (", " + more);
      assert (", " + more)[2..] == more;
      assert (", " + more)[..2] == ", ";
      assert [names[0]] + names[1..] == names;
    }
  }
}
