/** The Python values that flow through properties, warnings and result tables:
    strings, integers and lists of values, with Python 2's str() and repr(). */
module PyValues {
  import opened Wrappers
  import opened Text

  datatype PyValue = PStr(s: string) | PInt(i: int) | PList(items: seq<PyValue>)

  function HexDigit(d: nat): char
    requires d < 16
  {
    if d < 10 then DigitChar(d) else (d - 10 + 'a' as int) as char
  }

  /** The characters repr() writes for one character c of a string quoted with q. */
  function EscapeChar(c: char, q: char): string {
    if c == q || c == '\\' then ['\\', c]
    else if c == '\t' then "\\t"
    else if c == '\n' then "\\n"
    else if c == '\r' then "\\r"
    else if c < ' ' || (127 <= c as int < 256) then
      ['\\', 'x', HexDigit(c as int / 16), HexDigit(c as int % 16)]
    else [c]
  }

  function EscapeAll(s: string, q: char): string {
    if s == [] then "" else EscapeChar(s[0], q) + EscapeAll(s[1..], q)
  }

  /** repr() of a string: single quotes unless the text holds a single quote and
      no double quote, with backslash escapes inside. */
  function ReprStr(s: string): (r: string)
    ensures |r| >= 2 && r[0] == r[|r| - 1] && (r[0] == '\'' || r[0] == '"')
  {
    var q := if '\'' in s && '"' !in s then '"' else '\'';
    [q] + EscapeAll(s, q) + [q]
  }

  /** The text of s before its first NUL character: all of s when it has none. */
  function BeforeNul(s: string): (r: string)
    ensures r <= s && 0 as char !in r
    ensures r == s || s[|r|] == 0 as char
  {
    if s == [] || s[0] == 0 as char then [] else [s[0]] + BeforeNul(s[1..])
  }

  /** The ValueError int(s) raises for a string s it rejects. int() without a base parses
      the text up to the first NUL: when that part is a number, the NUL itself is the
      error; otherwise the message shows repr() of that part after its leading whitespace
      (the arguments the core passes are far shorter than the 200 characters where the
      message is cut). */
  function IntLiteralError(s: string): (r: Error)
    ensures r.ValueError?
    ensures 0 as char !in s ==>
      r == ValueError("invalid literal for int() with base 10: " + ReprStr(StripLeft(s)))
    ensures 0 as char in s && ParseInt(BeforeNul(s)).Some? ==>
      r == ValueError("null byte in argument for int()")
  {
    var p := BeforeNul(s);
    if p != s && ParseInt(p).Some? then ValueError("null byte in argument for int()")
    else ValueError("invalid literal for int() with base 10: " + ReprStr(StripLeft(p)))
  }

  /** repr(v) */
  function Repr(v: PyValue): string
    decreases v
  {
    match v
    case PStr(s) => ReprStr(s)
    case PInt(i) => IntToStr(i)
    case PList(items) => "[" + ReprItems(items) + "]"
  }

  /** ", ".join(repr(x) for x in items) */
  function ReprItems(items: seq<PyValue>): string
    decreases items
  {
    if items == [] then ""
    else if |items| == 1 then Repr(items[0])
    else Repr(items[0]) + ", " + ReprItems(items[1..])
  }

  /** str(v): a string is itself, anything else is its repr. */
  function Str(v: PyValue): string {
    match v
    case PStr(s) => s
    case _ => Repr(v)
  }

  /** repr() of a string with no quote, backslash or control character is the text in single quotes. */
  lemma {:induction false} ReprOfPlainString(s: string)
    requires forall i :: 0 <= i < |s| ==> ' ' <= s[i] && s[i] != '\'' && s[i] != '\\' && s[i] as int < 127
    ensures Repr(PStr(s)) == "'" + s + "'"
  {
    EscapeAllPlain(s, '\'');
  }

  lemma {:induction false} EscapeAllPlain(s: string, q: char)
    requires forall i :: 0 <= i < |s| ==> ' ' <= s[i] && s[i] != q && s[i] != '\\' && s[i] as int < 127
    ensures EscapeAll(s, q) == s
    decreases |s|
  {
    if s != [] {
      EscapeAllPlain(s[1..], q);
      assert s == [s[0]] + s[1..];
    }
  }

  /** int("  x") reports the letter without the blanks in front of it. */
  lemma RejectedLetterMessage()
    ensures IntLiteralError("  x") == ValueError("invalid literal for int() with base 10: 'x'")
  {
    assert 0 as char !in "  x";
    assert StripLeft("  x") == "x";
    ReprOfPlainString("x");
  }

  /** With a NUL after a number int() complains about the NUL; with a NUL after text that
      is no number, the message shows only the text before the NUL. */
  lemma NulMessages()
    ensures IntLiteralError("12" + [0 as char]) == ValueError("null byte in argument for int()")
    ensures IntLiteralError(" a" + [0 as char] + "b") == ValueError("invalid literal for int() with base 10: 'a'")
  {
    var s := "12" + [0 as char];
    assert BeforeNul(s) == "12" by {
      assert s[0] == '1' && s[1] == '2' && s[2] == 0 as char;
      assert BeforeNul(s[2..]) == [];
      assert s[1..][1..] == s[2..];
    }
    assert ParseInt("12") == Some(12) by {
      assert Strip("12") == "12";
      assert DigitsValue("12") == 12;
    }
    var t := " a" + [0 as char] + "b";
    assert BeforeNul(t) == " a" by {
      assert t[0] == ' ' && t[1] == 'a' && t[2] == 0 as char;
      assert BeforeNul(t[2..]) == [];
      assert t[1..][1..] == t[2..];
    }
    assert StripLeft(" a") == "a";
    ReprOfPlainString("a");
  }
}
