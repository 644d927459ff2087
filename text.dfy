/** String helpers modelling the Python 2 built-ins the core relies on, on the inputs
    the core gives them: str(int), int(str) in base 10, str.strip, right/left alignment in str.format,
    str.join, str.replace of one character, str.splitlines, and the
    lexicographic ordering used by sorted(). */
module Text {
  import opened Wrappers

  /** Python's whitespace for str.strip: space, \t, \n, \r, \v and \f. */
  predicate IsSpace(c: char) {
    c == ' ' || c == '\t' || c == '\n' || c == '\r' || c == 11 as char || c == 12 as char
  }

  predicate IsDigit(c: char) {
    '0' <= c <= '9'
  }

  predicate AllDigits(s: string) {
    forall i :: 0 <= i < |s| ==> IsDigit(s[i])
  }

  function DigitChar(d: nat): (c: char)
    requires d < 10
    ensures IsDigit(c)
  {
    (d + '0' as int) as char
  }

  function DigitValue(c: char): (d: nat)
    requires IsDigit(c)
    ensures d < 10
  {
    c as int - '0' as int
  }

  function Pow10(k: nat): (p: nat)
    ensures p >= 1
  {
    if k == 0 then 1 else 10 * Pow10(k - 1)
  }

  /** str(n) for a natural number: decimal digits, no leading zero. */
  function NatToStr(n: nat): (s: string)
    ensures |s| > 0 && AllDigits(s)
    ensures s[0] == '0' ==> n == 0
    decreases n
  {
    if n < 10 then [DigitChar(n)] else NatToStr(n / 10) + [DigitChar(n % 10)]
  }

  /** str(i) for a Python int. */
  function IntToStr(i: int): string {
    if i < 0 then "-" + NatToStr(-i) else NatToStr(i)
  }

  /** The value of a run of decimal digits. */
  function DigitsValue(s: string): nat
    requires AllDigits(s)
  {
    if s == [] then 0 else 10 * DigitsValue(s[..|s| - 1]) + DigitValue(s[|s| - 1])
  }

  function StripLeft(s: string): string {
    if s != [] && IsSpace(s[0]) then StripLeft(s[1..]) else s
  }

  function StripRight(s: string): string {
    if s != [] && IsSpace(s[|s| - 1]) then StripRight(s[..|s| - 1]) else s
  }

  /** s.strip() */
  function Strip(s: string): string {
    StripRight(StripLeft(s))
  }

  /** int(s) in base 10: surrounding whitespace is ignored, then an optional sign, then
      more whitespace may follow the sign, then at least one digit; anything else raises
      ValueError (None here). */
  function ParseInt(s: string): Option<int> {
    var t := Strip(s);
    if |t| > 0 && (t[0] == '-' || t[0] == '+') then
      var u := StripLeft(t[1..]);
      if |u| > 0 && AllDigits(u) then
        var v: int := DigitsValue(u);
        Some(if t[0] == '-' then -v else v)
      else None
    else if |t| > 0 && AllDigits(t) then Some(DigitsValue(t))
    else None
  }

  function Spaces(n: nat): (s: string)
    ensures |s| == n && forall i :: 0 <= i < n ==> s[i] == ' '
  {
    seq(n, _ => ' ')
  }

  /** s right-aligned in a field of width w, as Python's format alignment does; never truncated. */
  function PadLeft(s: string, w: int): string {
    if |s| >= w then s else Spaces(w - |s|) + s
  }

  /** s left-aligned in a field of width w, as Python's format alignment does; never truncated. */
  function PadRight(s: string, w: int): string {
    if |s| >= w then s else s + Spaces(w - |s|)
  }

  /** sep.join(xs) */
  function JoinWith(sep: string, xs: seq<string>): string {
    if xs == [] then "" else if |xs| == 1 then xs[0] else xs[0] + sep + JoinWith(sep, xs[1..])
  }

  /** "".join(xs) */
  function Concat(xs: seq<string>): string {
    if xs == [] then "" else xs[0] + Concat(xs[1..])
  }

  /** s.replace(a, b) for single characters a and b. */
  function ReplaceChar(s: string, a: char, b: char): (r: string)
    ensures |r| == |s|
    ensures forall i :: 0 <= i < |s| ==> r[i] == (if s[i] == a then b else s[i])
  {
    seq(|s|, i requires 0 <= i < |s| => if s[i] == a then b else s[i])
  }

  predicate IsLineBreak(c: char) {
    c == '\n' || c == '\r'
  }

  predicate NoLineBreaks(s: string) {
    forall i :: 0 <= i < |s| ==> !IsLineBreak(s[i])
  }

  /** Index of the first line break at or after k, or |s| when there is none. */
  function LineEnd(s: string, k: nat): (e: nat)
    requires k <= |s|
    ensures k <= e <= |s|
    ensures e < |s| ==> IsLineBreak(s[e])
    ensures forall i :: k <= i < e ==> !IsLineBreak(s[i])
    decreases |s| - k
  {
    if k == |s| || IsLineBreak(s[k]) then k else LineEnd(s, k + 1)
  }

  /** str.splitlines() of a Python 2 byte string: lines end at "\n", "\r" or "\r\n";
      the terminators are dropped and no empty line follows a final terminator. */
  function SplitLines(s: string): (r: seq<string>)
    ensures r == [] <==> s == []
    ensures forall i :: 0 <= i < |r| ==> NoLineBreaks(r[i])
    decreases |s|
  {
    if s == [] then []
    else
      var e := LineEnd(s, 0);
      if e == |s| then [s]
      else
        var next := if s[e] == '\r' && e + 1 < |s| && s[e + 1] == '\n' then e + 2 else e + 1;
        [s[..e]] + SplitLines(s[next..])
  }

  /** Python's ordering of strings: lexicographic by character code. */
  predicate StrLt(a: string, b: string) {
    if a == [] then b != []
    else if b == [] then false
    else if a[0] != b[0] then a[0] < b[0]
    else StrLt(a[1..], b[1..])
  }

  predicate StrictlySorted(xs: seq<string>) {
    forall i, j {:trigger StrLt(xs[i], xs[j])} :: 0 <= i < j < |xs| ==> StrLt(xs[i], xs[j])
  }

  // ---------------------------------------------------------------------
  // Lemmas

  lemma {:induction false} DigitsValueOfNatToStr(n: nat)
    ensures DigitsValue(NatToStr(n)) == n
    decreases n
  {
    if n >= 10 {
      DigitsValueOfNatToStr(n / 10);
      var s := NatToStr(n / 10) + [DigitChar(n % 10)];
      assert s[..|s| - 1] == NatToStr(n / 10);
    }
  }

  lemma StripOfUnpadded(s: string)
    requires s != [] && !IsSpace(s[0]) && !IsSpace(s[|s| - 1])
    ensures Strip(s) == s
  {
  }

  lemma {:induction false} StripLeftSpaces(k: nat, s: string)
    ensures StripLeft(Spaces(k) + s) == StripLeft(s)
    decreases k
  {
    if k > 0 {
      assert (Spaces(k) + s)[0] == ' ';
      assert (Spaces(k) + s)[1..] == Spaces(k - 1) + s;
      StripLeftSpaces(k - 1, s);
    } else {
      assert Spaces(k) + s == s;
    }
  }

  /** int() skips blanks between the sign and the digits, and rejects a letter. */
  lemma ParseIntAfterSign()
    ensures ParseInt("-      5") == Some(-5)
    ensures ParseInt("+ 5") == Some(5)
    ensures ParseInt("  x") == None && StripLeft("  x") == "x"
  {
    assert Strip("-      5") == "-      5";
    assert StripLeft("      5") == "5";
    assert DigitsValue("5") == 5;
    assert Strip("+ 5") == "+ 5";
    assert StripLeft(" 5") == "5";
    assert StripLeft("  x") == "x";
    assert Strip("  x") == "x";
  }

  /** int(str(i)) == i */
  lemma ParseIntOfIntToStr(i: int)
    ensures ParseInt(IntToStr(i)) == Some(i)
  {
    var s := IntToStr(i);
    StripOfUnpadded(s);
    if i < 0 {
      assert s[1..] == NatToStr(-i);
      DigitsValueOfNatToStr(-i);
    } else {
      DigitsValueOfNatToStr(i);
    }
  }

  /** int() ignores the spaces that right-alignment puts in front of a number. */
  lemma {:induction false} ParseIntOfPadded(i: int, w: int)
    ensures ParseInt(PadLeft(IntToStr(i), w)) == Some(i)
  {
    var s := IntToStr(i);
    if |s| < w {
      StripLeftSpaces(w - |s|, s);
      assert StripLeft(s) == s;
      assert Strip(Spaces(w - |s|) + s) == Strip(s);
    }
    ParseIntOfIntToStr(i);
  }

  lemma {:induction false} NatToStrLength(n: nat, k: nat)
    requires k >= 1 && n < Pow10(k)
    ensures |NatToStr(n)| <= k
    decreases k
  {
    if n >= 10 {
      assert k >= 2;
      NatToStrLength(n / 10, k - 1);
    }
  }

  lemma {:induction false} NatToStrLengthAtLeast(n: nat, k: nat)
    requires n >= Pow10(k)
    ensures |NatToStr(n)| >= k + 1
    decreases k
  {
    if k > 0 {
      NatToStrLengthAtLeast(n / 10, k - 1);
    }
  }

  /** A slice inside the left operand of a concatenation. */
  lemma SliceOfLeft<T>(a: seq<T>, b: seq<T>, i: nat, j: nat)
    requires i <= j <= |a|
    ensures (a + b)[i..j] == a[i..j]
  {
  }

  /** The right operand of a concatenation, sliced back out. */
  lemma SliceOfRight<T>(a: seq<T>, b: seq<T>)
    ensures (a + b)[|a|..|a| + |b|] == b
  {
  }

  /** The prefixes a loop over a sequence walks through. */
  lemma PrefixSnoc<T>(xs: seq<T>, j: nat)
    requires j <= |xs|
    ensures j < |xs| ==> xs[..j + 1] == xs[..j] + [xs[j]]
    ensures xs[..|xs|] == xs
  {
  }

  /** Dropping the element just appended gives back the sequence. */
  lemma AppendedPrefix<T>(xs: seq<T>, x: T)
    ensures (xs + [x])[..|xs|] == xs
  {
  }

  /** A join begins with its first part. */
  lemma JoinWithFirst(sep: string, xs: seq<string>)
    requires xs != []
    ensures |xs[0]| <= |JoinWith(sep, xs)| && JoinWith(sep, xs)[..|xs[0]|] == xs[0]
  {
    if |xs| > 1 {
      assert JoinWith(sep, xs) == xs[0] + (sep + JoinWith(sep, xs[1..]));
    }
  }

  lemma JoinWithSnoc(sep: string, xs: seq<string>, y: string)
    requires xs != []
    ensures JoinWith(sep, xs + [y]) == JoinWith(sep, xs) + sep + y
    decreases |xs|
  {
    if |xs| > 1 {
      assert (xs + [y])[1..] == xs[1..] + [y];
      JoinWithSnoc(sep, xs[1..], y);
    }
  }

  lemma {:induction false} SplitLinesCons(x: string, rest: string)
    requires NoLineBreaks(x)
    ensures SplitLines(x + "\n" + rest) == [x] + SplitLines(rest)
  {
    var s := x + "\n" + rest;
    assert s[|x|] == '\n';
    assert forall i :: 0 <= i < |x| ==> s[i] == x[i];
    assert LineEnd(s, 0) == |x|;
    assert s[..|x|] == x;
    assert s[|x| + 1..] == rest;
  }

  lemma SplitLinesOfLine(x: string)
    requires x != [] && NoLineBreaks(x)
    ensures SplitLines(x) == [x]
  {
    assert LineEnd(x, 0) == |x|;
  }

  lemma {:induction false} StrLtIrreflexive(a: string)
    ensures !StrLt(a, a)
    decreases |a|
  {
    if a != [] {
      StrLtIrreflexive(a[1..]);
    }
  }

  lemma {:induction false} StrLtAsymmetric(a: string, b: string)
    ensures StrLt(a, b) ==> !StrLt(b, a)
    decreases |a|
  {
    if a != [] && b != [] && a[0] == b[0] {
      StrLtAsymmetric(a[1..], b[1..]);
    }
  }

  lemma {:induction false} StrLtTransitive(a: string, b: string, c: string)
    requires StrLt(a, b) && StrLt(b, c)
    ensures StrLt(a, c)
    decreases |a|
  {
    if a != [] && b != [] && c != [] && a[0] == b[0] && b[0] == c[0] {
      StrLtTransitive(a[1..], b[1..], c[1..]);
    }
  }

  lemma {:induction false} StrLtTotal(a: string, b: string)
    ensures a == b || StrLt(a, b) || StrLt(b, a)
    decreases |a|
  {
    if a != [] && b != [] && a[0] == b[0] {
      StrLtTotal(a[1..], b[1..]);
      if a[1..] == b[1..] {
        assert a == [a[0]] + a[1..] && b == [b[0]] + b[1..];
      }
    }
  }

  lemma StrLtAntisymmetricAll()
    ensures forall a, b :: !StrLt(a, b) && !StrLt(b, a) ==> a == b
  {
    forall a, b | !StrLt(a, b) && !StrLt(b, a) {
      StrLtTotal(a, b);
    }
  }

  /** Adding y to a set whose least element is m leaves y or m least. */
  lemma LeastOfAdded(rest: set<string>, y: string, m: string) returns (least: string)
    requires m in rest && forall x :: x in rest ==> !StrLt(x, m)
    ensures least in rest + {y} && forall x :: x in rest + {y} ==> !StrLt(x, least)
  {
    if StrLt(y, m) {
      least := y;
      forall x | x in rest + {y}
        ensures !StrLt(x, y)
      {
        if x == y {
          StrLtIrreflexive(y);
        } else if StrLt(x, y) {
          StrLtTransitive(x, y, m);
        }
      }
    } else {
      least := m;
    }
  }

  /** Every finite non-empty set of strings has an element no other element precedes. */
  lemma {:induction false} LeastExists(s: set<string>)
    requires s != {}
    ensures exists m :: m in s && forall x :: x in s ==> !StrLt(x, m)
    decreases s
  {
    var y :| y in s;
    var rest := s - {y};
    if rest == {} {
      assert s == {y};
      StrLtIrreflexive(y);
    } else {
      LeastExists(rest);
      var m :| m in rest && forall x :: x in rest ==> !StrLt(x, m);
      var least := LeastOfAdded(rest, y, m);
      assert rest + {y} == s;
    }
  }

  /** The least string of a non-empty set. */
  function Least(s: set<string>): (m: string)
    requires s != {}
    ensures m in s && forall x :: x in s && x != m ==> StrLt(m, x)
  {
    LeastExists(s);
    StrLtAntisymmetricAll();
    var m :| m in s && forall x :: x in s ==> !StrLt(x, m);
    assert forall x :: x in s && x != m ==> StrLt(m, x) by {
      forall x | x in s && x != m ensures StrLt(m, x) {
        StrLtTotal(m, x);
      }
    }
    m
  }

  /** sorted(s): the elements of a set of strings in ascending order. */
  function SortedKeys(s: set<string>): (r: seq<string>)
    ensures |r| == |s|
    ensures forall x :: x in r <==> x in s
    ensures StrictlySorted(r)
    decreases s
  {
    if s == {} then []
    else
      var m := Least(s);
      [m] + SortedKeys(s - {m})
  }
}
