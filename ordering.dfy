/** The fixed-width ordering file of the top-level deft module: a header line, then one
    line per id, each line_length characters wide, so that the n-th id is read back by
    slicing the mapped file at a computed offset. The mapped file is its byte buffer mem. */
module Deft {
  import opened Wrappers
  import opened Text
  import opened PyValues
  import opened Streams

  const MaxDigits: nat := 7
  /** max_digits + 1 (HeaderLayout) */
  const LineLength: nat := 8

  /** The file header: the version, the digit width, a newline (see HeaderLayout). */
  const Header: string := "V1.0 W7\n"

  /** The two ways of laying out an id: the source's "% *d" (a sign column, space for a
      non-negative id, then the digits, right-aligned in max_digits characters) and the
      "%*d" the layout calls for, whose lines keep their width up to max_digits digits. */
  datatype LineFormat = AsWritten | Intended

  function Line(fmt: LineFormat, id: int): string {
    match fmt
    case AsWritten => PadLeft((if id < 0 then "-" else " ") + NatToStr(if id < 0 then -id else id), MaxDigits) + "\n"
    case Intended => PadLeft(IntToStr(id), MaxDigits) + "\n"
  }

  /** The ids whose line is exactly line_length characters wide. */
  predicate Fits(fmt: LineFormat, id: int) {
    match fmt
    case AsWritten => -999999 <= id <= 999999
    case Intended => -999999 <= id <= 9999999
  }

  /** The lines of ids, in the order they were added. */
  function Lines(fmt: LineFormat, ids: seq<int>): string
    decreases |ids|
  {
    if ids == [] then "" else Lines(fmt, ids[..|ids| - 1]) + Line(fmt, ids[|ids| - 1])
  }

  /** The file a new ordering holds after ids were added in turn. */
  function Contents(fmt: LineFormat, ids: seq<int>): string {
    Header + Lines(fmt, ids)
  }

  /** One bound of Python's s[i:j]: a negative index counts from the end, and both ends are
      clamped to the string. */
  function SliceBound(i: int, n: nat): (b: nat)
    ensures b <= n
  {
    if i < 0 then (if i + n < 0 then 0 else i + n) else if i > n then n else i
  }

  /** s[i:j] */
  function Slice(s: string, i: int, j: int): (r: string)
    ensures 0 <= i <= j <= |s| ==> r == s[i..j]
  {
    var lo := SliceBound(i, |s|);
    var hi := SliceBound(j, |s|);
    if lo >= hi then "" else s[lo..hi]
  }

  /** self[n] on the buffer mem: int() of the stripped slice [offset + line_length * n,
      + line_length), or the ValueError int() raises. */
  function ItemAt(mem: string, n: int): (r: Result<int>)
    ensures r.Ok? <==> ParseInt(Strip(Slice(mem, |Header| + LineLength * n, |Header| + LineLength * n + LineLength))).Some?
  {
    var lineStart := |Header| + LineLength * n;
    var line := Strip(Slice(mem, lineStart, lineStart + LineLength));
    match ParseInt(line)
    case None => Err(IntLiteralError(line))
    case Some(v) => Ok(v)
  }

  class Ordering {
    var mem: string
    /** How add lays out a line: AsWritten is the source's "% *d", Intended the layout the
        reads assume. */
    const fmt: LineFormat
    /** The ids added since the file was created, when it was created by this model. */
    ghost var ids: seq<int>

    /** mem is the header and then the lines of ids. */
    ghost predicate Valid()
      reads this
    {
      mem == Contents(fmt, ids)
    }

    constructor(mem: string, fmt: LineFormat)
      ensures this.mem == mem && this.fmt == fmt && ids == []
    {
      this.mem := mem;
      this.fmt := fmt;
      ids := [];
    }

    /** is_empty(): the buffer holds the header alone, so no id was added. */
    function IsEmpty(): (r: bool)
      reads this
      ensures r <==> |mem| == |Header|
      ensures Valid() ==> (r <==> ids == [])
    {
      LinesLength(fmt, ids);
      |mem| == |Header|
    }

    /** add(id): the buffer grows by the length of the new line, which is then written at
        the old end. */
    method Add(id: int)
      modifies this
      ensures mem == old(mem) + Line(fmt, id) && ids == old(ids) + [id]
      ensures old(Valid()) ==> Valid()
    {
      var newLine := Line(fmt, id);
      var end := |mem|;
      ResizeThenWrite(mem, newLine);
      LinesSnoc(fmt, ids, id);
      mem := mem + Nuls(|newLine|);
      mem := mem[..end] + newLine;
      ids := ids + [id];
    }

    /** self[n]: the n-th id added, as long as every id added fits its line. */
    function Get(n: int): (r: Result<int>)
      reads this
      ensures Valid() && 0 <= n < |ids| && (forall k :: 0 <= k < |ids| ==> Fits(fmt, ids[k])) ==> r == Ok(ids[n])
    {
      ItemWhenValid(fmt, mem, ids, n);
      ItemAt(mem, n)
    }
  }

  /** Ordering(path): a path that does not exist yet gets a file holding the header; an
      existing file is mapped as it is, and an empty one cannot be mapped. */
  method Open(existing: Option<string>, fmt: LineFormat) returns (r: Result<Ordering>)
    ensures r.Ok? ==> fresh(r.value) && r.value.fmt == fmt
    ensures existing == None ==> r.Ok? && r.value.Valid() && r.value.ids == []
    ensures existing == Some("") ==> r == Err(ValueError("cannot mmap an empty file"))
    ensures existing.Some? && existing.value != "" ==> r.Ok? && r.value.mem == existing.value
  {
    if existing == None {
      var o := new Ordering(Header, fmt);
      return Ok(o);
    }
    if existing.value == "" {
      return Err(ValueError("cannot mmap an empty file"));
    }
    var o := new Ordering(existing.value, fmt);
    r := Ok(o);
  }

  // ---------------------------------------------------------------------
  // Properties

  /** The header names the version and the digit width; it is eight characters, as wide as
      a line of max_digits + 1 characters. */
  lemma HeaderLayout()
    ensures LineLength == MaxDigits + 1
    ensures Header == "V1.0 W" + NatToStr(MaxDigits) + "\n" && |Header| == LineLength
  {
  }

  /** Growing the buffer by |line| characters and writing line at the old end appends it. */
  lemma ResizeThenWrite(mem: string, line: string)
    ensures (mem + Nuls(|line|))[..|mem|] + line == mem + line
  {
    assert (mem + Nuls(|line|))[..|mem|] == mem;
  }

  lemma LinesSnoc(fmt: LineFormat, ids: seq<int>, id: int)
    ensures Contents(fmt, ids + [id]) == Contents(fmt, ids) + Line(fmt, id)
  {
    AppendedPrefix(ids, id);
  }

  /** Every line is one of some spaces, str(id) and a newline. */
  lemma LineShape(fmt: LineFormat, id: int) returns (m: nat)
    ensures Line(fmt, id) == Spaces(m) + IntToStr(id) + "\n"
  {
    var digits := NatToStr(if id < 0 then -id else id);
    if fmt == AsWritten && id >= 0 {
      var s := " " + digits;
      m := if |s| >= MaxDigits then 1 else MaxDigits - |s| + 1;
      assert PadLeft(s, MaxDigits) == Spaces(m) + digits;
    } else {
      var s := IntToStr(id);
      m := if |s| >= MaxDigits then 0 else MaxDigits - |s|;
      assert PadLeft(s, MaxDigits) == Spaces(m) + s;
    }
  }

  /** int(line.strip()) reads back the id of any line. */
  lemma LineParses(fmt: LineFormat, id: int)
    ensures ParseInt(Strip(Line(fmt, id))) == Some(id)
  {
    var m := LineShape(fmt, id);
    var s := IntToStr(id);
    assert s != [] && !IsSpace(s[0]) && !IsSpace(s[|s| - 1]);
    StripLeftSpaces(m, s + "\n");
    assert Spaces(m) + s + "\n" == Spaces(m) + (s + "\n");
    assert StripRight(s + "\n") == StripRight(s) by {
      assert (s + "\n")[..|s|] == s;
    }
    StripOfUnpadded(s);
    ParseIntOfIntToStr(id);
  }

  /** A line is exactly line_length characters wide if and only if its id fits: with the
      source's "% *d" that is up to six digits, with "%*d" up to seven. */
  lemma LineWidth(fmt: LineFormat, id: int)
    ensures |Line(fmt, id)| == LineLength <==> Fits(fmt, id)
    ensures |Line(fmt, id)| >= LineLength
  {
    var n: nat := if id < 0 then -id else id;
    assert Pow10(6) == 1000000 by {
      assert Pow10(1) == 10 && Pow10(2) == 100 && Pow10(3) == 1000;
    }
    assert Pow10(7) == 10000000;
    if n < 1000000 {
      NatToStrLength(n, 6);
    } else if n < 10000000 {
      NatToStrLength(n, 7);
      NatToStrLengthAtLeast(n, 6);
    } else {
      NatToStrLengthAtLeast(n, 7);
    }
  }

  /** A buffer of lines is as long as the header and every line, and holds no line for no id. */
  lemma {:induction false} LinesLength(fmt: LineFormat, ids: seq<int>)
    ensures |Lines(fmt, ids)| == 0 <==> ids == []
    ensures |Lines(fmt, ids)| >= LineLength * |ids|
    ensures (forall k :: 0 <= k < |ids| ==> Fits(fmt, ids[k])) ==> |Lines(fmt, ids)| == LineLength * |ids|
    decreases |ids|
  {
    if ids != [] {
      var init := ids[..|ids| - 1];
      LinesLength(fmt, init);
      LineWidth(fmt, ids[|ids| - 1]);
      assert forall k :: 0 <= k < |init| ==> init[k] == ids[k];
    }
  }

  /** When every id fits, the n-th line sits at line_length * n. */
  lemma {:induction false} LineAt(fmt: LineFormat, ids: seq<int>, n: nat)
    requires n < |ids| && forall k :: 0 <= k < |ids| ==> Fits(fmt, ids[k])
    ensures |Lines(fmt, ids)| == LineLength * |ids|
    ensures Lines(fmt, ids)[LineLength * n..LineLength * n + LineLength] == Line(fmt, ids[n])
    decreases |ids|
  {
    var init := ids[..|ids| - 1];
    assert |Lines(fmt, init)| == LineLength * |init| && forall k :: 0 <= k < |init| ==> Fits(fmt, init[k]) by {
      assert forall k :: 0 <= k < |init| ==> init[k] == ids[k];
      LinesLength(fmt, init);
    }
    assert |Lines(fmt, ids)| == LineLength * |ids| by {
      LinesLength(fmt, ids);
    }
    if n < |init| {
      assert Lines(fmt, init)[LineLength * n..LineLength * n + LineLength] == Line(fmt, ids[n]) by {
        LineAt(fmt, init, n);
        assert init[n] == ids[n];
      }
      EarlierLineKept(fmt, ids, n);
    } else {
      assert n == |ids| - 1;
      LastLineAt(fmt, ids);
    }
  }

  /** The last line of a buffer sits at its end once the lines before it take line_length
      characters each and the last id fits. */
  lemma LastLineAt(fmt: LineFormat, ids: seq<int>)
    requires ids != [] && Fits(fmt, ids[|ids| - 1])
    requires |Lines(fmt, ids[..|ids| - 1])| == LineLength * (|ids| - 1)
    ensures |Lines(fmt, ids)| == LineLength * (|ids| - 1) + LineLength
    ensures var n := |ids| - 1;
      Lines(fmt, ids)[LineLength * n..LineLength * n + LineLength] == Line(fmt, ids[n])
  {
    var a, b := Lines(fmt, ids[..|ids| - 1]), Line(fmt, ids[|ids| - 1]);
    assert |b| == LineLength by {
      LineWidth(fmt, ids[|ids| - 1]);
    }
    assert Lines(fmt, ids) == a + b;
    SliceOfRight(a, b);
  }

  /** Adding a line keeps the lines before it where they were. */
  lemma EarlierLineKept(fmt: LineFormat, ids: seq<int>, n: nat)
    requires n < |ids| - 1 && forall k :: 0 <= k < |ids| ==> Fits(fmt, ids[k])
    ensures var init := ids[..|ids| - 1];
      LineLength * n + LineLength <= |Lines(fmt, init)|
      && Lines(fmt, ids)[LineLength * n..LineLength * n + LineLength]
         == Lines(fmt, init)[LineLength * n..LineLength * n + LineLength]
  {
    var init := ids[..|ids| - 1];
    LinesLength(fmt, init);
    var lo := LineLength * n;
    assert lo + LineLength <= |Lines(fmt, init)| by {
      assert lo + LineLength == LineLength * (n + 1);
    }
    SliceOfLeft(Lines(fmt, init), Line(fmt, ids[|ids| - 1]), lo, lo + LineLength);
  }

  /** self[n] reads back the n-th id added, for every n, as long as every id fits. */
  lemma ItemOfContents(fmt: LineFormat, ids: seq<int>, n: nat)
    requires n < |ids| && forall k :: 0 <= k < |ids| ==> Fits(fmt, ids[k])
    ensures ItemAt(Contents(fmt, ids), n) == Ok(ids[n])
  {
    var start := |Header| + LineLength * n;
    var line := Line(fmt, ids[n]);
    assert Slice(Contents(fmt, ids), start, start + LineLength) == line by {
      var lo := LineLength * n;
      assert lo + LineLength <= |Lines(fmt, ids)| && Lines(fmt, ids)[lo..lo + LineLength] == line by {
        LineAt(fmt, ids, n);
        assert lo + LineLength == LineLength * (n + 1);
      }
      LineInContents(Lines(fmt, ids), lo, line);
    }
    assert ParseInt(Strip(line)) == Some(ids[n]) by {
      LineParses(fmt, ids[n]);
    }
  }

  /** In the whole buffer a line of the lines follows the header. */
  lemma LineInContents(lines: string, lo: nat, line: string)
    requires lo + |line| <= |lines| && lines[lo..lo + |line|] == line
    ensures (Header + lines)[|Header| + lo..|Header| + lo + |line|] == line
  {
    assert (Header + lines)[|Header|..] == lines;
  }

  lemma ItemWhenValid(fmt: LineFormat, mem: string, ids: seq<int>, n: int)
    ensures mem == Contents(fmt, ids) && 0 <= n < |ids| && (forall k :: 0 <= k < |ids| ==> Fits(fmt, ids[k]))
            ==> ItemAt(mem, n) == Ok(ids[n])
  {
    if mem == Contents(fmt, ids) && 0 <= n < |ids| && (forall k :: 0 <= k < |ids| ==> Fits(fmt, ids[k])) {
      ItemOfContents(fmt, ids, n);
    }
  }

  /** Adding ids in turn to a new ordering gives the buffer of their lines, and the ordering
      is empty exactly when no id was added. */
  method AddAll(ids: seq<int>, fmt: LineFormat) returns (o: Ordering)
    ensures fresh(o) && o.fmt == fmt && o.Valid() && o.ids == ids && o.mem == Contents(fmt, ids)
    ensures o.IsEmpty() <==> ids == []
  {
    var created := Open(None, fmt);
    o := created.value;
    for k := 0 to |ids|
      invariant o.Valid() && o.ids == ids[..k] && fresh(o)
    {
      o.Add(ids[k]);
      PrefixSnoc(ids, k);
    }
    PrefixSnoc(ids, |ids|);
  }

  /** As written, a seven-digit id takes nine characters, and every later line is read one
      character off: after adding a and then b, both of seven digits, self[1] is b with its
      last digit dropped. With ids 1234567 and 7654321, ordering[1] gives 765432. */
  lemma SevenDigitIdMisread(a: int, b: int)
    requires 1000000 <= a < 10000000 && 1000000 <= b < 10000000
    ensures |Line(AsWritten, a)| == LineLength + 1
    ensures ItemAt(Contents(AsWritten, [a, b]), 1) == Ok(b / 10) && b / 10 != b
  {
    var da := SevenDigitLine(a);
    var db := SevenDigitLine(b);
    var tail := NatToStr(b / 10);
    assert db == tail + [DigitChar(b % 10)];
    TwoIdBuffer(AsWritten, a, b);
    var line := MisreadSlice(da, db);
    assert line == ['\n'] + (Spaces(1) + tail) by {
      assert db[..6] == tail;
    }
    assert Strip(line) == tail by {
      StripLeftSpaces(1, tail);
      StripOfUnpadded(tail);
    }
    ParseIntOfIntToStr(b / 10);
  }

  /** The line of a seven-digit id: the sign column, seven digits and the newline. */
  lemma SevenDigitLine(id: int) returns (digits: string)
    requires 1000000 <= id < 10000000
    ensures digits == NatToStr(id) && |digits| == 7
    ensures Line(AsWritten, id) == " " + digits + "\n"
  {
    digits := NatToStr(id);
    LineWidth(AsWritten, id);
    NatToStrLength(id, 7);
  }

  /** Where self[1] reads after two nine-character lines: the first line's newline, then
      the second line's sign column and its first six digits. */
  lemma MisreadSlice(da: string, db: string) returns (line: string)
    requires |da| == 7 && |db| == 7
    ensures var mem := Header + ((" " + da + "\n") + (" " + db + "\n"));
      |mem| == 26 && line == mem[16..24] && line == "\n" + " " + db[..6]
  {
    var mem := Header + ((" " + da + "\n") + (" " + db + "\n"));
    line := mem[16..24];
  }

  /** The buffer after two ids were added to a new ordering. */
  lemma TwoIdBuffer(fmt: LineFormat, a: int, b: int)
    ensures Contents(fmt, [a, b]) == Header + (Line(fmt, a) + Line(fmt, b))
  {
    assert [a, b][..1] == [a];
    assert [a][..0] == [];
    assert Lines(fmt, [a]) == Line(fmt, a);
    assert Lines(fmt, [a, b]) == Line(fmt, a) + Line(fmt, b);
  }

  /** With "%*d" the same ids are read back: every line up to seven digits keeps its width. */
  lemma IntendedReadsSevenDigits(ids: seq<int>, n: nat)
    requires n < |ids| && forall k :: 0 <= k < |ids| ==> 0 <= ids[k] < 10000000
    ensures ItemAt(Contents(Intended, ids), n) == Ok(ids[n])
  {
    ItemOfContents(Intended, ids, n);
  }
}
