/** The in-memory text stream (Python 2's StringIO) that the memory storages hand out:
    a buffer and a position. */
module Streams {
  datatype StringIO = StringIO(value: string, pos: nat)

  function Nuls(n: nat): (s: string)
    ensures |s| == n && forall i :: 0 <= i < n ==> s[i] == 0 as char
  {
    if n == 0 then "" else Nuls(n - 1) + [0 as char]
  }

  /** A stream positioned at the start of content. */
  function Opened(content: string): StringIO {
    StringIO(content, 0)
  }

  /** write(text): text replaces the characters from the position on (the buffer is padded
      with NULs if the position is past its end) and the position moves past it; writing
      nothing changes nothing. */
  function Write(io: StringIO, text: string): (r: StringIO)
    ensures text == "" ==> r == io
    ensures text != "" ==> r.pos == io.pos + |text|
    ensures text != "" ==> |r.value| == if r.pos < |io.value| then |io.value| else r.pos
    ensures text != "" ==> r.value[io.pos..r.pos] == text
    ensures forall i :: 0 <= i < io.pos && i < |io.value| ==> r.value[i] == io.value[i]
    ensures forall i :: io.pos + |text| <= i < |io.value| ==> r.value[i] == io.value[i]
    ensures text != "" ==> forall i :: |io.value| <= i < io.pos ==> r.value[i] == 0 as char
  {
    if text == "" then io
    else
      var v := if io.pos <= |io.value| then io.value else io.value + Nuls(io.pos - |io.value|);
      var tail := if io.pos + |text| < |v| then v[io.pos + |text|..] else "";
      StringIO(v[..io.pos] + text + tail, io.pos + |text|)
  }

  /** read(): everything from the position to the end; the position moves to the end. */
  function Read(io: StringIO): (r: (string, StringIO))
    ensures r.1 == StringIO(io.value, |io.value|)
  {
    (if io.pos <= |io.value| then io.value[io.pos..] else "", StringIO(io.value, |io.value|))
  }

  /** Writes to a stream positioned at its end append to the buffer, so successive writes to
      a fresh stream concatenate. */
  lemma WriteAtEnd(io: StringIO, text: string)
    requires io.pos == |io.value|
    ensures Write(io, text) == StringIO(io.value + text, |io.value + text|)
  {
    var r := Write(io, text);
    if text != "" {
      assert r.value == io.value + text by {
        assert |r.value| == |io.value + text|;
        forall i | 0 <= i < |r.value| ensures r.value[i] == (io.value + text)[i] {
          if i >= io.pos {
            assert r.value[i] == r.value[io.pos..r.pos][i - io.pos];
          }
        }
      }
    }
  }

  /** The character a non-empty write leaves at index i of the buffer: the text where it
      landed, the old content elsewhere, and NUL in a gap the write opened past the end. */
  lemma WriteCharAt(io: StringIO, text: string, i: nat)
    requires text != "" && i < |Write(io, text).value|
    ensures Write(io, text).value[i] ==
      if io.pos <= i < io.pos + |text| then text[i - io.pos]
      else if i < |io.value| then io.value[i]
      else 0 as char
  {
    var r := Write(io, text);
    if io.pos <= i < io.pos + |text| {
      assert r.value[i] == r.value[io.pos..r.pos][i - io.pos];
    }
  }

  /** Two writes in a row have the effect of one write of their concatenation. */
  lemma WriteConcat(io: StringIO, a: string, b: string)
    ensures Write(Write(io, a), b) == Write(io, a + b)
  {
    if a == "" {
      assert a + b == b;
    } else if b == "" {
      assert a + b == a;
    } else {
      var r1 := Write(io, a);
      var r2 := Write(r1, b);
      var r := Write(io, a + b);
      assert |r2.value| == |r.value|;
      forall i | 0 <= i < |r.value| ensures r2.value[i] == r.value[i] {
        WriteCharAt(r1, b, i);
        WriteCharAt(io, a + b, i);
        if i < |r1.value| {
          WriteCharAt(io, a, i);
        }
      }
    }
  }

  /** Reading a stream opened on some content, before anything else, yields the content. */
  lemma ReadOpened(content: string)
    ensures Read(Opened(content)).0 == content
  {
    assert content[0..] == content;
  }
}
