/** Slash-separated storage paths: str.split('/'), os.path.join, os.path.dirname,
    os.path.basename, the overlay's walk over path prefixes, and fnmatch restricted
    to literal characters and '*'. */
module Paths {
  import opened Text

  type Path = string

  predicate NoSlash(s: string) {
    '/' !in s
  }

  /** Index of the first '/' at or after k, or |s| when there is none. */
  function NextSlash(s: string, k: nat): (e: nat)
    requires k <= |s|
    ensures k <= e <= |s|
    ensures e < |s| ==> s[e] == '/'
    ensures forall i :: k <= i < e ==> s[i] != '/'
    decreases |s| - k
  {
    if k == |s| || s[k] == '/' then k else NextSlash(s, k + 1)
  }

  /** s.split('/'): never empty, and no segment contains the separator. */
  function Split(s: string): (r: seq<string>)
    ensures |r| >= 1
    ensures forall i :: 0 <= i < |r| ==> NoSlash(r[i])
    decreases |s|
  {
    var e := NextSlash(s, 0);
    if e == |s| then [s] else [s[..e]] + Split(s[e + 1..])
  }

  predicate NoEmptySegments(p: Path) {
    forall i :: 0 <= i < |Split(p)| ==> Split(p)[i] != ""
  }

  /** os.path.join(a, b) */
  function PathJoin(a: Path, b: Path): Path {
    if |b| > 0 && b[0] == '/' then b
    else if a == "" || a[|a| - 1] == '/' then a + b
    else a + "/" + b
  }

  /** One past the last '/' of s (0 when s has none): where the basename starts. */
  function AfterLastSlash(s: string): (i: nat)
    ensures i <= |s|
    ensures i > 0 ==> s[i - 1] == '/'
    ensures forall j :: i <= j < |s| ==> s[j] != '/'
  {
    if s == [] then 0
    else if s[|s| - 1] == '/' then |s|
    else AfterLastSlash(s[..|s| - 1])
  }

  predicate AllSlashes(s: string) {
    forall i :: 0 <= i < |s| ==> s[i] == '/'
  }

  function RStripSlashes(s: string): (r: string)
    ensures |r| <= |s| && r == s[..|r|]
  {
    if s != [] && s[|s| - 1] == '/' then RStripSlashes(s[..|s| - 1]) else s
  }

  /** os.path.basename(p) */
  function Basename(p: Path): Path {
    p[AfterLastSlash(p)..]
  }

  /** os.path.dirname(p): the text before the last '/', with trailing slashes removed
      unless it consists of slashes only. */
  function Dirname(p: Path): Path {
    var head := p[..AfterLastSlash(p)];
    if head != "" && !AllSlashes(head) then RStripSlashes(head) else head
  }

  /** The prefixes the overlay's walk yields: the first segment, then each further
      segment joined on with os.path.join. */
  function WalkSegments(elts: seq<string>): (r: seq<Path>)
    requires |elts| >= 1
    ensures |r| == |elts|
    decreases |elts|
  {
    if |elts| == 1 then [elts[0]]
    else
      var w := WalkSegments(elts[..|elts| - 1]);
      w + [PathJoin(w[|w| - 1], elts[|elts| - 1])]
  }

  function Walk(p: Path): (r: seq<Path>)
    ensures |r| >= 1
  {
    WalkSegments(Split(p))
  }

  predicate NoStar(s: string) {
    '*' !in s
  }

  /** fnmatch(s, pattern) where '*' matches any run of characters, '/' included,
      and every other character matches only itself. */
  predicate Glob(s: string, pattern: string)
    decreases |s| + |pattern|
  {
    if pattern == [] then s == []
    else if pattern[0] == '*' then Glob(s, pattern[1..]) || (s != [] && Glob(s[1..], pattern))
    else s != [] && s[0] == pattern[0] && Glob(s[1..], pattern[1..])
  }

  /** The memory storages' matching: the path and the pattern have the same number of
      segments and each segment matches its pattern segment. */
  predicate SegmentsMatch(path: Path, pattern: Path) {
    var ps := Split(path);
    var qs := Split(pattern);
    |ps| == |qs| && forall i :: 0 <= i < |ps| ==> Glob(ps[i], qs[i])
  }

  // ---------------------------------------------------------------------
  // Lemmas

  /** Joining the segments of a path with '/' gives the path back. */
  lemma {:induction false} JoinSplit(s: string)
    ensures JoinWith("/", Split(s)) == s
    decreases |s|
  {
    var e := NextSlash(s, 0);
    if e < |s| {
      JoinSplit(s[e + 1..]);
      var rest := Split(s[e + 1..]);
      assert Split(s) == [s[..e]] + rest;
      assert JoinWith("/", [s[..e]] + rest) == s[..e] + "/" + JoinWith("/", rest);
      assert s == s[..e] + "/" + s[e + 1..];
    }
  }

  /** Splitting a segment-free text joined on with '/' splits off that text. */
  lemma {:induction false} SplitCons(a: string, b: string)
    requires NoSlash(a)
    ensures Split(a + "/" + b) == [a] + Split(b)
  {
    var s := a + "/" + b;
    assert s[|a|] == '/';
    assert forall i :: 0 <= i < |a| ==> s[i] == a[i];
    assert NextSlash(s, 0) == |a|;
    assert s[..|a|] == a;
    assert s[|a| + 1..] == b;
  }

  lemma {:induction false} SplitNoSlash(a: string)
    requires NoSlash(a)
    ensures Split(a) == [a]
  {
    assert NextSlash(a, 0) == |a|;
  }

  /** Splitting a path extended by one more segment adds that segment. */
  lemma SplitSnoc(p: Path, x: string)
    requires NoSlash(x)
    ensures Split(p + "/" + x) == Split(p) + [x]
  {
    SplitConcat(p, x);
    SplitNoSlash(x);
  }

  lemma {:induction false} JoinWithLastChar(xs: seq<string>)
    requires xs != [] && xs[|xs| - 1] != ""
    ensures var j := JoinWith("/", xs); j != "" && j[|j| - 1] == xs[|xs| - 1][|xs[|xs| - 1]| - 1]
    decreases |xs|
  {
    if |xs| > 1 {
      JoinWithLastChar(xs[1..]);
    }
  }

  /** For a path without empty segments, walk(p) yields the prefixes of p ending at each
      segment, in order, and the last one is p itself. */
  lemma {:induction false} WalkYieldsPrefixes(p: Path)
    requires NoEmptySegments(p)
    ensures |Walk(p)| == |Split(p)|
    ensures forall i :: 0 <= i < |Walk(p)| ==> Walk(p)[i] == JoinWith("/", Split(p)[..i + 1])
    ensures Walk(p)[|Walk(p)| - 1] == p
  {
    var elts := Split(p);
    WalkSegmentsJoin(elts);
    JoinSplit(p);
    assert elts[..|elts|] == elts;
  }

  lemma {:induction false} WalkSegmentsJoin(elts: seq<string>)
    requires |elts| >= 1
    requires forall i :: 0 <= i < |elts| ==> elts[i] != "" && NoSlash(elts[i])
    ensures forall i :: 0 <= i < |elts| ==> WalkSegments(elts)[i] == JoinWith("/", elts[..i + 1])
    decreases |elts|
  {
    if |elts| > 1 {
      var init := elts[..|elts| - 1];
      var last := elts[|elts| - 1];
      WalkSegmentsJoin(init);
      var w := WalkSegments(init);
      assert init[..|init|] == init;
      var a := w[|w| - 1];
      assert a == JoinWith("/", init);
      JoinWithLastChar(init);
      assert last[0] != '/';
      assert PathJoin(a, last) == a + "/" + last;
      JoinWithSnoc("/", init, last);
      assert init + [last] == elts;
      forall i | 0 <= i < |elts|
        ensures WalkSegments(elts)[i] == JoinWith("/", elts[..i + 1])
      {
        if i < |elts| - 1 {
          assert elts[..i + 1] == init[..i + 1];
        } else {
          assert elts[..i + 1] == elts;
        }
      }
    }
  }

  /** A pattern without '*' matches exactly itself. */
  lemma {:induction false} GlobLiteral(s: string, pattern: string)
    requires NoStar(pattern)
    ensures Glob(s, pattern) <==> s == pattern
    decreases |pattern|
  {
    if pattern != [] {
      assert pattern[1..] == pattern[1..] && NoStar(pattern[1..]) by {
        forall i | 0 <= i < |pattern| - 1 ensures pattern[1..][i] != '*' {
          assert pattern[1..][i] == pattern[i + 1];
        }
      }
      if s != [] {
        GlobLiteral(s[1..], pattern[1..]);
        if s[0] == pattern[0] && s[1..] == pattern[1..] {
          assert s == [s[0]] + s[1..];
          assert pattern == [pattern[0]] + pattern[1..];
        }
      }
    }
  }

  /** Segment-wise matching against a pattern free of '*' is string equality. */
  lemma SegmentsMatchLiteral(k: Path, p: Path)
    requires NoStar(p)
    ensures SegmentsMatch(k, p) <==> k == p
  {
    var ks := Split(k);
    var ps := Split(p);
    if SegmentsMatch(k, p) {
      forall i | 0 <= i < |ks| ensures ks[i] == ps[i] {
        SegmentOfNoStar(p, i);
        GlobLiteral(ks[i], ps[i]);
      }
      assert ks == ps;
      JoinSplit(k);
      JoinSplit(p);
    }
    if k == p {
      forall i | 0 <= i < |ps| ensures Glob(ps[i], ps[i]) {
        SegmentOfNoStar(p, i);
        GlobLiteral(ps[i], ps[i]);
      }
    }
  }

  /** A lone '*' matches every text. */
  lemma {:induction false} GlobStar(s: string)
    ensures Glob(s, "*")
    decreases |s|
  {
    assert "*"[1..] == "";
    if s != [] {
      GlobStar(s[1..]);
    }
  }

  /** Under fnmatch, q followed by '*' matches exactly the texts that start with q. */
  lemma {:induction false} GlobPrefixStar(s: string, q: string)
    requires NoStar(q)
    ensures Glob(s, q + "*") <==> (|q| <= |s| && s[..|q|] == q)
    decreases |q|
  {
    if q == [] {
      assert q + "*" == "*";
      GlobStar(s);
    } else {
      assert (q + "*")[0] == q[0];
      assert (q + "*")[1..] == q[1..] + "*";
      assert NoStar(q[1..]) by {
        forall i | 0 <= i < |q| - 1 ensures q[1..][i] != '*' {
          assert q[1..][i] == q[i + 1];
        }
      }
      if s != [] {
        GlobPrefixStar(s[1..], q[1..]);
        if |q| <= |s| {
          assert s[..|q|] == [s[0]] + s[1..][..|q| - 1];
          assert q == [q[0]] + q[1..];
        }
      }
    }
  }

  /** For a non-empty path without '*' or empty segments, the pattern os.path.join(p, "*")
      matches, segment by segment, exactly the paths one segment below p. */
  lemma OneLevelBelow(k: Path, p: Path)
    requires p != "" && NoStar(p) && NoEmptySegments(p)
    ensures SegmentsMatch(k, PathJoin(p, "*")) <==> exists x :: NoSlash(x) && k == p + "/" + x
  {
    if SegmentsMatch(k, PathJoin(p, "*")) {
      MatchIsOneLevelBelow(k, p);
    }
    if exists x :: NoSlash(x) && k == p + "/" + x {
      var x :| NoSlash(x) && k == p + "/" + x;
      OneLevelBelowMatches(p, x);
    }
  }

  /** The segments of os.path.join(p, "*") are those of p and then "*". */
  lemma StarBelowSegments(p: Path)
    requires p != "" && NoEmptySegments(p)
    ensures PathJoin(p, "*") == p + "/" + "*"
    ensures Split(PathJoin(p, "*")) == Split(p) + ["*"]
  {
    JoinWithLastChar(Split(p));
    JoinSplit(p);
    assert p[|p| - 1] != '/';
    SplitSnoc(p, "*");
  }

  lemma MatchIsOneLevelBelow(k: Path, p: Path)
    requires p != "" && NoStar(p) && NoEmptySegments(p)
    requires SegmentsMatch(k, PathJoin(p, "*"))
    ensures exists x :: NoSlash(x) && k == p + "/" + x
  {
    var ps := Split(p);
    StarBelowSegments(p);
    var qs := ps + ["*"];
    var ks := Split(k);
    assert |ks| == |ps| + 1;
    forall i | 0 <= i < |ps| ensures ks[i] == ps[i] {
      assert Glob(ks[i], qs[i]);
      SegmentOfNoStar(p, i);
      GlobLiteral(ks[i], ps[i]);
    }
    var x := ks[|ks| - 1];
    assert ks == ps + [x];
    JoinSplit(k);
    JoinSplit(p);
    JoinWithSnoc("/", ps, x);
    assert k == p + "/" + x;
  }

  lemma OneLevelBelowMatches(p: Path, x: Path)
    requires p != "" && NoStar(p) && NoEmptySegments(p) && NoSlash(x)
    ensures SegmentsMatch(p + "/" + x, PathJoin(p, "*"))
  {
    var ps := Split(p);
    StarBelowSegments(p);
    var qs := ps + ["*"];
    SplitSnoc(p, x);
    var ks := Split(p + "/" + x);
    assert ks == ps + [x];
    forall i | 0 <= i < |ks| ensures Glob(ks[i], qs[i]) {
      if i < |ps| {
        SegmentOfNoStar(p, i);
        GlobLiteral(ks[i], qs[i]);
      } else {
        GlobStar(x);
      }
    }
  }


  lemma SegmentOfNoStar(p: Path, i: nat)
    requires NoStar(p) && i < |Split(p)|
    ensures NoStar(Split(p)[i])
  {
    JoinSplit(p);
    JoinedPartsHaveNoStar(Split(p), i);
  }

  lemma {:induction false} JoinedPartsHaveNoStar(xs: seq<string>, i: nat)
    requires i < |xs| && NoStar(JoinWith("/", xs))
    ensures NoStar(xs[i])
    decreases |xs|
  {
    if |xs| > 1 {
      var j := JoinWith("/", xs);
      assert j == xs[0] + "/" + JoinWith("/", xs[1..]);
      if i == 0 {
        forall c | c in xs[0] ensures c != '*' {
          var k :| 0 <= k < |xs[0]| && xs[0][k] == c;
          assert j[k] == c;
        }
      } else {
        var rest := JoinWith("/", xs[1..]);
        forall k | 0 <= k < |rest| ensures rest[k] != '*' {
          assert j[|xs[0]| + 1 + k] == rest[k];
        }
        JoinedPartsHaveNoStar(xs[1..], i - 1);
      }
    }
  }

  /** dirname makes progress: it is shorter than any non-empty path that is not all slashes. */
  lemma DirnameShorter(p: Path)
    requires p != "" && !AllSlashes(p)
    ensures |Dirname(p)| < |p|
  {
    var i := AfterLastSlash(p);
    var head := p[..i];
    if i == |p| && head != "" && !AllSlashes(head) {
      assert head[|head| - 1] == '/';
      RStripShortens(head);
    }
  }

  lemma RStripShortens(s: string)
    requires s != [] && s[|s| - 1] == '/'
    ensures |RStripSlashes(s)| < |s|
  {
  }

  /** A path made of slashes only is its own dirname: os.path.makedirs-style recursion on it
      never ends. */
  lemma DirnameOfSlashes(p: Path)
    requires p != "" && AllSlashes(p)
    ensures Dirname(p) == p
  {
    assert p[|p| - 1] == '/';
    assert AfterLastSlash(p) == |p|;
    assert p[..|p|] == p;
  }

  /** Splitting segments joined with '/' gives the segments back. */
  lemma {:induction false} SplitJoin(xs: seq<string>)
    requires |xs| >= 1
    requires forall i :: 0 <= i < |xs| ==> NoSlash(xs[i])
    ensures Split(JoinWith("/", xs)) == xs
    decreases |xs|
  {
    if |xs| == 1 {
      SplitNoSlash(xs[0]);
    } else {
      SplitJoin(xs[1..]);
      SplitCons(xs[0], JoinWith("/", xs[1..]));
      assert xs == [xs[0]] + xs[1..];
    }
  }

  /** The dirname of a single segment is empty. */
  lemma DirnameOfSegment(x: string)
    requires NoSlash(x)
    ensures Dirname(x) == ""
  {
    assert AfterLastSlash(x) == 0 by {
      assert '/' !in x;
    }
  }

  /** The dirname of d + "/" + x, for a segment x and a d that does not end in '/', is d. */
  lemma DirnameOfSnoc(d: Path, x: string)
    requires d != "" && d[|d| - 1] != '/' && NoSlash(x)
    ensures Dirname(d + "/" + x) == d
  {
    var p := d + "/" + x;
    var i := AfterLastSlash(p);
    assert p[|d|] == '/';
    assert forall j :: |d| < j < |p| ==> p[j] == x[j - |d| - 1];
    assert i == |d| + 1;
    var head := p[..i];
    assert head == d + "/";
    assert !AllSlashes(head) by {
      assert head[|d| - 1] == d[|d| - 1];
    }
    assert RStripSlashes(head) == RStripSlashes(d);
  }

  /** For a path of two or more non-empty segments, the dirname drops the last segment and
      the walk of the path is the walk of its dirname followed by the path. */
  lemma {:induction false} DirnameDropsLastSegment(p: Path)
    requires NoEmptySegments(p) && |Split(p)| > 1
    ensures var elts := Split(p);
      Dirname(p) == JoinWith("/", elts[..|elts| - 1])
      && Split(Dirname(p)) == elts[..|elts| - 1]
      && NoEmptySegments(Dirname(p))
      && Walk(p) == Walk(Dirname(p)) + [p]
  {
    var elts := Split(p);
    var init := elts[..|elts| - 1];
    var last := elts[|elts| - 1];
    var d := JoinWith("/", init);
    JoinWithLastChar(init);
    JoinSplit(p);
    JoinWithSnoc("/", init, last);
    assert init + [last] == elts;
    assert p == d + "/" + last;
    DirnameOfSnoc(d, last);
    SplitJoin(init);
    WalkYieldsPrefixes(p);
    assert Walk(p) == WalkSegments(init) + [PathJoin(WalkSegments(init)[|init| - 1], last)];
  }

  /** Splitting a + "/" + b splits a and b separately. */
  lemma {:induction false} SplitConcat(a: Path, b: Path)
    ensures Split(a + "/" + b) == Split(a) + Split(b)
    decreases |a|
  {
    var e := NextSlash(a, 0);
    if e == |a| {
      SplitCons(a, b);
      SplitNoSlash(a);
    } else {
      var a0, rest := FirstSegment(a, b);
      SplitCons(a0, rest + "/" + b);
      SplitConcat(rest, b);
      SplitCons(a0, rest);
    }
  }

  /** A path with a slash is its first segment, a slash and the rest. */
  lemma FirstSegment(a: Path, b: Path) returns (a0: Path, rest: Path)
    requires NextSlash(a, 0) < |a|
    ensures NoSlash(a0) && |rest| < |a|
    ensures a == a0 + "/" + rest
    ensures a + "/" + b == a0 + "/" + (rest + "/" + b)
  {
    var e := NextSlash(a, 0);
    a0, rest := a[..e], a[e + 1..];
    assert a == a0 + "/" + rest;
  }



  /** Walking more segments extends the walk: the earlier prefixes are unchanged. */
  lemma {:induction false} WalkSegmentsExtend(xs: seq<string>, ys: seq<string>)
    requires |xs| >= 1
    ensures WalkSegments(xs + ys)[..|xs|] == WalkSegments(xs)
    decreases |ys|
  {
    if ys == [] {
      assert xs + ys == xs;
    } else {
      var init := xs + ys[..|ys| - 1];
      assert (xs + ys)[..|xs + ys| - 1] == init;
      WalkSegmentsExtend(xs, ys[..|ys| - 1]);
      assert xs + ys[..|ys| - 1] == init;
    }
  }

  /** A path of non-empty segments is one of the prefixes walked for any path below it. */
  lemma WalkBelow(p: Path, x: Path)
    requires NoEmptySegments(p)
    ensures p in Walk(p + "/" + x)
  {
    SplitConcat(p, x);
    WalkSegmentsExtend(Split(p), Split(x));
    WalkYieldsPrefixes(p);
    var w := Walk(p + "/" + x);
    assert w[..|Split(p)|] == Walk(p);
    assert w[|Split(p)| - 1] == p;
  }
}
