/** The copy-on-write storage of src/deft/storage/overlay.py: a map of deltas (removals,
    additions, directory additions, and references to underlay files moved by rename) over a
    memory storage that the overlay reads but never writes. */
module Overlay {
  import opened Wrappers
  import opened Text
  import opened Paths
  import opened Streams
  import Mem = Memory

  /** What a path resolves to: one of the delta classes, or the underlay file of the
      given path (the source's UnderlyingFile, which rename can store as a delta). */
  datatype Delta =
    | Removal(relpath: Path)
    | Addition(relpath: Path, data: string)
    | DirectoryAddition(relpath: Path)
    | UnderlyingFile(relpath: Path)

  type Deltas = map<Path, Delta>

  /** Where a stream opened for writing stores its text on close: the source stores under
      the delta's own path; the corrected overlay stores under the path that was opened. */
  datatype StoreTarget = DeltaPath | OpenedPath

  predicate DeltaExists(under: Mem.Files, d: Delta) {
    match d
    case Removal(_) => false
    case Addition(_, _) => true
    case DirectoryAddition(_) => true
    case UnderlyingFile(rp) => rp in under
  }

  predicate DeltaIsDir(under: Mem.Files, d: Delta) {
    match d
    case Removal(_) => false
    case Addition(_, _) => false
    case DirectoryAddition(_) => true
    case UnderlyingFile(rp) => Mem.IsDirIn(under, rp)
  }

  /** _delta_for(p) */
  function DeltaForIn(deltas: Deltas, p: Path): Delta {
    if p in deltas then deltas[p] else UnderlyingFile(p)
  }

  function RefFrom(under: Mem.Files, deltas: Deltas, ws: seq<Path>, p: Path): Delta
    decreases |ws|
  {
    if ws == [] then DeltaForIn(deltas, p)
    else if !DeltaExists(under, DeltaForIn(deltas, ws[0])) then Removal(ws[0])
    else RefFrom(under, deltas, ws[1..], p)
  }

  /** _ref(p): a Removal for the first walked prefix that does not exist, otherwise p's delta. */
  function Ref(under: Mem.Files, deltas: Deltas, p: Path): Delta {
    RefFrom(under, deltas, Walk(p), p)
  }

  predicate ExistsIn(under: Mem.Files, deltas: Deltas, p: Path) {
    DeltaExists(under, Ref(under, deltas, p))
  }

  /** makedirs over the prefixes ws of whole: each missing prefix gets a DirectoryAddition;
      the first existing prefix that is not a directory stops the loop with an IOError,
      keeping what was added before it. */
  function MakeDirsOver(under: Mem.Files, deltas: Deltas, whole: Path, ws: seq<Path>): (r: (Outcome, Deltas))
    ensures deltas.Keys <= r.1.Keys
    ensures r.0.Fail? ==> ws != [] && r.0.error.IOError?
    decreases |ws|
  {
    if ws == [] then (Pass, deltas)
    else
      var d := DeltaForIn(deltas, ws[0]);
      if !DeltaExists(under, d) then
        MakeDirsOver(under, deltas[ws[0] := DirectoryAddition(ws[0])], whole, ws[1..])
      else if !DeltaIsDir(under, d) then
        (Fail(IOError("cannot create directory " + whole + ", " + ws[0] + " is a file")), deltas)
      else MakeDirsOver(under, deltas, whole, ws[1..])
  }

  function MakeDirsIn(under: Mem.Files, deltas: Deltas, p: Path): (Outcome, Deltas) {
    MakeDirsOver(under, deltas, p, Walk(p))
  }

  /** remove(p): p becomes a Removal and every delta matching os.path.join(p, "*") goes. */
  function RemovedDeltas(deltas: Deltas, p: Path): (r: Deltas)
    ensures forall k :: k in r ==> !Glob(k, PathJoin(p, "*")) && (k == p || k in deltas)
    ensures forall k :: k in r ==> r[k] == if k == p then Removal(p) else deltas[k]
    ensures forall k :: k in deltas && !Glob(k, PathJoin(p, "*")) ==> k in r
  {
    var marked := deltas[p := Removal(p)];
    map k | k in marked && !Glob(k, PathJoin(p, "*")) :: marked[k]
  }

  /** The index of the first path of order that matches pattern, or |order| when none does. */
  function FirstMatch(order: seq<Path>, pattern: string): (i: nat)
    ensures i <= |order|
    ensures i < |order| ==> Glob(order[i], pattern)
    ensures forall j :: 0 <= j < i ==> !Glob(order[j], pattern)
  {
    if order == [] then 0
    else if Glob(order[0], pattern) then 0
    else 1 + FirstMatch(order[1..], pattern)
  }

  /** remove(p) as written, where order is the sequence in which the dict yields its keys
      once p is marked: the loop deletes the first key that matches os.path.join(p, "*"),
      and the iterator's next step raises RuntimeError because the dict changed size; the
      other matching deltas stay. */
  function RemoveAsWritten(deltas: Deltas, p: Path, order: seq<Path>): (r: (Outcome, Deltas))
    requires forall k :: k in order <==> k in deltas || k == p
    ensures r.0.Pass? ==> forall k :: k in deltas[p := Removal(p)] ==> !Glob(k, PathJoin(p, "*"))
    ensures (forall k :: k in deltas[p := Removal(p)] ==> !Glob(k, PathJoin(p, "*"))) ==> r.0.Pass?
    ensures r.0.Pass? ==> r.1 == deltas[p := Removal(p)]
    ensures r.0.Fail? ==> r.0.error == DictChangedSize
    ensures r.0.Fail? ==>
      exists k :: k in deltas[p := Removal(p)] && Glob(k, PathJoin(p, "*")) && r.1 == deltas[p := Removal(p)] - {k}
  {
    var marked := deltas[p := Removal(p)];
    var i := FirstMatch(order, PathJoin(p, "*"));
    if i == |order| then
      assert forall k :: k in marked ==> !Glob(k, PathJoin(p, "*")) by {
        forall k | k in marked ensures !Glob(k, PathJoin(p, "*")) {
          assert k in order;
          var j :| 0 <= j < |order| && order[j] == k;
        }
      }
      (Pass, marked)
    else
      assert order[i] in order;
      assert order[i] in marked && Glob(order[i], PathJoin(p, "*"));
      (Fail(DictChangedSize), marked - {order[i]})
  }

  /** No two different keys of m match pattern. */
  predicate AtMostOneMatch(m: Deltas, pattern: string) {
    forall a, b :: a in m && b in m && Glob(a, pattern) && Glob(b, pattern) ==> a == b
  }

  /** The deltas remove(p) leaves as written are those of the evident remove exactly when at
      most one delta, p itself included, matches os.path.join(p, "*"); with two or more,
      some stay behind. */
  lemma RemoveAsWrittenLeavesDeltas(deltas: Deltas, p: Path, order: seq<Path>)
    requires forall k :: k in order <==> k in deltas || k == p
    ensures RemoveAsWritten(deltas, p, order).1 == RemovedDeltas(deltas, p)
      <==> AtMostOneMatch(deltas[p := Removal(p)], PathJoin(p, "*"))
  {
    var marked := deltas[p := Removal(p)];
    var pattern := PathJoin(p, "*");
    var r := RemoveAsWritten(deltas, p, order);
    var removed := RemovedDeltas(deltas, p);
    if AtMostOneMatch(marked, pattern) {
      if r.0.Pass? {
        assert r.1 == marked;
        assert removed.Keys == marked.Keys;
      } else {
        var k :| k in marked && Glob(k, pattern) && r.1 == marked - {k};
        assert removed.Keys == marked.Keys - {k};
      }
      assert r.1 == removed;
    } else {
      var a, b :| a in marked && b in marked && Glob(a, pattern) && Glob(b, pattern) && a != b;
      var k :| k in marked && Glob(k, pattern) && r.1 == marked - {k};
      var left := if k == a then b else a;
      assert left in r.1 && left !in removed;
    }
  }

  /** Two files below a. */
  const TwoBelowA: Deltas := map["a/x" := Addition("a/x", "1"), "a/y" := Addition("a/y", "2")]

  /** Removing a when the dict yields a, then a/x, then a/y: as written a/x is deleted,
      RuntimeError is raised and a/y stays; the evident remove leaves only the Removal. */
  lemma RemoveAsWrittenExample()
    ensures RemoveAsWritten(TwoBelowA, "a", ["a", "a/x", "a/y"])
      == (Fail(DictChangedSize), map["a" := Removal("a"), "a/y" := Addition("a/y", "2")])
    ensures RemovedDeltas(TwoBelowA, "a") == map["a" := Removal("a")]
  {
    GlobBelowA();
    assert FirstMatch(["a", "a/x", "a/y"], "a/*") == 1;
    assert ["a", "a/x", "a/y"][1] == "a/x";
    assert TwoBelowA["a" := Removal("a")] - {"a/x"} == map["a" := Removal("a"), "a/y" := Addition("a/y", "2")];
  }

  lemma GlobBelowA()
    ensures PathJoin("a", "*") == "a/*"
    ensures !Glob("a", "a/*") && Glob("a/x", "a/*") && Glob("a/y", "a/*")
  {
    assert Glob("x", "*") && Glob("y", "*");
  }

  /** Once a is a directory again, the a/y left behind by remove(a) as written exists, and
      after the evident remove it does not. */
  lemma ChildAfterRecreate()
    ensures ExistsIn(map[], map["a" := Removal("a"), "a/y" := Addition("a/y", "2")]["a" := DirectoryAddition("a")], "a/y")
    ensures !ExistsIn(map[], map["a" := Removal("a")]["a" := DirectoryAddition("a")], "a/y")
  {
    WalkOfChild();
    var back := map["a" := DirectoryAddition("a"), "a/y" := Addition("a/y", "2")];
    assert map["a" := Removal("a"), "a/y" := Addition("a/y", "2")]["a" := DirectoryAddition("a")] == back;
    assert RefFrom(map[], back, ["a", "a/y"], "a/y") == RefFrom(map[], back, ["a/y"], "a/y");
    var gone := map["a" := DirectoryAddition("a")];
    assert map["a" := Removal("a")]["a" := DirectoryAddition("a")] == gone;
    assert RefFrom(map[], gone, ["a", "a/y"], "a/y") == RefFrom(map[], gone, ["a/y"], "a/y");
  }

  lemma WalkOfChild()
    ensures Walk("a/y") == ["a", "a/y"]
  {
    SplitNoSlash("a");
    SplitSnoc("a", "y");
    assert "a" + "/" + "y" == "a/y";
    assert Split("a/y") == ["a", "y"];
    assert ["a", "y"][..1] == ["a"];
    assert PathJoin("a", "y") == "a/y";
  }

  /** rename(from, to) */
  function RenameOver(under: Mem.Files, deltas: Deltas, from: Path, to: Path): (r: (Outcome, Deltas))
    ensures r.0.Pass? ==>
      ExistsIn(under, deltas, from) && !DeltaIsDir(under, DeltaForIn(deltas, from)) && !ExistsIn(under, deltas, to)
    ensures forall k :: k in deltas && k != from && !Glob(k, PathJoin(from, "*")) ==> k in r.1
  {
    if !ExistsIn(under, deltas, from) then (Fail(IOError(from + " does not exist")), deltas)
    else if DeltaIsDir(under, DeltaForIn(deltas, from)) then (Fail(IOError(from + " is a directory")), deltas)
    else if ExistsIn(under, deltas, to) then (Fail(IOError(to + " already exists")), deltas)
    else
      var (made, withDirs) := MakeDirsIn(under, deltas, Dirname(to));
      if made.Fail? then (made, withDirs)
      else (Pass, RemovedDeltas(withDirs[to := DeltaForIn(deltas, from)], from))
  }

  function StorePath(target: StoreTarget, deltaPath: Path, openedPath: Path): Path {
    match target
    case DeltaPath => deltaPath
    case OpenedPath => openedPath
  }

  /** The delta's open(mode). A directory addition refuses every mode (in the source it
      fails while building that message). */
  function OpenDelta(under: Mem.Files, d: Delta, p: Path, mode: string, target: StoreTarget): Result<Mem.MemoryIO> {
    match d
    case Removal(rp) => Err(IOError(rp + " does not exist"))
    case Addition(rp, data) =>
      if mode == "r" then Ok(Mem.MemoryIO(Opened(data), Mem.ReadOnlyCallback))
      else Ok(Mem.MemoryIO(Opened(""), Mem.StoreData(StorePath(target, rp, p))))
    case DirectoryAddition(rp) => Err(IOError(rp + " is a directory"))
    case UnderlyingFile(rp) =>
      if mode == "r" then Mem.OpenResult(under, false, rp, "r")
      else Ok(Mem.MemoryIO(Opened(""), Mem.StoreData(StorePath(target, rp, p))))
  }

  /** open(p, mode): for "w" the parent directories are made first; then p's delta opens. */
  function OpenOver(under: Mem.Files, deltas: Deltas, p: Path, mode: string, target: StoreTarget): (r: (Result<Mem.MemoryIO>, Deltas))
    ensures DeltaForIn(r.1, p).Removal? ==> r.0.Err?
    ensures mode != "w" ==> r.1 == deltas
  {
    var (made, after) := if mode == "w" then MakeDirsIn(under, deltas, Dirname(p)) else (Pass, deltas);
    if made.Fail? then (Err(made.error), after)
    else (OpenDelta(under, DeltaForIn(after, p), p, mode, target), after)
  }

  /** _store(p, data): the text goes into an Addition delta. */
  function Stored(deltas: Deltas, m: Mem.MemoryIO): Deltas {
    match m.callback
    case ReadOnlyCallback => deltas
    case StoreData(q) => deltas[q := Addition(q, m.io.value)]
  }

  /** list(pattern): underlay matches (segment by segment) and delta matches (fnmatch on the
      whole path), keeping the paths that exist through the overlay. */
  function ListOver(under: Mem.Files, deltas: Deltas, pattern: Path): (r: set<Path>)
    ensures forall k :: k in r <==>
      ((k in under && SegmentsMatch(k, pattern)) || (k in deltas && Glob(k, pattern)))
      && ExistsIn(under, deltas, k)
  {
    var underlayMatches := Mem.ListFiles(under, pattern);
    var overlayMatches := set k | k in deltas && Glob(k, pattern);
    var candidates := (set k | k in underlayMatches) + overlayMatches;
    set k | k in candidates && ExistsIn(under, deltas, k)
  }

  // ---------------------------------------------------------------------
  // The storage object

  class OverlayStorage {
    const underlay: Mem.MemStorage
    var deltas: Deltas

    constructor(underlay: Mem.MemStorage)
      ensures this.underlay == underlay && deltas == map[]
    {
      this.underlay := underlay;
      deltas := map[];
    }

    function DeltaFor(p: Path): Delta
      reads this`deltas
    {
      DeltaForIn(deltas, p)
    }

    /** exists(p): p's own delta exists, and so does the delta of every prefix walk(p) yields. */
    predicate Exists(p: Path)
      reads this`deltas, underlay`files
      ensures Exists(p) <==>
        (forall w :: w in Walk(p) ==> DeltaExists(underlay.files, DeltaForIn(deltas, w)))
        && DeltaExists(underlay.files, DeltaFor(p))
    {
      RefExists(underlay.files, deltas, p);
      ExistsIn(underlay.files, deltas, p)
    }

    /** isdir(p): a directory addition is a directory, a removal or an addition is not, and a
        path without a delta is one when the underlay's isdir says so. */
    predicate IsDir(p: Path)
      reads this`deltas, underlay`files
      ensures p !in deltas ==> (IsDir(p) <==> Mem.IsDirIn(underlay.files, p))
      ensures p in deltas && deltas[p].DirectoryAddition? ==> IsDir(p)
      ensures p in deltas && (deltas[p].Removal? || deltas[p].Addition?) ==> !IsDir(p)
    {
      DeltaIsDir(underlay.files, DeltaFor(p))
    }

    /** list(pattern): only paths that exist through the overlay are listed; every such path
        stored in the underlay or in a delta, and matching, is. */
    function List(pattern: Path): (r: set<Path>)
      reads this`deltas, underlay`files
      ensures forall k :: k in r ==> Exists(k)
      ensures forall k :: Exists(k) && ((k in underlay.files && SegmentsMatch(k, pattern)) || (k in deltas && Glob(k, pattern))) ==> k in r
    {
      ListOver(underlay.files, deltas, pattern)
    }

    method Remove(p: Path)
      modifies this`deltas
      ensures deltas == RemovedDeltas(old(deltas), p)
    {
      deltas := deltas[p := Removal(p)];
      ghost var marked := deltas;
      var pattern := PathJoin(p, "*");
      var pending := deltas.Keys;
      while pending != {}
        invariant pending <= marked.Keys
        invariant deltas == map k | k in marked && (k in pending || !Glob(k, pattern)) :: marked[k]
        decreases pending
      {
        var k :| k in pending;
        if Glob(k, pattern) {
          deltas := deltas - {k};
        }
        pending := pending - {k};
      }
    }

    method Rename(from: Path, to: Path) returns (r: Outcome)
      modifies this`deltas
      ensures (r, deltas) == RenameOver(underlay.files, old(deltas), from, to)
    {
      if !Exists(from) {
        return Fail(IOError(from + " does not exist"));
      }
      if IsDir(from) {
        return Fail(IOError(from + " is a directory"));
      }
      if Exists(to) {
        return Fail(IOError(to + " already exists"));
      }
      ghost var before := deltas;
      r := MakeDirs(Dirname(to));
      if r.Fail? {
        return;
      }
      MakeDirsKeepsExisting(underlay.files, before, Dirname(to), Walk(Dirname(to)));
      assert DeltaFor(from) == DeltaForIn(before, from) by {
        RefExists(underlay.files, before, from);
      }
      deltas := deltas[to := DeltaFor(from)];
      Remove(from);
    }

    /** open(p, mode), writing streams storing under the opened path. */
    method Open(p: Path, mode: string) returns (r: Result<Mem.MemoryIO>)
      modifies this`deltas, underlay`files, underlay`readCounts
      ensures (r, deltas) == OpenOver(old(underlay.files), old(deltas), p, mode, OpenedPath)
      ensures underlay.files == old(underlay.files)
    {
      if mode == "w" {
        var made := MakeDirs(Dirname(p));
        if made.Fail? {
          return Err(made.error);
        }
      }
      match DeltaFor(p)
      case Removal(rp) =>
        r := Err(IOError(rp + " does not exist"));
      case Addition(rp, data) =>
        if mode == "r" {
          r := Ok(Mem.MemoryIO(Opened(data), Mem.ReadOnlyCallback));
        } else {
          r := Ok(Mem.MemoryIO(Opened(""), Mem.StoreData(p)));
        }
      case DirectoryAddition(rp) =>
        r := Err(IOError(rp + " is a directory"));
      case UnderlyingFile(rp) =>
        if mode == "r" {
          r := underlay.Open(rp, "r");
        } else {
          r := Ok(Mem.MemoryIO(Opened(""), Mem.StoreData(p)));
        }
    }

    /** Closing a stream the overlay opened runs _store. */
    method Close(m: Mem.MemoryIO)
      modifies this`deltas
      ensures deltas == Stored(old(deltas), m)
    {
      match m.callback
      case ReadOnlyCallback =>
      case StoreData(q) =>
        Store(q, m.io.value);
    }

    method Store(p: Path, data: string)
      modifies this`deltas
      ensures deltas == old(deltas)[p := Addition(p, data)]
    {
      deltas := deltas[p := Addition(p, data)];
    }

    method MakeDirs(p: Path) returns (r: Outcome)
      modifies this`deltas
      ensures (r, deltas) == MakeDirsIn(underlay.files, old(deltas), p)
    {
      var ws := Walk(p);
      for i := 0 to |ws|
        invariant MakeDirsOver(underlay.files, deltas, p, ws[i..]) == MakeDirsIn(underlay.files, old(deltas), p)
      {
        MakeDirsStep(underlay.files, deltas, p, ws, i);
        var d := DeltaFor(ws[i]);
        if !DeltaExists(underlay.files, d) {
          deltas := deltas[ws[i] := DirectoryAddition(ws[i])];
        } else if !DeltaIsDir(underlay.files, d) {
          return Fail(IOError("cannot create directory " + p + ", " + ws[i] + " is a file"));
        }
      }
      r := Pass;
    }
  }

  /** One pass of the makedirs loop, at the i-th walked prefix. */
  lemma MakeDirsStep(under: Mem.Files, deltas: Deltas, whole: Path, ws: seq<Path>, i: nat)
    requires i < |ws|
    ensures var d := DeltaForIn(deltas, ws[i]);
      MakeDirsOver(under, deltas, whole, ws[i..])
        == if !DeltaExists(under, d) then MakeDirsOver(under, deltas[ws[i] := DirectoryAddition(ws[i])], whole, ws[i + 1..])
           else if !DeltaIsDir(under, d) then (Fail(IOError("cannot create directory " + whole + ", " + ws[i] + " is a file")), deltas)
           else MakeDirsOver(under, deltas, whole, ws[i + 1..])
  {
    assert ws[i..][1..] == ws[i + 1..];
  }

  // ---------------------------------------------------------------------
  // Properties

  lemma {:induction false} RefFromExists(under: Mem.Files, deltas: Deltas, ws: seq<Path>, p: Path)
    ensures DeltaExists(under, RefFrom(under, deltas, ws, p)) <==>
      (forall i :: 0 <= i < |ws| ==> DeltaExists(under, DeltaForIn(deltas, ws[i])))
      && DeltaExists(under, DeltaForIn(deltas, p))
    ensures DeltaExists(under, RefFrom(under, deltas, ws, p)) ==>
      RefFrom(under, deltas, ws, p) == DeltaForIn(deltas, p)
    decreases |ws|
  {
    if ws != [] {
      RefFromExists(under, deltas, ws[1..], p);
      if DeltaExists(under, DeltaForIn(deltas, ws[0])) {
        forall i | 1 <= i < |ws| ensures ws[i] == ws[1..][i - 1] { }
      }
    }
  }

  /** exists(p) holds exactly when every prefix that walk(p) yields, and p itself, resolves
      (delta first, then underlay) to something that exists. */
  lemma RefExists(under: Mem.Files, deltas: Deltas, p: Path)
    ensures ExistsIn(under, deltas, p) <==>
      (forall w :: w in Walk(p) ==> DeltaExists(under, DeltaForIn(deltas, w)))
      && DeltaExists(under, DeltaForIn(deltas, p))
    ensures ExistsIn(under, deltas, p) ==> Ref(under, deltas, p) == DeltaForIn(deltas, p)
  {
    RefFromExists(under, deltas, Walk(p), p);
  }

  /** makedirs changes nothing that already exists, and what it adds are directory
      additions for walked prefixes that did not exist. */
  lemma {:induction false} MakeDirsKeepsExisting(under: Mem.Files, deltas: Deltas, whole: Path, ws: seq<Path>)
    ensures var after := MakeDirsOver(under, deltas, whole, ws).1;
      forall k :: DeltaForIn(after, k) == DeltaForIn(deltas, k)
        || (DeltaForIn(after, k) == DirectoryAddition(k) && k in ws && !DeltaExists(under, DeltaForIn(deltas, k)))
    decreases |ws|
  {
    if ws != [] {
      var d := DeltaForIn(deltas, ws[0]);
      if !DeltaExists(under, d) {
        MakeDirsKeepsExisting(under, deltas[ws[0] := DirectoryAddition(ws[0])], whole, ws[1..]);
      } else if DeltaIsDir(under, d) {
        MakeDirsKeepsExisting(under, deltas, whole, ws[1..]);
      }
    }
  }

  /** When makedirs succeeds every walked prefix exists and is a directory; when it fails,
      some walked prefix exists and is not a directory. */
  lemma {:induction false} MakeDirsOutcome(under: Mem.Files, deltas: Deltas, whole: Path, ws: seq<Path>)
    ensures var (made, after) := MakeDirsOver(under, deltas, whole, ws);
      (made.Pass? ==> forall w :: w in ws ==>
        DeltaExists(under, DeltaForIn(after, w)) && DeltaIsDir(under, DeltaForIn(after, w)))
      && (made.Fail? ==>
            exists w :: w in ws && DeltaExists(under, DeltaForIn(after, w)) && !DeltaIsDir(under, DeltaForIn(after, w)))
    decreases |ws|
  {
    if ws != [] {
      var d := DeltaForIn(deltas, ws[0]);
      var (made, after) := MakeDirsOver(under, deltas, whole, ws);
      if !DeltaExists(under, d) {
        var next := deltas[ws[0] := DirectoryAddition(ws[0])];
        MakeDirsOutcome(under, next, whole, ws[1..]);
        MakeDirsKeepsExisting(under, next, whole, ws[1..]);
        assert DeltaForIn(after, ws[0]) == DirectoryAddition(ws[0]);
      } else if DeltaIsDir(under, d) {
        MakeDirsOutcome(under, deltas, whole, ws[1..]);
        MakeDirsKeepsExisting(under, deltas, whole, ws[1..]);
        assert DeltaForIn(after, ws[0]) == d;
      } else {
        assert after == deltas;
      }
    }
  }

  /** After remove(p), for p made of non-empty segments without '*': p is a Removal, the
      deltas below p are gone, every other delta stays, and neither p nor anything below it
      exists through the overlay. */
  lemma RemoveHidesSubtree(under: Mem.Files, deltas: Deltas, p: Path)
    requires p != "" && NoStar(p) && NoEmptySegments(p)
    ensures var after := RemovedDeltas(deltas, p);
      p in after && after[p] == Removal(p)
      && (forall k :: k in after <==> k == p || (k in deltas && !(|p| + 1 <= |k| && k[..|p| + 1] == p + "/")))
      && (forall k :: k in after && k != p ==> after[k] == deltas[k])
      && !ExistsIn(under, after, p)
      && forall x :: !ExistsIn(under, after, p + "/" + x)
  {
    var after := RemovedDeltas(deltas, p);
    JoinWithLastChar(Split(p));
    JoinSplit(p);
    assert PathJoin(p, "*") == (p + "/") + "*";
    assert NoStar(p + "/");
    forall k ensures Glob(k, PathJoin(p, "*")) <==> (|p| + 1 <= |k| && k[..|p| + 1] == p + "/") {
      GlobPrefixStar(k, p + "/");
    }
    assert after[p] == Removal(p);
    RefExists(under, after, p);
    forall x ensures !ExistsIn(under, after, p + "/" + x) {
      WalkBelow(p, x);
      RefExists(under, after, p + "/" + x);
    }
  }

  /** A successful rename gives the target the source's old delta and turns the source into a
      Removal, provided the target does not lie below the source. */
  lemma RenameMovesDelta(under: Mem.Files, deltas: Deltas, from: Path, to: Path)
    requires !Glob(to, PathJoin(from, "*")) && !Glob(from, PathJoin(from, "*"))
    ensures RenameOver(under, deltas, from, to).0.Pass? ==>
      var after := RenameOver(under, deltas, from, to).1;
      after[to] == DeltaForIn(deltas, from) && after[from] == Removal(from)
      && ExistsIn(under, deltas, from) && !ExistsIn(under, deltas, to)
  {
    if RenameOver(under, deltas, from, to).0.Pass? {
      RefExists(under, deltas, from);
      RefExists(under, deltas, to);
      if to == from {
        assert false;
      }
    }
  }

  /** With writes stored under the opened path, text written to p and closed is what a later
      open(p) reads, and exists(p) holds if p's prefixes exist. */
  lemma WriteThenRead(under: Mem.Files, deltas: Deltas, p: Path, text: string)
    requires OpenOver(under, deltas, p, "w", OpenedPath).0.Ok?
    ensures var (stream, after) := OpenOver(under, deltas, p, "w", OpenedPath);
      var stored := Stored(after, Mem.WriteTo(stream.value, text));
      OpenOver(under, stored, p, "r", OpenedPath).0 == Ok(Mem.MemoryIO(Opened(text), Mem.ReadOnlyCallback))
      && stored == after[p := Addition(p, text)]
  {
    WriteAtEnd(Opened(""), text);
  }

  /** The underlay and the deltas of the rename example below. */
  const ExampleUnderlay: Mem.Files := map["x" := Some("old")]
  const RenamedDeltas: Deltas := map["" := DirectoryAddition(""), "y" := UnderlyingFile("x"), "x" := Removal("x")]

  lemma RenameExample()
    ensures RenameOver(ExampleUnderlay, map[], "x", "y") == (Pass, RenamedDeltas)
  {
    RenameExampleChecks();
    RenameExampleRemoves();
  }

  /** In the example, x exists and is no directory, y does not exist, and making y's parent
      directory adds a directory delta for "". */
  lemma RenameExampleChecks()
    ensures ExistsIn(ExampleUnderlay, map[], "x") && !ExistsIn(ExampleUnderlay, map[], "y")
    ensures !DeltaIsDir(ExampleUnderlay, DeltaForIn(map[], "x"))
    ensures Dirname("y") == ""
    ensures MakeDirsIn(ExampleUnderlay, map[], "") == (Pass, map["" := DirectoryAddition("")])
  {
    SplitNoSlash("x");
    SplitNoSlash("y");
    assert Walk("x") == ["x"];
    assert Walk("y") == ["y"];
    RenameExampleNotDir();
    RenameExampleMakesRoot();
  }

  lemma RenameExampleNotDir()
    ensures !Mem.IsDirIn(ExampleUnderlay, "x")
  {
    SplitNoSlash("x");
    SplitSnoc("x", "*");
    assert !SegmentsMatch("x", PathJoin("x", "*"));
  }

  lemma RenameExampleMakesRoot()
    ensures Dirname("y") == ""
    ensures MakeDirsIn(ExampleUnderlay, map[], "") == (Pass, map["" := DirectoryAddition("")])
  {
    SplitNoSlash("");
    DirnameOfSegment("y");
    assert Walk("") == [""];
  }

  /** In the example, removing x after y took its delta leaves exactly the renamed deltas. */
  lemma RenameExampleRemoves()
    ensures RemovedDeltas(map["" := DirectoryAddition(""), "y" := UnderlyingFile("x")], "x") == RenamedDeltas
  {
    assert PathJoin("x", "*") == "x/*";
    assert !Glob("", "x/*");
    assert !Glob("y", "x/*");
    assert !Glob("x", "x/*");
  }


  lemma OpenRenamedExample(target: StoreTarget)
    ensures OpenOver(ExampleUnderlay, RenamedDeltas, "y", "w", target)
      == (Ok(Mem.MemoryIO(Opened(""), Mem.StoreData(StorePath(target, "x", "y")))), RenamedDeltas)
  {
    SplitNoSlash("");
    DirnameOfSegment("y");
    assert Walk("") == [""];
    assert MakeDirsIn(ExampleUnderlay, RenamedDeltas, "") == (Pass, RenamedDeltas);
  }

  lemma AfterWriteExample()
    ensures var lost := RenamedDeltas["x" := Addition("x", "new")];
      ExistsIn(ExampleUnderlay, lost, "x")
      && OpenOver(ExampleUnderlay, lost, "y", "r", DeltaPath).0 == Ok(Mem.MemoryIO(Opened("old"), Mem.ReadOnlyCallback))
    ensures var kept := RenamedDeltas["y" := Addition("y", "new")];
      !ExistsIn(ExampleUnderlay, kept, "x")
      && OpenOver(ExampleUnderlay, kept, "y", "r", OpenedPath).0 == Ok(Mem.MemoryIO(Opened("new"), Mem.ReadOnlyCallback))
  {
    SplitNoSlash("x");
    assert Walk("x") == ["x"];
  }

  /** As written, after rename("x", "y") over an underlay holding x, writing "y" stores the
      text under "x": x comes back with the new text, and reading y still gives x's old text.
      With writes stored under the opened path, y reads the new text and x stays removed. */
  lemma RenamedWriteLandsOnOldPath()
    ensures var under: Mem.Files := map["x" := Some("old")];
      var (renamed, deltas) := RenameOver(under, map[], "x", "y");
      renamed == Pass
      && var (asWritten, d1) := OpenOver(under, deltas, "y", "w", DeltaPath);
      asWritten == Ok(Mem.MemoryIO(Opened(""), Mem.StoreData("x")))
      && var lost := Stored(d1, Mem.WriteTo(asWritten.value, "new"));
      ExistsIn(under, lost, "x")
      && OpenOver(under, lost, "y", "r", DeltaPath).0 == Ok(Mem.MemoryIO(Opened("old"), Mem.ReadOnlyCallback))
      && var (corrected, d2) := OpenOver(under, deltas, "y", "w", OpenedPath);
      var kept := Stored(d2, Mem.WriteTo(corrected.value, "new"));
      !ExistsIn(under, kept, "x")
      && OpenOver(under, kept, "y", "r", OpenedPath).0 == Ok(Mem.MemoryIO(Opened("new"), Mem.ReadOnlyCallback))
  {
    RenameExample();
    OpenRenamedExample(DeltaPath);
    OpenRenamedExample(OpenedPath);
    WriteAtEnd(Opened(""), "new");
    AfterWriteExample();
  }
}
