/** The in-memory storage of src/deft/storage/memory.py: a map from relative path to
    content, where None marks a directory, with glob listing, ancestor-directory creation,
    one-level remove, rename and a read-only mode. */
module Memory {
  import opened Wrappers
  import opened Text
  import opened Paths
  import opened Streams

  type Files = map<Path, Option<string>>

  /** What closing a stream does: nothing, or store the text under a path of the storage
      that opened it. */
  datatype SaveCallback = ReadOnlyCallback | StoreData(path: Path)

  /** MemoryIO: a StringIO that runs its save callback when it is closed. */
  datatype MemoryIO = MemoryIO(io: StringIO, callback: SaveCallback)

  function WriteTo(m: MemoryIO, text: string): MemoryIO {
    MemoryIO(Write(m.io, text), m.callback)
  }

  function ReadFrom(m: MemoryIO): (string, MemoryIO) {
    var (text, io) := Read(m.io);
    (text, MemoryIO(io, m.callback))
  }

  // ---------------------------------------------------------------------
  // The storage as a function of its files

  /** The paths that list(pattern) reports: same number of segments, each matching. */
  function Matches(files: Files, pattern: Path): set<Path> {
    set k | k in files && SegmentsMatch(k, pattern)
  }

  /** list(pattern): the matching paths in sorted order. */
  function ListFiles(files: Files, pattern: Path): (r: seq<Path>)
    ensures StrictlySorted(r)
    ensures forall k :: k in r <==> k in files && SegmentsMatch(k, pattern)
  {
    SortedKeys(Matches(files, pattern))
  }

  /** isdir(p): something is stored one segment below p. */
  predicate IsDirIn(files: Files, p: Path) {
    |ListFiles(files, PathJoin(p, "*"))| != 0
  }

  /** makedirs(p) on a writeable storage: a directory marker for p and, recursively, for its
      dirname; a path made of slashes is its own dirname, so the recursion never ends. */
  function WithDirs(files: Files, p: Path): (r: Result<Files>)
    ensures r.Ok? ==> files.Keys <= r.value.Keys && (p != "" ==> p in r.value && r.value[p] == None)
    ensures r.Err? ==> r.error == RecursionDepthExceeded
    decreases |p|
  {
    if p == "" then Ok(files)
    else if AllSlashes(p) then Err(RecursionDepthExceeded)
    else
      DirnameShorter(p);
      match WithDirs(files, Dirname(p))
      case Err(e) => Err(e)
      case Ok(f) => Ok(f[p := None])
  }

  function ReadOnlyError(action: string, p: Path): Error {
    IOError("cannot " + action + " " + p + ": storage is in read-only mode")
  }

  /** The stream open(p, mode) returns, or the error it raises. */
  function OpenResult(files: Files, readonly: bool, p: Path, mode: string): (r: Result<MemoryIO>)
    ensures r.Ok? ==> !(p in files && files[p].None?) && (mode == "r" || mode == "w")
    ensures r.Ok? && mode == "r" ==>
      p in files && r.value == MemoryIO(Opened(files[p].value), ReadOnlyCallback)
    ensures r.Ok? && mode == "w" ==> !readonly && r.value == MemoryIO(Opened(""), StoreData(p))
    ensures readonly && mode == "w" ==> r.Err?
  {
    if p in files && files[p].None? then Err(IOError(p + " is a directory"))
    else if mode == "r" then
      if p !in files then Err(IOError(p + " does not exist"))
      else Ok(MemoryIO(Opened(files[p].value), ReadOnlyCallback))
    else if mode == "w" then
      if readonly then Err(ReadOnlyError("write", p))
      else match WithDirs(files, Dirname(p))
        case Err(e) => Err(e)
        case Ok(_) => Ok(MemoryIO(Opened(""), StoreData(p)))
    else Err(ValueError("mode must be 'r' or 'w', was: " + mode))
  }

  /** The files after a stream is closed: its callback has run. */
  function Closed(files: Files, m: MemoryIO): Files {
    match m.callback
    case ReadOnlyCallback => files
    case StoreData(q) => files[q := Some(m.io.value)]
  }

  /** remove(p) on a writeable storage: p and every path matched by os.path.join(p, "*") go. */
  function RemovedFiles(files: Files, p: Path): Files {
    map k | k in files && k != p && !SegmentsMatch(k, PathJoin(p, "*")) :: files[k]
  }

  /** The files left after popping each of the given paths. */
  function Popped(files: Files, paths: seq<Path>): Files {
    map k | k in files && k !in paths :: files[k]
  }

  lemma PoppedStep(files: Files, paths: seq<Path>, i: nat)
    requires i < |paths|
    ensures Popped(files, paths[..i + 1]) == Popped(files, paths[..i]) - {paths[i]}
  {
    assert paths[..i + 1] == paths[..i] + [paths[i]];
  }

  /** Popping everything one segment below p, and then p, leaves RemovedFiles. */
  lemma PoppedBelow(files: Files, p: Path)
    ensures Popped(files, ListFiles(files, PathJoin(p, "*"))) - {p} == RemovedFiles(files, p)
  {
  }

  /** rename(p, q) as the source writes it: the outcome and the files afterwards. The source
      is popped before makedirs can fail, so a failing makedirs loses it. */
  function RenameAsWritten(files: Files, readonly: bool, p: Path, q: Path): (r: (Outcome, Files))
    ensures r.0.Pass? ==> p in files && q !in files && !IsDirIn(files, p) && !readonly
    ensures r.0.Pass? ==> q in r.1 && r.1[q] == files[p]
    ensures r.0.Fail? ==> r.1 == files || r.1 == files - {p}
  {
    if p !in files then (Fail(IOError(p + " does not exist")), files)
    else if q in files then (Fail(IOError(q + " already exists")), files)
    else if IsDirIn(files, p) then (Fail(IOError(p + " is a directory")), files)
    else
      var popped := files - {p};
      if readonly then (Fail(ReadOnlyError("make directory", Dirname(q))), popped)
      else match WithDirs(popped, Dirname(q))
        case Err(e) => (Fail(e), popped)
        case Ok(f) => (Pass, f[q := files[p]])
  }

  /** rename(p, q) with the evident intent: the same checks and the same effect, but a
      failure leaves the files as they were. */
  function RenameResult(files: Files, readonly: bool, p: Path, q: Path): (r: Result<Files>)
    ensures r.Ok? ==> p in files && q !in files && !IsDirIn(files, p) && !readonly
    ensures r.Ok? ==>
      q in r.value && r.value[q] == files[p] && forall k :: k in files && k != p ==> k in r.value
  {
    if p !in files then Err(IOError(p + " does not exist"))
    else if q in files then Err(IOError(q + " already exists"))
    else if IsDirIn(files, p) then Err(IOError(p + " is a directory"))
    else if readonly then Err(ReadOnlyError("make directory", Dirname(q)))
    else match WithDirs(files - {p}, Dirname(q))
      case Err(e) => Err(e)
      case Ok(f) => Ok(f[q := files[p]])
  }

  /** The proper prefixes of p that walk(p) yields: its ancestor directories. */
  function Ancestors(p: Path): seq<Path> {
    var w := Walk(p);
    w[..|w| - 1]
  }

  // ---------------------------------------------------------------------
  // The storage object

  class MemStorage {
    const basedir: string
    var readonly: bool
    var files: Files
    var readCounts: map<Path, nat>

    constructor(basedir: string, readonly: bool)
      ensures this.basedir == basedir && this.readonly == readonly
      ensures files == map[] && readCounts == map[]
    {
      this.basedir := basedir;
      this.readonly := readonly;
      files := map[];
      readCounts := map[];
    }

    function ReadCount(p: Path): nat
      reads this`readCounts
    {
      if p in readCounts then readCounts[p] else 0
    }

    /** exists(p): a path that does not exist is one open(p) reports missing; one that exists
        opens for reading, or is a directory. */
    predicate Exists(p: Path)
      reads this`files
      ensures !Exists(p) ==> OpenResult(files, false, p, "r") == Err(IOError(p + " does not exist"))
      ensures Exists(p) ==>
        OpenResult(files, false, p, "r").Ok? || OpenResult(files, false, p, "r") == Err(IOError(p + " is a directory"))
    {
      p in files
    }

    /** isdir(p): for a path of non-empty segments without '*', something is stored exactly one
        segment below it. */
    predicate IsDir(p: Path)
      reads this`files
      ensures p != "" && NoStar(p) && NoEmptySegments(p) ==>
        (IsDir(p) <==> exists x :: NoSlash(x) && p + "/" + x in files)
    {
      assert p != "" && NoStar(p) && NoEmptySegments(p) ==>
        (IsDirIn(files, p) <==> exists x :: NoSlash(x) && p + "/" + x in files) by {
        if p != "" && NoStar(p) && NoEmptySegments(p) {
          var listed := ListFiles(files, PathJoin(p, "*"));
          if |listed| != 0 {
            assert listed[0] in listed;
            OneLevelBelow(listed[0], p);
          }
          if exists x :: NoSlash(x) && p + "/" + x in files {
            var x :| NoSlash(x) && p + "/" + x in files;
            OneLevelBelow(p + "/" + x, p);
            assert p + "/" + x in listed;
          }
        }
      }
      IsDirIn(files, p)
    }

    /** list(pattern): the stored paths that match, sorted. */
    function List(pattern: Path): (r: seq<Path>)
      reads this`files
      ensures StrictlySorted(r)
      ensures forall k :: k in r <==> k in files && SegmentsMatch(k, pattern)
    {
      ListFiles(files, pattern)
    }

    method Open(p: Path, mode: string) returns (r: Result<MemoryIO>)
      modifies this`files, this`readCounts
      ensures r == OpenResult(old(files), readonly, p, mode)
      ensures files == if r.Ok? && mode == "w" then WithDirs(old(files), Dirname(p)).value else old(files)
      ensures readCounts == if r.Ok? && mode == "r" then old(readCounts)[p := old(ReadCount(p)) + 1] else old(readCounts)
    {
      if p in files && files[p].None? {
        return Err(IOError(p + " is a directory"));
      }
      if mode == "r" {
        r := OpenRead(p);
      } else if mode == "w" {
        r := OpenWrite(p);
      } else {
        r := Err(ValueError("mode must be 'r' or 'w', was: " + mode));
      }
    }

    method OpenRead(p: Path) returns (r: Result<MemoryIO>)
      requires !(p in files && files[p].None?)
      modifies this`readCounts
      ensures r == OpenResult(files, readonly, p, "r")
      ensures readCounts == if r.Ok? then old(readCounts)[p := old(ReadCount(p)) + 1] else old(readCounts)
    {
      if p !in files {
        return Err(IOError(p + " does not exist"));
      }
      readCounts := readCounts[p := ReadCount(p) + 1];
      r := Ok(MemoryIO(Opened(files[p].value), ReadOnlyCallback));
    }

    method OpenWrite(p: Path) returns (r: Result<MemoryIO>)
      requires !(p in files && files[p].None?)
      modifies this`files
      ensures r == OpenResult(old(files), readonly, p, "w")
      ensures files == if r.Ok? then WithDirs(old(files), Dirname(p)).value else old(files)
    {
      if readonly {
        return Err(ReadOnlyError("write", p));
      }
      var made := MakeDirs(Dirname(p));
      if made.Fail? {
        return Err(made.error);
      }
      r := Ok(MemoryIO(Opened(""), StoreData(p)));
    }

    /** close(): the stream's save callback runs against this storage. */
    method Close(m: MemoryIO)
      modifies this`files
      ensures files == Closed(old(files), m)
    {
      match m.callback
      case ReadOnlyCallback =>
      case StoreData(q) =>
        files := files[q := Some(m.io.value)];
    }

    /** rename, failing without effect where the source would already have dropped p. */
    method Rename(p: Path, q: Path) returns (r: Outcome)
      modifies this`files
      ensures RenameResult(old(files), readonly, p, q).Ok? ==>
        r == Pass && files == RenameResult(old(files), readonly, p, q).value
      ensures RenameResult(old(files), readonly, p, q).Err? ==>
        r == Fail(RenameResult(old(files), readonly, p, q).error) && files == old(files)
    {
      if p !in files {
        return Fail(IOError(p + " does not exist"));
      }
      if q in files {
        return Fail(IOError(q + " already exists"));
      }
      if IsDir(p) {
        return Fail(IOError(p + " is a directory"));
      }
      var saved := files;
      var data := files[p];
      files := files - {p};
      r := MakeDirs(Dirname(q));
      if r.Fail? {
        files := saved;
        return;
      }
      files := files[q := data];
    }

    method Remove(p: Path) returns (r: Outcome)
      modifies this`files
      ensures readonly ==> r == Fail(ReadOnlyError("remove", p)) && files == old(files)
      ensures !readonly ==> r == Pass && files == RemovedFiles(old(files), p)
    {
      if readonly {
        return Fail(ReadOnlyError("remove", p));
      }
      var subpaths := List(PathJoin(p, "*"));
      assert subpaths[..0] == [];
      for i := 0 to |subpaths|
        invariant files == Popped(old(files), subpaths[..i])
      {
        PoppedStep(old(files), subpaths, i);
        files := files - {subpaths[i]};
      }
      assert subpaths[..|subpaths|] == subpaths;
      PoppedBelow(old(files), p);
      files := files - {p};
      r := Pass;
    }

    method MakeDirs(p: Path) returns (r: Outcome)
      modifies this`files
      ensures readonly ==> r == Fail(ReadOnlyError("make directory", p)) && files == old(files)
      ensures !readonly && WithDirs(old(files), p).Ok? ==> r == Pass && files == WithDirs(old(files), p).value
      ensures !readonly && WithDirs(old(files), p).Err? ==>
        r == Fail(WithDirs(old(files), p).error) && files == old(files)
      decreases |p|
    {
      if readonly {
        return Fail(ReadOnlyError("make directory", p));
      }
      if p != "" {
        if AllSlashes(p) {
          return Fail(RecursionDepthExceeded);
        }
        DirnameShorter(p);
        r := MakeDirs(Dirname(p));
        if r.Fail? {
          return;
        }
        files := files[p := None];
      }
      r := Pass;
    }

    /** Entering the writeable block clears the read-only flag. */
    method EnterWriteable()
      modifies this`readonly
      ensures !readonly
    {
      readonly := false;
    }

    /** Leaving the writeable block, normally or not, makes the storage read-only. */
    method ExitWriteable()
      modifies this`readonly
      ensures readonly
    {
      readonly := true;
    }
  }

  /** save_text (StorageFormats): open for write, write the text, close. */
  method SaveText(s: MemStorage, p: Path, text: string) returns (r: Outcome)
    modifies s`files, s`readCounts
    ensures s.readCounts == old(s.readCounts)
    ensures OpenResult(old(s.files), s.readonly, p, "w").Ok? ==>
      r == Pass && s.files == WithDirs(old(s.files), Dirname(p)).value[p := Some(text)]
    ensures OpenResult(old(s.files), s.readonly, p, "w").Err? ==>
      r == Fail(OpenResult(old(s.files), s.readonly, p, "w").error) && s.files == old(s.files)
  {
    var o := s.Open(p, "w");
    if o.Err? {
      return Fail(o.error);
    }
    var m := WriteTo(o.value, text);
    WriteAtEnd(o.value.io, text);
    s.Close(m);
    r := Pass;
  }

  /** load_text (StorageFormats): open for read, read everything, close. */
  method LoadText(s: MemStorage, p: Path) returns (r: Result<string>)
    modifies s`files, s`readCounts
    ensures s.files == old(s.files)
    ensures p !in s.files ==> r == Err(IOError(p + " does not exist"))
    ensures p in s.files && s.files[p].None? ==> r == Err(IOError(p + " is a directory"))
    ensures p in s.files && s.files[p].Some? ==> r == Ok(s.files[p].value)
  {
    var o := s.Open(p, "r");
    if o.Err? {
      return Err(o.error);
    }
    var (text, m) := ReadFrom(o.value);
    ReadOpened(s.files[p].value);
    s.Close(m);
    r := Ok(text);
  }

  // ---------------------------------------------------------------------
  // Properties

  lemma NoEmptySegmentsNotSlashes(p: Path)
    requires NoEmptySegments(p)
    ensures p != "" && !AllSlashes(p)
  {
    var e := NextSlash(p, 0);
    assert Split(p)[0] == p[..e];
    assert e > 0;
    assert p[0] != '/';
  }

  /** makedirs(p) for a path of non-empty segments succeeds and adds a directory marker for
      every prefix that walk(p) yields, p included, leaving every other entry as it was. */
  lemma {:induction false} WithDirsMarksPrefixes(files: Files, p: Path)
    requires NoEmptySegments(p)
    ensures WithDirs(files, p).Ok?
    ensures var f := WithDirs(files, p).value;
      (forall k :: k in f <==> k in files || k in Walk(p))
      && forall k :: k in f ==> f[k] == if k in Walk(p) then None else files[k]
    decreases |p|
  {
    NoEmptySegmentsNotSlashes(p);
    DirnameShorter(p);
    if |Split(p)| == 1 {
      JoinSplit(p);
      DirnameOfSegment(p);
      assert Walk(p) == [p];
    } else {
      DirnameDropsLastSegment(p);
      WithDirsMarksPrefixes(files, Dirname(p));
    }
  }

  /** Opening p for write on a writeable storage, when p is made of non-empty segments and is
      not a directory, succeeds and marks every ancestor of p as a directory. */
  lemma {:induction false} OpenWriteMarksAncestors(files: Files, p: Path)
    requires NoEmptySegments(p) && !(p in files && files[p].None?)
    ensures OpenResult(files, false, p, "w") == Ok(MemoryIO(Opened(""), StoreData(p)))
    ensures var f := WithDirs(files, Dirname(p)).value;
      (forall k :: k in f <==> k in files || k in Ancestors(p))
      && forall k :: k in f ==> f[k] == if k in Ancestors(p) then None else files[k]
  {
    NoEmptySegmentsNotSlashes(p);
    if |Split(p)| == 1 {
      JoinSplit(p);
      DirnameOfSegment(p);
      assert Walk(p) == [p];
      assert Ancestors(p) == [];
    } else {
      DirnameDropsLastSegment(p);
      WithDirsMarksPrefixes(files, Dirname(p));
      assert Ancestors(p) == Walk(Dirname(p));
    }
  }

  /** Text written through open(p, "w") is stored when the stream is closed, and a later
      open(p) reads it back. */
  lemma WriteCloseRead(files: Files, readonly: bool, p: Path, text: string)
    requires OpenResult(files, readonly, p, "w").Ok?
    ensures var written := WriteTo(OpenResult(files, readonly, p, "w").value, text);
      var after := Closed(WithDirs(files, Dirname(p)).value, written);
      OpenResult(after, readonly, p, "r") == Ok(MemoryIO(Opened(text), ReadOnlyCallback))
      && ReadFrom(OpenResult(after, readonly, p, "r").value).0 == text
  {
    WriteAtEnd(Opened(""), text);
    ReadOpened(text);
  }

  /** Removing a path made of non-empty segments and no '*' deletes it and exactly the
      entries one segment below it; every other entry stays, with its content. */
  lemma RemoveOneLevel(files: Files, p: Path)
    requires p != "" && NoStar(p) && NoEmptySegments(p)
    ensures forall k :: k in RemovedFiles(files, p) <==>
      k in files && k != p && !(exists x :: NoSlash(x) && k == p + "/" + x)
    ensures forall k :: k in RemovedFiles(files, p) ==> RemovedFiles(files, p)[k] == files[k]
  {
    forall k ensures SegmentsMatch(k, PathJoin(p, "*")) <==> exists x :: NoSlash(x) && k == p + "/" + x {
      OneLevelBelow(k, p);
    }
  }

  /** A successful rename to a path of non-empty segments moves the content to the new
      path, drops the old one unless it became an ancestor directory of the new one, and
      marks the new path's ancestors as directories; nothing else changes. */
  lemma RenameMoves(files: Files, p: Path, q: Path)
    requires NoEmptySegments(q)
    ensures RenameResult(files, false, p, q).Ok? <==> p in files && q !in files && !IsDirIn(files, p)
    ensures RenameResult(files, false, p, q).Ok? ==>
      var f := RenameResult(files, false, p, q).value;
      f[q] == files[p]
      && (forall k :: k in f <==> k == q || (k in files && k != p) || k in Ancestors(q))
      && (forall k :: k in f && k != q && k !in Ancestors(q) ==> f[k] == files[k])
      && (forall k :: k in Ancestors(q) ==> f[k] == None)
  {
    if p in files && q !in files && !IsDirIn(files, p) {
      OpenWriteMarksAncestors(files - {p}, q);
      assert q !in Ancestors(q) by {
        AncestorsShorter(q);
      }
    }
  }

  lemma {:induction false} AncestorsShorter(p: Path)
    requires NoEmptySegments(p)
    ensures forall a :: a in Ancestors(p) ==> |a| < |p|
    decreases |p|
  {
    if |Split(p)| > 1 {
      DirnameDropsLastSegment(p);
      NoEmptySegmentsNotSlashes(p);
      DirnameShorter(p);
      AncestorsShorter(Dirname(p));
      JoinSplit(Dirname(p));
      WalkYieldsPrefixes(Dirname(p));
      assert Ancestors(p) == Walk(Dirname(p));
      forall a | a in Ancestors(p) ensures |a| < |p| {
        var i :| 0 <= i < |Walk(Dirname(p))| && Walk(Dirname(p))[i] == a;
        if i < |Walk(Dirname(p))| - 1 {
          assert a in Ancestors(Dirname(p));
        }
      }
    } else {
      assert Walk(p) == [p];
    }
  }

  /** Where the source's rename and the corrected one differ: on read-only storage the source
      reports the failure after dropping the file, the corrected one keeps it. */
  lemma RenameReadOnlyLosesFile()
    ensures var files: Files := map["notes" := Some("draft")];
      RenameAsWritten(files, true, "notes", "archive/notes")
        == (Fail(ReadOnlyError("make directory", "archive")), map[])
      && RenameResult(files, true, "notes", "archive/notes").Err?
  {
    var files: Files := map["notes" := Some("draft")];
    assert Split("notes") == ["notes"] by {
      SplitNoSlash("notes");
    }
    assert !IsDirIn(files, "notes") by {
      var pat := PathJoin("notes", "*");
      forall k | k in files ensures !SegmentsMatch(k, pat) {
        assert k == "notes";
        SplitSnoc("notes", "*");
      }
    }
    DirnameOfSnoc("archive", "notes");
    assert "archive" + "/" + "notes" == "archive/notes";
    assert files - {"notes"} == map[];
  }

  /** With the storage writeable and makedirs succeeding, the corrected rename does exactly
      what the source does; on any failure it leaves the files untouched. */
  lemma RenameCorrectionAgrees(files: Files, readonly: bool, p: Path, q: Path)
    ensures RenameResult(files, readonly, p, q).Ok? ==>
      RenameAsWritten(files, readonly, p, q) == (Pass, RenameResult(files, readonly, p, q).value)
    ensures RenameResult(files, readonly, p, q).Err? ==>
      RenameAsWritten(files, readonly, p, q).0 == Fail(RenameResult(files, readonly, p, q).error)
  {
  }
}
