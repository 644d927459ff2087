/** The older in-memory storage of src/deft/memstorage.py: the same path-to-content map,
    without a read-only mode, whose streams hold a reference to their storage and store their
    whole buffer under their path when closed, whether opened for reading or writing. */
module LegacyMemStorage {
  import opened Wrappers
  import opened Paths
  import S = Streams
  import M = Memory
  import T = Text

  /** The text a stream opened on an entry starts with: StringIO(None) reads as "None". */
  function ContentText(c: Option<string>): string {
    if c.None? then "None" else c.value
  }

  class MemStorageIO {
    const storage: MemStorage
    const relpath: Path
    var io: S.StringIO

    constructor(storage: MemStorage, relpath: Path, content: string)
      ensures this.storage == storage && this.relpath == relpath && io == S.Opened(content)
    {
      this.storage := storage;
      this.relpath := relpath;
      io := S.Opened(content);
    }

    method Write(text: string)
      modifies this`io
      ensures io == S.Write(old(io), text)
    {
      io := S.Write(io, text);
    }

    method Read() returns (text: string)
      modifies this`io
      ensures (text, io) == S.Read(old(io))
    {
      var (t, after) := S.Read(io);
      text, io := t, after;
    }

    /** close() stores the buffer under the stream's path in its storage. */
    method Close()
      modifies storage`files
      ensures storage.files == old(storage.files)[relpath := Some(io.value)]
    {
      storage.files := storage.files[relpath := Some(io.value)];
    }
  }

  class MemStorage {
    const basedir: string
    var files: M.Files

    constructor(basedir: string)
      ensures this.basedir == basedir && files == map[]
    {
      this.basedir := basedir;
      files := map[];
    }

    /** exists(p): for a path without '*', the same as p being listed by list(p). */
    predicate Exists(p: Path)
      reads this`files
      ensures NoStar(p) ==> (Exists(p) <==> p in List(p))
    {
      assert NoStar(p) ==> (p in files <==> p in M.ListFiles(files, p)) by {
        if NoStar(p) {
          SegmentsMatchLiteral(p, p);
        }
      }
      p in files
    }

    method OpenRead(p: Path) returns (r: Result<MemStorageIO>)
      ensures p !in files ==> r == Err(IOError(p + " does not exist"))
      ensures p in files ==>
        r.Ok? && fresh(r.value) && r.value.storage == this
        && r.value.relpath == p && r.value.io == S.Opened(ContentText(files[p]))
    {
      if p !in files {
        return Err(IOError(p + " does not exist"));
      }
      var stream := new MemStorageIO(this, p, ContentText(files[p]));
      r := Ok(stream);
    }

    method OpenWrite(p: Path) returns (r: Result<MemStorageIO>)
      modifies this`files
      ensures M.WithDirs(old(files), Dirname(p)).Ok? ==>
        files == M.WithDirs(old(files), Dirname(p)).value
        && r.Ok? && fresh(r.value) && r.value.storage == this
        && r.value.relpath == p && r.value.io == S.Opened("")
      ensures M.WithDirs(old(files), Dirname(p)).Err? ==>
        files == old(files) && r == Err(M.WithDirs(old(files), Dirname(p)).error)
    {
      var made := MakeDirs(Dirname(p));
      if made.Fail? {
        return Err(made.error);
      }
      var stream := new MemStorageIO(this, p, "");
      r := Ok(stream);
    }

    method Remove(p: Path)
      modifies this`files
      ensures files == M.RemovedFiles(old(files), p)
    {
      var subpaths := List(PathJoin(p, "*"));
      assert subpaths[..0] == [];
      for i := 0 to |subpaths|
        invariant files == M.Popped(old(files), subpaths[..i])
      {
        M.PoppedStep(old(files), subpaths, i);
        files := files - {subpaths[i]};
      }
      assert subpaths[..|subpaths|] == subpaths;
      M.PoppedBelow(old(files), p);
      files := files - {p};
    }

    /** list(pattern): the stored paths that match, sorted. */
    function List(pattern: Path): (r: seq<Path>)
      reads this`files
      ensures T.StrictlySorted(r)
      ensures forall k :: k in r <==> k in files && SegmentsMatch(k, pattern)
    {
      M.ListFiles(files, pattern)
    }

    method MakeDirs(p: Path) returns (r: Outcome)
      modifies this`files
      ensures M.WithDirs(old(files), p).Ok? ==> r == Pass && files == M.WithDirs(old(files), p).value
      ensures M.WithDirs(old(files), p).Err? ==>
        r == Fail(M.WithDirs(old(files), p).error) && files == old(files)
      decreases |p|
    {
      if p != "" {
        if AllSlashes(p) {
          return Fail(RecursionDepthExceeded);
        }
        DirnameShorter(p);
        r := MakeDirs(Dirname(p));
        if r.Fail? {
          return;
        }
        files := files[p := None];
      }
      r := Pass;
    }
  }
}
