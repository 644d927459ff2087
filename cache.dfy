/** The write-back cache of src/deft/storage.py over a memory storage: cached objects with
    their formats, a set of removed paths and a set of dirty paths, written out by flush. */
module StorageCache {
  import opened Wrappers
  import opened Paths
  import opened Streams
  import Mem = Memory

  /** A format turns stored text into an object and back. */
  datatype Format<!V> = Format(load: string -> V, save: V -> string)

  datatype Entry<!V> = Entry(obj: V, format: Format<V>)

  /** TextFormat: the text is the object. */
  function TextFormat(): Format<string> {
    Format(s => s, s => s)
  }

  /** Observer for a path: calling it marks the path dirty. */
  datatype Observer = MarkDirtyOf(path: Path)

  predicate Distinct(xs: seq<Path>) {
    forall i, j :: 0 <= i < j < |xs| ==> xs[i] != xs[j]
  }

  /** _flush_update(p): the cached object written through its format, or a KeyError when
      p is not cached. */
  function WriteEntry<V>(files: Mem.Files, readonly: bool, cached: map<Path, Entry<V>>, p: Path): (r: (Outcome, Mem.Files))
    ensures p !in cached ==> r == (Fail(KeyError(p)), files)
    ensures r.0.Fail? ==> r.1 == files
    ensures readonly ==> r.0.Fail?
    ensures r.0.Pass? ==>
      p in cached && r.1.Keys >= files.Keys && p in r.1 && r.1[p] == Some(cached[p].format.save(cached[p].obj))
  {
    if p !in cached then (Fail(KeyError(p)), files)
    else match Mem.OpenResult(files, readonly, p, "w")
      case Err(e) => (Fail(e), files)
      case Ok(m) =>
        var e := cached[p];
        WriteAtEnd(Opened(""), e.format.save(e.obj));
        (Pass, Mem.Closed(Mem.WithDirs(files, Dirname(p)).value, Mem.WriteTo(m, e.format.save(e.obj))))
  }

  /** The writes of a flush, in the order the set iteration produced them, stopping at the
      first failure. */
  function WriteEntries<V>(files: Mem.Files, readonly: bool, cached: map<Path, Entry<V>>, order: seq<Path>): (r: (Outcome, Mem.Files))
    ensures r.0.Pass? ==> forall p :: p in order ==> p in cached
    ensures r.1.Keys >= files.Keys
    ensures readonly ==> r.1 == files && (order != [] ==> r.0.Fail?)
    decreases |order|
  {
    if order == [] then (Pass, files)
    else
      var (w, f) := WriteEntry(files, readonly, cached, order[0]);
      if w.Fail? then (w, f) else WriteEntries(f, readonly, cached, order[1..])
  }

  /** The removals of a flush, in order, stopping at the first failure. */
  function RemoveEach(files: Mem.Files, readonly: bool, order: seq<Path>): (r: (Outcome, Mem.Files))
    ensures r.0.Fail? <==> readonly && order != []
    ensures r.0.Fail? ==> r == (Fail(Mem.ReadOnlyError("remove", order[0])), files)
    decreases |order|
  {
    if order == [] then (Pass, files)
    else if readonly then (Fail(Mem.ReadOnlyError("remove", order[0])), files)
    else RemoveEach(Mem.RemovedFiles(files, order[0]), readonly, order[1..])
  }

  class Cache<V> {
    const storage: Mem.MemStorage
    var cached: map<Path, Entry<V>>
    var removed: set<Path>
    var dirty: set<Path>

    constructor(storage: Mem.MemStorage)
      ensures this.storage == storage && cached == map[] && removed == {} && dirty == {}
    {
      this.storage := storage;
      cached := map[];
      removed := {};
      dirty := {};
    }

    /** exists(p): a cached path exists, a removed one does not, and any other path exists
        when the storage holds it. */
    predicate Exists(p: Path)
      reads this`cached, this`removed, storage`files
      ensures p in cached ==> Exists(p)
      ensures p !in cached && p in removed ==> !Exists(p)
      ensures p !in cached && p !in removed ==> (Exists(p) <==> p in storage.files)
    {
      p in cached || (p !in removed && storage.Exists(p))
    }

    method Load(p: Path, format: Format<V>) returns (r: Result<V>)
      modifies this`cached, storage`files, storage`readCounts
      ensures storage.files == old(storage.files)
      ensures p in old(cached) ==> r == Ok(old(cached)[p].obj) && cached == old(cached)
      ensures p !in old(cached) && Mem.OpenResult(storage.files, storage.readonly, p, "r").Ok? ==>
        var text := Mem.OpenResult(storage.files, storage.readonly, p, "r").value.io.value;
        r == Ok(format.load(text)) && cached == old(cached)[p := Entry(format.load(text), format)]
      ensures p !in old(cached) && Mem.OpenResult(storage.files, storage.readonly, p, "r").Err? ==>
        r == Err(Mem.OpenResult(storage.files, storage.readonly, p, "r").error) && cached == old(cached)
    {
      if p in cached {
        return Ok(cached[p].obj);
      }
      var stream := storage.Open(p, "r");
      if stream.Err? {
        return Err(stream.error);
      }
      var (text, m) := Mem.ReadFrom(stream.value);
      ReadOpened(stream.value.io.value);
      var obj := format.load(text);
      cached := cached[p := Entry(obj, format)];
      storage.Close(m);
      r := Ok(obj);
    }

    method Save(p: Path, obj: V, format: Format<V>)
      modifies this`cached, this`removed, this`dirty
      ensures cached == old(cached)[p := Entry(obj, format)]
      ensures removed == old(removed) - {p}
      ensures dirty == old(dirty) + {p}
    {
      cached := cached[p := Entry(obj, format)];
      removed := removed - {p};
      var marked := MarkDirty(p);
    }

    /** remove(p): a KeyError when p is not cached; otherwise p leaves the cache and is
      marked removed. Its dirty mark, if any, stays. */
    method Remove(p: Path) returns (r: Outcome)
      modifies this`cached, this`removed
      ensures p !in old(cached) ==> r == Fail(KeyError(p)) && cached == old(cached) && removed == old(removed)
      ensures p in old(cached) ==> r == Pass && cached == old(cached) - {p} && removed == old(removed) + {p}
    {
      if p !in cached {
        return Fail(KeyError(p));
      }
      cached := cached - {p};
      removed := removed + {p};
      r := Pass;
    }

    function ObserverFor(p: Path): Observer {
      MarkDirtyOf(p)
    }

    /** Calling an observer does what mark_dirty does for its path. */
    method Notify(o: Observer) returns (r: Outcome)
      modifies this`dirty
      ensures o.path in removed ==> r == Fail(ValueError("cannot mark " + o.path + " as dirty: it has been removed")) && dirty == old(dirty)
      ensures o.path !in removed ==> r == Pass && dirty == old(dirty) + {o.path}
    {
      r := MarkDirty(o.path);
    }

    method MarkDirty(p: Path) returns (r: Outcome)
      modifies this`dirty
      ensures p in removed ==> r == Fail(ValueError("cannot mark " + p + " as dirty: it has been removed")) && dirty == old(dirty)
      ensures p !in removed ==> r == Pass && dirty == old(dirty) + {p}
    {
      if p in removed {
        return Fail(ValueError("cannot mark " + p + " as dirty: it has been removed"));
      }
      dirty := dirty + {p};
      r := Pass;
    }

    method FlushUpdate(p: Path) returns (r: Outcome)
      modifies storage`files, storage`readCounts
      ensures storage.readCounts == old(storage.readCounts)
      ensures (r, storage.files) == WriteEntry(old(storage.files), storage.readonly, cached, p)
    {
      if p !in cached {
        return Fail(KeyError(p));
      }
      var e := cached[p];
      var stream := storage.Open(p, "w");
      if stream.Err? {
        return Fail(stream.error);
      }
      var m := Mem.WriteTo(stream.value, e.format.save(e.obj));
      storage.Close(m);
      r := Pass;
    }

    /** Writes every path of toWrite in an arbitrary order; the ghost order records it. */
    method WriteAll(toWrite: set<Path>) returns (r: Outcome, ghost order: seq<Path>)
      modifies storage`files, storage`readCounts
      ensures storage.readCounts == old(storage.readCounts)
      ensures Distinct(order) && forall p :: p in order ==> p in toWrite
      ensures (r, storage.files) == WriteEntries(old(storage.files), storage.readonly, cached, order)
      ensures r.Pass? ==> forall p :: p in toWrite ==> p in order
    {
      var pending := toWrite;
      order := [];
      while pending != {}
        invariant pending <= toWrite
        invariant Distinct(order) && forall p :: p in order ==> p in toWrite && p !in pending
        invariant forall p :: p in toWrite ==> p in pending || p in order
        invariant storage.readCounts == old(storage.readCounts)
        invariant WriteEntries(old(storage.files), storage.readonly, cached, order) == (Pass, storage.files)
        decreases pending
      {
        var p :| p in pending;
        WriteEntriesSnoc(old(storage.files), storage.readonly, cached, order, p);
        r := FlushUpdate(p);
        order := order + [p];
        if r.Fail? {
          return;
        }
        pending := pending - {p};
      }
      r := Pass;
    }

    /** Removes every path of toRemove from the storage in an arbitrary order. */
    method RemoveAll(toRemove: set<Path>) returns (r: Outcome, ghost order: seq<Path>)
      modifies storage`files
      ensures Distinct(order) && forall p :: p in order ==> p in toRemove
      ensures (r, storage.files) == RemoveEach(old(storage.files), storage.readonly, order)
      ensures r.Pass? ==> forall p :: p in toRemove ==> p in order
    {
      var pending := toRemove;
      order := [];
      while pending != {}
        invariant pending <= toRemove
        invariant Distinct(order) && forall p :: p in order ==> p in toRemove && p !in pending
        invariant forall p :: p in toRemove ==> p in pending || p in order
        invariant RemoveEach(old(storage.files), storage.readonly, order) == (Pass, storage.files)
        decreases pending
      {
        var p :| p in pending;
        RemoveEachSnoc(old(storage.files), storage.readonly, order, p);
        r := storage.Remove(p);
        order := order + [p];
        if r.Fail? {
          return;
        }
        pending := pending - {p};
      }
      r := Pass;
    }

    /** flush() as written: every dirty path is written, removed ones included, so a path
      saved and then removed makes the flush fail with a KeyError before any removal. */
    method FlushAsWritten() returns (r: Outcome, ghost writes: seq<Path>, ghost removals: seq<Path>)
      modifies this`dirty, this`removed, storage`files, storage`readCounts
      ensures cached == old(cached) && storage.readCounts == old(storage.readCounts)
      ensures Distinct(writes) && forall p :: p in writes ==> p in old(dirty)
      ensures Distinct(removals) && forall p :: p in removals ==> p in old(removed)
      ensures var (w, written) := WriteEntries(old(storage.files), storage.readonly, cached, writes);
        if w.Fail? then
          r == w && storage.files == written && dirty == old(dirty) && removed == old(removed)
        else
          (forall p :: p in old(dirty) ==> p in writes) && dirty == {}
          && (r, storage.files) == RemoveEach(written, storage.readonly, removals)
          && (r.Pass? ==> removed == {} && forall p :: p in old(removed) ==> p in removals)
          && (r.Fail? ==> removed == old(removed))
    {
      removals := [];
      r, writes := WriteAll(dirty);
      if r.Fail? {
        return;
      }
      dirty := {};
      r, removals := RemoveAll(removed);
      if r.Fail? {
        return;
      }
      removed := {};
    }

    /** flush() with removal taking precedence over update, as flush_file does: removed
      paths are not written, only removed. */
    method Flush() returns (r: Outcome, ghost writes: seq<Path>, ghost removals: seq<Path>)
      modifies this`dirty, this`removed, storage`files, storage`readCounts
      ensures cached == old(cached) && storage.readCounts == old(storage.readCounts)
      ensures Distinct(writes) && forall p :: p in writes ==> p in old(dirty) && p !in old(removed)
      ensures Distinct(removals) && forall p :: p in removals ==> p in old(removed)
      ensures var (w, written) := WriteEntries(old(storage.files), storage.readonly, cached, writes);
        if w.Fail? then
          r == w && storage.files == written && dirty == old(dirty) && removed == old(removed)
        else
          (forall p :: p in old(dirty) && p !in old(removed) ==> p in writes) && dirty == {}
          && (r, storage.files) == RemoveEach(written, storage.readonly, removals)
          && (r.Pass? ==> removed == {} && forall p :: p in old(removed) ==> p in removals)
          && (r.Fail? ==> removed == old(removed))
    {
      removals := [];
      r, writes := WriteAll(dirty - removed);
      if r.Fail? {
        return;
      }
      dirty := {};
      r, removals := RemoveAll(removed);
      if r.Fail? {
        return;
      }
      removed := {};
    }

    /** flush_file(p): a removed path is removed from the storage and loses only its removal
      mark; otherwise a dirty path is written and loses its dirty mark. */
    method FlushFile(p: Path) returns (r: Outcome)
      modifies this`dirty, this`removed, storage`files, storage`readCounts
      ensures cached == old(cached) && storage.readCounts == old(storage.readCounts)
      ensures p in old(removed) ==>
        dirty == old(dirty)
        && (r, storage.files) == RemoveEach(old(storage.files), storage.readonly, [p])
        && removed == if r.Pass? then old(removed) - {p} else old(removed)
      ensures p !in old(removed) && p in old(dirty) ==>
        removed == old(removed)
        && (r, storage.files) == WriteEntry(old(storage.files), storage.readonly, cached, p)
        && dirty == if r.Pass? then old(dirty) - {p} else old(dirty)
      ensures p !in old(removed) && p !in old(dirty) ==>
        r == Pass && dirty == old(dirty) && removed == old(removed) && storage.files == old(storage.files)
    {
      if p in removed {
        r := storage.Remove(p);
        if r.Fail? {
          return;
        }
        removed := removed - {p};
      } else if p in dirty {
        r := FlushUpdate(p);
        if r.Fail? {
          return;
        }
        dirty := dirty - {p};
      } else {
        r := Pass;
      }
    }
  }

  lemma {:induction false} WriteEntriesSnoc<V>(files: Mem.Files, readonly: bool, cached: map<Path, Entry<V>>, order: seq<Path>, p: Path)
    requires WriteEntries(files, readonly, cached, order).0.Pass?
    ensures WriteEntries(files, readonly, cached, order + [p])
      == WriteEntry(WriteEntries(files, readonly, cached, order).1, readonly, cached, p)
    decreases |order|
  {
    if order == [] {
      assert [p][1..] == [];
    } else {
      var (w, f) := WriteEntry(files, readonly, cached, order[0]);
      assert (order + [p])[1..] == order[1..] + [p];
      WriteEntriesSnoc(f, readonly, cached, order[1..], p);
    }
  }

  lemma {:induction false} RemoveEachSnoc(files: Mem.Files, readonly: bool, order: seq<Path>, p: Path)
    requires RemoveEach(files, readonly, order).0.Pass?
    ensures RemoveEach(files, readonly, order + [p]) == RemoveEach(RemoveEach(files, readonly, order).1, readonly, [p])
    decreases |order|
  {
    if order != [] {
      assert (order + [p])[1..] == order[1..] + [p];
      RemoveEachSnoc(Mem.RemovedFiles(files, order[0]), readonly, order[1..], p);
    }
  }

  /** Removal wins: after a successful run of removals, none of the removed paths is stored. */
  lemma {:induction false} RemoveEachDeletes(files: Mem.Files, readonly: bool, order: seq<Path>)
    ensures RemoveEach(files, readonly, order).0.Pass? ==>
      forall p :: p in order ==> p !in RemoveEach(files, readonly, order).1
    ensures RemoveEach(files, readonly, order).1.Keys <= files.Keys
    decreases |order|
  {
    if order != [] && !readonly {
      RemoveEachDeletes(Mem.RemovedFiles(files, order[0]), readonly, order[1..]);
    }
  }

  /** A write order that reaches a path that is not cached fails: either with that path's
      KeyError or with an earlier error. */
  lemma {:induction false} WriteEntriesNeedCache<V>(files: Mem.Files, readonly: bool, cached: map<Path, Entry<V>>, order: seq<Path>, p: Path)
    requires p in order && p !in cached
    ensures WriteEntries(files, readonly, cached, order).0.Fail?
    decreases |order|
  {
    if order[0] != p {
      var (w, f) := WriteEntry(files, readonly, cached, order[0]);
      if w.Pass? {
        WriteEntriesNeedCache(f, readonly, cached, order[1..], p);
      }
    }
  }

  /** save(p) then remove(p) leaves p dirty, removed and uncached. Every write order of the
      source's flush then fails; the corrected flush writes nothing for p and, when its
      removals succeed, p is no longer stored. */
  lemma SaveRemoveFlush<V>(files: Mem.Files, readonly: bool, cached: map<Path, Entry<V>>,
                           dirty: set<Path>, removed: set<Path>, p: Path,
                           writesAsWritten: seq<Path>, writes: seq<Path>, removals: seq<Path>)
    requires p in dirty && p in removed && p !in cached
    requires forall q :: q in dirty ==> q in writesAsWritten
    requires forall q :: q in writes ==> q in dirty && q !in removed
    requires forall q :: q in removed ==> q in removals
    ensures WriteEntries(files, readonly, cached, writesAsWritten).0.Fail?
    ensures p !in writes
    ensures var (w, written) := WriteEntries(files, readonly, cached, writes);
      var (rm, after) := RemoveEach(written, readonly, removals);
      w.Pass? && rm.Pass? ==> p !in after
  {
    WriteEntriesNeedCache(files, readonly, cached, writesAsWritten, p);
    var (w, written) := WriteEntries(files, readonly, cached, writes);
    RemoveEachDeletes(written, readonly, removals);
  }
}
