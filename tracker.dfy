/** The feature tracker of src/deft/tracker.py (data format 2.0): one record file per feature
    under the data directory, "<name>.status" holding the priority right-aligned in eight
    characters, a space and the status, plus a "<name>.description" file. The tracker keeps a
    Bucket per status, the features loaded so far and the set of features to save. */
module Tracker {
  import opened Wrappers
  import opened Text
  import opened PyValues
  import opened Paths
  import opened Memory
  import opened Features
  import opened Indexing

  const FormatVersion := "2.0"
  const ConfigDir := ".deft"
  const ConfigFile := PathJoin(ConfigDir, "config")
  const DefaultDataDir := PathJoin(ConfigDir, "data")
  const PropertiesSuffix := ".status"
  const DescriptionSuffix := ".description"

  /** A configuration document, taken as a map from key to text. */
  type Config = map<string, string>

  /** default_config(datadir, initial_status) */
  function DefaultConfig(datadir: string, initialStatus: string): (c: Config)
    ensures c.Keys == {"format", "datadir", "initial_status"}
    ensures FormatCheck(c) == Pass
    ensures c["datadir"] == datadir && c["initial_status"] == initialStatus
  {
    map["format" := FormatVersion, "datadir" := datadir, "initial_status" := initialStatus]
  }

  /** The check FeatureTracker.__init__ makes before anything else: config['format'] must be
      the current format version. */
  function FormatCheck(config: Config): (r: Outcome)
    ensures r == Pass <==> "format" in config && config["format"] == FormatVersion
    ensures "format" !in config ==> r == Fail(KeyError("format"))
    ensures "format" in config && config["format"] != FormatVersion ==>
      r.Fail? && r.error.UserError?
  {
    if "format" !in config then Fail(KeyError("format"))
    else if config["format"] != FormatVersion then
      Fail(UserError("incompatible tracker: found data in format version " + config["format"]
                     + ", requires data in format version " + FormatVersion))
    else Pass
  }

  /** _format_status: the priority right-aligned in eight characters, a space, the status. A
      priority with more than eight characters widens its field instead of being cut. */
  function FormatStatus(status: string, priority: int): (r: string)
    ensures var digits := IntToStr(priority);
      var field := if |digits| < 8 then 8 else |digits|;
      |r| == field + 1 + |status|
      && (forall i :: 0 <= i < field - |digits| ==> r[i] == ' ')
      && r[field - |digits|..field] == digits
      && r[field] == ' ' && r[field + 1..] == status
  {
    PadLeft(IntToStr(priority), 8) + " " + status
  }

  /** What _load_feature reads from a record: the integer in the first eight characters and
      the text from the tenth on, with Python's clamping slices; int() accepts blanks around
      the number and between its sign and its digits, and raises ValueError on anything
      else. */
  function ParseStatus(text: string): (r: Result<(int, string)>)
    ensures r.Err? <==> ParseInt(text[..if |text| < 8 then |text| else 8]).None?
    ensures r.Ok? ==> r.value.0 == ParseInt(text[..if |text| < 8 then |text| else 8]).value
    ensures r.Ok? ==> r.value.1 == if |text| < 9 then "" else text[9..]
    ensures r.Err? ==> r.error.ValueError?
    ensures r.Err? ==> r.error == IntLiteralError(text[..if |text| < 8 then |text| else 8])
  {
    var head := text[..if |text| < 8 then |text| else 8];
    match ParseInt(head)
    case None => Err(IntLiteralError(head))
    case Some(priority) => Ok((priority, if |text| < 9 then "" else text[9..]))
  }

  /** _name_to_path(name, suffix): os.path.join(datadir, name + suffix). */
  function NameToPath(datadir: Path, name: string, suffix: string): (r: Path)
    ensures NoSlash(name + suffix) ==> Basename(r) == name + suffix
  {
    var x := name + suffix;
    assert NoSlash(x) ==> Basename(PathJoin(datadir, x)) == x by {
      if NoSlash(x) && x != "" {
        var dir := if datadir == "" || datadir[|datadir| - 1] == '/' then datadir else datadir + "/";
        assert PathJoin(datadir, x) == dir + x;
        AfterLastSlashOfTail(dir, x);
      }
    }
    PathJoin(datadir, x)
  }

  /** Python's slice up to -n: the last n characters dropped, and the empty string when n is 0. */
  function DropLast(s: string, n: nat): (r: string)
    ensures n > 0 && n <= |s| ==> s == r + s[|s| - n..]
    ensures n == 0 || n > |s| ==> r == ""
  {
    if n == 0 || n > |s| then "" else s[..|s| - n]
  }

  /** _path_to_name: the base name of the path with the suffix's length dropped from its end. */
  function PathToName(path: Path, suffix: string): (r: string)
    ensures NoSlash(r) && r <= Basename(path)
    ensures 0 < |suffix| <= |Basename(path)| ==> |r| == |Basename(path)| - |suffix|
  {
    DropLast(Basename(path), |suffix|)
  }

  // ---------------------------------------------------------------------
  // Properties of the record format and the path mapping

  /** A priority that fits in eight characters survives a write and a read of its record,
      and so does the status. */
  lemma StatusRoundTrip(status: string, priority: int)
    requires -9999999 <= priority <= 99999999
    ensures ParseStatus(FormatStatus(status, priority)) == Ok((priority, status))
  {
    var digits := IntToStr(priority);
    if priority < 0 {
      NatToStrLength(-priority, 7);
    } else {
      NatToStrLength(priority, 8);
    }
    var padded := PadLeft(digits, 8);
    assert |padded| == 8;
    var text := FormatStatus(status, priority);
    assert text[..8] == padded;
    assert text[9..] == status;
    ParseIntOfPadded(priority, 8);
  }

  /** A nine-digit priority overflows its field: the record reads back a different priority,
      and a status that starts with the last digit and the separating space. */
  lemma WidePriorityMisread()
    ensures ParseStatus(FormatStatus("new", 123456789)) == Ok((12345678, " new"))
  {
    EightDigits();
    var text := FormatStatus("new", 123456789);
    assert IntToStr(123456789) == NatToStr(12345678) + "9";
    assert text == NatToStr(12345678) + "9" + " new";
    assert text[..8] == IntToStr(12345678);
    ParseIntOfIntToStr(12345678);
    assert text[9..] == " new";
  }

  /** A priority field with blanks between its sign and its digits still loads, and a
      field int() rejects is shown in the error without its leading blanks. */
  lemma PriorityFieldBlanks()
    ensures ParseStatus("-      5 new") == Ok((-5, "new"))
    ensures ParseStatus("+ 5") == Ok((5, ""))
    ensures ParseStatus("  x") == Err(ValueError("invalid literal for int() with base 10: 'x'"))
  {
    ParseIntAfterSign();
    RejectedLetterMessage();
    var a := "-      5 new";
    assert a[..8] == "-      5";
    assert a[9..] == "new";
    assert "+ 5"[..3] == "+ 5";
    assert "  x"[..3] == "  x";
  }

  /** A NUL after the digits of a priority field makes int() complain about the NUL. */
  lemma PriorityFieldNul()
    ensures ParseStatus("12" + [0 as char]) == Err(ValueError("null byte in argument for int()"))
  {
    NulMessages();
    var a := "12" + [0 as char];
    assert a[..3] == a;
    assert 0 as char in a;
  }

  lemma EightDigits()
    ensures NatToStr(12345678) == "12345678"
  {
    assert NatToStr(1) == "1";
    assert NatToStr(12) == "12";
    assert NatToStr(123) == "123";
    assert NatToStr(1234) == "1234";
    assert NatToStr(12345) == "12345";
    assert NatToStr(123456) == "123456";
    assert NatToStr(1234567) == "1234567";
  }

  lemma {:induction false} AfterLastSlashOfTail(a: string, x: string)
    requires NoSlash(x) && (a == "" || a[|a| - 1] == '/')
    ensures AfterLastSlash(a + x) == |a|
    decreases |x|
  {
    if x != [] {
      assert (a + x)[..|a + x| - 1] == a + x[..|x| - 1];
      AfterLastSlashOfTail(a, x[..|x| - 1]);
    } else {
      assert a + x == a;
    }
  }

  /** A name without '/' maps to a record path and back to the same name. */
  lemma NamePathRoundTrip(datadir: Path, name: string, suffix: string)
    requires NoSlash(name) && NoSlash(suffix) && suffix != ""
    ensures PathToName(NameToPath(datadir, name, suffix), suffix) == name
  {
    var x := name + suffix;
    assert NoSlash(x) by {
      forall i | 0 <= i < |x| ensures x[i] != '/' {
        if i >= |name| {
          assert x[i] == suffix[i - |name|];
        }
      }
    }
    assert Basename(NameToPath(datadir, name, suffix)) == x;
    assert x[..|x| - |suffix|] == name;
  }

  // ---------------------------------------------------------------------
  // The tracker's storage traffic, as functions of the storage's files

  /** save_text(p, text) on the memory storage: the files afterwards, or the error. */
  function SavedText(files: Files, readonly: bool, p: Path, text: string): Result<Files> {
    match OpenResult(files, readonly, p, "w")
    case Err(e) => Err(e)
    case Ok(_) => Ok(WithDirs(files, Dirname(p)).value[p := Some(text)])
  }

  /** Saving each (path, text) in turn: the outcome and the files afterwards. The first
      error stops the run and leaves the files as the records before it left them. */
  function SaveRun(files: Files, readonly: bool, records: seq<(Path, string)>): (Outcome, Files)
    decreases |records|
  {
    if records == [] then (Pass, files)
    else
      var (o, f) := SaveRun(files, readonly, records[..|records| - 1]);
      if o.Fail? then (o, f)
      else match SavedText(f, readonly, records[|records| - 1].0, records[|records| - 1].1)
        case Err(e) => (Fail(e), f)
        case Ok(g) => (Pass, g)
  }

  /** The record _load_feature reads from path: load_text's error, int()'s error, or the
      priority and status. */
  function LoadedStatus(files: Files, p: Path): Result<(int, string)> {
    if p in files && files[p].None? then Err(IOError(p + " is a directory"))
    else if p !in files then Err(IOError(p + " does not exist"))
    else ParseStatus(files[p].value)
  }

  /** Loading every path in turn; the first error stops the run. */
  function LoadedAll(files: Files, paths: seq<Path>): (r: Result<seq<(int, string)>>)
    ensures r.Ok? <==> forall i :: 0 <= i < |paths| ==> LoadedStatus(files, paths[i]).Ok?
    ensures r.Ok? ==> (|r.value| == |paths|
      && forall i :: 0 <= i < |paths| ==> r.value[i] == LoadedStatus(files, paths[i]).value)
    decreases |paths|
  {
    if paths == [] then Ok([])
    else match LoadedAll(files, paths[..|paths| - 1])
      case Err(e) => Err(e)
      case Ok(records) =>
        match LoadedStatus(files, paths[|paths| - 1])
        case Err(e) => Err(e)
        case Ok(record) => Ok(records + [record])
  }

  /** The features of fs whose status is s, in the order of fs. */
  function WithStatus(fs: seq<Feature>, s: string): (r: seq<Feature>)
    reads fs
    ensures forall f :: f in r ==> f in fs && f.status == s
    ensures forall i :: 0 <= i < |fs| && fs[i].status == s ==> fs[i] in r
    decreases |fs|
  {
    if fs == [] then []
    else
      var init := WithStatus(fs[..|fs| - 1], s);
      var f := fs[|fs| - 1];
      if f.status == s then init + [f] else init
  }

  /** The bucket a status gets when the tracker indexes the features fs. */
  function SortedBucket(fs: seq<Feature>, s: string): seq<Feature>
    reads set f | f in fs
  {
    SortByPriority(WithStatus(fs, s), PrioritiesOf(WithStatus(fs, s)))
  }

  /** setdefault(f.status, []).append(f) over fs: the features of each status in order. */
  method GroupByStatus(fs: seq<Feature>) returns (groups: map<string, seq<Feature>>)
    ensures forall s :: s in groups <==> WithStatus(fs, s) != []
    ensures forall s :: s in groups ==> groups[s] == WithStatus(fs, s)
  {
    groups := map[];
    for i := 0 to |fs|
      invariant forall s :: WithStatus(fs[..i], s) == if s in groups then groups[s] else []
      invariant forall s :: s in groups ==> groups[s] != []
    {
      var f := fs[i];
      WithStatusSnoc(fs, i);
      if f.status in groups {
        groups := groups[f.status := groups[f.status] + [f]];
      } else {
        groups := groups[f.status := [f]];
      }
    }
    assert fs[..|fs|] == fs;
  }

  lemma WithStatusSnoc(fs: seq<Feature>, i: nat)
    requires i < |fs|
    ensures forall s :: WithStatus(fs[..i + 1], s)
                        == if fs[i].status == s then WithStatus(fs[..i], s) + [fs[i]] else WithStatus(fs[..i], s)
  {
    assert fs[..i + 1][..i] == fs[..i];
  }

  /** A new bucket for every group, built from the group's features. */
  method NewBuckets(groups: map<string, seq<Feature>>) returns (built: map<string, Bucket>)
    ensures built.Keys == groups.Keys
    ensures forall s :: s in built ==>
      fresh(built[s]) && built[s].features == SortByPriority(groups[s], PrioritiesOf(groups[s]))
    ensures forall s, t :: s in built && t in built && s != t ==> built[s] != built[t]
  {
    built := map[];
    var pending := groups.Keys;
    while pending != {}
      invariant pending <= groups.Keys
      invariant forall s :: s in built <==> s in groups && s !in pending
      invariant forall s :: s in built ==>
        fresh(built[s]) && built[s].features == SortByPriority(groups[s], PrioritiesOf(groups[s]))
      invariant forall s, t :: s in built && t in built && s != t ==> built[s] != built[t]
      decreases |pending|
    {
      var s :| s in pending;
      var bucket := new Bucket(groups[s]);
      built := built[s := bucket];
      pending := pending - {s};
    }
  }

  /** Walking a set in some order: order holds, without repeats, the elements already
      visited, and remaining those still to visit. */
  ghost predicate Enumerating(fs: set<Feature>, remaining: set<Feature>, order: seq<Feature>) {
    remaining <= fs && Distinct(order)
    && (forall f :: f in order ==> f in fs && f !in remaining)
    && (forall f :: f in fs ==> f in order || f in remaining)
  }

  lemma EnumerationStep(fs: set<Feature>, remaining: set<Feature>, order: seq<Feature>, f: Feature)
    requires Enumerating(fs, remaining, order) && f in remaining
    ensures Enumerating(fs, remaining - {f}, order + [f])
  {
  }

  class FeatureTracker {
    const config: Config
    const storage: MemStorage
    var index: map<string, Bucket>
    var loaded: map<Path, Feature>
    var dirty: set<Feature>

    /** The configuration passed the format check and names a data directory, and no two
        statuses share a bucket. */
    ghost predicate Valid()
      reads this`index
    {
      FormatCheck(config) == Pass && "datadir" in config
      && forall s, t :: s in index && t in index && s != t ==> index[s] != index[t]
    }

    /** The fields __init__ sets before it indexes the features. */
    constructor(config: Config, storage: MemStorage)
      requires FormatCheck(config) == Pass && "datadir" in config
      ensures Valid() && this.config == config && this.storage == storage
      ensures index == map[] && loaded == map[] && dirty == {}
    {
      this.config := config;
      this.storage := storage;
      index := map[];
      loaded := map[];
      dirty := {};
    }

    function PathOf(name: string, suffix: string): Path
      requires "datadir" in config
    {
      NameToPath(config["datadir"], name, suffix)
    }

    /** The features of the bucket for status, none when there is no such bucket. */
    ghost function Order(status: string): seq<Feature>
      reads this, index.Values
    {
      if status in index then index[status].features else []
    }

    /** Every feature some bucket holds. */
    ghost function Members(): set<Feature>
      reads this, index.Values
    {
      set s, f | s in index && f in index[s].features :: f
    }

    /** The ranking of the bucket for status as f's bucket operation sees it: its features
        and the current priority of each of them and of f. */
    ghost function RankingFor(status: string, f: Feature): Ranking
      reads this, index.Values, Order(status), f
    {
      Ranking(Order(status), PrioritiesOf(Order(status) + [f]))
    }

    /** features_with_status(status): the bucket for status, created empty when missing. */
    method FeaturesWithStatus(status: string) returns (bucket: Bucket)
      requires Valid()
      modifies this`index
      ensures Valid()
      ensures status in old(index) ==> bucket == old(index[status]) && index == old(index)
      ensures status !in old(index) ==>
        fresh(bucket) && bucket.features == [] && index == old(index)[status := bucket]
    {
      if status in index {
        bucket := index[status];
      } else {
        bucket := new Bucket([]);
        index := index[status := bucket];
      }
    }

    /** _save_feature(f): the record of f written to its path. */
    method SaveFeature(f: Feature) returns (r: Outcome)
      requires "datadir" in config
      modifies storage`files, storage`readCounts
      ensures var saved := SavedText(old(storage.files), storage.readonly, PathOf(f.name, PropertiesSuffix),
                                     FormatStatus(f.status, f.priority));
              (saved.Ok? ==> r == Pass && storage.files == saved.value)
              && (saved.Err? ==> r == Fail(saved.error) && storage.files == old(storage.files))
    {
      r := SaveText(storage, PathOf(f.name, PropertiesSuffix), FormatStatus(f.status, f.priority));
    }

    /** _load_feature(path): the feature loaded before, or a new feature read from the
        record at path and remembered as loaded. */
    method LoadFeature(path: Path) returns (r: Result<Feature>)
      requires Valid()
      modifies this`loaded, storage`files, storage`readCounts
      ensures Valid() && index == old(index)
      ensures storage.files == old(storage.files)
      ensures path in old(loaded) ==> r == Ok(old(loaded[path])) && loaded == old(loaded)
      ensures path !in old(loaded) ==>
        var record := LoadedStatus(old(storage.files), path);
        (record.Err? ==> r == Err(record.error) && loaded == old(loaded))
        && (record.Ok? ==> r.Ok? && fresh(r.value) && r.value.name == PathToName(path, PropertiesSuffix)
                           && r.value.priority == record.value.0 && r.value.status == record.value.1
                           && loaded == old(loaded)[path := r.value])
    {
      if path in loaded {
        return Ok(loaded[path]);
      }
      var text := LoadText(storage, path);
      if text.Err? {
        return Err(text.error);
      }
      var record := ParseStatus(text.value);
      if record.Err? {
        return Err(record.error);
      }
      var feature := new Feature(PathToName(path, PropertiesSuffix), record.value.1, record.value.0);
      loaded := loaded[path := feature];
      r := Ok(feature);
    }

    /** feature_named(name): UserError when no record file exists for name. */
    method FeatureNamed(name: string) returns (r: Result<Feature>)
      requires Valid()
      modifies this`loaded, storage`files, storage`readCounts
      ensures Valid() && index == old(index) && storage.files == old(storage.files)
      ensures var path := PathOf(name, PropertiesSuffix);
        (path !in old(storage.files) ==> r == Err(UserError("no feature named " + name)) && loaded == old(loaded))
        && (path in old(storage.files) && path in old(loaded) ==> r == Ok(old(loaded[path])) && loaded == old(loaded))
        && (path in old(storage.files) && path !in old(loaded) ==>
              var record := LoadedStatus(old(storage.files), path);
              (record.Err? ==> r == Err(record.error) && loaded == old(loaded))
              && (record.Ok? ==> r.Ok? && fresh(r.value) && r.value.name == PathToName(path, PropertiesSuffix)
                                 && r.value.priority == record.value.0 && r.value.status == record.value.1
                                 && loaded == old(loaded)[path := r.value]))
    {
      var path := PathOf(name, PropertiesSuffix);
      if !storage.Exists(path) {
        return Err(UserError("no feature named " + name));
      }
      r := LoadFeature(path);
    }

    /** bucket.append(f) on the bucket for s, created empty when missing. */
    method AppendTo(s: string, f: Feature, ghost prio: Priorities) returns (recorded: set<Feature>)
      requires Valid() && RecordsBucket(prio, s, f)
      modifies this`index, index.Values, f`priority
      ensures Valid()
      ensures s in index && index.Keys == old(index.Keys) + {s}
      ensures forall t :: t in old(index) && t != s ==> index[t] == old(index[t]) && index[t].features == old(index[t].features)
      ensures index[s].features == old(Order(s)) + [f] && f.priority == |old(Order(s))| + 1 && recorded == {f}
    {
      var bucket := FeaturesWithStatus(s);
      recorded := bucket.Append(f, prio);
    }

    /** The in-memory half of create: a new feature with status s goes last in its bucket,
        is marked dirty, and is remembered as loaded from its record path. */
    method Enlist(name: string, s: string) returns (f: Feature)
      requires Valid()
      modifies this`index, this`loaded, this`dirty, index.Values
      ensures Valid()
      ensures s in index && index.Keys == old(index.Keys) + {s}
      ensures forall t :: t in old(index) && t != s ==> index[t] == old(index[t]) && index[t].features == old(index[t].features)
      ensures fresh(f) && f.name == name && f.status == s && f.priority == |old(Order(s))| + 1
      ensures index[s].features == old(Order(s)) + [f]
      ensures loaded == old(loaded)[PathOf(name, PropertiesSuffix) := f] && dirty == old(dirty) + {f}
    {
      f := new Feature(name, s, 0);
      var recorded := AppendTo(s, f, PrioritiesOf(Order(s) + [f]));
      dirty := dirty + recorded;
      loaded := loaded[PathOf(name, PropertiesSuffix) := f];
    }

    /** create once its status s is known: the feature goes last in the bucket for s, then its
        record and its description are written. */
    method CreateWithStatus(name: string, s: string, description: string) returns (r: Result<Feature>)
      requires Valid()
      modifies this`index, this`loaded, this`dirty, index.Values, storage`files, storage`readCounts
      ensures Valid()
      ensures var priority := |old(Order(s))| + 1;
        var saved := CreatedFiles(old(storage.files), storage.readonly, PathOf(name, PropertiesSuffix),
                                  FormatStatus(s, priority), PathOf(name, DescriptionSuffix), description);
        s in index && index.Keys == old(index.Keys) + {s}
        && (forall t :: t in old(index) && t != s ==> index[t] == old(index[t]) && index[t].features == old(index[t].features))
        && |index[s].features| == priority && index[s].features[..priority - 1] == old(Order(s))
        && var f := index[s].features[priority - 1];
           fresh(f) && f.name == name && f.status == s && f.priority == priority
           && loaded == old(loaded)[PathOf(name, PropertiesSuffix) := f] && dirty == old(dirty) + {f}
           && (saved.Err? ==> r == Err(saved.error))
           && (saved.Ok? ==> r == Ok(f) && storage.files == saved.value)
    {
      ghost var order0 := Order(s);
      ghost var created := CreatedFiles(storage.files, storage.readonly, PathOf(name, PropertiesSuffix),
                                        FormatStatus(s, |order0| + 1), PathOf(name, DescriptionSuffix), description);
      var feature := Enlist(name, s);
      assert index[s].features[..|order0|] == order0 && index[s].features[|order0|] == feature;
      var saved := SaveFeature(feature);
      if saved.Fail? {
        assert created == Err(saved.error);
        return Err(saved.error);
      }
      var written := SaveText(storage, PathOf(name, DescriptionSuffix), description);
      if written.Fail? {
        assert created == Err(written.error);
        return Err(written.error);
      }
      assert created == Ok(storage.files);
      r := Ok(feature);
    }

    /** create(name, status, description): UserError when a record for name exists; otherwise
        a new feature with the given status (the configured initial status when none is
        given) goes last in its bucket, is remembered as loaded, and its record and its
        description are written. A failing write leaves the bucket and the cache updated. */
    method Create(name: string, status: Option<string>, description: string) returns (r: Result<Feature>)
      requires Valid()
      modifies this`index, this`loaded, this`dirty, index.Values, storage`files, storage`readCounts
      ensures Valid()
      ensures PathOf(name, PropertiesSuffix) in old(storage.files) ==>
        r == Err(UserError("a feature already exists with name: " + name))
        && index == old(index) && loaded == old(loaded) && dirty == old(dirty)
        && storage.files == old(storage.files)
      ensures PathOf(name, PropertiesSuffix) !in old(storage.files) && status.None? && "initial_status" !in config ==>
        r == Err(KeyError("initial_status"))
        && index == old(index) && loaded == old(loaded) && dirty == old(dirty)
        && storage.files == old(storage.files)
      ensures PathOf(name, PropertiesSuffix) !in old(storage.files) && (status.Some? || "initial_status" in config) ==>
        var s := if status.Some? then status.value else config["initial_status"];
        var priority := |old(Order(s))| + 1;
        var saved := CreatedFiles(old(storage.files), storage.readonly, PathOf(name, PropertiesSuffix),
                                  FormatStatus(s, priority), PathOf(name, DescriptionSuffix), description);
        s in index && index.Keys == old(index.Keys) + {s}
        && (forall t :: t in old(index) && t != s ==> index[t] == old(index[t]) && index[t].features == old(index[t].features))
        && |index[s].features| == priority && index[s].features[..priority - 1] == old(Order(s))
        && var f := index[s].features[priority - 1];
           fresh(f) && f.name == name && f.status == s && f.priority == priority
           && loaded == old(loaded)[PathOf(name, PropertiesSuffix) := f] && dirty == old(dirty) + {f}
           && (saved.Err? ==> r == Err(saved.error))
           && (saved.Ok? ==> r == Ok(f) && storage.files == saved.value)
    {
      if storage.Exists(PathOf(name, PropertiesSuffix)) {
        return Err(UserError("a feature already exists with name: " + name));
      }
      var s: string;
      if status.Some? {
        s := status.value;
      } else if "initial_status" in config {
        s := config["initial_status"];
      } else {
        return Err(KeyError("initial_status"));
      }
      assert s == if status.Some? then status.value else config["initial_status"];
      r := CreateWithStatus(name, s, description);
    }

    /** The features of the buckets for statuses, bucket after bucket. */
    function Chained(statuses: seq<string>): (r: seq<Feature>)
      reads this, index.Values
      requires forall s :: s in statuses ==> s in index
      ensures forall s, f :: s in statuses && f in index[s].features ==> f in r
      ensures forall f :: f in r ==> exists s :: s in statuses && f in index[s].features
      decreases |statuses|
    {
      if statuses == [] then []
      else index[statuses[0]].features + Chained(statuses[1..])
    }

    /** all_features(): every bucket's features, the buckets taken in sorted status order. */
    function AllFeatures(): seq<Feature>
      reads this, index.Values
    {
      Chained(SortedKeys(index.Keys))
    }

    /** In Chained(statuses) the features of the k-th status's bucket form one block, in
        bucket order, preceded by exactly the chained buckets of the statuses before it. */
    lemma {:induction false} ChainedBlock(statuses: seq<string>, k: nat)
      requires forall s :: s in statuses ==> s in index
      requires k < |statuses|
      ensures var before := Chained(statuses[..k]);
        var block := index[statuses[k]].features;
        (forall f :: f in before ==> exists s :: s in statuses[..k] && f in index[s].features)
        && |before| + |block| <= |Chained(statuses)|
        && Chained(statuses)[..|before|] == before
        && Chained(statuses)[|before|..|before| + |block|] == block
      decreases k
    {
      var all := Chained(statuses);
      var first := index[statuses[0]].features;
      if k == 0 {
        assert statuses[..0] == [];
        assert all == first + Chained(statuses[1..]);
      } else {
        ChainedBlock(statuses[1..], k - 1);
        assert statuses[..k][1..] == statuses[1..][..k - 1];
        assert statuses[..k][0] == statuses[0];
        var rest := Chained(statuses[1..][..k - 1]);
        assert Chained(statuses[..k]) == first + rest;
        assert all == first + Chained(statuses[1..]);
      }
    }

    /** all_features(): the buckets are taken in ascending status order, and the k-th status's
        bucket appears as one block, in priority order, after the buckets of all smaller statuses. */
    lemma AllFeaturesInStatusOrder(k: nat)
      requires k < |SortedKeys(index.Keys)|
      ensures var statuses := SortedKeys(index.Keys);
        var before := Chained(statuses[..k]);
        var block := index[statuses[k]].features;
        (forall f :: f in before ==> exists s :: s in statuses[..k] && f in index[s].features)
        && |before| + |block| <= |AllFeatures()|
        && AllFeatures()[..|before|] == before
        && AllFeatures()[|before|..|before| + |block|] == block
    {
      var statuses := SortedKeys(index.Keys);
      assert forall s :: s in statuses ==> s in index;
      assert AllFeatures() == Chained(statuses);
      ChainedBlock(statuses, k);
    }

    /** prio records the current priority of every feature it holds, and holds f and the
        features of the bucket for status. Methods that rearrange a bucket take such a record
        as a ghost argument (PrioritiesOf builds one) and state the new priorities in its terms. */
    ghost predicate RecordsBucket(prio: Priorities, status: string, f: Feature)
      reads this, index.Values, prio.Keys
    {
      (forall g :: g in Order(status) ==> g in prio) && f in prio
      && forall g :: g in prio ==> g.priority == prio[g]
    }

    /** _change_priority(f, p): the change_priority of f's bucket, created empty when missing;
        every feature whose priority it records becomes dirty. */
    method ChangePriority(feature: Feature, newPriority: int, ghost prio: Priorities) returns (r: Outcome)
      requires Valid() && RecordsBucket(prio, feature.status, feature)
      modifies this`index, this`dirty, index.Values, (set f | f in Order(feature.status) + [feature])`priority
      ensures Valid() && feature.status == old(feature.status)
      ensures var s := feature.status;
        s in index && index.Keys == old(index.Keys) + {s}
        && forall t :: t in old(index) && t != s ==> index[t] == old(index[t]) && index[t].features == old(index[t].features)
      ensures var s := feature.status;
        var spec := ChangePrioritySpec(Ranking(old(Order(s)), prio), feature, newPriority);
        (spec.Err? ==> r == Fail(spec.error) && index[s].features == old(Order(s)) && dirty == old(dirty)
                       && forall f :: f in prio ==> f.priority == prio[f])
        && (spec.Ok? ==> r == Pass && index[s].features == spec.value.0.order && dirty == old(dirty) + spec.value.1
                         && forall f :: f in prio ==> f.priority == spec.value.0.prio[f])
    {
      var bucket := FeaturesWithStatus(feature.status);
      var changed := bucket.ChangePriority(feature, newPriority, prio);
      if changed.Err? {
        return Fail(changed.error);
      }
      dirty := dirty + changed.value;
      r := Pass;
    }

    /** bucket.remove(f) on the bucket for s, created empty when missing. */
    method RemoveFrom(s: string, feature: Feature, ghost prio: Priorities) returns (r: Result<set<Feature>>)
      requires Valid() && RecordsBucket(prio, s, feature)
      modifies this`index, BucketAt(s), (set f | f in Order(s))`priority
      ensures Valid()
      ensures s in index && index.Keys == old(index.Keys) + {s} && (s !in old(index) ==> fresh(index[s]))
      ensures forall t :: t in old(index) ==> index[t] == old(index[t])
      ensures forall t :: t in old(index) && t != s ==> index[t].features == old(index[t].features)
      ensures index == old(index)[s := index[s]]
      ensures var spec := RemoveSpec(Ranking(old(Order(s)), prio), feature);
        (spec.Err? ==> r == Err(spec.error) && index[s].features == old(Order(s))
                       && forall f :: f in prio ==> f.priority == prio[f])
        && (spec.Ok? ==> r == Ok(spec.value.1) && index[s].features == spec.value.0.order
                         && forall f :: f in prio ==> f.priority == spec.value.0.prio[f])
    {
      var bucket := FeaturesWithStatus(s);
      r := bucket.Remove(feature, prio);
    }

    /** The second half of _change_status: f goes last in the bucket for newStatus, then
        _record_status sets its status; f and every feature whose priority was recorded
        become dirty. */
    method MoveTo(feature: Feature, newStatus: string, bucket: Bucket, recorded: set<Feature>)
      requires Valid() && newStatus in index && index[newStatus] == bucket
      modifies this`dirty, bucket`features, feature`priority, feature`status
      ensures Valid() && index == old(index)
      ensures forall t :: t in index && t != newStatus ==> index[t].features == old(index[t].features)
      ensures bucket.features == old(bucket.features) + [feature]
      ensures feature.priority == |old(bucket.features)| + 1 && feature.status == newStatus
      ensures dirty == old(dirty) + recorded + {feature}
    {
      var appended := bucket.Append(feature, PrioritiesOf(bucket.features + [feature]));
      feature.RecordStatus(newStatus);
      dirty := dirty + recorded + appended;
    }

    /** The first half of _change_status: the buckets for f's status and for s are created
        when missing, and f is removed from the first. */
    method Detach(feature: Feature, newStatus: string, ghost prio: Priorities) returns (r: Result<set<Feature>>)
      requires Valid() && RecordsBucket(prio, feature.status, feature)
      modifies this`index, index.Values, (set f | f in Order(feature.status))`priority
      ensures Valid()
      ensures var s := feature.status;
        s in index && newStatus in index && index.Keys == old(index.Keys) + {s, newStatus}
        && (forall t :: t in old(index) ==> index[t] == old(index[t]))
        && (newStatus !in old(index) ==> fresh(index[newStatus]))
        && (forall t :: t in old(index) && t != s ==> index[t].features == old(index[t].features))
        && (newStatus != s ==> index[newStatus].features == old(Order(newStatus)))
      ensures var s := feature.status;
        var spec := RemoveSpec(Ranking(old(Order(s)), prio), feature);
        (spec.Err? ==> r == Err(spec.error) && index[s].features == old(Order(s))
                       && forall f :: f in prio ==> f.priority == prio[f])
        && (spec.Ok? ==> r == Ok(spec.value.1) && index[s].features == spec.value.0.order
                         && forall f :: f in prio ==> f.priority == spec.value.0.prio[f])
    {
      r := RemoveFrom(feature.status, feature, prio);
      var _ := FeaturesWithStatus(newStatus);
    }

    /** _change_status(f, s): the buckets for f's status and for s are created when missing;
        f is removed from the first (IndexError when its priority is out of range, and then
        nothing else changes) and appended to the second, its status is recorded, and f and
        every feature whose priority was recorded become dirty. */
    method ChangeStatus(feature: Feature, newStatus: string, ghost prio: Priorities) returns (r: Outcome)
      requires Valid() && RecordsBucket(prio, feature.status, feature)
      modifies this`index, this`dirty, index.Values, (set f | f in Order(feature.status) + [feature])`priority,
               feature`status
      ensures Valid()
      ensures var s := old(feature.status);
        s in index && newStatus in index && index.Keys == old(index.Keys) + {s, newStatus}
        && forall t :: t in old(index) && t != s && t != newStatus ==>
             index[t] == old(index[t]) && index[t].features == old(index[t].features)
      ensures var s := old(feature.status);
        var spec := RemoveSpec(Ranking(old(Order(s)), prio), feature);
        spec.Err? ==>
          r == Fail(spec.error) && feature.status == s && dirty == old(dirty)
          && index[s].features == old(Order(s)) && index[newStatus].features == old(Order(newStatus))
          && forall f :: f in prio ==> f.priority == prio[f]
      ensures var s := old(feature.status);
        var spec := RemoveSpec(Ranking(old(Order(s)), prio), feature);
        spec.Ok? ==>
          var before := if newStatus == s then spec.value.0.order else old(Order(newStatus));
          r == Pass && feature.status == newStatus && dirty == old(dirty) + spec.value.1 + {feature}
          && (newStatus != s ==> index[s].features == spec.value.0.order)
          && index[newStatus].features == before + [feature] && feature.priority == |before| + 1
          && forall f :: f in prio && f != feature ==> f.priority == spec.value.0.prio[f]
    {
      var removed := Detach(feature, newStatus, prio);
      if removed.Err? {
        return Fail(removed.error);
      }
      MoveTo(feature, newStatus, index[newStatus], removed.value);
      r := Pass;
    }

    /** The storage half of purge(name): the record, then the description, removed. */
    method RemoveFiles(name: string) returns (r: Outcome)
      requires Valid()
      modifies storage`files
      ensures var removed := PurgedFiles(old(storage.files), storage.readonly, PathOf(name, PropertiesSuffix),
                                         PathOf(name, DescriptionSuffix));
        (removed.Err? ==> r == Fail(removed.error) && storage.files == old(storage.files))
        && (removed.Ok? ==> r == Pass && storage.files == removed.value)
    {
      r := storage.Remove(PathOf(name, PropertiesSuffix));
      if r.Fail? {
        return;
      }
      r := storage.Remove(PathOf(name, DescriptionSuffix));
    }

    /** The bucket for status, when there is one. */
    ghost function BucketAt(status: string): set<Bucket>
      reads this`index
    {
      if status in index then {index[status]} else {}
    }

    /** The in-memory half of purge(name) once the feature is loaded, measured against the
        snapshots order0 (the features of its status's bucket), loaded0 and dirty0 of the state
        it starts from: an IndexError from the bucket changes nothing; otherwise feature
        leaves its bucket, the features behind it close ranks and become dirty, and feature is
        forgotten as loaded and as dirty. No other bucket is touched. */
    method Unindex(name: string, feature: Feature, ghost prio: Priorities, ghost order0: seq<Feature>,
                   ghost loaded0: map<Path, Feature>, ghost dirty0: set<Feature>) returns (r: Outcome)
      requires Valid() && RecordsBucket(prio, feature.status, feature)
      requires order0 == Order(feature.status) && loaded0 == loaded && dirty0 == dirty
      modifies this`index, this`loaded, this`dirty, BucketAt(feature.status),
               (set f | f in Order(feature.status))`priority
      ensures Valid()
      ensures feature.status in index && index == old(index)[feature.status := index[feature.status]]
      ensures var s := feature.status;
        var spec := RemoveSpec(Ranking(order0, prio), feature);
        (spec.Err? ==>
           r == Fail(spec.error) && index[s].features == order0 && (forall f :: f in prio ==> f.priority == prio[f])
           && loaded == loaded0 && dirty == dirty0)
        && (spec.Ok? ==>
              r == Pass && index[s].features == spec.value.0.order && (forall f :: f in prio ==> f.priority == spec.value.0.prio[f])
              && loaded == loaded0 - {PathOf(name, PropertiesSuffix)} && dirty == dirty0 + spec.value.1 - {feature})
    {
      var removed := RemoveFrom(feature.status, feature, prio);
      ghost var spec := RemoveSpec(Ranking(order0, prio), feature);
      assert feature.status == old(feature.status) && feature.status in index;
      assert index == old(index)[feature.status := index[feature.status]];
      assert removed.Err? <==> spec.Err?;
      if removed.Err? {
        return Fail(removed.error);
      }
      assert removed.value == spec.value.1;
      loaded := loaded - {PathOf(name, PropertiesSuffix)};
      dirty := dirty + removed.value - {feature};
      r := Pass;
    }

    /** The state purge(name) leaves once feature is loaded, measured against the state just
        before it is removed: order0 the features of its status's bucket, loaded0, dirty0 and
        files0 the loaded features, the dirty set and the stored files. An IndexError from the
        bucket changes nothing; otherwise feature leaves its bucket, the features behind it
        close ranks and become dirty, feature is forgotten as loaded and as dirty, and the
        record and the description are removed from storage, where a read-only storage fails
        with nothing removed. */
    ghost predicate Purged(name: string, feature: Feature, prio: Priorities, r: Outcome, order0: seq<Feature>,
                           loaded0: map<Path, Feature>, dirty0: set<Feature>, files0: Files)
      reads this, index.Values, prio.Keys, feature, storage
      requires "datadir" in config
      requires (forall g :: g in order0 ==> g in prio) && feature in prio
    {
      var s := feature.status;
      var path := PathOf(name, PropertiesSuffix);
      var spec := RemoveSpec(Ranking(order0, prio), feature);
      var removed := PurgedFiles(files0, storage.readonly, path, PathOf(name, DescriptionSuffix));
      s in index
      && (spec.Err? ==>
            r == Fail(spec.error) && index[s].features == order0 && (forall f :: f in prio ==> f.priority == prio[f])
            && loaded == loaded0 && dirty == dirty0 && storage.files == files0)
      && (spec.Ok? ==>
            index[s].features == spec.value.0.order && (forall f :: f in prio ==> f.priority == spec.value.0.prio[f])
            && loaded == loaded0 - {path} && dirty == dirty0 + spec.value.1 - {feature}
            && (removed.Err? ==> r == Fail(removed.error) && storage.files == files0)
            && (removed.Ok? ==> r == Pass && storage.files == removed.value))
    }

    /** purge(name) once the feature is loaded: Unindex, then the record and the description
        are removed from storage, unless Unindex failed. Purged states the outcome against the
        snapshots order0, loaded0, dirty0 and files0 of the state it starts from. */
    method PurgeLoaded(name: string, feature: Feature, ghost prio: Priorities, ghost order0: seq<Feature>,
                       ghost loaded0: map<Path, Feature>, ghost dirty0: set<Feature>, ghost files0: Files)
      returns (r: Outcome)
      requires Valid() && RecordsBucket(prio, feature.status, feature)
      requires order0 == Order(feature.status) && loaded0 == loaded && dirty0 == dirty && files0 == storage.files
      modifies this`index, this`loaded, this`dirty, BucketAt(feature.status),
               (set f | f in Order(feature.status))`priority, storage`files
      ensures Valid()
      ensures feature.status in index && index == old(index)[feature.status := index[feature.status]]
      ensures Purged(name, feature, prio, r, order0, loaded0, dirty0, files0)
    {
      r := Unindex(name, feature, prio, order0, loaded0, dirty0);
      if r.Pass? {
        r := RemoveFiles(name);
      }
    }

    /** The status of the feature purge(name) removes: that of the loaded feature, else the one
        its record holds ("" when the record cannot be loaded, and then nothing changes). */
    ghost function PurgedStatus(name: string): string
      reads this, loaded.Values, storage
      requires "datadir" in config
    {
      var path := PathOf(name, PropertiesSuffix);
      if path in loaded then loaded[path].status
      else match LoadedStatus(storage.files, path)
        case Ok(record) => record.1
        case Err(_) => ""
    }

    /** The first step of purge(name): the feature is loaded as _load_feature loads it, and the
        features of its status's bucket are taken as the snapshot order0, with the priorities
        they and the loaded feature hold as prio. */
    method LoadPurged(name: string) returns (r: Result<Feature>, ghost prio: Priorities, ghost order0: seq<Feature>)
      requires Valid()
      modifies this`loaded, storage`files, storage`readCounts
      ensures Valid() && index == old(index) && dirty == old(dirty) && storage.files == old(storage.files)
      ensures var path := PathOf(name, PropertiesSuffix);
        var record := LoadedStatus(old(storage.files), path);
        path !in old(loaded) && record.Err? ==> r == Err(record.error) && loaded == old(loaded)
      ensures var path := PathOf(name, PropertiesSuffix);
        path in old(loaded) ==> r == Ok(old(loaded[path])) && r.value in prio && prio[r.value] == old(loaded[path].priority)
      ensures var path := PathOf(name, PropertiesSuffix);
        var record := LoadedStatus(old(storage.files), path);
        path !in old(loaded) && record.Ok? ==>
          r.Ok? && fresh(r.value) && r.value.name == PathToName(path, PropertiesSuffix) && r.value.status == record.value.1
          && r.value in prio && prio[r.value] == record.value.0
      ensures r.Ok? ==>
        var s := r.value.status;
        s == old(PurgedStatus(name)) && loaded == old(loaded)[PathOf(name, PropertiesSuffix) := r.value]
        && order0 == Order(s) && order0 == old(Order(s)) && RecordsBucket(prio, s, r.value)
        && (forall g :: g in order0 ==> g in prio && prio[g] == old(g.priority))
        && (forall g :: g in prio ==> g == r.value || g in order0)
    {
      r := LoadFeature(PathOf(name, PropertiesSuffix));
      if r.Err? {
        return r, map[], [];
      }
      ghost var s := r.value.status;
      order0 := Order(s);
      assert forall g :: g in order0 ==> g.priority == old(g.priority);
      prio := PrioritiesOf(order0 + [r.value]);
    }

    /** purge(name): the feature is loaded from its record (an IOError or ValueError from
        loading it changes nothing), then removed as PurgeLoaded states; only the bucket for its
        status is touched. The loaded feature and the priorities its bucket held when it was
        loaded are returned as ghosts. */
    method Purge(name: string) returns (r: Outcome, ghost feature: Feature?, ghost prio: Priorities, ghost order0: seq<Feature>)
      requires Valid()
      modifies this`index, this`loaded, this`dirty, storage`files, storage`readCounts,
               BucketAt(PurgedStatus(name)), (set f | f in Order(PurgedStatus(name)))`priority
      ensures Valid()
      ensures var path := PathOf(name, PropertiesSuffix);
        var record := LoadedStatus(old(storage.files), path);
        path !in old(loaded) && record.Err? ==>
          r == Fail(record.error)
          && index == old(index) && loaded == old(loaded) && dirty == old(dirty) && storage.files == old(storage.files)
      ensures var path := PathOf(name, PropertiesSuffix);
        path in old(loaded) ==> feature == old(loaded[path]) && feature in prio && prio[feature] == old(loaded[path].priority)
      ensures var path := PathOf(name, PropertiesSuffix);
        var record := LoadedStatus(old(storage.files), path);
        path !in old(loaded) && record.Ok? ==>
          feature != null && fresh(feature) && feature.name == PathToName(path, PropertiesSuffix) && feature.status == record.value.1
          && feature in prio && prio[feature] == record.value.0
      ensures var path := PathOf(name, PropertiesSuffix);
        (path in old(loaded) || LoadedStatus(old(storage.files), path).Ok?) ==>
          feature != null && var s := feature.status;
          order0 == old(Order(s))
          && (forall g :: g in order0 ==> g in prio && prio[g] == old(g.priority))
          && (forall g :: g in prio ==> g == feature || g in order0)
          && s in index && index == old(index)[s := index[s]]
          && Purged(name, feature, prio, r, order0, old(loaded)[path := feature], old(dirty), old(storage.files))
    {
      var loadedFeature;
      loadedFeature, prio, order0 := LoadPurged(name);
      if loadedFeature.Err? {
        return Fail(loadedFeature.error), null, prio, order0;
      }
      feature := loadedFeature.value;
      r := PurgeLoaded(name, loadedFeature.value, prio, order0, loaded, dirty, storage.files);
    }

    /** The path and the text _save_feature writes for f. */
    function RecordOf(f: Feature): (Path, string)
      reads f
      requires "datadir" in config
    {
      (PathOf(f.name, PropertiesSuffix), FormatStatus(f.status, f.priority))
    }

    /** One step of the loop of save(): after records were written to start, f's record is
        written next. */
    method SaveNext(f: Feature, ghost start: Files, ghost order: seq<Feature>, ghost records: seq<(Path, string)>)
      returns (r: Outcome)
      requires "datadir" in config && SaveRun(start, storage.readonly, records) == (Pass, storage.files)
      requires |records| == |order|
      requires forall i :: 0 <= i < |records| ==>
        records[i] == RecordOf(order[i])
      modifies storage`files, storage`readCounts
      ensures SaveRun(start, storage.readonly, records + [RecordOf(f)]) == (r, storage.files)
      ensures r.Fail? ==> storage.files == old(storage.files)
      ensures forall i :: 0 <= i < |records| + 1 ==>
        (records + [RecordOf(f)])[i] == RecordOf((order + [f])[i])
    {
      r := SaveFeature(f);
      AppendedPrefix(records, RecordOf(f));
    }

    /** One turn of the loop of save(): a feature not yet written is taken from remaining and
        written after the records already written to start. */
    method SaveStep(ghost fs: set<Feature>, ghost start: Files, remaining: set<Feature>, ghost order: seq<Feature>, ghost records: seq<(Path, string)>)
      returns (r: Outcome, remaining': set<Feature>, ghost order': seq<Feature>, ghost records': seq<(Path, string)>)
      requires "datadir" in config && remaining != {} && Enumerating(fs, remaining, order)
      requires |records| == |order|
      requires forall i :: 0 <= i < |records| ==>
        records[i] == RecordOf(order[i])
      requires SaveRun(start, storage.readonly, records) == (Pass, storage.files)
      modifies storage`files, storage`readCounts
      ensures Enumerating(fs, remaining', order') && |remaining'| < |remaining|
      ensures |records'| == |order'|
      ensures forall i :: 0 <= i < |records'| ==>
        records'[i] == RecordOf(order'[i])
      ensures SaveRun(start, storage.readonly, records') == (r, storage.files)
      ensures r.Fail? ==> records' != [] && SaveRun(start, storage.readonly, records'[..|records'| - 1]).0 == Pass
    {
      var f :| f in remaining;
      EnumerationStep(fs, remaining, order, f);
      r := SaveNext(f, start, order, records);
      order', records' := order + [f], records + [RecordOf(f)];
      AppendedPrefix(records, RecordOf(f));
      remaining' := remaining - {f};
    }

    /** The loop of save(): the record of every feature of fs is written, in some order
        (the source iterates over a set); the first failing write stops the run. order is
        the order the features were written in, ending with the one whose write failed, and
        records holds their records. */
    method SaveEach(fs: set<Feature>) returns (r: Outcome, ghost order: seq<Feature>, ghost records: seq<(Path, string)>)
      requires "datadir" in config
      modifies storage`files, storage`readCounts
      ensures Distinct(order) && forall f :: f in order ==> f in fs
      ensures |records| == |order| && forall i :: 0 <= i < |order| ==> records[i] == RecordOf(order[i])
      ensures SaveRun(old(storage.files), storage.readonly, records) == (r, storage.files)
      ensures r.Pass? ==> forall f :: f in fs ==> f in order
      ensures r.Fail? ==> records != [] && SaveRun(old(storage.files), storage.readonly, records[..|records| - 1]).0 == Pass
    {
      var remaining := fs;
      order, records := [], [];
      r := Pass;
      while remaining != {} && r.Pass?
        invariant Enumerating(fs, remaining, order)
        invariant |records| == |order|
        invariant forall i :: 0 <= i < |records| ==> records[i] == RecordOf(order[i])
        invariant SaveRun(old(storage.files), storage.readonly, records) == (r, storage.files)
        invariant r.Fail? ==> records != [] && SaveRun(old(storage.files), storage.readonly, records[..|records| - 1]).0 == Pass
        decreases |remaining|
      {
        r, remaining, order, records := SaveStep(fs, old(storage.files), remaining, order, records);
      }
    }

    /** save(): SaveEach over the dirty features, then, unless a write failed,
        _init_empty_cache empties the cache. */
    method Save() returns (r: Outcome, ghost order: seq<Feature>, ghost records: seq<(Path, string)>)
      requires Valid()
      modifies this`loaded, this`dirty, storage`files, storage`readCounts
      ensures Valid() && index == old(index)
      ensures Distinct(order) && forall f :: f in order ==> f in old(dirty)
      ensures |records| == |order| && forall i :: 0 <= i < |order| ==> order[i] in old(dirty) && records[i] == old(RecordOf(order[i]))
      ensures SaveRun(old(storage.files), storage.readonly, records) == (r, storage.files)
      ensures r.Pass? ==> (forall f :: f in old(dirty) ==> f in order) && dirty == {} && loaded == map[]
      ensures r.Fail? ==>
        records != [] && SaveRun(old(storage.files), storage.readonly, records[..|records| - 1]).0 == Pass
        && dirty == old(dirty) && loaded == old(loaded)
    {
      r, order, records := SaveEach(dirty);
      if r.Fail? {
        return;
      }
      dirty := {};
      loaded := map[];
    }

    /** The loop of _load_features: _load_feature over every path of paths in turn; the
        first error stops the run. On a tracker that has loaded nothing yet every feature
        is new and is remembered as loaded from its path. */
    method LoadAll(paths: seq<Path>, ghost files: Files) returns (r: Result<seq<Feature>>)
      requires Valid() && storage.files == files && loaded == map[] && Distinct(paths)
      modifies this`loaded, storage`files, storage`readCounts
      ensures index == old(index) && storage.files == files
      ensures r.Err? ==> LoadedAll(files, paths) == Err(r.error)
      ensures r.Ok? ==>
        |r.value| == |paths| && (forall p :: p in loaded <==> p in paths)
        && forall j :: 0 <= j < |paths| ==>
             loaded[paths[j]] == r.value[j] && LoadedAs(files, paths[j], r.value[j])
    {
      var fs: seq<Feature> := [];
      for i := 0 to |paths|
        invariant index == old(index) && storage.files == files
        invariant |fs| == i && forall p :: p in loaded <==> p in paths[..i]
        invariant forall j :: 0 <= j < i ==> loaded[paths[j]] == fs[j]
        invariant forall j :: 0 <= j < i ==> LoadedAs(files, paths[j], fs[j])
      {
        var f := LoadNext(paths, i, files, fs);
        if f.Err? {
          LoadedAllFirstError(files, paths, i);
          return Err(f.error);
        }
        fs := fs + [f.value];
        PrefixSnoc(paths, i);
      }
      PrefixSnoc(paths, |paths|);
      r := Ok(fs);
    }

    /** One step of the loop of _load_features: _load_feature(paths[i]) once paths[..i]
        were loaded, as fs, into a tracker that had loaded nothing else. */
    method LoadNext(paths: seq<Path>, i: nat, ghost files: Files, ghost fs: seq<Feature>) returns (r: Result<Feature>)
      requires Valid() && storage.files == files && i < |paths| && Distinct(paths)
      requires |fs| == i && forall p :: p in loaded <==> p in paths[..i]
      requires forall j :: 0 <= j < i ==> loaded[paths[j]] == fs[j]
      requires forall j :: 0 <= j < i ==> LoadedAs(files, paths[j], fs[j])
      modifies this`loaded, storage`files, storage`readCounts
      ensures index == old(index) && storage.files == files
      ensures r.Err? ==> LoadedStatus(files, paths[i]) == Err(r.error)
      ensures r.Ok? ==> forall p :: p in loaded <==> p in paths[..i + 1]
      ensures r.Ok? ==> forall j :: 0 <= j < i + 1 ==> loaded[paths[j]] == (fs + [r.value])[j]
      ensures r.Ok? ==> forall j :: 0 <= j < i + 1 ==> LoadedAs(files, paths[j], (fs + [r.value])[j])
    {
      PrefixSnoc(paths, i);
      r := LoadFeature(paths[i]);
    }

    /** _load_features(): LoadAll over the paths the storage lists for the pattern
        "*" + PropertiesSuffix in datadir, which come sorted and so without repeats. */
    method LoadFeatures() returns (r: Result<seq<Feature>>)
      requires Valid() && loaded == map[]
      modifies this`loaded, storage`files, storage`readCounts
      ensures Valid() && index == old(index) && storage.files == old(storage.files)
      ensures var paths := ListFiles(storage.files, PathOf("*", PropertiesSuffix));
        (r.Err? ==> LoadedAll(storage.files, paths) == Err(r.error))
        && (r.Ok? ==>
              |r.value| == |paths| && loaded.Keys == (set p | p in paths)
              && forall i :: 0 <= i < |paths| ==>
                   loaded[paths[i]] == r.value[i] && LoadedAs(storage.files, paths[i], r.value[i]))
    {
      var paths := storage.List(PathOf("*", PropertiesSuffix));
      SortedDistinct(paths);
      r := LoadAll(paths, storage.files);
    }

    /** The second loop of _index_features: a new bucket for every group, built from the
        group's features. */
    method BuildIndex(groups: map<string, seq<Feature>>)
      requires Valid() && index == map[]
      modifies this`index
      ensures Valid() && index.Keys == groups.Keys
      ensures forall s :: s in groups ==>
        fresh(index[s]) && index[s].features == SortByPriority(groups[s], PrioritiesOf(groups[s]))
    {
      index := NewBuckets(groups);
    }

    /** _index_features(): the features loaded from storage, grouped by status, each group a
        bucket sorted by priority. */
    method IndexFeatures() returns (r: Outcome, ghost fs: seq<Feature>)
      requires Valid() && index == map[] && loaded == map[]
      modifies this`index, this`loaded, storage`files, storage`readCounts
      ensures Valid() && storage.files == old(storage.files)
      ensures var paths := ListFiles(storage.files, PathOf("*", PropertiesSuffix));
        (r.Fail? ==> LoadedAll(storage.files, paths) == Err(r.error))
        && (r.Pass? ==>
              |fs| == |paths| && loaded.Keys == (set p | p in paths)
              && (forall i :: 0 <= i < |paths| ==>
                    loaded[paths[i]] == fs[i] && LoadedAs(storage.files, paths[i], fs[i]))
              && (forall s :: s in index <==> WithStatus(fs, s) != [])
              && (forall s :: s in index ==> index[s].features == SortedBucket(fs, s)))
    {
      var loadedFeatures := LoadFeatures();
      if loadedFeatures.Err? {
        return Fail(loadedFeatures.error), [];
      }
      fs := loadedFeatures.value;
      var groups := GroupByStatus(loadedFeatures.value);
      BuildIndex(groups);
      r := Pass;
    }
  }

  /** Once loading paths[..k] fails, loading all of paths fails with the same error. */
  lemma {:induction false} LoadedAllStops(files: Files, paths: seq<Path>, k: nat)
    requires 0 < k <= |paths| && LoadedAll(files, paths[..k]).Err?
    ensures LoadedAll(files, paths) == LoadedAll(files, paths[..k])
    decreases |paths|
  {
    if k < |paths| {
      var init := paths[..|paths| - 1];
      assert init[..k] == paths[..k];
      LoadedAllStops(files, init, k);
    } else {
      assert paths[..k] == paths;
    }
  }

  /** f is what _load_feature makes of the record stored at p: its name comes from the
      path, its priority and status from the record. */
  ghost predicate LoadedAs(files: Files, p: Path, f: Feature)
    reads f
  {
    LoadedStatus(files, p).Ok? && f.name == PathToName(p, PropertiesSuffix)
    && (f.priority, f.status) == LoadedStatus(files, p).value
  }

  /** Sorted paths hold no repeats. */
  lemma SortedDistinct(paths: seq<Path>)
    requires StrictlySorted(paths)
    ensures Distinct(paths)
  {
    forall i, j | 0 <= i < j < |paths|
      ensures paths[i] != paths[j]
    {
      StrLtIrreflexive(paths[i]);
    }
  }

  /** When every path before paths[i] loads and paths[i] does not, loading all of paths
      fails with the error of paths[i]. */
  lemma LoadedAllFirstError(files: Files, paths: seq<Path>, i: nat)
    requires i < |paths| && LoadedStatus(files, paths[i]).Err?
    requires forall j :: 0 <= j < i ==> LoadedStatus(files, paths[j]).Ok?
    ensures LoadedAll(files, paths) == Err(LoadedStatus(files, paths[i]).error)
  {
    var prefix := paths[..i + 1];
    assert prefix[..i] == paths[..i];
    assert LoadedAll(files, paths[..i]).Ok?;
    LoadedAllStops(files, paths, i + 1);
  }

  /** What purge does to storage: the record, then the description, removed; read-only
      mode stops it at the first. */
  function PurgedFiles(files: Files, readonly: bool, p: Path, q: Path): Result<Files> {
    if readonly then Err(ReadOnlyError("remove", p)) else Ok(RemovedFiles(RemovedFiles(files, p), q))
  }

  /** What create writes: the record, then the description; the first error stops it. */
  function CreatedFiles(files: Files, readonly: bool, p: Path, record: string, q: Path, description: string): Result<Files> {
    match SavedText(files, readonly, p, record)
    case Err(e) => Err(e)
    case Ok(f) => SavedText(f, readonly, q, description)
  }

  /** FeatureTracker(config, storage): the format gate, then _init_empty_cache and
      _index_features (OpenTracker); "datadir" missing from the config raises KeyError at
      the first record path. */
  method NewTracker(config: Config, storage: MemStorage) returns (r: Result<FeatureTracker>, ghost fs: seq<Feature>)
    modifies storage`files, storage`readCounts
    ensures storage.files == old(storage.files)
    ensures FormatCheck(config).Fail? ==> r == Err(FormatCheck(config).error)
    ensures FormatCheck(config) == Pass && "datadir" !in config ==> r == Err(KeyError("datadir"))
    ensures FormatCheck(config) == Pass && "datadir" in config ==>
      var paths := ListFiles(storage.files, NameToPath(config["datadir"], "*", PropertiesSuffix));
      (r.Err? ==> LoadedAll(storage.files, paths) == Err(r.error))
      && (r.Ok? ==> fresh(r.value) && Indexed(r.value, config, storage, paths, fs))
  {
    var gate := FormatCheck(config);
    if gate.Fail? {
      return Err(gate.error), [];
    }
    if "datadir" !in config {
      return Err(KeyError("datadir")), [];
    }
    r, fs := OpenTracker(config, storage);
  }

  /** A tracker just built over storage: every record listed at paths loaded as fs, in path
      order, nothing dirty, and one bucket per status present, sorted by priority. */
  ghost predicate Indexed(t: FeatureTracker, config: Config, storage: MemStorage, paths: seq<Path>, fs: seq<Feature>)
    reads t, t.storage, t.index.Values, set f | f in fs
  {
    t.Valid() && t.config == config && t.storage == storage && t.dirty == {}
    && |fs| == |paths| && t.loaded.Keys == (set p | p in paths)
    && (forall i :: 0 <= i < |paths| ==> t.loaded[paths[i]] == fs[i] && LoadedAs(storage.files, paths[i], fs[i]))
    && (forall s :: s in t.index <==> WithStatus(fs, s) != [])
    && (forall s :: s in t.index ==> t.index[s].features == SortedBucket(fs, s))
  }

  /** The part of FeatureTracker(config, storage) after the format gate. */
  method OpenTracker(config: Config, storage: MemStorage) returns (r: Result<FeatureTracker>, ghost fs: seq<Feature>)
    requires FormatCheck(config) == Pass && "datadir" in config
    modifies storage`files, storage`readCounts
    ensures storage.files == old(storage.files)
    ensures var paths := ListFiles(storage.files, NameToPath(config["datadir"], "*", PropertiesSuffix));
      (r.Err? ==> LoadedAll(storage.files, paths) == Err(r.error))
      && (r.Ok? ==> fresh(r.value) && Indexed(r.value, config, storage, paths, fs))
  {
    var t := new FeatureTracker(config, storage);
    assert t.PathOf("*", PropertiesSuffix) == NameToPath(config["datadir"], "*", PropertiesSuffix);
    var indexed;
    indexed, fs := t.IndexFeatures();
    if indexed.Fail? {
      return Err(indexed.error), fs;
    }
    r := Ok(t);
  }
}
