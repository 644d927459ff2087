/** The upgrader of src/deft/upgrade.py: it reads the tracker's configuration, refuses data
    that is already in the current format or in a format it does not know, and upgrades
    format 1.0 by rewriting every record file matching "*.status" in the data directory from
    its 1.0 YAML form into the fixed-width 2.0 form, then saves the configuration with the new format version. */
module Upgrade {
  import opened Wrappers
  import opened PyValues
  import opened Text
  import opened Paths
  import opened Memory
  import opened Indexing
  import opened Tracker

  /** A format 1.0 record file, as the map yaml.safe_load returns for it. */
  type Record = map<string, PyValue>

  /** The YAML codec (yaml.safe_load and yaml.safe_dump), which the model takes as given:
      reading a configuration, reading a 1.0 record, and dumping a configuration. */
  datatype Codec = Codec(loadConfig: string -> Result<Config>,
                         loadRecord: string -> Result<Record>,
                         dumpConfig: Config -> string)

  /** The glob upgrade_from_1_0 lists: os.path.join(datadir, "*.status"). */
  function RecordPattern(datadir: Path): Path {
    PathJoin(datadir, "*" + PropertiesSuffix)
  }

  /** load_text on the memory storage: the text at p, or the error opening it raises. */
  function TextAt(files: Files, p: Path): (r: Result<string>)
    ensures r.Ok? <==> p in files && files[p].Some?
    ensures r.Ok? ==> r.value == files[p].value
  {
    if p in files && files[p].None? then Err(IOError(p + " is a directory"))
    else if p !in files then Err(IOError(p + " does not exist"))
    else Ok(files[p].value)
  }

  /** load_config_with_storage: "tracker not initialised" unless the configuration directory
      exists, otherwise the configuration file read as YAML. */
  function ConfigAt(files: Files, codec: Codec): Result<Config> {
    if ConfigDir !in files then Err(UserError("tracker not initialised"))
    else match TextAt(files, ConfigFile)
      case Err(e) => Err(e)
      case Ok(text) => codec.loadConfig(text)
  }

  /** format_status(status, priority) on the values of a 1.0 record: "{1:>8} {0}" formats
      each of them with str(). */
  function FormatRecord(status: PyValue, priority: PyValue): (r: string)
    ensures status.PStr? && priority.PInt? ==> r == FormatStatus(status.s, priority.i)
    ensures |r| == (if |Str(priority)| < 8 then 8 else |Str(priority)|) + 1 + |Str(status)|
    ensures r[|r| - |Str(status)|..] == Str(status) && r[|r| - |Str(status)| - 1] == ' '
  {
    PadLeft(Str(priority), 8) + " " + Str(status)
  }

  /** The 2.0 text a 1.0 record is rewritten to: its YAML read back, then yaml["priority"]
      and yaml["status"] (KeyError when either is missing) formatted by format_status. */
  function RecordText(codec: Codec, text: string): (r: Result<string>)
    ensures r.Ok? <==> codec.loadRecord(text).Ok? && "priority" in codec.loadRecord(text).value
                       && "status" in codec.loadRecord(text).value
  {
    match codec.loadRecord(text)
    case Err(e) => Err(e)
    case Ok(doc) =>
      if "priority" !in doc then Err(KeyError("priority"))
      else if "status" !in doc then Err(KeyError("status"))
      else Ok(FormatRecord(doc["status"], doc["priority"]))
  }

  /** What the loop body reads for the file p: the 2.0 text of its record, or the error
      reading it raises. */
  function NewText(files: Files, codec: Codec, p: Path): Result<string> {
    match TextAt(files, p)
    case Err(e) => Err(e)
    case Ok(text) => RecordText(codec, text)
  }

  /** One pass of the rewrite loop for the file p: load_yaml, the lookups, save_text. */
  function RewriteOne(files: Files, readonly: bool, codec: Codec, p: Path): Result<Files> {
    match NewText(files, codec, p)
    case Err(e) => Err(e)
    case Ok(record) => SavedText(files, readonly, p, record)
  }

  /** The rewrite loop over paths: the files after it and its outcome. The first error stops
      the loop, and the files written before it stay written. */
  function RewriteAll(files: Files, readonly: bool, codec: Codec, paths: seq<Path>): (r: (Files, Outcome))
    ensures files.Keys <= r.0.Keys
    ensures readonly ==> r.0 == files && (paths != [] ==> r.1.Fail?)
    decreases |paths|
  {
    if paths == [] then (files, Pass)
    else
      var (f, o) := RewriteAll(files, readonly, codec, paths[..|paths| - 1]);
      if o.Fail? then (f, o)
      else match RewriteOne(f, readonly, codec, paths[|paths| - 1])
        case Err(e) => (f, Fail(e))
        case Ok(g) => (g, Pass)
  }

  /** upgrade_from_1_0(storage, config): the rewrite loop over the files that match
      "*.status" in the data directory, in sorted order; KeyError when the configuration
      names no data directory. */
  function FromVersion1(files: Files, readonly: bool, codec: Codec, config: Config): (r: (Files, Outcome))
    ensures r.1.Pass? ==> "datadir" in config
    ensures files.Keys <= r.0.Keys
    ensures readonly ==> r.0 == files
    ensures readonly && "datadir" in config && ListFiles(files, RecordPattern(config["datadir"])) != [] ==> r.1.Fail?
  {
    if "datadir" !in config then (files, Fail(KeyError("datadir")))
    else RewriteAll(files, readonly, codec, ListFiles(files, RecordPattern(config["datadir"])))
  }

  /** config["format"] = CurrentVersion: the format becomes the current version and every
      other key keeps its value. */
  function UpgradedConfig(config: Config): (r: Config)
    ensures r.Keys == config.Keys + {"format"}
    ensures r["format"] == FormatVersion && FormatCheck(r) == Pass
    ensures forall k :: k in config && k != "format" ==> r[k] == config[k]
  {
    config["format" := FormatVersion]
  }

  /** What upgrade(storage) does once it has the configuration: the files afterwards and the
      outcome. Any version but 1.0 is refused before anything is written; 1.0 data has its
      records rewritten and then the upgraded configuration saved. */
  function UpgradeWith(files: Files, readonly: bool, codec: Codec, config: Config): (r: (Files, Outcome))
    ensures r.1.Pass? ==> "format" in config && config["format"] == "1.0" && "datadir" in config
    ensures "format" in config && config["format"] == FormatVersion
            ==> r == (files, Fail(UserError("already at version " + FormatVersion)))
    ensures "format" in config && config["format"] != FormatVersion && config["format"] != "1.0"
            ==> r == (files, Fail(UserError("cannot upgrade from " + config["format"] + " to " + FormatVersion)))
  {
    if "format" !in config then (files, Fail(KeyError("format")))
    else if config["format"] == FormatVersion then
      (files, Fail(UserError("already at version " + FormatVersion)))
    else if config["format"] != "1.0" then
      (files, Fail(UserError("cannot upgrade from " + config["format"] + " to " + FormatVersion)))
    else
      var (f, o) := FromVersion1(files, readonly, codec, config);
      if o.Fail? then (f, o)
      else match SavedText(f, readonly, ConfigFile, codec.dumpConfig(UpgradedConfig(config)))
        case Err(e) => (f, Fail(e))
        case Ok(g) => (g, Pass)
  }

  /** upgrade(storage): the files afterwards and the outcome; an uninitialised tracker or an
      unreadable configuration is refused before anything is written. */
  function UpgradeEffect(files: Files, readonly: bool, codec: Codec): (r: (Files, Outcome))
    ensures ConfigAt(files, codec).Err? ==> r == (files, Fail(ConfigAt(files, codec).error))
    ensures r.1.Pass? ==> ConfigAt(files, codec).Ok?
  {
    match ConfigAt(files, codec)
    case Err(e) => (files, Fail(e))
    case Ok(config) => UpgradeWith(files, readonly, codec, config)
  }

  // ---------------------------------------------------------------------
  // The upgrader over the memory storage

  /** load_yaml(p) for a 1.0 record followed by the lookups: the 2.0 text to write. */
  method LoadRecord(s: MemStorage, codec: Codec, p: Path) returns (r: Result<string>)
    modifies s`files, s`readCounts
    ensures s.files == old(s.files)
    ensures r == NewText(s.files, codec, p)
  {
    var text := LoadText(s, p);
    if text.Err? {
      return Err(text.error);
    }
    var doc := codec.loadRecord(text.value);
    if doc.Err? {
      return Err(doc.error);
    }
    if "priority" !in doc.value {
      return Err(KeyError("priority"));
    }
    if "status" !in doc.value {
      return Err(KeyError("status"));
    }
    var priority := doc.value["priority"];
    var status := doc.value["status"];
    r := Ok(FormatRecord(status, priority));
  }

  /** The body of the loop of upgrade_from_1_0 for the file p. */
  method RewriteFile(s: MemStorage, codec: Codec, p: Path) returns (r: Outcome)
    modifies s`files, s`readCounts
    ensures RewriteOne(old(s.files), s.readonly, codec, p).Err? ==>
      r == Fail(RewriteOne(old(s.files), s.readonly, codec, p).error) && s.files == old(s.files)
    ensures RewriteOne(old(s.files), s.readonly, codec, p).Ok? ==>
      r == Pass && s.files == RewriteOne(old(s.files), s.readonly, codec, p).value
  {
    var record := LoadRecord(s, codec, p);
    if record.Err? {
      return Fail(record.error);
    }
    r := SaveText(s, p, record.value);
  }

  /** The loop of upgrade_from_1_0 over the listed record files. */
  method RewriteRecords(s: MemStorage, codec: Codec, paths: seq<Path>) returns (r: Outcome)
    modifies s`files, s`readCounts
    ensures (s.files, r) == RewriteAll(old(s.files), s.readonly, codec, paths)
  {
    for i := 0 to |paths|
      invariant (s.files, Pass) == RewriteAll(old(s.files), s.readonly, codec, paths[..i])
    {
      assert paths[..i + 1][..i] == paths[..i];
      r := RewriteFile(s, codec, paths[i]);
      if r.Fail? {
        RewriteAllStops(old(s.files), s.readonly, codec, paths, i + 1);
        return;
      }
    }
    assert paths[..|paths|] == paths;
    r := Pass;
  }

  /** Once rewriting paths[..k] fails, rewriting all of paths stops there too: the same
      files and the same error. */
  lemma {:induction false} RewriteAllStops(files: Files, readonly: bool, codec: Codec, paths: seq<Path>, k: nat)
    requires k <= |paths| && RewriteAll(files, readonly, codec, paths[..k]).1.Fail?
    ensures RewriteAll(files, readonly, codec, paths) == RewriteAll(files, readonly, codec, paths[..k])
    decreases |paths|
  {
    if k < |paths| {
      var init := paths[..|paths| - 1];
      assert init[..k] == paths[..k];
      RewriteAllStops(files, readonly, codec, init, k);
    } else {
      assert paths[..k] == paths;
    }
  }

  /** upgrade_from_1_0(storage, config) */
  method UpgradeFrom1_0(s: MemStorage, codec: Codec, config: Config) returns (r: Outcome)
    modifies s`files, s`readCounts
    ensures (s.files, r) == FromVersion1(old(s.files), s.readonly, codec, config)
  {
    if "datadir" !in config {
      return Fail(KeyError("datadir"));
    }
    var datadir := config["datadir"];
    var statusFiles := s.List(PathJoin(datadir, "*" + PropertiesSuffix));
    r := RewriteRecords(s, codec, statusFiles);
  }

  /** upgrade(storage); the closing message it prints is not modelled. */
  method Upgrade(s: MemStorage, codec: Codec) returns (r: Outcome)
    modifies s`files, s`readCounts
    ensures (s.files, r) == UpgradeEffect(old(s.files), s.readonly, codec)
  {
    if !s.Exists(ConfigDir) {
      return Fail(UserError("tracker not initialised"));
    }
    var text := LoadText(s, ConfigFile);
    if text.Err? {
      return Fail(text.error);
    }
    var loaded := codec.loadConfig(text.value);
    if loaded.Err? {
      return Fail(loaded.error);
    }
    var config := loaded.value;
    if "format" !in config {
      return Fail(KeyError("format"));
    }
    var storageVersion := config["format"];
    if storageVersion == FormatVersion {
      return Fail(UserError("already at version " + FormatVersion));
    } else if storageVersion == "1.0" {
      r := UpgradeFrom1_0(s, codec, config);
      if r.Fail? {
        return;
      }
    } else {
      return Fail(UserError("cannot upgrade from " + storageVersion + " to " + FormatVersion));
    }
    config := config["format" := FormatVersion];
    r := SaveText(s, ConfigFile, codec.dumpConfig(config));
  }

  // ---------------------------------------------------------------------
  // Properties

  /** The directories makedirs(p) marks, one per step of its recursion. */
  function DirChain(p: Path): set<Path>
    decreases |p|
  {
    if p == "" || AllSlashes(p) then {}
    else
      DirnameShorter(p);
      {p} + DirChain(Dirname(p))
  }

  /** The directories the writes to paths mark, in any order. */
  function Chains(paths: seq<Path>): set<Path>
    decreases |paths|
  {
    if paths == [] then {} else Chains(paths[..|paths| - 1]) + DirChain(Dirname(paths[|paths| - 1]))
  }

  /** makedirs(p) turns exactly the directories of its chain into markers and leaves every
      other entry as it was. */
  lemma {:induction false} WithDirsMarksChain(files: Files, p: Path)
    requires WithDirs(files, p).Ok?
    ensures var f := WithDirs(files, p).value;
      (forall k :: k in f <==> k in files || k in DirChain(p))
      && forall k :: k in f ==> f[k] == if k in DirChain(p) then None else files[k]
    decreases |p|
  {
    if p != "" && !AllSlashes(p) {
      DirnameShorter(p);
      WithDirsMarksChain(files, Dirname(p));
    }
  }

  /** The last pass of a successful rewrite loop: the loop before it succeeded, and the last
      file's 2.0 text was saved over the files it left. */
  lemma RewriteAllLast(files: Files, readonly: bool, codec: Codec, paths: seq<Path>)
    requires paths != [] && RewriteAll(files, readonly, codec, paths).1 == Pass
    ensures var f := RewriteAll(files, readonly, codec, paths[..|paths| - 1]).0;
      var p := paths[|paths| - 1];
      && RewriteAll(files, readonly, codec, paths[..|paths| - 1]).1 == Pass
      && NewText(f, codec, p).Ok? && WithDirs(f, Dirname(p)).Ok?
      && RewriteAll(files, readonly, codec, paths).0 == WithDirs(f, Dirname(p)).value[p := Some(NewText(f, codec, p).value)]
  {
    var f := RewriteAll(files, readonly, codec, paths[..|paths| - 1]).0;
    assert RewriteOne(f, readonly, codec, paths[|paths| - 1]).Ok?;
  }

  /** A successful rewrite loop adds no entry but the listed files and the directories it
      marks, and leaves every file that is neither listed nor a directory it marks as it was. */
  lemma {:induction false} RewriteAllKeeps(files: Files, readonly: bool, codec: Codec, paths: seq<Path>)
    requires RewriteAll(files, readonly, codec, paths).1 == Pass
    ensures var f := RewriteAll(files, readonly, codec, paths).0;
      forall k :: k in f ==> k in files || k in paths || k in Chains(paths)
    ensures var f := RewriteAll(files, readonly, codec, paths).0;
      forall k :: k in files && k !in paths && k !in Chains(paths) ==> k in f && f[k] == files[k]
    decreases |paths|
  {
    if paths != [] {
      var init := paths[..|paths| - 1];
      var p := paths[|paths| - 1];
      RewriteAllLast(files, readonly, codec, paths);
      RewriteAllKeeps(files, readonly, codec, init);
      WithDirsMarksChain(RewriteAll(files, readonly, codec, init).0, Dirname(p));
      assert Chains(paths) == Chains(init) + DirChain(Dirname(p));
      assert forall k :: k in paths <==> k in init || k == p;
    }
  }

  /** A successful rewrite loop over distinct paths leaves each listed file that no write
      turns into a directory holding the 2.0 text of its original 1.0 record. */
  lemma {:induction false} RewriteAllWrites(files: Files, readonly: bool, codec: Codec, paths: seq<Path>)
    requires Distinct(paths) && RewriteAll(files, readonly, codec, paths).1 == Pass
    ensures var f := RewriteAll(files, readonly, codec, paths).0;
      forall p :: p in paths && p !in Chains(paths) ==>
        NewText(files, codec, p).Ok? && p in f && f[p] == Some(NewText(files, codec, p).value)
    decreases |paths|
  {
    if paths != [] {
      var init := paths[..|paths| - 1];
      var last := paths[|paths| - 1];
      assert Distinct(init);
      assert last !in init;
      RewriteAllLast(files, readonly, codec, paths);
      RewriteAllWrites(files, readonly, codec, init);
      RewriteAllKeeps(files, readonly, codec, init);
      var f := RewriteAll(files, readonly, codec, init).0;
      var g := RewriteAll(files, readonly, codec, paths).0;
      WithDirsMarksChain(f, Dirname(last));
      assert Chains(paths) == Chains(init) + DirChain(Dirname(last));
      assert forall p :: p in paths <==> p in init || p == last;
      forall p | p in paths && p !in Chains(paths)
        ensures NewText(files, codec, p).Ok? && p in g && g[p] == Some(NewText(files, codec, p).value)
      {
        if p != last {
          assert p in init;
        } else {
          assert NewText(files, codec, p) == NewText(f, codec, p);
        }
      }
    }
  }

  /** A successful upgrade_from_1_0: every listed record that no write turns into a directory
      holds the 2.0 text of its 1.0 YAML, and every file that does not match "*.status" in the
      data directory and is not a directory the writes mark is untouched. */
  lemma FromVersion1Effect(files: Files, readonly: bool, codec: Codec, config: Config)
    requires FromVersion1(files, readonly, codec, config).1 == Pass
    ensures "datadir" in config
    ensures var paths := ListFiles(files, RecordPattern(config["datadir"]));
      var after := FromVersion1(files, readonly, codec, config).0;
      (forall k :: k in after ==> k in files || k in paths || k in Chains(paths))
      && (forall p :: p in paths && p !in Chains(paths) ==>
            NewText(files, codec, p).Ok? && p in after && after[p] == Some(NewText(files, codec, p).value))
      && forall k :: (k in files && k !in Chains(paths)
                      && !SegmentsMatch(k, RecordPattern(config["datadir"]))) ==> k in after && after[k] == files[k]
  {
    var paths := ListFiles(files, RecordPattern(config["datadir"]));
    SortedDistinct(paths);
    RewriteAllKeeps(files, readonly, codec, paths);
    RewriteAllWrites(files, readonly, codec, paths);
  }

  /** A successful upgrade is a successful upgrade_from_1_0 followed by the save of the
      upgraded configuration. */
  lemma UpgradeSavesConfig(files: Files, readonly: bool, codec: Codec, config: Config)
    requires UpgradeWith(files, readonly, codec, config).1 == Pass
    ensures var f := FromVersion1(files, readonly, codec, config).0;
      && FromVersion1(files, readonly, codec, config).1 == Pass
      && WithDirs(f, Dirname(ConfigFile)).Ok?
      && UpgradeWith(files, readonly, codec, config).0
         == WithDirs(f, Dirname(ConfigFile)).value[ConfigFile := Some(codec.dumpConfig(UpgradedConfig(config)))]
  {
    var f := FromVersion1(files, readonly, codec, config).0;
    assert SavedText(f, readonly, ConfigFile, codec.dumpConfig(UpgradedConfig(config))).Ok?;
  }

  /** A successful upgrade: the configuration file holds the upgraded configuration, every
      listed record that no write turns into a directory holds the 2.0 text of its 1.0 YAML,
      and every other file that does not match "*.status" in the data directory is
      untouched. */
  lemma UpgradeOutcome(files: Files, readonly: bool, codec: Codec)
    requires UpgradeEffect(files, readonly, codec).1 == Pass
    ensures ConfigAt(files, codec).Ok? && "datadir" in ConfigAt(files, codec).value
    ensures var config := ConfigAt(files, codec).value;
      var paths := ListFiles(files, RecordPattern(config["datadir"]));
      var after := UpgradeEffect(files, readonly, codec).0;
      var touched := Chains(paths + [ConfigFile]);
      && ConfigFile in after && after[ConfigFile] == Some(codec.dumpConfig(UpgradedConfig(config)))
      && (forall p :: p in paths && p !in touched && p != ConfigFile ==>
            NewText(files, codec, p).Ok? && p in after && after[p] == Some(NewText(files, codec, p).value))
      && forall k :: (k in files && k !in touched && k != ConfigFile
                      && !SegmentsMatch(k, RecordPattern(config["datadir"]))) ==> k in after && after[k] == files[k]
  {
    var config := ConfigAt(files, codec).value;
    assert UpgradeEffect(files, readonly, codec) == UpgradeWith(files, readonly, codec, config);
    UpgradeSavesConfig(files, readonly, codec, config);
    FromVersion1Effect(files, readonly, codec, config);
    ConfigSaveKeeps(files, FromVersion1(files, readonly, codec, config).0, codec,
                    ListFiles(files, RecordPattern(config["datadir"])), RecordPattern(config["datadir"]),
                    codec.dumpConfig(UpgradedConfig(config)));
  }

  /** Saving the configuration after the records were rewritten into f: the rewritten
      records and the untouched files stay as they were, unless the configuration's
      directories or the configuration file itself take their place. */
  lemma ConfigSaveKeeps(files: Files, f: Files, codec: Codec, paths: seq<Path>, pattern: Path, text: string)
    requires WithDirs(f, Dirname(ConfigFile)).Ok?
    requires forall p :: p in paths && p !in Chains(paths) ==>
      NewText(files, codec, p).Ok? && p in f && f[p] == Some(NewText(files, codec, p).value)
    requires forall k :: (k in files && k !in Chains(paths) && !SegmentsMatch(k, pattern)) ==> k in f && f[k] == files[k]
    ensures var after := WithDirs(f, Dirname(ConfigFile)).value[ConfigFile := Some(text)];
      var touched := Chains(paths + [ConfigFile]);
      && (forall p :: p in paths && p !in touched && p != ConfigFile ==>
            NewText(files, codec, p).Ok? && p in after && after[p] == Some(NewText(files, codec, p).value))
      && forall k :: (k in files && k !in touched && k != ConfigFile && !SegmentsMatch(k, pattern)) ==>
            k in after && after[k] == files[k]
  {
    WithDirsMarksChain(f, Dirname(ConfigFile));
    assert (paths + [ConfigFile])[..|paths|] == paths;
    assert Chains(paths + [ConfigFile]) == Chains(paths) + DirChain(Dirname(ConfigFile));
  }

  /** A format 1.0 record whose priority is an int that fits in eight characters and whose
      status is a string is rewritten to the 2.0 record the tracker reads back as the same
      priority and status. */
  lemma RewrittenRecordReadsBack(codec: Codec, text: string, status: string, priority: int)
    requires codec.loadRecord(text) == Ok(map["priority" := PInt(priority), "status" := PStr(status)])
    requires -9999999 <= priority <= 99999999
    ensures RecordText(codec, text) == Ok(FormatStatus(status, priority))
    ensures ParseStatus(RecordText(codec, text).value) == Ok((priority, status))
  {
    StatusRoundTrip(status, priority);
  }
}
