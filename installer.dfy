/** The installer's in-memory state and its record keeping (src/lib.rs). */
module Installer {
  import opened Wrappers
  import opened FileSystem
  import opened Errors
  import opened Platform
  import opened Config

  /** An install known to the installer: its record file and the record. */
  datatype Install = Install(installFile: Path, config: InstallConfig)
  {
    /** `PartialEq<InstallConfig>`: the two go by the same name. */
    predicate Matches(other: InstallConfig) {
      config.Key() == other.Key()
    }

    static function From(pair: (Path, InstallConfig)): Install {
      Install(pair.0, pair.1)
    }
  }

  /** Where `add_install` keeps the record of `c`. */
  function RecordFile(adoptiumDir: Option<Path>, c: InstallConfig): Path {
    InstallsDirectory(adoptiumDir) + [c.Key() + ".toml"]
  }

  /** A failed write leaves the file at `p` as it was, except that opening
      it may have created it empty. */
  ghost predicate Untouched(n: Node, m: Node, p: Path) {
    Lookup(m, p) == Lookup(n, p) || (!Exists(n, p) && Lookup(m, p) == Some(File([])))
  }

  /** `Install::update`: opens the record with `create(true)` and no
      truncation, then writes the encoded record at offset 0. A shorter
      record than the one on disk leaves the old tail in place. */
  method WriteRecord(host: Host, toml: Toml, install: Install) returns (r: Result<(), InstallerError>)
    modifies host
    ensures host.log == old(host.log)
    ensures SameOutside(old(host.root), host.root, install.installFile)
    ensures r.Ok? ==> (toml.encodeConfig(install.config).Some? &&
              Lookup(host.root, install.installFile) ==
              Some(File(Overlay(Contents(old(host.root), install.installFile), toml.encodeConfig(install.config).value))))
    ensures r.Ok? && toml.ConfigRoundTrip(install.config) &&
            |Contents(old(host.root), install.installFile)| <= |toml.encodeConfig(install.config).value| &&
            !host.fails(IoOp.ReadFile(install.installFile)) ==>
              ReadInstall(host, toml, install.installFile) == Ok(install.config)
    ensures r == Err(TomlSer) ==>
              Lookup(host.root, install.installFile) == Some(File(Contents(old(host.root), install.installFile)))
    ensures r.Err? ==> Untouched(old(host.root), host.root, install.installFile)
  {
    var file := install.installFile;
    ghost var before := host.root;
    var open := host.OpenWrite(file, false);
    if open.Err? {
      return Err(open.error);
    }
    if !Exists(before, file) {
      LookupPutHere(before, file, File([]));
      PutOutside(before, file, File([]), file);
    }
    assert Lookup(host.root, file) == Some(File(Contents(before, file)));
    var encoded := toml.encodeConfig(install.config);
    if encoded.None? {
      return Err(TomlSer);
    }
    ghost var afterOpen := host.root;
    var written := host.WriteAll(file, encoded.value);
    if written.Err? {
      return Err(written.error);
    }
    LookupPutExisting(afterOpen, file, File(Overlay(Contents(before, file), encoded.value)));
    PutOutside(afterOpen, file, File(Overlay(Contents(before, file), encoded.value)), file);
    return Ok(());
  }

  class Installer {
    var settings: Settings
    var installs: seq<Install>

    constructor (settings0: Settings, installs0: seq<Install>)
      ensures settings == settings0 && installs == installs0
    {
      settings := settings0;
      installs := installs0;
    }

    /** `does_install_exist`: some known install goes by the same name. */
    method DoesInstallExist(config: InstallConfig) returns (b: bool)
      ensures b <==> exists i :: 0 <= i < |installs| && installs[i].config.Id() == config.Id()
    {
      var i := 0;
      while i < |installs|
        invariant 0 <= i <= |installs|
        invariant forall j :: 0 <= j < i ==> installs[j].config.Id() != config.Id()
      {
        KeyIdentity(installs[i].config, config);
        if installs[i].Matches(config) {
          return true;
        }
        i := i + 1;
      }
      return false;
    }

    /** `add_install`: creates the installs directory when missing, writes the
        record, and only then remembers the install. */
    method AddInstall(host: Host, toml: Toml, config: InstallConfig) returns (r: Result<(), InstallerError>)
      modifies this, host
      ensures settings == old(settings)
      ensures installs == if r.Ok? then old(installs) + [Install(RecordFile(host.adoptiumDir, config), config)]
                          else old(installs)
      ensures host.log == old(host.log)
      ensures SameOutside(old(host.root), host.root, InstallsDirectory(host.adoptiumDir))
      ensures r.Ok? ==> (toml.encodeConfig(config).Some? &&
                Lookup(host.root, RecordFile(host.adoptiumDir, config)) ==
                Some(File(Overlay(Contents(old(host.root), RecordFile(host.adoptiumDir, config)), toml.encodeConfig(config).value))))
      ensures r.Ok? && toml.ConfigRoundTrip(config) && !Exists(old(host.root), RecordFile(host.adoptiumDir, config)) &&
              !host.fails(IoOp.ReadFile(RecordFile(host.adoptiumDir, config))) ==>
                ReadInstall(host, toml, RecordFile(host.adoptiumDir, config)) == Ok(config)
    ensures r.Err? ==> Untouched(old(host.root), host.root, RecordFile(host.adoptiumDir, config))
    {
      var parents := InstallsDirectory(host.adoptiumDir);
      var loc := parents + [config.Key() + ".toml"];
      ghost var start := host.root;
      if !Exists(host.root, parents) {
        var made := host.CreateDirAll(parents);
        if made.Err? {
          return Err(made.error);
        }
        MkdirAllResult(start, parents, parents);
        MkdirAllOutside(start, parents, parents);
        LookupSnoc(host.root, parents, config.Key() + ".toml");
        ExistsAbove(start, parents, loc);
      }
      ghost var mid := host.root;
      assert Contents(mid, loc) == Contents(start, loc);
      var written := WriteRecord(host, toml, Install(loc, config));
      if written.Err? {
        return Err(written.error);
      }
      assert Prefix(parents, loc);
      SameOutsideWiden(mid, host.root, parents, loc);
      installs := installs + [Install(loc, config)];
      return Ok(());
    }
  }

  /** Where a workflow of `install` or `update` stopped: at the step that
      failed, or after all of them. */
  datatype Stop = AtLookup | AtDownload | AtFindData | AtMoveData | AtUpdateSystem | AtRecord | Finished
  {
    /** Stopped before any system command was started. */
    predicate BeforeSystem() { AtLookup? || AtDownload? || AtFindData? || AtMoveData? }

    /** Stopped before the record file was opened. */
    predicate BeforeRecord() { BeforeSystem() || AtUpdateSystem? }
  }

  /** The "up to date" cell of the install table. */
  datatype UpToDate = Yes | No(latest: string)
  {
    function ToString(): string {
      match this
      case Yes => "Yes"
      case No(v) => "No(Latest: " + v + ")"
    }
  }

  /** The cell's text tells the two cases apart and gives back the latest version. */
  lemma UpToDateText(a: UpToDate, b: UpToDate)
    ensures a.ToString() == b.ToString() <==> a == b
    ensures a.No? ==> a.ToString()[11..|a.ToString()| - 1] == a.latest
  {
    if a.ToString() == b.ToString() {
      assert a.ToString()[0] == b.ToString()[0];
      if a.No? && b.No? {
        assert a.latest == a.ToString()[11..|a.ToString()| - 1];
        assert b.latest == b.ToString()[11..|b.ToString()| - 1];
      }
    }
  }

  /** A row of the install table. */
  datatype InstallTable = InstallTable(
    version: string,
    location: string,
    installedOn: Instant,
    id: string,
    upToDate: UpToDate)

  /** A row of the table for `install`: its version, location as text, install
      time and name, with the given freshness. */
  function Row(install: Install, upToDate: UpToDate): (t: InstallTable)
    ensures t.version == install.config.currentVersion.semver && t.installedOn == install.config.installTime
    ensures t.upToDate == upToDate
  {
    InstallTable(install.config.currentVersion.semver, PathText(install.config.installLocation),
                 install.config.installTime, install.config.Key(), upToDate)
  }

  /** A row is named by its install's key, so rows of distinct installs
      have distinct names. */
  lemma RowNames(a: Install, b: Install, x: UpToDate, y: UpToDate)
    ensures Row(a, x).id == a.config.Key()
    ensures Row(a, x).id == Row(b, y).id <==> a.config.Id() == b.config.Id()
  {
    KeyIdentity(a.config, b.config);
  }

  /** `iter_mut().find(|v| v.config == name)`: the index of the first install
      going by `name`, or the number of installs when none does. */
  function Find(installs: seq<Install>, name: string): (k: nat)
    ensures k <= |installs|
    ensures k < |installs| ==> installs[k].config.Matches(name)
    ensures forall j :: 0 <= j < k ==> !installs[j].config.Matches(name)
  {
    if installs == [] then 0
    else if installs[0].config.Matches(name) then 0
    else 1 + Find(installs[1..], name)
  }

  /** The status of a finished command as `run_command` reports it: the exit
      code cast to a byte, and 1 for a process ended by a signal. */
  function ExitCode(code: Option<int>): (b: int)
    ensures 0 <= b < 256
    ensures code.None? ==> b == 1
    ensures code.Some? ==> (b - code.value) % 256 == 0
    ensures code.Some? && 0 <= code.value < 256 ==> b == code.value
  {
    match code
    case None => 1
    case Some(c) => c % 256
  }

  /** `run_command`: fails only when the command cannot be started or waited for. */
  method RunCommand(host: Host, command: seq<string>) returns (r: Result<int, InstallerError>)
    modifies host
    ensures host.log == old(host.log) + [command]
    ensures host.root == old(host.root)
    ensures r == match host.exec(command)
                 case SpawnFailed => Err(Io(IoOp.Spawn(command)))
                 case Exited(code) => Ok(ExitCode(code))
  {
    var status := host.Run(command);
    if status.Err? {
      return Err(status.error);
    }
    return Ok(ExitCode(status.value));
  }
}
