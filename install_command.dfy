/** The `install` command (src/commands/install.rs): asks the catalog for the
    newest matching release, downloads its first binary into a staging
    directory, moves the payload into the install location, registers it with
    the system and records it. */
module InstallCommand {
  import opened Wrappers
  import opened Types
  import opened FileSystem
  import opened Errors
  import opened Platform
  import opened ReleaseInformation
  import opened Config
  import opened Installer
  import opened Linux
  import opened Download
  import opened LinuxConfig

  /** The command-line arguments. */
  datatype Args = Args(
    imageType: Option<ImageType>,
    jvmImpl: Option<AdoptiumJvmImpl>,
    releaseType: Option<ReleaseType>,
    version: int)
  {
    /** `InstallCommand::request`: the newest release of the feature version
        for this system; the release type defaults to GA, the image type and
        JVM implementation filter only when given. */
    function Request(system: SystemProperties): (p: Params)
      ensures p.featureVersion == version
      ensures p.releaseType == releaseType.GetOr(ReleaseType.Default())
      ensures p.queryParams == QueryParams(Some(system), Some(Sort(Descending, SortMethod.Default, 0, 1)), None,
                                           imageType, jvmImpl, None, None, None)
    {
      ParamsBuilder.Empty()
        .SetFeatureVersion(version)
        .SetReleaseType(releaseType.GetOr(ReleaseType.Default()))
        .WithQueryBuilder((query: QueryParamsBuilder) =>
          query.SetImageType(imageType)
               .SetJvmImpl(jvmImpl)
               .SetLocalSystem(Some(system))
               .WithSort((sort: SortBuilder) => sort.SetSortOrder(Descending).SetSortMethod(SortMethod.Default).SetPage(0).SetPageSize(1)))
        .Build()
    }
  }

  /** The release and binary `execute` takes: the first of each, where an
      empty list aborts (`remove(0)`). */
  function Pick(host: Host, args: Args): (r: Result<(Datum, Binary), InstallerError>)
    ensures var answer := host.catalog(args.Request(host.system));
            && (answer.None? ==> r == Err(Adoptium))
            && (answer.Some? && r.Err? ==> r.error.Panic?)
            && (r.Ok? <==> answer.Some? && answer.value != [] && answer.value[0].binaries != [])
            && (r.Ok? ==> r.value == (answer.value[0], answer.value[0].binaries[0]))
  {
    match host.catalog(args.Request(host.system))
    case None => Err(Adoptium)
    case Some(releases) =>
      if releases == [] then Err(Panic("remove(0) on an empty release list"))
      else if releases[0].binaries == [] then Err(Panic("remove(0) on a release without binaries"))
      else Ok((releases[0], releases[0].binaries[0]))
  }

  /** The record `execute` assembles, before its location is set: the
      binary's heap size, image type, JVM implementation and project, the
      release's vendor, type and version, the asked feature version. */
  function Record(args: Args, release: Datum, binary: Binary, now: Instant): InstallConfig {
    InstallConfig(
      [], now,
      InstallSettings(binary.heapSize, binary.imageType, binary.jvmImpl, release.vendor, binary.project,
                      None, release.releaseType, args.version),
      release.versionData)
  }

  /** The record with its install location, the directory named by its key
      under the configured install location. */
  function Placed(c: InstallConfig, settings: Settings): (p: InstallConfig)
    ensures p.Key() == c.Key() && p.Id() == c.Id()
    ensures p.(installLocation := c.installLocation) == c
    ensures Prefix(settings.installLocation, p.installLocation) && |p.installLocation| == |settings.installLocation| + 1
  {
    c.(installLocation := settings.installLocation + [c.Key()])
  }

  /** Where the archive of `c` is unpacked: the directory named by its key
      in the temporary directory. */
  function Staging(host: Host, c: InstallConfig): Path {
    host.tempDir + [c.Key()]
  }

  /** Two installs of distinct identity never share an install location. */
  lemma LocationsApart(a: InstallConfig, b: InstallConfig, s: Settings)
    requires a.Id() != b.Id()
    ensures Disjoint(Placed(a, s).installLocation, Placed(b, s).installLocation)
  {
    KeyIdentity(a, b);
    var la := Placed(a, s).installLocation;
    var lb := Placed(b, s).installLocation;
    assert la[|s.installLocation|] == a.Key() && lb[|s.installLocation|] == b.Key();
  }

  /** Some known install has the identity of `c`. */
  predicate Known(installs: seq<Install>, c: InstallConfig) {
    exists i :: 0 <= i < |installs| && installs[i].config.Id() == c.Id()
  }

  /** What ends up in the install location: the listing of the archive's
      payload root, or the whole archive when no entry holds `bin`. */
  function PayloadEntries(es: seq<Entry>): seq<Entry> {
    var k := FirstPayload(es);
    if k < |es| then es[k].node.entries else es
  }

  /** An archive that unpacks to listings with unique names, as every real
      directory has. */
  predicate UniquelyNamed(f: Fetch) {
    f.Delivered? && UniqueNames(f.entries) && UniqueNames(PayloadEntries(f.entries))
  }

  /** The payload root of an unpacked archive holds the payload's entries. */
  lemma PayloadLookup(n: Node, dir: Path, es: seq<Entry>)
    requires Lookup(n, dir) == Some(Dir(es)) && UniqueNames(es)
    ensures Lookup(n, PayloadRoot(dir, es)) == Some(Dir(PayloadEntries(es)))
  {
    var k := FirstPayload(es);
    if k < |es| {
      LookupSnoc(n, dir, es[k].name);
      ChildAt(es, k);
    }
  }

  /** What the steps of `execute` after the identity check leave, by where
      they stopped (`r` the result; `root0`, `log0` the tree and command log
      before, `root`, `log` after). Each step runs only when the previous one
      succeeded: no system command is started before the payload is moved,
      a failed registration ends with the commands started up to the failing
      one, and the record is written only after the whole plan started. Until
      the record is written nothing outside the staging directory and the
      install location changes, and nothing outside them and the installs
      directory ever does; a failed record write leaves the record file as
      it was, or creates it empty. When the staging and installs directories lie
      apart from the location, the location holds exactly the payload once
      it has been moved. */
  ghost predicate Provisioned(host: Host, system: SysConfig, c: InstallConfig, link: string,
                              r: Result<(), InstallerError>, stop: Stop,
                              root0: Node, root: Node, log0: seq<seq<string>>, log: seq<seq<string>>)
  {
    var plan := UpdateSystemPlan(system, c);
    var temp := Staging(host, c);
    var loc := c.installLocation;
    var records := InstallsDirectory(host.adoptiumDir);
    && (r.Ok? <==> stop.Finished?)
    && !stop.AtLookup?
    && (stop.BeforeSystem() ==> log == log0)
    && (stop.AtUpdateSystem? ==> r == Outcome(plan, host.exec) && log == log0 + Issued(plan, host.exec))
    && (!stop.BeforeRecord() ==> Outcome(plan, host.exec).Ok? && log == log0 + plan)
    && (forall q :: Disjoint(q, temp) && Disjoint(q, loc) && (stop.BeforeRecord() || Disjoint(q, records)) ==>
          Lookup(root, q) == Lookup(root0, q))
    && (stop.AtRecord? && Disjoint(RecordFile(host.adoptiumDir, c), temp) && Disjoint(RecordFile(host.adoptiumDir, c), loc) ==>
          Untouched(root0, root, RecordFile(host.adoptiumDir, c)))
    && (r.Ok? ==> host.fetch(link).Delivered?)
    && (!stop.BeforeRecord() && UniquelyNamed(host.fetch(link)) && Disjoint(temp, loc) && Disjoint(records, loc) ==>
          Lookup(root, loc) == Some(Dir(PayloadEntries(host.fetch(link).entries))))
  }

  /** The first steps of provisioning: download the archive of `link` into
      the staging directory of `c`, find its payload and move it to the
      install location. No command is started and nothing outside the
      staging directory and the location changes; `stop` tells which step
      failed. When the two lie apart and the archive's names are unique,
      success leaves exactly the payload at the location. */
  method PlacePayload(host: Host, c: InstallConfig, link: string)
    returns (r: Result<(), InstallerError>, installer: SysInstaller, ghost stop: Stop)
    modifies host
    ensures installer.installData == c
    ensures host.log == old(host.log)
    ensures r.Ok? <==> stop.Finished?
    ensures stop.AtDownload? || stop.AtFindData? || stop.AtMoveData? || stop.Finished?
    ensures forall q :: Disjoint(q, Staging(host, c)) && Disjoint(q, c.installLocation) ==>
              Lookup(host.root, q) == Lookup(old(host.root), q)
    ensures r.Ok? ==> host.fetch(link).Delivered?
    ensures r.Ok? && UniquelyNamed(host.fetch(link)) && Disjoint(Staging(host, c), c.installLocation) ==>
              Lookup(host.root, c.installLocation) == Some(Dir(PayloadEntries(host.fetch(link).entries)))
  {
    var temp := Staging(host, c);
    var loc := c.installLocation;
    var fetched := host.fetch(link);
    ghost var start := host.root;
    ghost var good := UniquelyNamed(fetched) && Disjoint(temp, loc);
    installer := new SysInstaller(c, temp);
    var downloaded := Download.Download(host, link, temp);
    if downloaded.Err? {
      return Err(downloaded.error), installer, AtDownload;
    }
    var found := installer.FindInternalData(host);
    if found.Err? {
      return Err(found.error), installer, AtFindData;
    }
    PayloadRootBelow(temp, host.ReadDir(temp).value);
    if good {
      PayloadLookup(host.root, temp, fetched.entries);
      if FirstPayload(fetched.entries) < |fetched.entries| {
        DisjointExtend(temp, fetched.entries[FirstPayload(fetched.entries)].name, loc);
      }
    }
    ghost var unpacked := host.root;
    r := installer.MoveData(host);
    forall q | Disjoint(q, temp) && Disjoint(q, loc)
      ensures Lookup(host.root, q) == Lookup(start, q)
    {
      DisjointBelow(temp, installer.extractedData, q);
      assert Lookup(host.root, q) == Lookup(unpacked, q);
    }
    stop := if r.Ok? then Finished else AtMoveData;
  }

  /** The steps of `execute` after the identity check: place the payload,
      register it with the system and remember the install. `stop` tells
      which step failed. */
  method Provision(app: Installer, host: Host, toml: Toml, c: InstallConfig, link: string)
    returns (r: Result<(), InstallerError>, ghost stop: Stop)
    modifies app, host
    ensures app.settings == old(app.settings)
    ensures app.installs == if r.Ok? then old(app.installs) + [Install(RecordFile(host.adoptiumDir, c), c)]
                            else old(app.installs)
    ensures Provisioned(host, app.settings.system, c, link, r, stop, old(host.root), host.root, old(host.log), host.log)
  {
    var placed, installer;
    placed, installer, stop := PlacePayload(host, c, link);
    if placed.Err? {
      return placed, stop;
    }
    ghost var moved := host.root;
    var plan := UpdateSystemPlan(app.settings.system, c);
    var registered := installer.UpdateSystem(host, app.settings.system);
    if registered.Err? {
      return registered, AtUpdateSystem;
    }
    IssuedOk(plan, host.exec);
    var added := app.AddInstall(host, toml, c);
    ghost var records := InstallsDirectory(host.adoptiumDir);
    forall q | Disjoint(q, Staging(host, c)) && Disjoint(q, c.installLocation) && Disjoint(q, records)
      ensures Lookup(host.root, q) == Lookup(old(host.root), q)
    {
      assert Lookup(host.root, q) == Lookup(moved, q);
    }
    if Disjoint(records, c.installLocation) {
      assert Lookup(host.root, c.installLocation) == Lookup(moved, c.installLocation);
    }
    ghost var file := RecordFile(host.adoptiumDir, c);
    if Disjoint(file, Staging(host, c)) && Disjoint(file, c.installLocation) {
      assert Lookup(moved, file) == Lookup(old(host.root), file);
    }
    if added.Err? {
      return added, AtRecord;
    }
    return Ok(()), Finished;
  }

  /** `execute`. An install with the identity of one already known is not
      made again. Otherwise, on success, the install is remembered with its
      record under the installs directory, the whole registration plan was
      started, and, when the temporary directory and the installs directory
      lie apart from the install location, the location holds exactly the
      payload of the downloaded archive. */
  method Execute(app: Installer, host: Host, toml: Toml, args: Args) returns (r: Result<(), InstallerError>, ghost stop: Stop)
    modifies app, host
    ensures app.settings == old(app.settings)
    ensures r.Err? ==> app.installs == old(app.installs)
    ensures Pick(host, args).Err? ==>
              r == Err(Pick(host, args).error) && stop == AtLookup &&
              host.root == old(host.root) && host.log == old(host.log)
    ensures Pick(host, args).Ok? ==>
              var c := Record(args, Pick(host, args).value.0, Pick(host, args).value.1, host.now);
              var placed := Placed(c, app.settings);
              var fetched := host.fetch(Pick(host, args).value.1.package.link);
              && (Known(old(app.installs), c) ==>
                    r == Ok(()) && app.installs == old(app.installs) &&
                    host.root == old(host.root) && host.log == old(host.log))
              && (!Known(old(app.installs), c) ==>
                    Provisioned(host, app.settings.system, placed, Pick(host, args).value.1.package.link, r, stop,
                                old(host.root), host.root, old(host.log), host.log))
              && (r.Ok? && !Known(old(app.installs), c) ==>
                    && fetched.Delivered?
                    && app.installs == old(app.installs) + [Install(RecordFile(host.adoptiumDir, placed), placed)]
                    && host.log == old(host.log) + UpdateSystemPlan(app.settings.system, placed))
              && (r.Ok? && !Known(old(app.installs), c) && UniquelyNamed(fetched) &&
                  Disjoint(host.tempDir, app.settings.installLocation) &&
                  Disjoint(InstallsDirectory(host.adoptiumDir), app.settings.installLocation) ==>
                    Lookup(host.root, placed.installLocation) == Some(Dir(PayloadEntries(fetched.entries))))
  {
    var pick := Pick(host, args);
    if pick.Err? {
      return Err(pick.error), AtLookup;
    }
    var (release, binary) := pick.value;
    var config := Record(args, release, binary, host.now);
    var known := app.DoesInstallExist(config);
    if known {
      return Ok(()), Finished;
    }
    config := Placed(config, app.settings);
    if Disjoint(host.tempDir, app.settings.installLocation) {
      DisjointBoth(host.tempDir, app.settings.installLocation, config.Key(), config.Key());
    }
    if Disjoint(InstallsDirectory(host.adoptiumDir), app.settings.installLocation) {
      DisjointExtend(app.settings.installLocation, config.Key(), InstallsDirectory(host.adoptiumDir));
    }
    r, stop := Provision(app, host, toml, config, binary.package.link);
  }
}
