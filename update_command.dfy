/** The `update` command (src/commands/update.rs): lists the installs with a
    newer release, or brings one install, or all of them, to the newest
    release in place. */
module UpdateCommand {
  import opened Wrappers
  import opened Response
  import opened FileSystem
  import opened Errors
  import opened Platform
  import opened ReleaseInformation
  import opened Config
  import opened Installer
  import opened Linux
  import opened Download
  import opened Versions
  import opened InstallCommand
  import opened ListCommand

  /** The command-line arguments: `--list`, or `--update <name>`. */
  datatype Args = Args(list: bool, update: Option<string>)

  /** The table `list_updates` prints for the first `k` installs: a row for
      each install whose newest release is greater than its version, in
      install order; the first failed lookup ends the command with its error. */
  function UpdateRowsUpTo(latest: Finder, ord: Ordering, installs: seq<Install>, k: nat): Result<seq<InstallTable>, InstallerError>
    requires k <= |installs|
    decreases k
  {
    if k == 0 then Ok([])
    else
      var last := installs[k - 1];
      match UpdateRowsUpTo(latest, ord, installs, k - 1)
      case Err(e) => Err(e)
      case Ok(rows) =>
        match latest(last)
        case Err(e) => Err(e)
        case Ok(d) =>
          if Exceeds(ord, d.versionData, last.config.currentVersion) then Ok(rows + [Row(last, No(d.versionData.semver))])
          else Ok(rows)
  }

  /** The table `list_updates` prints. */
  function UpdateRows(latest: Finder, ord: Ordering, installs: seq<Install>): Result<seq<InstallTable>, InstallerError> {
    UpdateRowsUpTo(latest, ord, installs, |installs|)
  }

  /** The rows that are out of date, in order. */
  function Outdated(rows: seq<InstallTable>): (r: seq<InstallTable>)
    ensures forall t :: t in r <==> t in rows && t.upToDate.No?
    decreases |rows|
  {
    if rows == [] then []
    else
      var init := Outdated(rows[..|rows| - 1]);
      assert rows == rows[..|rows| - 1] + [rows[|rows| - 1]];
      if rows[|rows| - 1].upToDate.No? then init + [rows[|rows| - 1]] else init
  }

  /** `update --list` shows exactly the out-of-date rows of `list`, in the
      same order, and fails exactly when `list` does, with the same error. */
  lemma {:induction false} UpdatesAreOutdatedRows(latest: Finder, ord: Ordering, installs: seq<Install>, k: nat)
    requires k <= |installs|
    ensures UpdateRowsUpTo(latest, ord, installs, k).Err? <==> ListRowsUpTo(latest, ord, installs, k).Err?
    ensures UpdateRowsUpTo(latest, ord, installs, k).Err? ==>
              UpdateRowsUpTo(latest, ord, installs, k).error == ListRowsUpTo(latest, ord, installs, k).error
    ensures UpdateRowsUpTo(latest, ord, installs, k).Ok? ==>
              UpdateRowsUpTo(latest, ord, installs, k).value == Outdated(ListRowsUpTo(latest, ord, installs, k).value)
    decreases k
  {
    if k > 0 {
      UpdatesAreOutdatedRows(latest, ord, installs, k - 1);
      var u := UpdateRowsUpTo(latest, ord, installs, k - 1);
      var l := ListRowsUpTo(latest, ord, installs, k - 1);
      if u.Ok? && latest(installs[k - 1]).Ok? {
        var d := latest(installs[k - 1]).value;
        var row := ListRow(ord, installs[k - 1], d.versionData);
        assert ListRowsUpTo(latest, ord, installs, k) == Ok(l.value + [row]);
        assert (l.value + [row])[..|l.value|] == l.value;
      }
    }
  }

  /** `list_updates`: walks the installs in order, keeping the out-of-date ones. */
  method ListUpdates(app: Installer, host: Host, ord: Ordering) returns (r: Result<seq<InstallTable>, InstallerError>)
    ensures r == UpdateRows(Catalog(host), ord, app.installs)
  {
    var installs := app.installs;
    var rows := [];
    var i := 0;
    while i < |installs|
      invariant 0 <= i <= |installs|
      invariant UpdateRowsUpTo(Catalog(host), ord, installs, i) == Ok(rows)
    {
      var found := LatestFor(host, installs[i]);
      if found.Err? {
        UpdatesAreOutdatedRows(Catalog(host), ord, installs, i + 1);
        ListRowsErrorSticks(Catalog(host), ord, installs, i + 1, |installs|);
        UpdatesAreOutdatedRows(Catalog(host), ord, installs, |installs|);
        return Err(found.error);
      }
      if Exceeds(ord, found.value.versionData, installs[i].config.currentVersion) {
        rows := rows + [Row(installs[i], No(found.value.versionData.semver))];
      }
      i := i + 1;
    }
    return Ok(rows);
  }

  /** A newer release is due: the lookup succeeds and its version is not at
      most the installed one (an incomparable version counts as due). */
  predicate Due(host: Host, ord: Ordering, install: Install) {
    LatestFor(host, install).Ok? &&
    !AtMost(ord, LatestFor(host, install).value.versionData, install.config.currentVersion)
  }

  /** Every install `update --list` shows is one `update` acts on, and
      under the total `Lexicographic` ordering the two tests agree. */
  lemma DueWhenListed(host: Host, ord: Ordering, install: Install)
    requires LatestFor(host, install).Ok?
    ensures Exceeds(ord, LatestFor(host, install).value.versionData, install.config.currentVersion) ==>
              Due(host, ord, install)
    ensures Due(host, Lexicographic, install) <==>
              Exceeds(Lexicographic, LatestFor(host, install).value.versionData, install.config.currentVersion)
  {
    var v := LatestFor(host, install).value.versionData;
    LexicographicTotal(v, install.config.currentVersion);
    AtMostIsNotGreater(Lexicographic, v, install.config.currentVersion);
  }

  /** The install brought to `version` at `now`; its record file, location
      and settings stay. */
  function Updated(install: Install, version: VersionData, now: Instant): (u: Install)
    ensures u.installFile == install.installFile
    ensures u.config.installLocation == install.config.installLocation
    ensures u.config.installSettings == install.config.installSettings
    ensures u.config.currentVersion == version && u.config.installTime == now
  {
    install.(config := install.config.(currentVersion := version, installTime := now))
  }

  /** What a successful `update_internal` leaves of `install`. */
  function Refresh(host: Host, ord: Ordering, install: Install): Install {
    if Due(host, ord, install) then Updated(install, LatestFor(host, install).value.versionData, host.now)
    else install
  }

  /** `update_internal`. Nothing is done unless an update is due; then the
      record in memory takes the new version and time, the release's first
      binary is downloaded into the staging directory named by the new key,
      its payload replaces the install location, and the record file is
      rewritten. No system command is run. `stop` tells which step failed:
      until the record is opened nothing outside the staging directory and
      the location changes, and a failed record write leaves the record
      file as it was or creates it empty. When the staging directory, the
      location and the record file lie apart, the location ends up holding
      exactly the payload and the record reads back as the new one. */
  method UpdateInternal(host: Host, toml: Toml, ord: Ordering, install: Install)
    returns (r: Result<(), InstallerError>, after: Install, ghost stop: Stop)
    modifies host
    ensures host.log == old(host.log)
    ensures after == Refresh(host, ord, install)
    ensures r.Ok? <==> stop.Finished?
    ensures !stop.AtUpdateSystem?
    ensures stop.AtLookup? ==> host.root == old(host.root)
    ensures LatestFor(host, install).Err? ==> r == Err(LatestFor(host, install).error) && stop.AtLookup?
    ensures LatestFor(host, install).Ok? && !Due(host, ord, install) ==> r == Ok(()) && host.root == old(host.root)
    ensures Due(host, ord, install) && LatestFor(host, install).value.binaries == [] ==>
              r.Err? && r.error.Panic? && stop.AtLookup?
    ensures var staging := Staging(host, after.config);
            var loc := install.config.installLocation;
            var file := install.installFile;
            && (forall q :: Disjoint(q, staging) && Disjoint(q, loc) && (stop.BeforeRecord() || Disjoint(q, file)) ==>
                  Lookup(host.root, q) == Lookup(old(host.root), q))
            && (stop.AtRecord? && Disjoint(file, staging) && Disjoint(file, loc) ==>
                  Untouched(old(host.root), host.root, file))
    ensures r.Ok? && Due(host, ord, install) ==>
              var latest := LatestFor(host, install).value;
              var loc := install.config.installLocation;
              var file := install.installFile;
              var staging := Staging(host, after.config);
              var fetched := host.fetch(latest.binaries[0].package.link);
              UniquelyNamed(fetched) && Disjoint(staging, loc) && Disjoint(file, staging) && Disjoint(file, loc) ==>
                && Lookup(host.root, loc) == Some(Dir(PayloadEntries(fetched.entries)))
                && (toml.ConfigRoundTrip(after.config) &&
                    |Contents(old(host.root), file)| <= |toml.encodeConfig(after.config).value| &&
                    !host.fails(IoOp.ReadFile(file)) ==>
                      ReadInstall(host, toml, file) == Ok(after.config))
  {
    var found := LatestFor(host, install);
    if found.Err? {
      return Err(found.error), install, AtLookup;
    }
    var datum := found.value;
    if AtMost(ord, datum.versionData, install.config.currentVersion) {
      return Ok(()), install, Finished;
    }
    after := Updated(install, datum.versionData, host.now);
    if datum.binaries == [] {
      return Err(Panic("first() on a release without binaries")), after, AtLookup;
    }
    var binary := datum.binaries[0];
    var loc := install.config.installLocation;
    var file := install.installFile;
    var placed, installer;
    placed, installer, stop := PlacePayload(host, after.config, binary.package.link);
    if placed.Err? {
      return placed, after, stop;
    }
    ghost var moved := host.root;
    var written := WriteRecord(host, toml, after);
    forall q | Disjoint(q, Staging(host, after.config)) && Disjoint(q, loc) && Disjoint(q, file)
      ensures Lookup(host.root, q) == Lookup(old(host.root), q)
    {
      assert Lookup(host.root, q) == Lookup(moved, q);
    }
    if Disjoint(file, Staging(host, after.config)) && Disjoint(file, loc) {
      assert Lookup(moved, file) == Lookup(old(host.root), file);
    }
    if written.Err? {
      return written, after, AtRecord;
    }
    return Ok(()), after, Finished;
  }

  /** `q` lies apart from all an update of `install` may write: its staging
      directory, its location and its record file. */
  ghost predicate OutsideUpdate(host: Host, ord: Ordering, install: Install, q: Path) {
    && Disjoint(q, Staging(host, Refresh(host, ord, install).config))
    && Disjoint(q, install.config.installLocation)
    && Disjoint(q, install.installFile)
  }

  /** `q` lies apart from all an update of any of `installs` may write. */
  ghost predicate OutsideUpdates(host: Host, ord: Ordering, installs: seq<Install>, q: Path) {
    forall j :: 0 <= j < |installs| ==> OutsideUpdate(host, ord, installs[j], q)
  }

  /** What `update_internal` of `install`, answering `r`, leaves on disk of
      the tree `root0`: nothing outside its staging directory, location and
      record file changes, and after a successful update whose paths lie
      apart the location holds exactly the new payload and the record reads
      back as the refreshed one. */
  ghost predicate UpdatedOnDisk(host: Host, toml: Toml, ord: Ordering, install: Install,
                                r: Result<(), InstallerError>, root0: Node)
    reads host
  {
    var after := Refresh(host, ord, install);
    var staging := Staging(host, after.config);
    var loc := install.config.installLocation;
    var file := install.installFile;
    && (forall q :: OutsideUpdate(host, ord, install, q) ==> Lookup(host.root, q) == Lookup(root0, q))
    && (r.Ok? && Due(host, ord, install) && LatestFor(host, install).value.binaries != [] ==>
          var fetched := host.fetch(LatestFor(host, install).value.binaries[0].package.link);
          UniquelyNamed(fetched) && Disjoint(staging, loc) && Disjoint(file, staging) && Disjoint(file, loc) ==>
            && Lookup(host.root, loc) == Some(Dir(PayloadEntries(fetched.entries)))
            && (toml.ConfigRoundTrip(after.config) &&
                |Contents(root0, file)| <= |toml.encodeConfig(after.config).value| &&
                !host.fails(IoOp.ReadFile(file)) ==>
                  ReadInstall(host, toml, file) == Ok(after.config)))
  }

  /** `update all` stopped at install `i`, failing with `e`: the installs up
      to and including `i` were refreshed in memory (the failed one too), the
      later ones were not touched, and `i` is one whose update was due or
      whose lookup failed with `e`. */
  ghost predicate Aborted(host: Host, ord: Ordering, before: seq<Install>, now: seq<Install>, i: int, e: InstallerError) {
    && |now| == |before| && 0 <= i < |before|
    && (forall j :: 0 <= j <= i ==> now[j] == Refresh(host, ord, before[j]))
    && (forall j :: i < j < |before| ==> now[j] == before[j])
    && (LatestFor(host, before[i]).Err? ==> e == LatestFor(host, before[i]).error)
    && (LatestFor(host, before[i]).Ok? ==> Due(host, ord, before[i]))
  }

  /** Replacing install `i` by its refreshed record, when its update failed
      with `e`, after the installs before it were refreshed, is an abort at `i`. */
  lemma AbortAt(host: Host, ord: Ordering, before: seq<Install>, now: seq<Install>, i: nat, after: Install, e: InstallerError)
    requires |now| == |before| && i < |before|
    requires forall j :: 0 <= j < i ==> now[j] == Refresh(host, ord, before[j])
    requires forall j :: i <= j < |now| ==> now[j] == before[j]
    requires after == Refresh(host, ord, before[i])
    requires LatestFor(host, before[i]).Err? ==> e == LatestFor(host, before[i]).error
    requires LatestFor(host, before[i]).Ok? ==> Due(host, ord, before[i])
    ensures Aborted(host, ord, before, now[i := after], i, e)
  {
  }

  /** What `update` leaves of the installs `before` (as `now`) and of the
      tree `root0` (as `root`) when it answers `r`: `all` refreshes every
      install in order and stops at the first failure; any other name
      refreshes the first install going by it, even when its update fails,
      and leaves the others; an unknown name changes nothing. The installs
      keep their record paths and locations. On disk, `all` changes nothing
      apart from what the installs' updates may write, and a single update
      has the effect `UpdatedOnDisk` states. */
  ghost predicate Updates(host: Host, toml: Toml, ord: Ordering, name: string, before: seq<Install>, now: seq<Install>,
                          r: Result<(), InstallerError>, root0: Node)
    reads host
  {
    && |now| == |before|
    && (forall j :: 0 <= j < |now| ==>
          now[j].installFile == before[j].installFile &&
          now[j].config.installLocation == before[j].config.installLocation)
    && (name == "all" ==>
          && (r.Ok? ==> forall j :: 0 <= j < |now| ==> now[j] == Refresh(host, ord, before[j]))
          && (r.Err? ==> exists i :: Aborted(host, ord, before, now, i, r.error))
          && (forall q :: OutsideUpdates(host, ord, before, q) ==> Lookup(host.root, q) == Lookup(root0, q)))
    && (name != "all" ==>
          var k := Find(before, name);
          && (k == |before| ==> r == Ok(()) && now == before && host.root == root0)
          && (forall j :: 0 <= j < |now| && j != k ==> now[j] == before[j])
          && (k < |before| ==> now[k] == Refresh(host, ord, before[k]) && UpdatedOnDisk(host, toml, ord, before[k], r, root0)))
  }

  /** `update all`: every install in order, stopping at the first failure.
      The record in memory is replaced even when its update fails. Nothing
      on disk changes apart from what the installs' updates may write. */
  method UpdateAll(app: Installer, host: Host, toml: Toml, ord: Ordering) returns (r: Result<(), InstallerError>)
    modifies app, host
    ensures app.settings == old(app.settings)
    ensures host.log == old(host.log)
    ensures |app.installs| == |old(app.installs)|
    ensures forall j :: 0 <= j < |app.installs| ==>
              app.installs[j].installFile == old(app.installs)[j].installFile &&
              app.installs[j].config.installLocation == old(app.installs)[j].config.installLocation
    ensures r.Ok? ==> forall j :: 0 <= j < |app.installs| ==> app.installs[j] == Refresh(host, ord, old(app.installs)[j])
    ensures r.Err? ==> exists i :: Aborted(host, ord, old(app.installs), app.installs, i, r.error)
    ensures forall q :: OutsideUpdates(host, ord, old(app.installs), q) ==> Lookup(host.root, q) == Lookup(old(host.root), q)
  {
    var i := 0;
    while i < |app.installs|
      invariant 0 <= i <= |app.installs| == |old(app.installs)|
      invariant app.settings == old(app.settings)
      invariant host.log == old(host.log)
      invariant forall j :: 0 <= j < i ==> app.installs[j] == Refresh(host, ord, old(app.installs)[j])
      invariant forall j :: i <= j < |app.installs| ==> app.installs[j] == old(app.installs)[j]
      invariant forall j :: 0 <= j < |app.installs| ==>
                  app.installs[j].installFile == old(app.installs)[j].installFile &&
                  app.installs[j].config.installLocation == old(app.installs)[j].config.installLocation
      invariant forall q :: OutsideUpdates(host, ord, old(app.installs), q) ==> Lookup(host.root, q) == Lookup(old(host.root), q)
    {
      ghost var mid := app.installs;
      ghost var root := host.root;
      var result, after, _ := UpdateInternal(host, toml, ord, app.installs[i]);
      forall q | OutsideUpdates(host, ord, old(app.installs), q)
        ensures Lookup(host.root, q) == Lookup(old(host.root), q)
      {
        assert OutsideUpdate(host, ord, old(app.installs)[i], q);
        assert Lookup(host.root, q) == Lookup(root, q);
      }
      app.installs := app.installs[i := after];
      if result.Err? {
        AbortAt(host, ord, old(app.installs), mid, i, after, result.error);
        return Err(result.error);
      }
      i := i + 1;
    }
    return Ok(());
  }

  /** `update <name>`: the first install going by `name`, if any, is
      refreshed in memory even when its update fails, and updated on disk as
      `UpdatedOnDisk` states; the others stay as they are. */
  method UpdateOne(app: Installer, host: Host, toml: Toml, ord: Ordering, name: string) returns (r: Result<(), InstallerError>)
    modifies app, host
    ensures app.settings == old(app.settings)
    ensures host.log == old(host.log)
    ensures |app.installs| == |old(app.installs)|
    ensures forall j :: 0 <= j < |app.installs| ==>
              app.installs[j].installFile == old(app.installs)[j].installFile &&
              app.installs[j].config.installLocation == old(app.installs)[j].config.installLocation
    ensures var k := Find(old(app.installs), name);
            && (k == |old(app.installs)| ==>
                  r == Ok(()) && app.installs == old(app.installs) && host.root == old(host.root))
            && (forall j :: 0 <= j < |app.installs| && j != k ==> app.installs[j] == old(app.installs)[j])
            && (k < |old(app.installs)| ==>
                  app.installs[k] == Refresh(host, ord, old(app.installs)[k]) &&
                  UpdatedOnDisk(host, toml, ord, old(app.installs)[k], r, old(host.root)))
  {
    var k := Find(app.installs, name);
    if k == |app.installs| {
      return Ok(());
    }
    var result, after, _ := UpdateInternal(host, toml, ord, app.installs[k]);
    app.installs := app.installs[k := after];
    if result.Err? {
      return Err(result.error);
    }
    return Ok(());
  }

  /** `update`: `all` updates every install, any other name the install
      going by it. */
  method Update(app: Installer, host: Host, toml: Toml, ord: Ordering, name: string) returns (r: Result<(), InstallerError>)
    modifies app, host
    ensures app.settings == old(app.settings)
    ensures host.log == old(host.log)
    ensures Updates(host, toml, ord, name, old(app.installs), app.installs, r, old(host.root))
  {
    if name == "all" {
      r := UpdateAll(app, host, toml, ord);
    } else {
      r := UpdateOne(app, host, toml, ord, name);
    }
  }

  /** `execute`: `--list` lists the due updates and changes nothing, and
      `--update <name>` does what `update` does for that name; with neither
      nothing happens. The listed table is the result when listing. */
  method Execute(app: Installer, host: Host, toml: Toml, ord: Ordering, args: Args)
    returns (r: Result<Option<seq<InstallTable>>, InstallerError>)
    modifies app, host
    ensures app.settings == old(app.settings)
    ensures host.log == old(host.log)
    ensures args.list ==>
              app.installs == old(app.installs) && host.root == old(host.root) &&
              r == match UpdateRows(Catalog(host), ord, old(app.installs))
                   case Ok(rows) => Ok(Some(rows))
                   case Err(e) => Err(e)
    ensures !args.list && args.update.None? ==>
              r == Ok(None) && app.installs == old(app.installs) && host.root == old(host.root)
    ensures !args.list && args.update.Some? ==>
              && (r.Ok? ==> r.value.None?)
              && Updates(host, toml, ord, args.update.value, old(app.installs), app.installs,
                         if r.Ok? then Ok(()) else Err(r.error), old(host.root))
  {
    if args.list {
      var rows := ListUpdates(app, host, ord);
      if rows.Err? {
        return Err(rows.error);
      }
      return Ok(Some(rows.value));
    } else if args.update.Some? {
      var done := Update(app, host, toml, ord, args.update.value);
      if done.Err? {
        return Err(done.error);
      }
      return Ok(None);
    }
    return Ok(None);
  }
}
