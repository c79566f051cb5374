/** The `list` command (src/commands/list.rs): a table row per known install,
    telling whether a newer release exists. */
module ListCommand {
  import opened Wrappers
  import opened Response
  import opened FileSystem
  import opened Errors
  import opened Platform
  import opened ReleaseInformation
  import opened Installer
  import opened Versions
  import opened Latest

  /** The newest release for the settings `install` was made with. */
  function LatestFor(host: Host, install: Install): Result<Datum, InstallerError> {
    GetLatestVersion(host, install.config.installSettings)
  }

  /** How the table functions look up an install's newest release. */
  type Finder = Install -> Result<Datum, InstallerError>

  function Catalog(host: Host): Finder {
    (install: Install) => LatestFor(host, install)
  }

  /** The row of `install` when the newest release is `latest`: it shows the
      installed version, and is out of date, showing `latest`, exactly when
      `latest` is greater than the installed version. (That the row is named
      by the install's key is `Installer.Row`'s contract.) */
  function ListRow(ord: Ordering, install: Install, latest: VersionData): (t: InstallTable)
    ensures t.version == install.config.currentVersion.semver
    ensures t.upToDate.No? <==> Exceeds(ord, latest, install.config.currentVersion)
    ensures t.upToDate.No? ==> t.upToDate.latest == latest.semver
  {
    Row(install, if Exceeds(ord, latest, install.config.currentVersion) then No(latest.semver) else Yes)
  }

  /** The table `execute` prints for the first `k` installs, in install
      order; the first failed lookup ends the command with its error. */
  function ListRowsUpTo(latest: Finder, ord: Ordering, installs: seq<Install>, k: nat): Result<seq<InstallTable>, InstallerError>
    requires k <= |installs|
    decreases k
  {
    if k == 0 then Ok([])
    else
      match ListRowsUpTo(latest, ord, installs, k - 1)
      case Err(e) => Err(e)
      case Ok(rows) =>
        match latest(installs[k - 1])
        case Err(e) => Err(e)
        case Ok(d) => Ok(rows + [ListRow(ord, installs[k - 1], d.versionData)])
  }

  /** The table `execute` prints. */
  function ListRows(latest: Finder, ord: Ordering, installs: seq<Install>): Result<seq<InstallTable>, InstallerError> {
    ListRowsUpTo(latest, ord, installs, |installs|)
  }

  /** A produced table means every lookup succeeded. */
  lemma {:induction false} ListRowsOk(latest: Finder, ord: Ordering, installs: seq<Install>, k: nat)
    requires k <= |installs|
    ensures ListRowsUpTo(latest, ord, installs, k).Ok? ==> forall i :: 0 <= i < k ==> latest(installs[i]).Ok?
    decreases k
  {
    if k > 0 {
      ListRowsOk(latest, ord, installs, k - 1);
    }
  }

  /** When every lookup succeeds the table has one row per install, in install order. */
  lemma {:induction false} ListRowsValue(latest: Finder, ord: Ordering, installs: seq<Install>, k: nat)
    requires k <= |installs|
    requires forall i :: 0 <= i < k ==> latest(installs[i]).Ok?
    ensures ListRowsUpTo(latest, ord, installs, k).Ok?
    ensures |ListRowsUpTo(latest, ord, installs, k).value| == k
    ensures forall i :: 0 <= i < k ==>
              ListRowsUpTo(latest, ord, installs, k).value[i] == ListRow(ord, installs[i], latest(installs[i]).value.versionData)
    decreases k
  {
    if k > 0 {
      ListRowsValue(latest, ord, installs, k - 1);
      var pre := ListRowsUpTo(latest, ord, installs, k - 1).value;
      var row := ListRow(ord, installs[k - 1], latest(installs[k - 1]).value.versionData);
      assert ListRowsUpTo(latest, ord, installs, k) == Ok(pre + [row]);
      forall i | 0 <= i < k - 1
        ensures (pre + [row])[i] == ListRow(ord, installs[i], latest(installs[i]).value.versionData)
      {
        assert (pre + [row])[i] == pre[i];
      }
    }
  }

  /** The table is produced exactly when every lookup succeeds, and then has
      one row per install, in install order. */
  lemma ListRowsContents(latest: Finder, ord: Ordering, installs: seq<Install>)
    ensures ListRows(latest, ord, installs).Ok? <==> forall i :: 0 <= i < |installs| ==> latest(installs[i]).Ok?
    ensures ListRows(latest, ord, installs).Ok? ==>
              var rows := ListRows(latest, ord, installs).value;
              && |rows| == |installs|
              && forall i :: 0 <= i < |installs| ==>
                   rows[i] == ListRow(ord, installs[i], latest(installs[i]).value.versionData)
  {
    ListRowsOk(latest, ord, installs, |installs|);
    if forall i :: 0 <= i < |installs| ==> latest(installs[i]).Ok? {
      ListRowsValue(latest, ord, installs, |installs|);
    }
  }

  /** A failed table carries the error of the first install whose lookup fails. */
  lemma {:induction false} ListRowsFirstError(latest: Finder, ord: Ordering, installs: seq<Install>, k: nat)
    requires k <= |installs|
    ensures ListRowsUpTo(latest, ord, installs, k).Err? ==>
              exists j :: 0 <= j < k && latest(installs[j]).Err? &&
                          ListRowsUpTo(latest, ord, installs, k) == Err(latest(installs[j]).error) &&
                          forall i :: 0 <= i < j ==> latest(installs[i]).Ok?
    decreases k
  {
    if k > 0 {
      ListRowsFirstError(latest, ord, installs, k - 1);
      ListRowsOk(latest, ord, installs, k - 1);
    }
  }

  /** Once the first `j` installs fail, the first `k` fail the same way. */
  lemma {:induction false} ListRowsErrorSticks(latest: Finder, ord: Ordering, installs: seq<Install>, j: nat, k: nat)
    requires j <= k <= |installs| && ListRowsUpTo(latest, ord, installs, j).Err?
    ensures ListRowsUpTo(latest, ord, installs, k) == ListRowsUpTo(latest, ord, installs, j)
    decreases k
  {
    if j < k {
      ListRowsErrorSticks(latest, ord, installs, j, k - 1);
    }
  }

  /** `execute`: walks the installs in order, asking for each one's newest release. */
  method Execute(app: Installer, host: Host, ord: Ordering) returns (r: Result<seq<InstallTable>, InstallerError>)
    ensures r == ListRows(Catalog(host), ord, app.installs)
  {
    var installs := app.installs;
    var rows := [];
    var i := 0;
    while i < |installs|
      invariant 0 <= i <= |installs|
      invariant ListRowsUpTo(Catalog(host), ord, installs, i) == Ok(rows)
    {
      var found := LatestFor(host, installs[i]);
      if found.Err? {
        ListRowsErrorSticks(Catalog(host), ord, installs, i + 1, |installs|);
        return Err(found.error);
      }
      rows := rows + [ListRow(ord, installs[i], found.value.versionData)];
      i := i + 1;
    }
    return Ok(rows);
  }
}
