/** The `uninstall` command (src/commands/uninstall.rs): unregisters the first
    install going by the given name, deletes its files and then its record. */
module UninstallCommand {
  import opened Wrappers
  import opened FileSystem
  import opened Errors
  import opened Platform
  import opened Installer
  import opened Linux

  /** The command-line arguments: the name of the install. */
  datatype Args = Args(version: string)

  /** `execute`. An unknown name changes nothing. Otherwise the removal plan
      is started up to its first command that cannot be started; a failure
      changes nothing outside the location, so the record file (lying
      apart from it) is only deleted after the location is; when the whole
      plan starts and both deletions succeed, neither the location nor the
      record exists any more and nothing apart from both changed. The
      installs in memory are left as they are. */
  method Execute(app: Installer, host: Host, args: Args) returns (r: Result<(), InstallerError>)
    modifies host
    ensures var k := Find(app.installs, args.version);
            && (k == |app.installs| ==> r == Ok(()) && host.root == old(host.root) && host.log == old(host.log))
            && (k < |app.installs| ==>
                  var install := app.installs[k];
                  var plan := RemovePlan(app.settings.system, install);
                  && host.log == old(host.log) + Issued(plan, host.exec)
                  && (Outcome(plan, host.exec).Err? ==> r == Outcome(plan, host.exec) && host.root == old(host.root))
                  && (r.Err? ==> forall q :: Disjoint(q, install.config.installLocation) ==>
                                   Lookup(host.root, q) == Lookup(old(host.root), q))
                  && (r.Ok? ==>
                        && host.log == old(host.log) + plan
                        && !Exists(host.root, install.config.installLocation)
                        && !Exists(host.root, install.installFile)
                        && forall q :: Disjoint(q, install.config.installLocation) && Disjoint(q, install.installFile) ==>
                             Lookup(host.root, q) == Lookup(old(host.root), q)))
  {
    var k := Find(app.installs, args.version);
    if k == |app.installs| {
      return Ok(());
    }
    var install := app.installs[k];
    var loc := install.config.installLocation;
    var file := install.installFile;
    var unregistered := SysInstaller.RemoveInstall(host, app.settings.system, install);
    if unregistered.Err? {
      return Err(unregistered.error);
    }
    IssuedOk(RemovePlan(app.settings.system, install), host.exec);
    ghost var start := host.root;
    var removed := host.RemoveDirAll(loc);
    if removed.Err? {
      return Err(removed.error);
    }
    LookupRemoveBelow(start, loc, loc);
    RemoveOutside(start, loc, loc);
    ghost var mid := host.root;
    var deleted := host.RemoveFile(file);
    if deleted.Err? {
      return Err(deleted.error);
    }
    RemoveAfterRemove(mid, loc, file);
    RemoveOutside(mid, file, file);
    return Ok(());
  }
}
