/** Putting an unpacked archive in place and integrating it with the system
    (src/sys/linux/mod.rs). */
module Linux {
  import opened Wrappers
  import opened Types
  import opened FileSystem
  import opened Errors
  import opened Platform
  import opened LinuxConfig
  import opened Config
  import opened Installer

  // ---- Commands ----

  function ChmodCommand(location: Path): seq<string> {
    ["chmod", "-Rv", "755", PathText(location)]
  }

  /** The alternatives an image type registers: a JDK's, a JRE's, or none. */
  function AlternativesFor(config: SysConfig, imageType: ImageType): Option<seq<UpdateAlternativePath>> {
    match config.installMethod
    case UseUpdateAlternatives(alt) =>
      match imageType
      case JDK => Some(alt.jdkPaths)
      case JRE => Some(alt.jrePaths)
      case _ => None
  }

  /** The executable inside the install that an alternative points at. */
  function Target(location: Path, u: UpdateAlternativePath): Path {
    location + ["bin", u.execName]
  }

  function RegisterCommand(location: Path, u: UpdateAlternativePath): seq<string> {
    ["update-alternatives", "--install", u.systemPath, u.execName, PathText(Target(location, u)), "1"]
  }

  function UnregisterCommand(location: Path, u: UpdateAlternativePath): seq<string> {
    ["update-alternatives", "--remove", u.execName, PathText(Target(location, u))]
  }

  function RegisterCommands(location: Path, ps: seq<UpdateAlternativePath>): seq<seq<string>> {
    seq(|ps|, i requires 0 <= i < |ps| => RegisterCommand(location, ps[i]))
  }

  function UnregisterCommands(location: Path, ps: seq<UpdateAlternativePath>): seq<seq<string>> {
    seq(|ps|, i requires 0 <= i < |ps| => UnregisterCommand(location, ps[i]))
  }

  /** What `update_system` runs: `chmod`, then one registration per alternative. */
  function UpdateSystemPlan(config: SysConfig, data: InstallConfig): seq<seq<string>> {
    [ChmodCommand(data.installLocation)] +
    match AlternativesFor(config, data.installSettings.imageType)
    case None => []
    case Some(ps) => RegisterCommands(data.installLocation, ps)
  }

  /** What `remove_install` runs: one removal per alternative. */
  function RemovePlan(config: SysConfig, install: Install): seq<seq<string>> {
    match AlternativesFor(config, install.config.installSettings.imageType)
    case None => []
    case Some(ps) => UnregisterCommands(install.config.installLocation, ps)
  }

  /** The commands of `plan` that get started: all of them, or up to and
      including the first that cannot be started. Exit codes play no part. */
  function Issued(plan: seq<seq<string>>, exec: seq<string> -> Spawn): seq<seq<string>> {
    if plan == [] then []
    else if exec(plan[0]) == SpawnFailed then [plan[0]]
    else [plan[0]] + Issued(plan[1..], exec)
  }

  function Outcome(plan: seq<seq<string>>, exec: seq<string> -> Spawn): Result<(), InstallerError> {
    if plan == [] then Ok(())
    else if exec(plan[0]) == SpawnFailed then Err(Io(IoOp.Spawn(plan[0])))
    else Outcome(plan[1..], exec)
  }

  lemma {:induction false} IssuedAll(plan: seq<seq<string>>, exec: seq<string> -> Spawn)
    requires forall j :: 0 <= j < |plan| ==> exec(plan[j]) != SpawnFailed
    ensures Issued(plan, exec) == plan
    ensures Outcome(plan, exec) == Ok(())
  {
    if plan != [] {
      IssuedAll(plan[1..], exec);
    }
  }

  lemma {:induction false} IssuedUpTo(plan: seq<seq<string>>, exec: seq<string> -> Spawn, i: nat)
    requires i < |plan| && exec(plan[i]) == SpawnFailed
    requires forall j :: 0 <= j < i ==> exec(plan[j]) != SpawnFailed
    ensures Issued(plan, exec) == plan[..i + 1]
    ensures Outcome(plan, exec) == Err(Io(IoOp.Spawn(plan[i])))
  {
    if i > 0 {
      IssuedUpTo(plan[1..], exec, i - 1);
      assert plan[..i + 1] == [plan[0]] + plan[1..][..i];
    }
  }

  /** A plan that succeeds has started every one of its commands. */
  lemma {:induction false} IssuedOk(plan: seq<seq<string>>, exec: seq<string> -> Spawn)
    ensures Outcome(plan, exec).Ok? ==> Issued(plan, exec) == plan
  {
    if plan != [] && exec(plan[0]) != SpawnFailed {
      IssuedOk(plan[1..], exec);
    }
  }

  /** Only whether a command can be started matters: two environments that
      agree on that, whatever exit codes they give, start the same commands
      and report the same outcome. */
  lemma {:induction false} ExitCodesIgnored(plan: seq<seq<string>>, e1: seq<string> -> Spawn, e2: seq<string> -> Spawn)
    requires forall c :: e1(c).SpawnFailed? == e2(c).SpawnFailed?
    ensures Issued(plan, e1) == Issued(plan, e2)
    ensures Outcome(plan, e1) == Outcome(plan, e2)
  {
    if plan != [] {
      ExitCodesIgnored(plan[1..], e1, e2);
    }
  }

  /** The plan starts with `chmod` on the install and registers, in order,
      each alternative of the image type against the install's own `bin`. */
  lemma UpdateSystemPlanShape(config: SysConfig, data: InstallConfig)
    ensures var plan := UpdateSystemPlan(config, data);
            var loc := data.installLocation;
            && plan[0] == ["chmod", "-Rv", "755", PathText(loc)]
            && (AlternativesFor(config, data.installSettings.imageType).None? ==> plan == [plan[0]])
            && (AlternativesFor(config, data.installSettings.imageType).Some? ==>
                 var ps := AlternativesFor(config, data.installSettings.imageType).value;
                 |plan| == |ps| + 1 &&
                 forall i :: 0 <= i < |ps| ==>
                   plan[i + 1] == ["update-alternatives", "--install", ps[i].systemPath, ps[i].execName,
                                   PathText(loc + ["bin", ps[i].execName]), "1"])
  {
  }

  /** Uninstalling removes exactly the alternatives that integrating
      registered: the same names and targets, in the same order. */
  lemma RemoveUndoesRegister(config: SysConfig, file: Path, data: InstallConfig)
    ensures var reg := UpdateSystemPlan(config, data);
            var rem := RemovePlan(config, Install(file, data));
            && |rem| + 1 == |reg|
            && forall i :: 0 <= i < |rem| ==> rem[i][1] == "--remove" && rem[i][2..] == reg[i + 1][3..5]
  {
  }

  /** With the default configuration a JDK registers seven commands' worth of
      work (chmod and six tools), a JRE two, anything else only `chmod`. */
  lemma DefaultPlanSizes(data: InstallConfig)
    ensures |UpdateSystemPlan(SysConfig.Default(), data)| ==
            match data.installSettings.imageType
            case JDK => 7
            case JRE => 2
            case _ => 1
  {
  }

  /** `run_command` for each command in turn, stopping at the first that
      cannot be started; non-zero exit codes are ignored. */
  method RunEach(host: Host, commands: seq<seq<string>>) returns (r: Result<(), InstallerError>)
    modifies host
    ensures host.root == old(host.root)
    ensures host.log == old(host.log) + Issued(commands, host.exec)
    ensures r == Outcome(commands, host.exec)
  {
    var i := 0;
    while i < |commands|
      invariant 0 <= i <= |commands|
      invariant host.root == old(host.root)
      invariant host.log == old(host.log) + commands[..i]
      invariant forall j :: 0 <= j < i ==> host.exec(commands[j]) != SpawnFailed
    {
      var code := RunCommand(host, commands[i]);
      if code.Err? {
        IssuedUpTo(commands, host.exec, i);
        return Err(code.error);
      }
      assert commands[..i + 1] == commands[..i] + [commands[i]];
      i := i + 1;
    }
    IssuedAll(commands, host.exec);
    assert commands[..|commands|] == commands;
    return Ok(());
  }

  // ---- The unpacked archive ----

  /** A directory with a `bin` entry: the root of a JDK or JRE. */
  predicate IsPayload(e: Entry) {
    e.node.Dir? && HasName(e.node.entries, "bin")
  }

  /** The index of the first payload entry, or the number of entries. */
  function FirstPayload(es: seq<Entry>): (k: nat)
    ensures k <= |es|
    ensures k < |es| ==> IsPayload(es[k])
    ensures forall j :: 0 <= j < k ==> !IsPayload(es[j])
  {
    if es == [] then 0
    else if IsPayload(es[0]) then 0
    else 1 + FirstPayload(es[1..])
  }

  /** Where the data is after `find_internal_data`: the first direct child of
      `dir` that is a payload, or `dir` itself when there is none. */
  function PayloadRoot(dir: Path, es: seq<Entry>): Path {
    var k := FirstPayload(es);
    if k < |es| then dir + [es[k].name] else dir
  }

  lemma PayloadRootCases(dir: Path, es: seq<Entry>)
    ensures PayloadRoot(dir, es) == dir <==> forall j :: 0 <= j < |es| ==> !IsPayload(es[j])
    ensures PayloadRoot(dir, es) != dir ==>
              exists k :: 0 <= k < |es| && IsPayload(es[k]) && PayloadRoot(dir, es) == dir + [es[k].name] &&
                          forall j :: 0 <= j < k ==> !IsPayload(es[j])
  {
    var k := FirstPayload(es);
    if k < |es| {
      assert |dir + [es[k].name]| != |dir|;
    }
  }

  /** The payload root lies at or below the unpacked directory. */
  lemma PayloadRootBelow(dir: Path, es: seq<Entry>)
    ensures Prefix(dir, PayloadRoot(dir, es))
  {
    var k := FirstPayload(es);
    if k < |es| {
      assert (dir + [es[k].name])[..|dir|] == dir;
    }
  }

  /** Renaming `src + [c]` to `dst + [c]` is removing the one and putting its
      node at the other. */
  lemma MoveSplit(n: Node, src: Path, dst: Path, es: seq<Entry>, i: nat)
    requires Disjoint(src, dst) && i < |es|
    requires Lookup(n, src) == Some(Dir(es[i..]))
    ensures Lookup(n, src + [es[i].name]) == Some(es[i].node)
    ensures RenameTree(n, src + [es[i].name], dst + [es[i].name]) == Put(Remove(n, src + [es[i].name]), dst + [es[i].name], es[i].node)
    ensures Disjoint(src + [es[i].name], dst) && Disjoint(dst + [es[i].name], src)
  {
    var c := es[i].name;
    DisjointBoth(src, dst, c, c);
    assert src + [c] != dst + [c] by { assert Prefix(src + [c], src + [c]); }
    LookupSnoc(n, src, c);
    assert es[i..][0] == es[i];
    DisjointExtend(src, c, dst);
    DisjointExtend(dst, c, src);
  }

  /** A rename of `move_data` takes the entry out of `src`. */
  lemma MoveStepSource(n: Node, src: Path, dst: Path, es: seq<Entry>, i: nat)
    requires Disjoint(src, dst) && UniqueNames(es) && i < |es|
    requires Lookup(n, src) == Some(Dir(es[i..]))
    ensures Lookup(RenameTree(n, src + [es[i].name], dst + [es[i].name]), src) == Some(Dir(es[i + 1..]))
  {
    var c := es[i].name;
    MoveSplit(n, src, dst, es, i);
    var removed := Remove(n, src + [c]);
    LookupRemoveAbove(n, src + [c], src);
    assert (src + [c])[|src|..] == [c];
    assert UniqueNames(es[i..]);
    WithoutFirst(es[i..]);
    assert es[i..][1..] == es[i + 1..];
    LookupPutElsewhere(removed, dst + [c], es[i].node, src);
  }

  /** A rename of `move_data` appends the entry to `dst`. */
  lemma MoveStepTarget(n: Node, src: Path, dst: Path, es: seq<Entry>, i: nat)
    requires Disjoint(src, dst) && UniqueNames(es) && i < |es|
    requires Lookup(n, dst) == Some(Dir(es[..i])) && Lookup(n, src) == Some(Dir(es[i..]))
    ensures Lookup(RenameTree(n, src + [es[i].name], dst + [es[i].name]), dst) == Some(Dir(es[..i + 1]))
  {
    var c := es[i].name;
    MoveSplit(n, src, dst, es, i);
    var removed := Remove(n, src + [c]);
    LookupRemoveElsewhere(n, src + [c], dst);
    LookupPutAbove(removed, dst + [c], es[i].node, dst);
    assert (dst + [c])[|dst|..] == [c];
    assert !HasName(es[..i], c) by {
      forall j | 0 <= j < i
        ensures es[..i][j].name != c
      {
        assert es[..i][j] == es[j];
      }
    }
    SetChildAppends(es[..i], c, es[i].node);
    assert es[..i] + [Entry(c, es[i].node)] == es[..i + 1];
  }

  /** A rename of `move_data` changes nothing apart from `src` and `dst`,
      whether or not the entry is there. */
  lemma MoveStepFrame(n: Node, src: Path, dst: Path, c: string)
    ensures forall q :: Disjoint(q, src) && Disjoint(q, dst) ==>
              Lookup(RenameTree(n, src + [c], dst + [c]), q) == Lookup(n, q)
  {
    forall q | Disjoint(q, src) && Disjoint(q, dst)
      ensures Lookup(RenameTree(n, src + [c], dst + [c]), q) == Lookup(n, q)
    {
      DisjointExtend(src, c, q);
      DisjointExtend(dst, c, q);
      if src + [c] != dst + [c] && Lookup(n, src + [c]).Some? {
        LookupRemoveElsewhere(n, src + [c], q);
        LookupPutElsewhere(Remove(n, src + [c]), dst + [c], Lookup(n, src + [c]).value, q);
      }
    }
  }

  /** One rename of the loop of `move_data`: entry `i` of `es` goes from
      `src` to the same name under `dst`. */
  method MoveEntry(host: Host, src: Path, dst: Path, es: seq<Entry>, i: nat) returns (r: Result<(), InstallerError>)
    requires i < |es|
    modifies host
    ensures host.log == old(host.log)
    ensures forall q :: Disjoint(q, src) && Disjoint(q, dst) ==> Lookup(host.root, q) == Lookup(old(host.root), q)
    ensures r.Ok? && Disjoint(src, dst) && UniqueNames(es) &&
            Lookup(old(host.root), dst) == Some(Dir(es[..i])) && Lookup(old(host.root), src) == Some(Dir(es[i..])) ==>
              && Lookup(host.root, dst) == Some(Dir(es[..i + 1]))
              && Lookup(host.root, src) == Some(Dir(es[i + 1..]))
  {
    ghost var before := host.root;
    r := host.Rename(src + [es[i].name], dst + [es[i].name]);
    MoveStepFrame(before, src, dst, es[i].name);
    if r.Ok? && Disjoint(src, dst) && UniqueNames(es) &&
       Lookup(before, dst) == Some(Dir(es[..i])) && Lookup(before, src) == Some(Dir(es[i..])) {
      MoveStepTarget(before, src, dst, es, i);
      MoveStepSource(before, src, dst, es, i);
    }
  }

  /** The rename loop of `move_data`: each listed entry of `src` is renamed
      to the same name under `dst`, in listing order, stopping at the first
      rename that fails. Nothing apart from `src` and `dst` changes, even on
      failure. Started with `dst` empty, `src` holding `es` with unique names
      and the two apart, success leaves `dst` holding `es` and `src` empty. */
  method MoveEntries(host: Host, src: Path, dst: Path, es: seq<Entry>) returns (r: Result<(), InstallerError>)
    modifies host
    ensures host.log == old(host.log)
    ensures forall q :: Disjoint(q, src) && Disjoint(q, dst) ==> Lookup(host.root, q) == Lookup(old(host.root), q)
    ensures r.Ok? && Disjoint(src, dst) && UniqueNames(es) &&
            Lookup(old(host.root), dst) == Some(Dir([])) && Lookup(old(host.root), src) == Some(Dir(es)) ==>
              && Lookup(host.root, dst) == Some(Dir(es))
              && Lookup(host.root, src) == Some(Dir([]))
  {
    ghost var good := Disjoint(src, dst) && UniqueNames(es) &&
                      Lookup(host.root, dst) == Some(Dir([])) && Lookup(host.root, src) == Some(Dir(es));
    assert es[..0] == [] && es[0..] == es;
    var i := 0;
    while i < |es|
      invariant 0 <= i <= |es|
      invariant host.log == old(host.log)
      invariant good ==> Lookup(host.root, dst) == Some(Dir(es[..i]))
      invariant good ==> Lookup(host.root, src) == Some(Dir(es[i..]))
      invariant forall q :: Disjoint(q, src) && Disjoint(q, dst) ==> Lookup(host.root, q) == Lookup(old(host.root), q)
    {
      var moved := MoveEntry(host, src, dst, es, i);
      if moved.Err? {
        return Err(moved.error);
      }
      i := i + 1;
    }
    assert es[..|es|] == es && es[|es|..] == [];
    return Ok(());
  }

  class SysInstaller {
    var extractedData: Path
    const installData: InstallConfig

    constructor (data: InstallConfig, extracted: Path)
      ensures extractedData == extracted && installData == data
    {
      extractedData := extracted;
      installData := data;
    }

    /** `find_internal_data`: descends into the first listed directory that
        holds `bin`, and stays put when there is none. */
    method FindInternalData(host: Host) returns (r: Result<(), InstallerError>)
      modifies this
      ensures host.ReadDir(old(extractedData)).Err? ==> r == Err(host.ReadDir(old(extractedData)).error)
      ensures host.ReadDir(old(extractedData)).Ok? ==> r == Ok(())
      ensures extractedData == if r.Ok? then PayloadRoot(old(extractedData), host.ReadDir(old(extractedData)).value)
                               else old(extractedData)
    {
      var listing := host.ReadDir(extractedData);
      if listing.Err? {
        return Err(listing.error);
      }
      var es := listing.value;
      var i := 0;
      while i < |es|
        invariant 0 <= i <= |es|
        invariant forall j :: 0 <= j < i ==> !IsPayload(es[j])
        invariant extractedData == old(extractedData)
      {
        if IsPayload(es[i]) {
          extractedData := extractedData + [es[i].name];
          return Ok(());
        }
        i := i + 1;
      }
      return Ok(());
    }

    /** `move_data`: replaces the install location by an empty directory and
        renames every listed entry of the extracted data into it. When the two
        places are apart and the names unique, the location ends up holding
        exactly the extracted entries in listing order and the extracted
        directory is left empty. Nothing outside both changes, even when a
        step fails. */
    method MoveData(host: Host) returns (r: Result<(), InstallerError>)
      modifies host
      ensures host.log == old(host.log)
      ensures forall q :: Disjoint(q, extractedData) && Disjoint(q, installData.installLocation) ==>
                Lookup(host.root, q) == Lookup(old(host.root), q)
      ensures var src := extractedData;
              var dst := installData.installLocation;
              r.Ok? && Disjoint(src, dst) && IsDir(old(host.root), src) &&
              UniqueNames(Lookup(old(host.root), src).value.entries) ==>
                && Lookup(host.root, dst) == Some(Dir(Lookup(old(host.root), src).value.entries))
                && Lookup(host.root, src) == Some(Dir([]))
    {
      var src := extractedData;
      var dst := installData.installLocation;
      ghost var start := host.root;
      ghost var good := Disjoint(src, dst) && IsDir(start, src) && UniqueNames(Lookup(start, src).value.entries);
      if Exists(host.root, dst) {
        var removed := host.RemoveDirAll(dst);
        if removed.Err? {
          return Err(removed.error);
        }
        LookupRemoveBelow(start, dst, dst);
        RemoveOutside(start, dst, dst);
      }
      ghost var cleared := host.root;
      assert SameOutside(start, cleared, dst);
      var made := host.CreateDirAll(dst);
      if made.Err? {
        return Err(made.error);
      }
      MkdirAllResult(cleared, dst, src);
      MkdirAllOutside(cleared, dst, dst);
      var listing := host.ReadDir(src);
      if listing.Err? {
        return Err(listing.error);
      }
      var es := listing.value;
      assert good ==> es == Lookup(start, src).value.entries;
      assert good ==> Lookup(host.root, dst) == Some(Dir([])) && Lookup(host.root, src) == Some(Dir(es));
      ghost var ready := host.root;
      r := MoveEntries(host, src, dst, es);
      forall q | Disjoint(q, src) && Disjoint(q, dst)
        ensures Lookup(host.root, q) == Lookup(start, q)
      {
        assert Lookup(host.root, q) == Lookup(ready, q);
        assert Lookup(ready, q) == Lookup(cleared, q);
      }
    }

    /** `remove_install`: unregisters the install's alternatives. */
    static method RemoveInstall(host: Host, config: SysConfig, install: Install) returns (r: Result<(), InstallerError>)
      modifies host
      ensures host.root == old(host.root)
      ensures host.log == old(host.log) + Issued(RemovePlan(config, install), host.exec)
      ensures r == Outcome(RemovePlan(config, install), host.exec)
    {
      var paths := AlternativesFor(config, install.config.installSettings.imageType);
      if paths.Some? {
        r := RunEach(host, UnregisterCommands(install.config.installLocation, paths.value));
      } else {
        r := Ok(());
      }
    }

    /** `update_system`: makes the install readable and executable, then
        registers its alternatives. */
    method UpdateSystem(host: Host, config: SysConfig) returns (r: Result<(), InstallerError>)
      modifies host
      ensures host.root == old(host.root)
      ensures host.log == old(host.log) + Issued(UpdateSystemPlan(config, installData), host.exec)
      ensures r == Outcome(UpdateSystemPlan(config, installData), host.exec)
    {
      var plan := UpdateSystemPlan(config, installData);
      assert plan[1..] == if AlternativesFor(config, installData.installSettings.imageType).None? then []
                          else RegisterCommands(installData.installLocation, AlternativesFor(config, installData.installSettings.imageType).value);
      var chmod := RunCommand(host, ChmodCommand(installData.installLocation));
      if chmod.Err? {
        return Err(chmod.error);
      }
      var paths := AlternativesFor(config, installData.installSettings.imageType);
      if paths.None? {
        return Ok(());
      }
      r := RunEach(host, RegisterCommands(installData.installLocation, paths.value));
    }
  }
}
