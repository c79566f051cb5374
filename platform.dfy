/** The operating system and network as the installer sees them: a
    filesystem tree that the program changes in place, the record of the
    external commands it starts, and fixed answers of the environment
    (failure of an individual filesystem call, exit status of a command, the
    Adoptium catalog, the download server, environment variables, the
    clock). */
module Platform {
  import opened Wrappers
  import opened FileSystem
  import opened Errors
  import Types
  import ReleaseInformation

  /** Outcome of starting a command and waiting for it; an exit by signal has no code. */
  datatype Spawn = Exited(code: Option<int>) | SpawnFailed

  /** Outcome of requesting an archive: the request fails with a message;
      the server answers a non-success status, given by its code and its
      canonical reason phrase when it has one; the response stream fails
      midway, when the unpacker has written `partial`; the archive is bad,
      noticed by the unpacker after writing `partial` (`drained` when the
      whole body had already gone into the pipe by then); or the archive
      unpacks to the given entries. */
  datatype Fetch =
    | Unreachable(message: string)
    | BadStatus(code: int, reason: Option<string>)
    | StreamFailed(partial: seq<Entry>)
    | BadArchive(partial: seq<Entry>, drained: bool)
    | Delivered(entries: seq<Entry>)

  datatype Instant = Instant(seconds: int)

  /** When `rename(from, to)` succeeds on a POSIX system. */
  predicate RenameOk(n: Node, from: Path, to: Path) {
    from != [] && to != [] && Exists(n, from) && IsDir(n, Parent(to)) &&
    (from == to ||
     (!Prefix(from, to) &&
      match Lookup(n, to)
      case None => true
      case Some(File(_)) => Lookup(n, from).value.File?
      case Some(Dir(es)) => es == [] && Lookup(n, from).value.Dir?))
  }

  /** The tree after a successful rename: the node moves, replacing what was at `to`. */
  function RenameTree(n: Node, from: Path, to: Path): Node {
    if from == to then n
    else match Lookup(n, from)
      case None => n
      case Some(m) => Put(Remove(n, from), to, m)
  }

  class Host {
    var root: Node
    /** Every command the program tried to start, in order. */
    var log: seq<seq<string>>
    const exec: seq<string> -> Spawn
    const fails: IoOp -> bool
    /** The release-information endpoint: the answer to a request, or None when it fails. */
    const catalog: ReleaseInformation.Params -> Option<seq<ReleaseInformation.Datum>>
    const fetch: string -> Fetch
    /** The `ADOPTIUM_DIR` environment variable, when set. */
    const adoptiumDir: Option<Path>
    const tempDir: Path
    const system: Types.SystemProperties
    const now: Instant

    constructor (root0: Node, exec0: seq<string> -> Spawn, fails0: IoOp -> bool,
                 catalog0: ReleaseInformation.Params -> Option<seq<ReleaseInformation.Datum>>,
                 fetch0: string -> Fetch, adoptiumDir0: Option<Path>, tempDir0: Path,
                 system0: Types.SystemProperties, now0: Instant)
      ensures root == root0 && log == []
      ensures exec == exec0 && fails == fails0 && catalog == catalog0 && fetch == fetch0
      ensures adoptiumDir == adoptiumDir0 && tempDir == tempDir0 && system == system0 && now == now0
    {
      root := root0;
      log := [];
      exec := exec0;
      fails := fails0;
      catalog := catalog0;
      fetch := fetch0;
      adoptiumDir := adoptiumDir0;
      tempDir := tempDir0;
      system := system0;
      now := now0;
    }

    /** `read_dir`: the entries of a directory, in listing order. */
    function ReadDir(p: Path): Result<seq<Entry>, InstallerError>
      reads this
    {
      if fails(IoOp.ReadDir(p)) || !IsDir(root, p) then Err(Io(IoOp.ReadDir(p)))
      else Ok(Lookup(root, p).value.entries)
    }

    /** `read_to_string`: the contents of a file. */
    function ReadFile(p: Path): Result<seq<byte>, InstallerError>
      reads this
    {
      if fails(IoOp.ReadFile(p)) || !IsFile(root, p) then Err(Io(IoOp.ReadFile(p)))
      else Ok(Lookup(root, p).value.data)
    }

    method CreateDirAll(p: Path) returns (r: Result<(), InstallerError>)
      modifies this
      ensures r.Ok? <==> MkdirAll(old(root), p).Some? && !fails(IoOp.CreateDirAll(p))
      ensures root == if r.Ok? then MkdirAll(old(root), p).value else old(root)
      ensures r.Err? ==> r.error == Io(IoOp.CreateDirAll(p))
      ensures log == old(log)
    {
      var m := MkdirAll(root, p);
      if m.None? || fails(IoOp.CreateDirAll(p)) {
        return Err(Io(IoOp.CreateDirAll(p)));
      }
      root := m.value;
      return Ok(());
    }

    method RemoveDirAll(p: Path) returns (r: Result<(), InstallerError>)
      modifies this
      ensures r.Ok? <==> p != [] && IsDir(old(root), p) && !fails(IoOp.RemoveDirAll(p))
      ensures root == if r.Ok? then Remove(old(root), p) else old(root)
      ensures r.Err? ==> r.error == Io(IoOp.RemoveDirAll(p))
      ensures log == old(log)
    {
      if p == [] || !IsDir(root, p) || fails(IoOp.RemoveDirAll(p)) {
        return Err(Io(IoOp.RemoveDirAll(p)));
      }
      root := Remove(root, p);
      return Ok(());
    }

    method RemoveFile(p: Path) returns (r: Result<(), InstallerError>)
      modifies this
      ensures r.Ok? <==> p != [] && IsFile(old(root), p) && !fails(IoOp.RemoveFile(p))
      ensures root == if r.Ok? then Remove(old(root), p) else old(root)
      ensures r.Err? ==> r.error == Io(IoOp.RemoveFile(p))
      ensures log == old(log)
    {
      if p == [] || !IsFile(root, p) || fails(IoOp.RemoveFile(p)) {
        return Err(Io(IoOp.RemoveFile(p)));
      }
      root := Remove(root, p);
      return Ok(());
    }

    /** Opening for writing with `create(true)`, or `create_new(true)` when
        `createNew`: a missing file is created empty, an existing one is kept
        as it is (nothing truncates it). */
    method OpenWrite(p: Path, createNew: bool) returns (r: Result<(), InstallerError>)
      modifies this
      ensures r.Ok? <==> p != [] && IsDir(old(root), Parent(p)) && !IsDir(old(root), p) &&
                         !(createNew && Exists(old(root), p)) && !fails(IoOp.OpenWrite(p))
      ensures root == if r.Ok? && !Exists(old(root), p) then Put(old(root), p, File([])) else old(root)
      ensures r.Err? ==> r.error == Io(IoOp.OpenWrite(p))
      ensures log == old(log)
    {
      if p == [] || !IsDir(root, Parent(p)) || IsDir(root, p) || (createNew && Exists(root, p)) ||
         fails(IoOp.OpenWrite(p)) {
        return Err(Io(IoOp.OpenWrite(p)));
      }
      if !Exists(root, p) {
        root := Put(root, p, File([]));
      }
      return Ok(());
    }

    /** `write_all` through a handle freshly opened on `p`: the bytes go to offset 0. */
    method WriteAll(p: Path, data: seq<byte>) returns (r: Result<(), InstallerError>)
      modifies this
      ensures r.Ok? <==> IsFile(old(root), p) && !fails(IoOp.WriteAll(p))
      ensures root == if r.Ok? then Put(old(root), p, File(Overlay(Lookup(old(root), p).value.data, data))) else old(root)
      ensures r.Err? ==> r.error == Io(IoOp.WriteAll(p))
      ensures log == old(log)
    {
      if !IsFile(root, p) || fails(IoOp.WriteAll(p)) {
        return Err(Io(IoOp.WriteAll(p)));
      }
      root := Put(root, p, File(Overlay(Lookup(root, p).value.data, data)));
      return Ok(());
    }

    method Rename(from: Path, to: Path) returns (r: Result<(), InstallerError>)
      modifies this
      ensures r.Ok? <==> RenameOk(old(root), from, to) && !fails(IoOp.Rename(from, to))
      ensures root == if r.Ok? then RenameTree(old(root), from, to) else old(root)
      ensures r.Err? ==> r.error == Io(IoOp.Rename(from, to))
      ensures log == old(log)
    {
      if !RenameOk(root, from, to) || fails(IoOp.Rename(from, to)) {
        return Err(Io(IoOp.Rename(from, to)));
      }
      root := RenameTree(root, from, to);
      return Ok(());
    }

    /** Unpacking an archive into the directory `p`. */
    method Unpack(p: Path, entries: seq<Entry>)
      modifies this
      ensures root == Put(old(root), p, Dir(entries))
      ensures log == old(log)
    {
      root := Put(root, p, Dir(entries));
    }

    /** `spawn()` followed by `wait()`: the attempt is recorded whatever its outcome. */
    method Run(command: seq<string>) returns (r: Result<Option<int>, InstallerError>)
      modifies this
      ensures log == old(log) + [command]
      ensures root == old(root)
      ensures r == match exec(command)
                   case SpawnFailed => Err(Io(IoOp.Spawn(command)))
                   case Exited(code) => Ok(code)
    {
      log := log + [command];
      match exec(command)
      case SpawnFailed => r := Err(Io(IoOp.Spawn(command)));
      case Exited(code) => r := Ok(code);
    }
  }
}
