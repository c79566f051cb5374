/** The installer's persistent state (src/config/mod.rs): one record per
    install under `<config dir>/installs/`, and the settings file
    `<config dir>/adoptium.toml`. */
module Config {
  import opened Wrappers
  import opened Text
  import opened Types
  import opened Response
  import opened FileSystem
  import opened Errors
  import opened Platform
  import opened LinuxConfig

  /** What was asked for when an install was made. */
  datatype InstallSettings = InstallSettings(
    heapSize: HeapSize,
    imageType: ImageType,
    jvmImpl: AdoptiumJvmImpl,
    vendor: Vendor,
    project: Project,
    cLib: Option<CLib>,
    releaseType: ReleaseType,
    featureVersion: int)

  type Identity = (int, ImageType, HeapSize, AdoptiumJvmImpl)

  /** The record of one install. */
  datatype InstallConfig = InstallConfig(
    installLocation: Path,
    installTime: Instant,
    installSettings: InstallSettings,
    currentVersion: VersionData)
  {
    /** `Display`: `<major>-<image type>-<heap size>-<jvm impl>`, the name an
        install goes by on the command line, in its directory and its record file. */
    function Key(): string {
      Dashed([IntToString(currentVersion.major), installSettings.imageType.ToString(),
              installSettings.heapSize.ToString(), installSettings.jvmImpl.ToString()])
    }

    /** `PartialEq<String>`: the install goes by the name `other`. */
    predicate Matches(other: string) {
      Key() == other
    }

    /** The fields the key is made of. */
    function Id(): Identity {
      (currentVersion.major, installSettings.imageType, installSettings.heapSize, installSettings.jvmImpl)
    }
  }

  /** The parts joined by dashes. */
  function Dashed(parts: seq<string>): string
    decreases |parts|
  {
    if parts == [] then "" else if |parts| == 1 then parts[0] else parts[0] + "-" + Dashed(parts[1..])
  }

  lemma DashedFour(a: string, b: string, c: string, d: string)
    ensures Dashed([a, b, c, d]) == a + "-" + (b + "-" + c + "-" + d)
  {
    assert [a, b, c, d][1..] == [b, c, d];
    assert [b, c, d][1..] == [c, d];
    assert [c, d][1..] == [d];
    assert Dashed([c, d]) == c + "-" + d;
    assert Dashed([b, c, d]) == b + "-" + (c + "-" + d);
  }

  /** Reads a key back into the fields it was made of. */
  function ParseKey(s: string): Option<Identity> {
    var neg := |s| > 0 && s[0] == '-';
    var body := if neg then s[1..] else s;
    match SplitFirst(body, '-')
    case None => None
    case Some((digits, rest)) =>
      match (ParseNat(digits), ParseKind(rest))
      case (Some(n), Some((i, h, j))) => Some((if neg then -(n as int) else n as int, i, h, j))
      case _ => None
  }

  /** The part of a key after the major version. */
  function ParseKind(s: string): Option<(ImageType, HeapSize, AdoptiumJvmImpl)> {
    match SplitFirst(s, '-')
    case None => None
    case Some((image, rest)) =>
      match SplitFirst(rest, '-')
      case None => None
      case Some((heap, jvm)) =>
        match ImageType.Parse(image)
        case None => None
        case Some(i) =>
          match HeapSize.Parse(heap)
          case None => None
          case Some(h) =>
            match AdoptiumJvmImpl.Parse(jvm)
            case None => None
            case Some(j) => Some((i, h, j))
  }

  lemma ParseKindRoundTrip(i: ImageType, h: HeapSize, j: AdoptiumJvmImpl)
    ensures ParseKind(i.ToString() + "-" + h.ToString() + "-" + j.ToString()) == Some((i, h, j))
  {
    assert '-' !in i.ToString() by {
      match i
      case JDK => case JRE => case TestImage => case DebugImage => case StaticLibs => case Sources =>
    }
    assert '-' !in h.ToString() by {
      match h
      case Normal => case Large =>
    }
    assert '-' !in j.ToString();
    assert i.ToString() + "-" + h.ToString() + "-" + j.ToString() == i.ToString() + "-" + (h.ToString() + "-" + j.ToString());
    SplitFirstJoin(i.ToString(), '-', h.ToString() + "-" + j.ToString());
    SplitFirstJoin(h.ToString(), '-', j.ToString());
    ImageTypeStrings(i, i.ToString());
    HeapSizeStrings(h, h.ToString());
    JvmImplStrings(j, j.ToString());
  }

  /** After the optional minus sign, a key splits at its first dash into the
      major version's digits and the rest. */
  lemma SignedPrefix(m: int, tail: string)
    ensures var k := IntToString(m) + "-" + tail;
            var neg := |k| > 0 && k[0] == '-';
            && neg == (m < 0)
            && SplitFirst(if neg then k[1..] else k, '-') == Some((NatToString(if m < 0 then -m else m), tail))
  {
    var d := NatToString(if m < 0 then -m else m);
    var k := IntToString(m) + "-" + tail;
    assert forall i :: 0 <= i < |d| ==> d[i] != '-';
    if m < 0 {
      assert k == "-" + (d + "-" + tail);
      assert k[1..] == d + "-" + tail;
    } else {
      assert k[0] == d[0];
    }
    SplitFirstJoin(d, '-', tail);
  }

  /** A key made of a major version and the three kind names reads back into them. */
  lemma ParseKeyJoin(m: int, i: ImageType, h: HeapSize, j: AdoptiumJvmImpl)
    ensures ParseKey(Dashed([IntToString(m), i.ToString(), h.ToString(), j.ToString()])) == Some((m, i, h, j))
  {
    var a, b, c, d := IntToString(m), i.ToString(), h.ToString(), j.ToString();
    var tail := b + "-" + c + "-" + d;
    var k := Dashed([a, b, c, d]);
    DashedFour(a, b, c, d);
    var abs := if m < 0 then -m else m;
    SignedPrefix(m, tail);
    ParseKindRoundTrip(i, h, j);
    NatToStringRoundTrip(abs);
    var neg := |k| > 0 && k[0] == '-';
    assert SplitFirst(if neg then k[1..] else k, '-') == Some((NatToString(abs), tail));
    assert ParseNat(NatToString(abs)) == Some(abs);
  }

  lemma ParseKeyRoundTrip(c: InstallConfig)
    ensures ParseKey(c.Key()) == Some(c.Id())
  {
    ParseKeyJoin(c.currentVersion.major, c.installSettings.imageType, c.installSettings.heapSize, c.installSettings.jvmImpl);
  }

  /** Two records go by the same name exactly when they agree on major
      version, image type, heap size and JVM implementation. */
  lemma KeyIdentity(a: InstallConfig, b: InstallConfig)
    ensures a.Key() == b.Key() <==> a.Id() == b.Id()
  {
    ParseKeyRoundTrip(a);
    ParseKeyRoundTrip(b);
  }

  datatype Settings = Settings(
    installLocation: Path,
    defaultVersion: Option<int>,
    system: SysConfig)

  /** The TOML codec (`toml::to_string_pretty` / `toml::from_str`); encoding may fail. */
  datatype Toml = Toml(
    encodeConfig: InstallConfig -> Option<seq<byte>>,
    decodeConfig: seq<byte> -> Option<InstallConfig>,
    encodeSettings: Settings -> Option<seq<byte>>,
    decodeSettings: seq<byte> -> Option<Settings>)
  {
    predicate ConfigRoundTrip(c: InstallConfig) {
      encodeConfig(c).Some? && decodeConfig(encodeConfig(c).value) == Some(c)
    }

    predicate SettingsRoundTrip(s: Settings) {
      encodeSettings(s).Some? && decodeSettings(encodeSettings(s).value) == Some(s)
    }
  }

  /** `ADOPTIUM_DIR` when set, otherwise `/etc/adoptium`. */
  function ConfigDirectory(adoptiumDir: Option<Path>): (p: Path)
    ensures adoptiumDir.Some? ==> p == adoptiumDir.value
    ensures adoptiumDir.None? ==> PathText(p) == "/etc/adoptium"
  {
    match adoptiumDir
    case Some(d) => d
    case None => ["etc", "adoptium"]
  }

  function InstallsDirectory(adoptiumDir: Option<Path>): Path {
    ConfigDirectory(adoptiumDir) + ["installs"]
  }

  function SettingsFile(adoptiumDir: Option<Path>): Path {
    ConfigDirectory(adoptiumDir) + ["adoptium.toml"]
  }

  /** `read_install`: read the file, then decode it. */
  function ReadInstall(host: Host, toml: Toml, p: Path): (r: Result<InstallConfig, InstallerError>)
    reads host
    ensures r.Ok? <==> host.ReadFile(p).Ok? && toml.decodeConfig(host.ReadFile(p).value).Some?
    ensures r.Ok? ==> Some(r.value) == toml.decodeConfig(host.ReadFile(p).value)
    ensures host.ReadFile(p).Err? ==> r == Err(host.ReadFile(p).error)
    ensures host.ReadFile(p).Ok? && r.Err? ==> r.error == TomlDe
  {
    match host.ReadFile(p)
    case Err(e) => Err(e)
    case Ok(bytes) =>
      match toml.decodeConfig(bytes)
      case None => Err(TomlDe)
      case Some(c) => Ok(c)
  }

  /** The records among the listed entries that read and decode, in listing
      order; the others are skipped (the source only reports them). */
  function Readable(host: Host, toml: Toml, dir: Path, es: seq<Entry>): seq<(Path, InstallConfig)>
    reads host
  {
    if es == [] then []
    else
      var last := dir + [es[|es| - 1].name];
      Readable(host, toml, dir, es[..|es| - 1]) +
      match ReadInstall(host, toml, last)
      case Ok(c) => [(last, c)]
      case Err(_) => []
  }

  /** What `get_installs` answers: no records when the directory is missing,
      the listing error when it cannot be listed, otherwise the readable records. */
  function Installs(host: Host, toml: Toml): Result<seq<(Path, InstallConfig)>, InstallerError>
    reads host
  {
    var dir := InstallsDirectory(host.adoptiumDir);
    if !Exists(host.root, dir) then Ok([])
    else
      match host.ReadDir(dir)
      case Err(e) => Err(e)
      case Ok(es) => Ok(Readable(host, toml, dir, es))
  }

  method GetInstalls(host: Host, toml: Toml) returns (r: Result<seq<(Path, InstallConfig)>, InstallerError>)
    ensures r == Installs(host, toml)
  {
    var dir := InstallsDirectory(host.adoptiumDir);
    if !Exists(host.root, dir) {
      return Ok([]);
    }
    var listing := host.ReadDir(dir);
    if listing.Err? {
      return Err(listing.error);
    }
    var es := listing.value;
    var values := [];
    var i := 0;
    while i < |es|
      invariant 0 <= i <= |es|
      invariant values == Readable(host, toml, dir, es[..i])
    {
      var p := dir + [es[i].name];
      var read := ReadInstall(host, toml, p);
      if read.Ok? {
        values := values + [(p, read.value)];
      }
      assert es[..i + 1][..i] == es[..i];
      i := i + 1;
    }
    assert es[..|es|] == es;
    return Ok(values);
  }

  /** A record is returned exactly when one of the listed entries names it
      and it reads and decodes to that configuration; nothing is returned twice
      more often than it is listed. */
  lemma {:induction false} ReadableMembers(host: Host, toml: Toml, dir: Path, es: seq<Entry>, p: Path, c: InstallConfig)
    ensures (p, c) in Readable(host, toml, dir, es) <==>
            exists i :: 0 <= i < |es| && p == dir + [es[i].name] && ReadInstall(host, toml, p) == Ok(c)
    ensures |Readable(host, toml, dir, es)| <= |es|
  {
    if es != [] {
      var init := es[..|es| - 1];
      ReadableMembers(host, toml, dir, init, p, c);
      if exists i :: 0 <= i < |es| && p == dir + [es[i].name] && ReadInstall(host, toml, p) == Ok(c) {
        var i :| 0 <= i < |es| && p == dir + [es[i].name] && ReadInstall(host, toml, p) == Ok(c);
        if i < |es| - 1 {
          assert init[i] == es[i];
        }
      }
      if exists i :: 0 <= i < |init| && p == dir + [init[i].name] && ReadInstall(host, toml, p) == Ok(c) {
        var i :| 0 <= i < |init| && p == dir + [init[i].name] && ReadInstall(host, toml, p) == Ok(c);
        assert es[i] == init[i];
      }
    }
  }

  /** `get_settings`: no settings when the file is missing; read and decode otherwise. */
  function GetSettings(host: Host, toml: Toml): (r: Result<Option<Settings>, InstallerError>)
    reads host
    ensures r == Ok(None) <==> !Exists(host.root, SettingsFile(host.adoptiumDir))
    ensures r.Ok? && r.value.Some? ==>
              host.ReadFile(SettingsFile(host.adoptiumDir)).Ok? &&
              toml.decodeSettings(host.ReadFile(SettingsFile(host.adoptiumDir)).value) == r.value
    ensures r == Err(TomlDe) <==>
              Exists(host.root, SettingsFile(host.adoptiumDir)) && host.ReadFile(SettingsFile(host.adoptiumDir)).Ok? &&
              toml.decodeSettings(host.ReadFile(SettingsFile(host.adoptiumDir)).value).None?
    ensures Exists(host.root, SettingsFile(host.adoptiumDir)) && host.ReadFile(SettingsFile(host.adoptiumDir)).Ok? &&
            toml.decodeSettings(host.ReadFile(SettingsFile(host.adoptiumDir)).value).Some? ==>
              r == Ok(toml.decodeSettings(host.ReadFile(SettingsFile(host.adoptiumDir)).value))
    ensures Exists(host.root, SettingsFile(host.adoptiumDir)) && host.ReadFile(SettingsFile(host.adoptiumDir)).Err? ==>
              r == Err(host.ReadFile(SettingsFile(host.adoptiumDir)).error)
  {
    var file := SettingsFile(host.adoptiumDir);
    if !Exists(host.root, file) then Ok(None)
    else
      match host.ReadFile(file)
      case Err(e) => Err(e)
      case Ok(bytes) =>
        match toml.decodeSettings(bytes)
        case None => Err(TomlDe)
        case Some(s) => Ok(Some(s))
  }

  /** `save_settings`: creates the configuration directory when missing, then
      creates the settings file, failing if it already exists. The file is
      created before the settings are encoded, so an encoding failure leaves
      an empty file behind. */
  method SaveSettings(host: Host, toml: Toml, s: Settings) returns (r: Result<(), InstallerError>)
    modifies host
    ensures host.log == old(host.log)
    ensures SameOutside(old(host.root), host.root, ConfigDirectory(host.adoptiumDir))
    ensures Exists(old(host.root), SettingsFile(host.adoptiumDir)) ==>
              r == Err(Io(IoOp.OpenWrite(SettingsFile(host.adoptiumDir)))) && host.root == old(host.root)
    ensures r.Ok? ==> (toml.encodeSettings(s).Some? &&
                       Lookup(host.root, SettingsFile(host.adoptiumDir)) == Some(File(toml.encodeSettings(s).value)))
    ensures r.Ok? && toml.SettingsRoundTrip(s) && !host.fails(IoOp.ReadFile(SettingsFile(host.adoptiumDir))) ==>
              GetSettings(host, toml) == Ok(Some(s))
    ensures r == Err(TomlSer) ==> Lookup(host.root, SettingsFile(host.adoptiumDir)) == Some(File([]))
  {
    var dir := ConfigDirectory(host.adoptiumDir);
    var file := SettingsFile(host.adoptiumDir);
    assert Prefix(dir, file);
    ExistsAbove(host.root, dir, file);
    if !Exists(host.root, dir) {
      var made := host.CreateDirAll(dir);
      if made.Err? {
        return Err(made.error);
      }
      MkdirAllResult(old(host.root), dir, dir);
      MkdirAllOutside(old(host.root), dir, dir);
      LookupSnoc(host.root, dir, "adoptium.toml");
    }
    ghost var before := host.root;
    assert Parent(file) == dir;
    var open := host.OpenWrite(file, true);
    if open.Err? {
      return Err(open.error);
    }
    LookupPutHere(before, file, File([]));
    PutOutside(before, file, File([]), dir);
    var encoded := toml.encodeSettings(s);
    if encoded.None? {
      return Err(TomlSer);
    }
    ghost var afterOpen := host.root;
    var written := host.WriteAll(file, encoded.value);
    if written.Err? {
      return Err(written.error);
    }
    LookupPutExisting(afterOpen, file, File(encoded.value));
    PutOutside(afterOpen, file, File(encoded.value), dir);
    return Ok(());
  }
}
