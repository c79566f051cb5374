/** The closed vocabulary of the Adoptium catalog (adoptium_api/src/types.rs):
    each enumeration with its Rust variant name, the string strum's `Display`
    produces, strum's `FromStr` parser, serde's name where it differs, and the
    `Default` impls; then `Sort` and its builder. */
module Types {
  import opened Wrappers
  import opened Text

  datatype CLib = MUSL | GLIBC {
    function Name(): string {
      match this
      case MUSL => "MUSL"
      case GLIBC => "GLIBC"
    }
    function ToString(): string {
      match this
      case MUSL => "musl"
      case GLIBC => "glibc"
    }
    static function Parse(s: string): Option<CLib> {
      if s == "musl" then Some(MUSL)
      else if s == "glibc" then Some(GLIBC)
      else None
    }
  }

  datatype AdoptiumJvmImpl = HotSpot {
    function Name(): string { "HotSpot" }
    function ToString(): string { "hotspot" }
    static function Parse(s: string): Option<AdoptiumJvmImpl> {
      if s == "hotspot" then Some(HotSpot) else None
    }
    static function Default(): AdoptiumJvmImpl { HotSpot }
  }

  datatype HeapSize = Normal | Large {
    function Name(): string {
      match this
      case Normal => "Normal"
      case Large => "Large"
    }
    function ToString(): string {
      match this
      case Normal => "normal"
      case Large => "large"
    }
    static function Parse(s: string): Option<HeapSize> {
      if s == "normal" then Some(Normal)
      else if s == "large" then Some(Large)
      else None
    }
    static function Default(): HeapSize { Normal }
  }

  datatype Project = JDK | Valhalla | Metropolis | JRF | Shenandoah {
    function Name(): string {
      match this
      case JDK => "JDK"
      case Valhalla => "Valhalla"
      case Metropolis => "Metropolis"
      case JRF => "JRF"
      case Shenandoah => "Shenandoah"
    }
    function ToString(): string {
      match this
      case JDK => "jdk"
      case Valhalla => "valhalla"
      case Metropolis => "metropolis"
      case JRF => "jrf"
      case Shenandoah => "shenandoah"
    }
    static function Parse(s: string): Option<Project> {
      if s == "jdk" then Some(Project.JDK)
      else if s == "valhalla" then Some(Valhalla)
      else if s == "metropolis" then Some(Metropolis)
      else if s == "jrf" then Some(JRF)
      else if s == "shenandoah" then Some(Shenandoah)
      else None
    }
    static function Default(): Project { Project.JDK }
  }

  datatype ImageType = JDK | JRE | TestImage | DebugImage | StaticLibs | Sources {
    function Name(): string {
      match this
      case JDK => "JDK"
      case JRE => "JRE"
      case TestImage => "TestImage"
      case DebugImage => "DebugImage"
      case StaticLibs => "StaticLibs"
      case Sources => "Sources"
    }
    function ToString(): string {
      match this
      case JDK => "jdk"
      case JRE => "jre"
      case TestImage => "testimage"
      case DebugImage => "debugimage"
      case StaticLibs => "staticlibs"
      case Sources => "sources"
    }
    static function Parse(s: string): Option<ImageType> {
      if s == "jdk" then Some(ImageType.JDK)
      else if s == "jre" then Some(JRE)
      else if s == "testimage" then Some(TestImage)
      else if s == "debugimage" then Some(DebugImage)
      else if s == "staticlibs" then Some(StaticLibs)
      else if s == "sources" then Some(Sources)
      else None
    }
    static function Default(): ImageType { ImageType.JDK }
  }

  /** Renamed explicitly to `ga` / `ea` for both strum and serde. */
  datatype ReleaseType = GeneralAvailability | EarlyAccess {
    function ToString(): string {
      match this
      case GeneralAvailability => "ga"
      case EarlyAccess => "ea"
    }
    static function Parse(s: string): Option<ReleaseType> {
      if s == "ga" then Some(GeneralAvailability)
      else if s == "ea" then Some(EarlyAccess)
      else None
    }
    static function Default(): ReleaseType { GeneralAvailability }
  }

  datatype Vendor = Eclipse {
    function Name(): string { "Eclipse" }
    function ToString(): string { "eclipse" }
    static function Parse(s: string): Option<Vendor> {
      if s == "eclipse" then Some(Eclipse) else None
    }
  }

  /** `X64` carries two strum serializations, `x64` and `x86_64`: both parse,
      and strum's `Display` uses the longest of them. Serde still names it `x64`. */
  datatype Architecture = X64 | X86 | X32 | PPC64 | PPC64LE | S390X | AArch64 | ARM | SparcV9 | RISCV64 {
    function Name(): string {
      match this
      case X64 => "X64"
      case X86 => "X86"
      case X32 => "X32"
      case PPC64 => "PPC64"
      case PPC64LE => "PPC64LE"
      case S390X => "S390X"
      case AArch64 => "AArch64"
      case ARM => "ARM"
      case SparcV9 => "SparcV9"
      case RISCV64 => "RISCV64"
    }
    function ToString(): string {
      match this
      case X64 => "x86_64"
      case X86 => "x86"
      case X32 => "x32"
      case PPC64 => "ppc64"
      case PPC64LE => "ppc64le"
      case S390X => "s390x"
      case AArch64 => "aarch64"
      case ARM => "arm"
      case SparcV9 => "sparcv9"
      case RISCV64 => "riscv64"
    }
    static function Parse(s: string): Option<Architecture> {
      if s == "x64" || s == "x86_64" then Some(X64)
      else if s == "x86" then Some(X86)
      else if s == "x32" then Some(X32)
      else if s == "ppc64" then Some(PPC64)
      else if s == "ppc64le" then Some(PPC64LE)
      else if s == "s390x" then Some(S390X)
      else if s == "aarch64" then Some(AArch64)
      else if s == "arm" then Some(ARM)
      else if s == "sparcv9" then Some(SparcV9)
      else if s == "riscv64" then Some(RISCV64)
      else None
    }
    function SerdeName(): string {
      if this == X64 then "x64" else ToString()
    }
  }

  datatype OS = Linux | AlpineLinux | Windows {
    function Name(): string {
      match this
      case Linux => "Linux"
      case AlpineLinux => "AlpineLinux"
      case Windows => "Windows"
    }
    function ToString(): string {
      match this
      case Linux => "linux"
      case AlpineLinux => "alpinelinux"
      case Windows => "windows"
    }
    static function Parse(s: string): Option<OS> {
      if s == "linux" then Some(Linux)
      else if s == "alpinelinux" then Some(AlpineLinux)
      else if s == "windows" then Some(Windows)
      else None
    }
    function SerdeName(): string {
      match this
      case Linux => "linux"
      case AlpineLinux => "alpine-linux"
      case Windows => "windows"
    }
  }

  /** No strum case style: `Display` gives the variant name; serde upper-cases it. */
  datatype SortMethod = Default | Date {
    function ToString(): string {
      match this
      case Default => "Default"
      case Date => "Date"
    }
    function SerdeName(): string {
      match this
      case Default => "DEFAULT"
      case Date => "DATE"
    }
  }

  datatype SortOrder = Descending | Ascending {
    function ToString(): string {
      match this
      case Descending => "Descending"
      case Ascending => "Ascending"
    }
    function SerdeName(): string {
      match this
      case Descending => "DESC"
      case Ascending => "ASC"
    }
  }

  /** `SystemProperties`; its `Default` reads the build target and is left out. */
  datatype SystemProperties = SystemProperties(os: OS, architecture: Architecture)

  datatype Sort = Sort(sortOrder: SortOrder, sortMethod: SortMethod, page: int, pageSize: int) {
    static function Default(): Sort {
      Sort(Descending, SortMethod.Default, 0, 10)
    }
  }

  /** derive_builder's `SortBuilder`: one optional slot per field. With the
      struct-level `#[builder(default)]`, `build` fills an unset slot from
      `Sort::default()`, so it never fails. */
  datatype SortBuilder = SortBuilder(
    sortOrder: Option<SortOrder>,
    sortMethod: Option<SortMethod>,
    page: Option<int>,
    pageSize: Option<int>)
  {
    static function Empty(): SortBuilder {
      SortBuilder(None, None, None, None)
    }
    function SetSortOrder(v: SortOrder): SortBuilder { this.(sortOrder := Some(v)) }
    function SetSortMethod(v: SortMethod): SortBuilder { this.(sortMethod := Some(v)) }
    function SetPage(v: int): SortBuilder { this.(page := Some(v)) }
    function SetPageSize(v: int): SortBuilder { this.(pageSize := Some(v)) }

    function Build(): Sort {
      var d := Sort.Default();
      Sort(sortOrder.GetOr(d.sortOrder), sortMethod.GetOr(d.sortMethod),
           page.GetOr(d.page), pageSize.GetOr(d.pageSize))
    }
  }

  // ---- Properties of the string forms ----

  lemma CLibStrings(x: CLib, s: string)
    ensures x.ToString() == Lower(x.Name())
    ensures CLib.Parse(s) == Some(x) <==> s == x.ToString()
  {
  }

  lemma JvmImplStrings(x: AdoptiumJvmImpl, s: string)
    ensures x.ToString() == Lower(x.Name())
    ensures AdoptiumJvmImpl.Parse(s) == Some(x) <==> s == x.ToString()
  {
  }

  lemma HeapSizeStrings(x: HeapSize, s: string)
    ensures x.ToString() == Lower(x.Name())
    ensures HeapSize.Parse(s) == Some(x) <==> s == x.ToString()
  {
  }

  lemma ProjectStrings(x: Project, s: string)
    ensures x.ToString() == Lower(x.Name())
    ensures Project.Parse(s) == Some(x) <==> s == x.ToString()
  {
  }

  lemma ImageTypeStrings(x: ImageType, s: string)
    ensures x.ToString() == Lower(x.Name())
    ensures ImageType.Parse(s) == Some(x) <==> s == x.ToString()
  {
  }

  lemma ReleaseTypeStrings(x: ReleaseType, s: string)
    ensures ReleaseType.Parse(s) == Some(x) <==> s == x.ToString()
    ensures x.ToString() == (if x == GeneralAvailability then "ga" else "ea")
  {
  }

  lemma VendorStrings(x: Vendor, s: string)
    ensures x.ToString() == Lower(x.Name())
    ensures Vendor.Parse(s) == Some(x) <==> s == x.ToString()
  {
  }

  /** Every architecture but `X64` displays as its lower-cased name; every one
      parses back from its display string; serde uses the lower-cased name. */
  lemma ArchitectureDisplay(x: Architecture)
    ensures x != X64 ==> x.ToString() == Lower(x.Name())
    ensures Architecture.Parse(x.ToString()) == Some(x)
    ensures x.SerdeName() == Lower(x.Name())
  {
    match x
    case X64 =>
    case X86 =>
    case X32 =>
    case PPC64 =>
    case PPC64LE =>
    case S390X =>
    case AArch64 =>
    case ARM =>
    case SparcV9 =>
    case RISCV64 =>
  }

  /** `X64` parses from `x64` and from `x86_64` and from nothing else; any
      other variant parses only from its display string. */
  lemma ArchitectureParse(x: Architecture, s: string)
    ensures Architecture.Parse(s) == Some(X64) <==> s == "x64" || s == "x86_64"
    ensures x != X64 ==> (Architecture.Parse(s) == Some(x) <==> s == x.ToString())
  {
  }

  /** The serde name of `AlpineLinux` is not its `Display` string. */
  lemma OSStrings(x: OS, s: string)
    ensures x.ToString() == Lower(x.Name())
    ensures OS.Parse(s) == Some(x) <==> s == x.ToString()
    ensures x.SerdeName() == x.ToString() <==> x != AlpineLinux
    ensures OS.Parse(AlpineLinux.SerdeName()) == None
  {
  }

  /** The strings that tell variants apart are never shared: `ToString` is injective. */
  lemma ToStringInjective(a: ImageType, b: ImageType, h: HeapSize, k: HeapSize)
    ensures a.ToString() == b.ToString() ==> a == b
    ensures h.ToString() == k.ToString() ==> h == k
  {
    ImageTypeStrings(a, b.ToString());
    HeapSizeStrings(h, k.ToString());
  }

  lemma Defaults()
    ensures AdoptiumJvmImpl.Default() == HotSpot
    ensures HeapSize.Default() == Normal
    ensures Project.Default() == Project.JDK
    ensures ImageType.Default() == ImageType.JDK
    ensures ReleaseType.Default() == GeneralAvailability
    ensures Sort.Default() == Sort(Descending, SortMethod.Default, 0, 10)
  {
  }

  /** `build` on the empty builder is `Sort::default()`, and each setter only
      overrides its own field of what `build` returns: a builder with some
      setters called yields the default for every unset field. */
  lemma SortBuilderLaws(b: SortBuilder, o: SortOrder, m: SortMethod, p: int, n: int)
    ensures SortBuilder.Empty().Build() == Sort.Default()
    ensures b.SetSortOrder(o).Build() == b.Build().(sortOrder := o)
    ensures b.SetSortMethod(m).Build() == b.Build().(sortMethod := m)
    ensures b.SetPage(p).Build() == b.Build().(page := p)
    ensures b.SetPageSize(n).Build() == b.Build().(pageSize := n)
    ensures b.pageSize.None? ==> b.Build().pageSize == 10
    ensures b.page.None? ==> b.Build().page == 0
  {
  }
}
