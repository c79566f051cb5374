/** How the installer integrates an install with the system (src/sys/linux/config.rs). */
module LinuxConfig {

  /** A command the system resolves through `update-alternatives`: the
      system-wide link and the executable's name inside the install's `bin`. */
  datatype UpdateAlternativePath = UpdateAlternativePath(systemPath: string, execName: string)
  {
    static function From(pair: (string, string)): UpdateAlternativePath {
      UpdateAlternativePath(pair.0, pair.1)
    }
  }

  datatype UpdateAlternatives = UpdateAlternatives(
    jrePaths: seq<UpdateAlternativePath>,
    jdkPaths: seq<UpdateAlternativePath>)
  {
    static function Default(): UpdateAlternatives {
      UpdateAlternatives(
        [UpdateAlternativePath.From(("/usr/bin/java", "java"))],
        [UpdateAlternativePath.From(("/usr/bin/java", "java")),
         UpdateAlternativePath.From(("/usr/bin/javac", "javac")),
         UpdateAlternativePath.From(("/usr/bin/javadoc", "javadoc")),
         UpdateAlternativePath.From(("/usr/bin/javah", "javah")),
         UpdateAlternativePath.From(("/usr/bin/javap", "javap")),
         UpdateAlternativePath.From(("/usr/bin/javaws", "javaws"))])
    }
  }

  /** The only integration method: `update-alternatives`. */
  datatype InstallMethod = UseUpdateAlternatives(alternatives: UpdateAlternatives)
  {
    static function Default(): InstallMethod {
      UseUpdateAlternatives(UpdateAlternatives.Default())
    }
  }

  datatype SysConfig = SysConfig(installMethod: InstallMethod)
  {
    static function Default(): SysConfig {
      SysConfig(InstallMethod.Default())
    }
  }

  function ExecNames(ps: seq<UpdateAlternativePath>): seq<string> {
    seq(|ps|, i requires 0 <= i < |ps| => ps[i].execName)
  }

  /** Every default alternative links `/usr/bin/<name>` to `<name>`; a JRE
      registers only `java`, a JDK the six tools in this order, `java` first. */
  lemma DefaultAlternatives()
    ensures var d := SysConfig.Default().installMethod.alternatives;
      && ExecNames(d.jrePaths) == ["java"]
      && ExecNames(d.jdkPaths) == ["java", "javac", "javadoc", "javah", "javap", "javaws"]
      && d.jrePaths == d.jdkPaths[..1]
      && (forall u :: u in d.jrePaths + d.jdkPaths ==> u.systemPath == "/usr/bin/" + u.execName)
  {
    var d := SysConfig.Default().installMethod.alternatives;
    assert ExecNames(d.jdkPaths) == ["java", "javac", "javadoc", "javah", "javap", "javaws"];
    assert forall u :: u in d.jrePaths + d.jdkPaths ==> u.systemPath == "/usr/bin/" + u.execName by {
      forall u | u in d.jrePaths + d.jdkPaths
        ensures u.systemPath == "/usr/bin/" + u.execName
      {
        assert u in d.jdkPaths;
      }
    }
  }
}
