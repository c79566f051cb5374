/** Asking the catalog for the newest release matching an install (src/utils.rs). */
module Latest {
  import opened Wrappers
  import opened Types
  import opened Errors
  import opened Platform
  import opened ReleaseInformation
  import opened Config

  /** The request `get_latest_version` builds: the install's feature version,
      release type, image type and JVM implementation for this system, newest
      first, one result. Heap size, vendor, project and C library are not
      part of the query. */
  function LatestParams(settings: InstallSettings, system: SystemProperties): (p: Params)
    ensures p.featureVersion == settings.featureVersion && p.releaseType == settings.releaseType
    ensures p.queryParams == QueryParams(Some(system), Some(Sort(Descending, SortMethod.Default, 0, 1)), None,
                                         Some(settings.imageType), Some(settings.jvmImpl), None, None, None)
  {
    ParamsBuilder.Empty()
      .SetFeatureVersion(settings.featureVersion)
      .SetReleaseType(settings.releaseType)
      .WithQueryBuilder((query: QueryParamsBuilder) =>
        query.SetImageType(Some(settings.imageType))
             .SetJvmImpl(Some(settings.jvmImpl))
             .SetLocalSystem(Some(system))
             .WithSort((sort: SortBuilder) => sort.SetSortOrder(Descending).SetSortMethod(SortMethod.Default).SetPage(0).SetPageSize(1)))
      .Build()
  }

  /** `get_latest_version`: the first release of the answer; a failed request
      is an Adoptium error and an empty answer aborts (`remove(0)`). */
  function GetLatestVersion(host: Host, settings: InstallSettings): (r: Result<Datum, InstallerError>)
    ensures var answer := host.catalog(LatestParams(settings, host.system));
            && (answer.None? ==> r == Err(Adoptium))
            && (answer == Some([]) ==> r.Err? && r.error.Panic?)
            && (r.Ok? <==> answer.Some? && answer.value != [])
            && (r.Ok? ==> r.value == answer.value[0])
  {
    match host.catalog(LatestParams(settings, host.system))
    case None => Err(Adoptium)
    case Some(releases) =>
      if releases == [] then Err(Panic("remove(0) on an empty release list")) else Ok(releases[0])
  }

  /** Whatever else two installs differ in, the same feature version, release
      type, image type and JVM implementation get the same answer. */
  lemma LatestIgnoresOtherSettings(host: Host, a: InstallSettings, b: InstallSettings)
    requires a.featureVersion == b.featureVersion && a.releaseType == b.releaseType
    requires a.imageType == b.imageType && a.jvmImpl == b.jvmImpl
    ensures GetLatestVersion(host, a) == GetLatestVersion(host, b)
  {
    assert LatestParams(a, host.system) == LatestParams(b, host.system);
  }
}
