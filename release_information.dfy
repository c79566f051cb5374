/** Release-information requests (adoptium_api/src/requests/release_information.rs):
    the parameters, their derive_builder builders, the response records and
    the request's URL path. */
module ReleaseInformation {
  import opened Wrappers
  import opened Text
  import opened Types
  import opened Response

  datatype QueryParams = QueryParams(
    localSystem: Option<SystemProperties>,
    sort: Option<Sort>,
    heapSize: Option<HeapSize>,
    imageType: Option<ImageType>,
    jvmImpl: Option<AdoptiumJvmImpl>,
    vendor: Option<Vendor>,
    project: Option<Project>,
    cLib: Option<CLib>)
  {
    /** `#[derive(Default)]`: every option absent. */
    static function Default(): QueryParams {
      QueryParams(None, None, None, None, None, None, None, None)
    }
  }

  /** derive_builder's builder for `ReleaseInformationQueryParams`: a slot per
      field, each holding the field's (optional) value once its setter ran. */
  datatype QueryParamsBuilder = QueryParamsBuilder(
    localSystem: Option<Option<SystemProperties>>,
    sort: Option<Option<Sort>>,
    heapSize: Option<Option<HeapSize>>,
    imageType: Option<Option<ImageType>>,
    jvmImpl: Option<Option<AdoptiumJvmImpl>>,
    vendor: Option<Option<Vendor>>,
    project: Option<Option<Project>>,
    cLib: Option<Option<CLib>>)
  {
    static function Empty(): QueryParamsBuilder {
      QueryParamsBuilder(None, None, None, None, None, None, None, None)
    }
    function SetLocalSystem(v: Option<SystemProperties>): QueryParamsBuilder { this.(localSystem := Some(v)) }
    function SetHeapSize(v: Option<HeapSize>): QueryParamsBuilder { this.(heapSize := Some(v)) }
    function SetImageType(v: Option<ImageType>): QueryParamsBuilder { this.(imageType := Some(v)) }
    function SetJvmImpl(v: Option<AdoptiumJvmImpl>): QueryParamsBuilder { this.(jvmImpl := Some(v)) }
    function SetVendor(v: Option<Vendor>): QueryParamsBuilder { this.(vendor := Some(v)) }
    function SetProject(v: Option<Project>): QueryParamsBuilder { this.(project := Some(v)) }
    function SetCLib(v: Option<CLib>): QueryParamsBuilder { this.(cLib := Some(v)) }

    /** `WithSort::set_sort`. */
    function SetSort(s: Sort): QueryParamsBuilder { this.(sort := Some(Some(s))) }

    /** `WithSort::with_sort`: the closure edits a fresh `SortBuilder`, whose
        build result is then set as the sort. */
    function WithSort(edit: SortBuilder -> SortBuilder): QueryParamsBuilder {
      SetSort(edit(SortBuilder.Empty()).Build())
    }

    /** The builder's `build`: an unset slot takes `QueryParams::default()`'s field. */
    function Build(): QueryParams {
      var d := QueryParams.Default();
      QueryParams(localSystem.GetOr(d.localSystem), sort.GetOr(d.sort), heapSize.GetOr(d.heapSize),
                  imageType.GetOr(d.imageType), jvmImpl.GetOr(d.jvmImpl), vendor.GetOr(d.vendor),
                  project.GetOr(d.project), cLib.GetOr(d.cLib))
    }
  }

  datatype Params = Params(featureVersion: int, releaseType: ReleaseType, queryParams: QueryParams) {
    static function Default(): Params {
      Params(21, ReleaseType.Default(), QueryParams.Default())
    }

    /** `From<i64>`: the given feature version, everything else defaulted. */
    static function From(featureVersion: int): Params {
      Default().(featureVersion := featureVersion)
    }
  }

  /** derive_builder's `ReleaseInformationParamsBuilder` with `#[builder(default)]`:
      unset slots are filled from `Params::default()`. */
  datatype ParamsBuilder = ParamsBuilder(
    featureVersion: Option<int>,
    releaseType: Option<ReleaseType>,
    queryParams: Option<QueryParams>)
  {
    static function Empty(): ParamsBuilder { ParamsBuilder(None, None, None) }
    function SetFeatureVersion(v: int): ParamsBuilder { this.(featureVersion := Some(v)) }
    function SetReleaseType(v: ReleaseType): ParamsBuilder { this.(releaseType := Some(v)) }
    function SetQueryParams(v: QueryParams): ParamsBuilder { this.(queryParams := Some(v)) }

    /** `with_query_builder`: the closure edits a fresh query builder whose
        build result becomes the query parameters. */
    function WithQueryBuilder(edit: QueryParamsBuilder -> QueryParamsBuilder): ParamsBuilder {
      SetQueryParams(edit(QueryParamsBuilder.Empty()).Build())
    }

    function Build(): Params {
      var d := Params.Default();
      Params(featureVersion.GetOr(d.featureVersion), releaseType.GetOr(d.releaseType),
             queryParams.GetOr(d.queryParams))
    }
  }

  datatype Binary = Binary(
    architecture: Architecture,
    downloadCount: int,
    heapSize: HeapSize,
    imageType: ImageType,
    jvmImpl: AdoptiumJvmImpl,
    os: OS,
    package: Package,
    project: Project,
    scmRef: string,
    updatedAt: string,
    installer: Option<Package>)

  datatype Datum = Datum(
    binaries: seq<Binary>,
    downloadCount: int,
    id: string,
    releaseLink: string,
    releaseName: string,
    releaseType: ReleaseType,
    source: Option<Source>,
    timestamp: string,
    updatedAt: string,
    vendor: Vendor,
    versionData: VersionData)

  const FeatureReleases := "assets/feature_releases/"

  /** `get_url`: `qs` stands for serde_qs's query-string encoder, which is not modelled. */
  function GetUrl(p: Params, qs: QueryParams -> string): string {
    FeatureReleases + IntToString(p.featureVersion) + "/" + p.releaseType.ToString() + "?" + qs(p.queryParams)
  }

  const ApiRoot := "https://api.adoptium.net/v3/"

  /** `Adoptium::build_url` (adoptium_api/src/lib.rs): the API root prefixed to a path. */
  function BuildUrl(dest: string): string {
    ApiRoot + dest
  }

  /** Reads a feature-release path back into (feature version, release type, query string). */
  function ParseUrl(url: string): Option<(int, ReleaseType, string)> {
    if |url| < |FeatureReleases| || url[..|FeatureReleases|] != FeatureReleases then None else
    var rest := url[|FeatureReleases|..];
    match SplitFirst(rest, '/')
    case None => None
    case Some((version, tail)) =>
      match SplitFirst(tail, '?')
      case None => None
      case Some((release, query)) =>
        match (ParseInt(version), ReleaseType.Parse(release))
        case (Some(v), Some(r)) => Some((v, r, query))
        case _ => None
  }

  /** Reads a full request URL back: the API root, then a feature-release path. */
  function ParseRequestUrl(url: string): Option<(int, ReleaseType, string)> {
    if |url| < |ApiRoot| || url[..|ApiRoot|] != ApiRoot then None else ParseUrl(url[|ApiRoot|..])
  }

  // ---- Properties ----

  /** The default request asks for feature version 21, GA, with no query options. */
  lemma ParamsDefaults(n: int)
    ensures Params.Default() == Params(21, GeneralAvailability, QueryParams(None, None, None, None, None, None, None, None))
    ensures Params.From(n).featureVersion == n
    ensures Params.From(n).(featureVersion := 21) == Params.Default()
  {
  }

  /** The query builder's build on no setters is all-`None`, each setter only
      overrides its own field, and `set_sort` makes the sort present. */
  lemma QueryParamsBuilderLaws(b: QueryParamsBuilder, s: Sort, i: Option<ImageType>,
                               j: Option<AdoptiumJvmImpl>, l: Option<SystemProperties>)
    ensures QueryParamsBuilder.Empty().Build() == QueryParams.Default()
    ensures b.SetSort(s).sort == Some(Some(s)) && b.SetSort(s).Build() == b.Build().(sort := Some(s))
    ensures b.SetImageType(i).Build() == b.Build().(imageType := i)
    ensures b.SetJvmImpl(j).Build() == b.Build().(jvmImpl := j)
    ensures b.SetLocalSystem(l).Build() == b.Build().(localSystem := l)
    ensures b.heapSize.None? ==> b.Build().heapSize.None?
    ensures b.vendor.None? && b.project.None? && b.cLib.None? ==>
              b.Build().vendor.None? && b.Build().project.None? && b.Build().cLib.None?
  {
  }

  /** `with_query_builder` replaces only the query parameters, with what the
      closure's builder builds. */
  lemma WithQueryBuilderLaw(b: ParamsBuilder, edit: QueryParamsBuilder -> QueryParamsBuilder)
    ensures b.WithQueryBuilder(edit).featureVersion == b.featureVersion
    ensures b.WithQueryBuilder(edit).releaseType == b.releaseType
    ensures b.WithQueryBuilder(edit).Build().queryParams == edit(QueryParamsBuilder.Empty()).Build()
  {
  }

  lemma ParamsBuilderLaws(b: ParamsBuilder, v: int, r: ReleaseType)
    ensures ParamsBuilder.Empty().Build() == Params.Default()
    ensures b.SetFeatureVersion(v).Build() == b.Build().(featureVersion := v)
    ensures b.SetReleaseType(r).Build() == b.Build().(releaseType := r)
  {
  }

  /** The URL path determines the request: its feature version, release type
      and encoded query string can be read back from it. */
  lemma GetUrlRoundTrip(p: Params, qs: QueryParams -> string)
    ensures ParseUrl(GetUrl(p, qs)) == Some((p.featureVersion, p.releaseType, qs(p.queryParams)))
  {
    var v := IntToString(p.featureVersion);
    var r := p.releaseType.ToString();
    var q := qs(p.queryParams);
    var url := GetUrl(p, qs);
    assert url == FeatureReleases + (v + ['/'] + (r + ['?'] + q));
    assert url[..|FeatureReleases|] == FeatureReleases;
    assert url[|FeatureReleases|..] == v + ['/'] + (r + ['?'] + q);
    IntToStringAvoids(p.featureVersion, '/');
    SplitFirstJoin(v, '/', r + ['?'] + q);
    assert '?' !in r;
    SplitFirstJoin(r, '?', q);
    IntToStringRoundTrip(p.featureVersion);
    ReleaseTypeStrings(p.releaseType, r);
  }

  /** The URL the client requests, the API root joined with the path,
      determines the request in the same way. */
  lemma RequestUrlRoundTrip(p: Params, qs: QueryParams -> string)
    ensures ParseRequestUrl(BuildUrl(GetUrl(p, qs))) == Some((p.featureVersion, p.releaseType, qs(p.queryParams)))
  {
    var url := BuildUrl(GetUrl(p, qs));
    assert url[..|ApiRoot|] == ApiRoot;
    assert url[|ApiRoot|..] == GetUrl(p, qs);
    GetUrlRoundTrip(p, qs);
  }

  /** Distinct feature versions or release types give distinct URL paths. */
  lemma GetUrlInjective(p: Params, p': Params, qs: QueryParams -> string)
    requires GetUrl(p, qs) == GetUrl(p', qs)
    ensures p.featureVersion == p'.featureVersion && p.releaseType == p'.releaseType
  {
    GetUrlRoundTrip(p, qs);
    GetUrlRoundTrip(p', qs);
  }
}
