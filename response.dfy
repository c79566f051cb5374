/** Response records of the catalog (adoptium_api/src/response.rs), read-only to the installer. */
module Response {
  import opened Wrappers

  datatype Package = Package(
    checksum: string,
    checksumLink: Option<string>,
    downloadCount: int,
    link: string,
    metadataLink: string,
    name: string,
    size: int)

  datatype Source = Source(link: string, name: string, size: int)

  /** A release's version. `semver` is a display string; the numeric fields
      are what an ordering compares. */
  datatype VersionData = VersionData(
    build: int,
    major: int,
    minor: int,
    openjdkVersion: string,
    security: int,
    semver: string,
    adoptBuildNumber: Option<int>)
}
