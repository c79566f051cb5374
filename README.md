# adoptium-rs installer, modelled in Dafny

This project models the core of the adoptium-rs Linux installer. The installer
asks the Adoptium catalog for a Temurin release, downloads and unpacks its archive,
moves the JDK or JRE into place, and registers it with `update-alternatives`.
It keeps one TOML record per install and can list, update and uninstall installs.

The model has four parts:

- **Catalog vocabulary and requests** (`types.dfy`, `release_information.dfy`,
  `response.dfy`). The closed enumerations and their strum/serde strings. The
  `Default`s. `Sort` and the derive_builder builders, written as datatypes of
  optional slots. The request parameters and their URL path.
- **Install records** (`config.dfy`, `installer.dfy`).
  - The key `<major>-<image>-<heap>-<jvm>`, and equality by key.
  - The record store under `<config dir>/installs/`.
  - The settings file.
  - The in-memory `Installer`, a class whose `installs` sequence is updated in place.
- **Linux integration** (`linux_config.dfy`, `linux.dfy`). The default
  alternatives lists. The exact `chmod` / `update-alternatives` command plans.
  `SysInstaller`, a class whose `extractedData` field changes in place. Payload
  discovery. The rename loop that moves a payload into its install location.
- **Workflows** (`latest.dfy`, `download.dfy`, `install_command.dfy`,
  `list_command.dfy`, `update_command.dfy`, `uninstall_command.dfy`). Each
  command runs over three pieces of state: the in-memory installs, the filesystem
  and the log of started commands.

Everything outside the process is a `Host` object (`platform.dfy`):

- `root`: a directory tree in which entries keep their listing order.
- `log`: the commands started so far.
- Fixed oracles:
  - whether a filesystem call fails;
  - what a spawned command returns;
  - what the catalog answers to a request;
  - what fetching a link yields.
- `ADOPTIUM_DIR`, the temporary directory, `SystemProperties::default()` and
  the clock.

The TOML codec is a `Toml` value made of four functions. Its round trip is a
predicate that lemmas can assume. `VersionData` derives no ordering in the
source, so the workflows take the ordering as a parameter shaped like
`partial_cmp`. `Versions.Lexicographic` (major, minor, security, build) is the
intended instance, and it is proved total.

`get_latest_version` queries by image type, JVM implementation, release type and
feature version only. Heap size is not part of the query. So the newest release
for a large-heap install is looked up without a heap filter, as
`Latest.LatestParams` states.

Three behaviours of the code that its comments and names do not suggest:

- `add_install` opens the record with `create(true)`, not `create_new`. Records
  are never truncated.
- The payload root is the first *direct* child directory that holds `bin`.
- Non-zero exit codes of `chmod` and `update-alternatives` are discarded.
  Only a failure to start a command stops a plan.

## Model

| member | source | states |
|---|---|---|
| Types.CLibStrings | adoptium_api/src/types.rs:14-20 | a C library displays as its lower-cased variant name, and parsing gives that variant back exactly for that string |
| Types.JvmImplStrings | adoptium_api/src/types.rs:22-27 | `HotSpot` displays as `hotspot`, and parsing accepts exactly that string |
| Types.HeapSizeStrings | adoptium_api/src/types.rs:35-41 | heap sizes display lower-cased and parse back exactly from that text |
| Types.ProjectStrings | adoptium_api/src/types.rs:49-58 | projects display lower-cased and parse back exactly from that text |
| Types.ImageTypeStrings | adoptium_api/src/types.rs:66-76 | image types display lower-cased (`TestImage` gives `testimage`) and parse back exactly from that text |
| Types.ReleaseTypeStrings | adoptium_api/src/types.rs:84-92 | release types display as `ga` / `ea` and parse back exactly from them |
| Types.VendorStrings | adoptium_api/src/types.rs:100-105 | `Eclipse` displays as `eclipse` and parses back from it |
| Types.ArchitectureDisplay | adoptium_api/src/types.rs:107-122 | every architecture except `X64` displays lower-cased; every display string parses back to its variant; the serde name is the lower-cased variant name |
| Types.ArchitectureParse | adoptium_api/src/types.rs:107-122 | `X64` is parsed from exactly `x64` and `x86_64`; any other variant is parsed from exactly its display string |
| Types.OSStrings | adoptium_api/src/types.rs:144-152 | operating systems display lower-cased and parse back; only `AlpineLinux` has a serde name (`alpine-linux`) other than its display string, and that name does not parse |
| Types.ToStringInjective | adoptium_api/src/types.rs:35-76 | distinct image types, and distinct heap sizes, display differently |
| Types.Defaults | adoptium_api/src/types.rs:29-98 | the defaults are HotSpot, Normal, JDK project, JDK image and GA; `Sort::default()` is (Descending, Default, 0, 10) |
| Types.SortBuilderLaws | adoptium_api/src/types.rs:181-218 | the empty builder builds `Sort::default()`; each setter changes only its own field of the built sort; unset fields take the default |
| ReleaseInformation.ParamsDefaults | adoptium_api/src/requests/release_information.rs:30-46 | default params are feature version 21, GA and all query options absent; `From(n)` differs from the default only in the feature version `n` |
| ReleaseInformation.QueryParamsBuilderLaws | adoptium_api/src/requests/release_information.rs:59-89 | the empty query builder builds all-`None`; `set_sort` makes the sort present with the given value; each setter changes only its own field; unset options stay `None` |
| ReleaseInformation.WithQueryBuilderLaw | adoptium_api/src/requests/release_information.rs:47-57 | `with_query_builder` sets the query params to what the closure's builder builds, and keeps the feature version and release type slots |
| ReleaseInformation.ParamsBuilderLaws | adoptium_api/src/requests/release_information.rs:23-29 | the empty params builder builds `Params::default()`; each setter changes only its own field |
| ReleaseInformation.GetUrlRoundTrip | adoptium_api/src/requests/release_information.rs:127-135 | the feature version, release type and encoded query can be read back from the URL path |
| ReleaseInformation.RequestUrlRoundTrip | adoptium_api/src/lib.rs:28-35 | the requested URL is the API root followed by the path, and the feature version, release type and query can be read back from it |
| ReleaseInformation.GetUrlInjective | adoptium_api/src/requests/release_information.rs:127-135 | requests that differ in feature version or release type have different paths |
| Config.ParseKeyRoundTrip | src/config/mod.rs:43-54 | the key `<major>-<image>-<heap>-<jvm>` can be read back into exactly those four fields |
| Config.KeyIdentity | src/config/mod.rs:43-60 | two records have the same key iff they agree on major version, image type, heap size and JVM implementation; every other field is ignored |
| Config.ConfigDirectory | src/config/mod.rs:69-73 | the config directory is `ADOPTIUM_DIR` when set, else `/etc/adoptium` |
| Config.ReadInstall | src/config/mod.rs:102-105 | a record reads iff the file reads and decodes; a read error is passed on; a decode failure is `TomlDe` |
| Config.GetInstalls | src/config/mod.rs:75-100 | the listing loop returns `Installs`: no records when the installs directory is missing, the listing error when it cannot be listed, else the readable records in listing order |
| Config.ReadableMembers | src/config/mod.rs:80-99 | a (path, record) pair is returned iff a listed entry has that path and reads as that record; unreadable entries are skipped and never fail the call |
| Config.GetSettings | src/config/mod.rs:107-116 | no settings iff the file is absent; a present file that reads and decodes gives `Ok(Some(decoded))`; a read error is passed on; `TomlDe` exactly when the file reads but does not decode |
| Config.SaveSettings | src/config/mod.rs:118-132 | an existing settings file makes the call fail with nothing changed; on success the file holds the encoded settings and reads back as them; only the config directory changes; an encoding failure leaves an empty file |
| LinuxConfig.DefaultAlternatives | src/sys/linux/config.rs:41-55 | JRE registers `java`; JDK registers java, javac, javadoc, javah, javap, javaws in that order; every system path is `/usr/bin/` plus the name |
| Linux.FirstPayload | src/sys/linux/mod.rs:28-39 | the index found is that of the first direct child that is a directory holding `bin`, or the number of entries when there is none |
| Linux.PayloadRootCases | src/sys/linux/mod.rs:28-39 | the data root stays put iff no direct child is a payload; otherwise it is the first payload child |
| Linux.SysInstaller.constructor | src/sys/linux/mod.rs:21-27 | a new `SysInstaller` holds the given record and extracted path |
| Linux.SysInstaller.FindInternalData | src/sys/linux/mod.rs:28-39 | a listing error is returned with the field unchanged; otherwise the field becomes the first payload child, or stays the same |
| Linux.MoveEntry | src/sys/linux/mod.rs:49 | one rename moves the next listed entry from the extracted data to the same name in the install location; whether or not it succeeds, nothing apart from both changes |
| Linux.MoveEntries | src/sys/linux/mod.rs:46-51 | renaming the listed entries in order into an empty location leaves it holding exactly those entries, in order, and the source empty; the first failed rename ends the loop; even then nothing apart from source and location has changed |
| Linux.SysInstaller.MoveData | src/sys/linux/mod.rs:40-52 | nothing apart from source and location ever changes, even when a step fails, and no command is run; when the two lie apart and names are unique, success leaves the location holding exactly the source's former entries, in order, and the source empty, the prior contents gone |
| Linux.PayloadRootBelow | src/sys/linux/mod.rs:28-39 | the data root found lies at or below the unpacked directory |
| Linux.RunEach | src/sys/linux/mod.rs:105-123 | the loop starts `Issued(plan)` and returns `Outcome(plan)` without touching the filesystem |
| Linux.SysInstaller.RemoveInstall | src/sys/linux/mod.rs:53-86 | starts the removal plan up to its first command that cannot start, and reports that outcome |
| Linux.SysInstaller.UpdateSystem | src/sys/linux/mod.rs:87-127 | starts the registration plan up to its first command that cannot start, and reports that outcome |
| Linux.UpdateSystemPlanShape | src/sys/linux/mod.rs:87-127 | the plan is `chmod -Rv 755 <loc>` first, even with no alternatives; then, for JDK/JRE, one `update-alternatives --install <sys> <name> <loc>/bin/<name> 1` per pair, in order |
| Linux.RemoveUndoesRegister | src/sys/linux/mod.rs:53-127 | removal issues one `--remove <name> <target>` per registered pair, in order, with the same names and targets that registration used |
| Linux.DefaultPlanSizes | src/sys/linux/mod.rs:96-104 | under the default config a JDK plan has 7 commands, a JRE plan 2, any other image type only `chmod` |
| Linux.IssuedAll | src/sys/linux/mod.rs:111-122 | when every command starts, all are issued and the plan succeeds |
| Linux.IssuedUpTo | src/sys/linux/mod.rs:111-122 | the first command that cannot start is the last one issued, and its failure is the result |
| Linux.IssuedOk | src/sys/linux/mod.rs:111-122 | a plan that succeeds has issued every command |
| Linux.ExitCodesIgnored | src/sys/linux/mod.rs:120-122 | environments that agree on which commands start give the same issued commands and outcome, whatever the exit codes |
| Installer.WriteRecord | src/lib.rs:35-44 | only the record file changes; on success it holds the encoding written over the old bytes without truncation, and reads back when the old file was no longer; any failure leaves the file as it was, or creates it empty when missing (`create(true)`) |
| Installer.Installer.constructor | src/lib.rs:56-59 | a new `Installer` holds the given settings and installs |
| Installer.Installer.DoesInstallExist | src/lib.rs:62-69 | true iff some known install has the candidate's major version, image type, heap size and JVM implementation, that is, the same key |
| Installer.Installer.AddInstall | src/lib.rs:70-88 | the install is appended only on success, with its record at `<config dir>/installs/<key>.toml`; otherwise the list stays the same; an existing record is overwritten without truncation; only the installs directory changes; a fresh record reads back; a failure leaves the record file as it was, or creates it empty |
| Installer.UpToDateText | src/lib.rs:105-116 | `Yes` and `No(Latest: v)` render to different texts, and the latest version can be read back from its cell |
| Installer.ExitCode | src/lib.rs:125-128 | the status is the exit code modulo 256 (`as u8`), or 1 when there is no code |
| Installer.RunCommand | src/lib.rs:125-128 | starts the command, logs it, and fails only when it cannot be started |
| Installer.Row | src/commands/list.rs:30-36 | a row shows the install's version and install time, with the given freshness |
| Installer.RowNames | src/commands/list.rs:30-36 | a row is named by its install's key, so two rows have the same name iff their installs agree on major version, image type, heap size and JVM implementation |
| Installer.Find | src/commands/uninstall.rs:14-18 | returns the first install whose key is the name, or the count when none matches |
| Latest.LatestParams | src/utils.rs:15-31 | the query copies feature version and release type, sends `Some` image type and JVM implementation for this system, sorts Descending/Default, page 0, size 1, and filters on nothing else |
| Latest.GetLatestVersion | src/utils.rs:10-39 | a failed request is an Adoptium error; an empty answer aborts; otherwise the result is the first release |
| Latest.LatestIgnoresOtherSettings | src/utils.rs:15-31 | installs that agree on feature version, release type, image type and JVM implementation get the same answer, whatever their heap size or vendor |
| Download.Download | src/download.rs:17-50 | on success the location holds exactly the delivered archive tree; apart from failing to clear or create the location, every failure is the fetch's: `Custom` for a request error or `Bad Response <code> <reason>` for a bad status, both leaving the location empty; an abort for a failed stream chunk; for a bad archive an I/O error from the next pipe write, or an abort when the body was fully sent; those two leave what was unpacked so far; nothing outside the location changes |
| Download.BadStatusReport | src/download.rs:30-34 | a bad status is reported as `Bad Response `, the numeric code, a space and the reason phrase, and code and phrase can be read back from it |
| InstallCommand.Args.Request | src/commands/install.rs:38-57 | the request carries the given version, the given release type or GA, image type and JVM implementation unchanged (`None` stays `None`), Descending, page 0, size 1 |
| InstallCommand.Pick | src/commands/install.rs:59-69 | a failed request is an Adoptium error; no release, or a release without binaries, aborts; otherwise the first release and its first binary |
| InstallCommand.Placed | src/commands/install.rs:90 | the install location is the settings' location joined with the key, and the key does not change |
| InstallCommand.LocationsApart | src/commands/install.rs:90 | installs with different keys never share an install location |
| InstallCommand.PayloadLookup | src/sys/linux/mod.rs:28-39 | after unpacking, the payload root holds exactly the payload's entries, or the whole archive when no child holds `bin` |
| InstallCommand.PlacePayload | src/commands/install.rs:92-101 | download, find and move run in order until one fails; no command is started and nothing outside the staging directory and the location changes; success means the archive was delivered and, when the two lie apart and names are unique, the location holds exactly the payload |
| InstallCommand.Provision | src/commands/install.rs:92-105 | each step runs only after the previous one succeeded: failures before `update_system` start no command; a failed registration has started the plan up to the failing command; the record is written only after the whole plan started; until then nothing outside staging directory and location changes, so a record file apart from both is untouched; a failed record write leaves it as it was or creates it empty; the install is appended exactly on success; when the staging and installs directories lie apart from the location, the location holds exactly the payload once moved |
| InstallCommand.Execute | src/commands/install.rs:59-106 | lookup errors change nothing; an install with the same key already known returns Ok with nothing changed; otherwise the provisioning steps behave as `Provision` states, including on failure; on success the install is appended with its record and the whole registration plan was issued; when temp and installs directories lie apart from the location, the location holds exactly the archive's payload; on error the list is unchanged |
| ListCommand.ListRow | src/commands/list.rs:16-36 | a row shows the install's current semver, and is `No(latest semver)` iff the latest version is greater, else `Yes` |
| ListCommand.ListRowsContents | src/commands/list.rs:14-37 | the table exists iff every lookup succeeds; it then has one row per install, in install order |
| ListCommand.ListRowsOk | src/commands/list.rs:15 | a table for the first `k` installs exists only if each of their lookups succeeded |
| ListCommand.ListRowsValue | src/commands/list.rs:14-37 | when the first `k` lookups succeed, the table has exactly `k` rows, row `i` being install `i`'s |
| ListCommand.ListRowsFirstError | src/commands/list.rs:14-15 | a failed table carries the error of the first install whose lookup fails |
| ListCommand.ListRowsErrorSticks | src/commands/list.rs:15 | once the first `j` installs fail, every longer prefix, and so the whole command, fails the same way |
| ListCommand.Execute | src/commands/list.rs:12-40 | the loop returns `ListRows` for the installs; nothing is changed |
| UpdateCommand.UpdatesAreOutdatedRows | src/commands/update.rs:34-58 | `--list` shows exactly the out-of-date rows of `list`, in the same order, and fails exactly when `list` fails, with the same error |
| UpdateCommand.Outdated | src/commands/update.rs:38-42 | a row is kept iff it is in the table and out of date |
| UpdateCommand.ListUpdates | src/commands/update.rs:34-58 | the loop returns `UpdateRows` for the installs and changes nothing |
| UpdateCommand.Updated | src/commands/update.rs:94-95 | an update keeps the record file, location and settings, and takes the new version and time |
| UpdateCommand.UpdateInternal | src/commands/update.rs:79-111 | a lookup error, or a latest version at most the current one, changes nothing; otherwise the in-memory record takes the new version and time, even when a later step fails; a release without binaries aborts; no command is ever issued; until the record is written nothing outside staging directory and location changes, so a record apart from both is untouched by a failed download, find or move; a failed record write leaves it as it was or creates it empty; when staging, location and record lie apart, success leaves exactly the payload at the location and a record that reads back as the new one |
| UpdateCommand.UpdateAll | src/commands/update.rs:62-65 | on success every install is refreshed in order; on failure the loop stopped at one install `i` whose update was due or whose lookup failed with that error: installs up to `i` are refreshed in memory (`i` too), the later ones untouched; the installs keep their record paths and locations (the fields); on disk nothing changes apart from the installs' staging directories, locations and record files |
| UpdateCommand.AbortAt | src/commands/update.rs:63-65 | replacing the failing install by its refreshed record after the earlier ones were refreshed is an abort at that install |
| UpdateCommand.UpdateOne | src/commands/update.rs:66-75 | only the first install with that key is refreshed in memory, even when its update fails; on disk nothing apart from its staging directory, location and record file changes, and a successful update whose paths lie apart leaves exactly the new payload at the location and a record that reads back as the refreshed one; an unknown name changes nothing; the others stay |
| UpdateCommand.Update | src/commands/update.rs:60-77 | `all` refreshes every install in order and stops at the first failure, leaving the later installs untouched; a name refreshes only the first install with that key, even on failure; a single update has the disk effect `UpdateOne` states; `all` changes nothing on disk apart from the installs' staging directories, locations and record files; an unknown name changes nothing; the installs keep their record paths and locations (the fields), and no command is issued |
| UpdateCommand.Execute | src/commands/update.rs:23-32 | `--list` lists and changes nothing; `--update <name>` has exactly the effect `Update` states for that name, in memory and on disk, with its error; with neither nothing happens and the result is Ok |
| UninstallCommand.Execute | src/commands/uninstall.rs:13-33 | an unknown name changes nothing; otherwise the removal plan is issued first, and a failure there leaves the files; any failure changes nothing outside the location, so a failed `remove_dir_all` leaves the record file; on success the location and record no longer exist and nothing apart from both changed; the in-memory list is kept |
| UpdateCommand.DueWhenListed | src/commands/update.rs:38-81 | every install `update --list` shows as out of date is one `update` acts on, and under the intended ordering the `>` test of the listing and the `<=` test of the update agree exactly |
| Versions.AtMostIsNotGreater | src/commands/update.rs:81 | under a total ordering `<=` is exactly "not `>`", so update's test and the listing's test agree |
| Versions.LexicographicExamples | adoptium_api/src/response.rs:21-30 | build breaks ties and security beats build (`1.0.0+5 < 1.0.1`, `11.0.1+5 < 11.0.5+44`); major beats the rest |
| Versions.LexicographicTotal | adoptium_api/src/response.rs:21-30 | the intended version ordering is total, equal exactly on equal numbers, and antisymmetric |
| Versions.LexicographicTransitive | adoptium_api/src/response.rs:21-30 | the intended version ordering is transitive |
| Versions.LexicographicTrichotomy | adoptium_api/src/response.rs:21-30 | for distinct version numbers exactly one of `a < b` and `b < a` holds; no version is less than itself |

## Left out

- The download pipeline is not modelled. That covers the HTTP stream, the
  `duplex(1024)` pipe, gzip, tar, the progress bar, and the `ClientBuilder::build`
  error. A fetch is one oracle answer: unreachable, bad status (code and reason
  phrase), failed stream, bad archive, or the archive's tree. What the unpacker
  writes is given whole by that answer, in one step.
- `Url::try_from(link).unwrap()` is not modelled. Links are taken as valid URLs.
  The `size as u64` cast is not modelled either; it only sizes the progress bar.
- HTTP client plumbing and JSON decoding are not modelled. The catalog is an
  oracle, and its `None` stands for any `AdoptiumError`.
- TOML syntax and `serde_qs` are not modelled. They appear as function values.
- chrono is not modelled. Time is an opaque `Instant`, one per run.
  `human_date_time` is not modelled, so the table carries the `Instant`.
- `Architecture::default`, `OS::default` and `SystemProperties::default` read the
  build target. They are not modelled; the host supplies the system.
- clap parsing, `tabled` rendering and `println!` messages are not modelled. The
  commands return their table rows instead.
- Real `chmod` / `update-alternatives` processes are not modelled. An oracle says
  whether each command starts and with what exit code.
- linux-installer/ and adoptium-api/ (the older copies) are not part of this model.
- Non-UTF-8 paths cannot be represented. So the `Unknown` location of `list` and
  the `to_str().unwrap()` panic in `list_updates` are not modelled. Nor is a
  settings or record file that is not UTF-8, for which `read_to_string` fails
  with an I/O error that `read_install` and `get_settings` pass on: file reads
  either fail by the oracle or give a string.
- Per-entry errors of a directory stream are not modelled. Listings come back whole.
  That covers `value?` and `entry.metadata()?` in `find_internal_data` and
  `move_data`, and the skipped stream errors in `get_installs`.
- Half-finished `remove_dir_all` and `write_all` are not modelled. Each call succeeds
  or fails as a whole.
- tokio's concurrency is not modelled; every step is sequential.
- The oracles are deterministic. The same request, fetch or command always gets
  the same answer within a run.
- A panic (`unwrap`, `remove(0)`, `first().unwrap()`) is modelled as an
  `Err(Panic(..))` result. It stands for the process aborting.
- The builders' `expect` calls never fail, so `MissingParameter` is never produced.
- Constructing `Installer` from `get_settings` / `get_installs` (the binary's
  `main`) is not part of this model.
- The version ordering itself is not in the shown files. It is a parameter.
- Linux.SysInstaller.MoveData: the outcome is stated only when the extracted
  data and the location lie apart and the names are unique, as on a real filesystem.
- InstallCommand.Provision: what a failed download, find or move leaves inside
  the staging directory and the location is not stated beyond the frame, and the
  record claims need the record file to lie apart from both.
- InstallCommand.Execute: the payload claim needs the temporary and installs
  directories to lie apart from the install location. What a failed step leaves
  inside the staging directory and the location is not stated; those are
  half-finished trees that depend on where the step broke.
- UpdateCommand.UpdateAll: only the frame is stated on disk. What each install's
  location holds afterwards is not, since a later update may write into an
  earlier install's location, staging directory or record when those overlap;
  the single-name case states the payload through `UpdateOne`.
- UpdateCommand.UpdateInternal: the payload and record claims need staging,
  location and record to lie apart. What a failed step leaves inside the
  staging directory and the location is not stated, for the same reason.
- Config.ConfigDirectory: `ADOPTIUM_DIR` is taken as an absolute path. A relative or empty value, which
  `PathBuf` would resolve against the working directory, is not modelled, and a
  value that is not Unicode (for which `std::env::var` fails and `/etc/adoptium`
  is used) cannot be represented.
- Linux.Target: an `exec_name` is taken as one path segment. A name that is
  absolute or contains `/`, for which `PathBuf::join` replaces the path or adds
  several segments, is not modelled.
