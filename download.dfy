/** Fetching and unpacking a release archive (src/download.rs). */
module Download {
  import opened Wrappers
  import opened Text
  import opened FileSystem
  import opened Errors
  import opened Platform

  /** `StatusCode`'s `Display`: the code, a space, and the canonical reason
      phrase, or `<unknown status code>` when the code has none. */
  function StatusText(code: int, reason: Option<string>): string {
    IntToString(code) + " " + reason.GetOr("<unknown status code>")
  }

  /** How a failed fetch is reported. A request error becomes `Custom` with
      its message and a non-success status `Custom("Bad Response <status>")`.
      A failed chunk of the stream aborts the process (`item.unwrap()`). A
      bad archive makes the unpack task panic and drop its end of the pipe:
      the next write into the pipe fails with an I/O error, and when the
      whole body was already written, joining the task aborts the process. */
  function FetchError(f: Fetch): InstallerError
    requires !f.Delivered?
  {
    match f
    case Unreachable(m) => Custom(m)
    case BadStatus(code, reason) => Custom("Bad Response " + StatusText(code, reason))
    case StreamFailed(_) => Panic("unwrap of a failed chunk of the response stream")
    case BadArchive(_, drained) => if drained then Panic("unwrap of the panicked unpack task") else Io(IoOp.Pipe)
  }

  /** What the unpacker has written into the location when the fetch ends. */
  function Unpacked(f: Fetch): seq<Entry> {
    match f
    case Unreachable(_) => []
    case BadStatus(_, _) => []
    case StreamFailed(p) => p
    case BadArchive(p, _) => p
    case Delivered(es) => es
  }

  /** The report of a bad status names the status code and its reason phrase. */
  lemma BadStatusReport(code: int, reason: string)
    ensures FetchError(BadStatus(code, Some(reason))) == Custom("Bad Response " + IntToString(code) + " " + reason)
    ensures var parts := SplitFirst(StatusText(code, Some(reason)), ' ');
            parts.Some? && ParseInt(parts.value.0) == Some(code) && parts.value.1 == reason
  {
    assert StatusText(code, Some(reason)) == IntToString(code) + [' '] + reason;
    IntToStringAvoids(code, ' ');
    SplitFirstJoin(IntToString(code), ' ', reason);
    IntToStringRoundTrip(code);
  }

  /** `download`: clears `location`, creates it empty, requests `link` and
      unpacks the archive into it. Apart from failing to clear or create the
      location, every failure is the fetch's, and it leaves what the
      unpacker had written by then (nothing, for a request error or a bad
      status). */
  method Download(host: Host, link: string, location: Path) returns (r: Result<(), InstallerError>)
    modifies host
    ensures host.log == old(host.log)
    ensures SameOutside(old(host.root), host.root, location)
    ensures !host.fetch(link).Delivered? ==> r.Err?
    ensures r.Ok? ==> host.fetch(link).Delivered? &&
                      Lookup(host.root, location) == Some(Dir(host.fetch(link).entries))
    ensures r.Err? && r.error != Io(IoOp.RemoveDirAll(location)) && r.error != Io(IoOp.CreateDirAll(location)) ==>
              && !host.fetch(link).Delivered?
              && r.error == FetchError(host.fetch(link))
              && Lookup(host.root, location) == Some(Dir(Unpacked(host.fetch(link))))
    ensures r.Err? && r.error.Custom? ==> Lookup(host.root, location) == Some(Dir([]))
  {
    ghost var start := host.root;
    if Exists(host.root, location) {
      var removed := host.RemoveDirAll(location);
      if removed.Err? {
        return Err(removed.error);
      }
      LookupRemoveBelow(start, location, location);
      RemoveOutside(start, location, location);
    }
    ghost var cleared := host.root;
    var made := host.CreateDirAll(location);
    if made.Err? {
      return Err(made.error);
    }
    MkdirAllResult(cleared, location, location);
    MkdirAllOutside(cleared, location, location);
    var response := host.fetch(link);
    if response.Unreachable? || response.BadStatus? {
      return Err(FetchError(response));
    }
    ghost var empty := host.root;
    host.Unpack(location, Unpacked(response));
    if location != [] {
      LookupPutExisting(empty, location, Dir(Unpacked(response)));
    }
    PutOutside(empty, location, Dir(Unpacked(response)), location);
    if !response.Delivered? {
      return Err(FetchError(response));
    }
    return Ok(());
  }
}
