/** The ordering on `VersionData` that the workflows use through `>` and `<=`
    (src/commands/update.rs, src/commands/list.rs). The shown `VersionData`
    derives no ordering, so the workflows take it as a parameter shaped like
    Rust's `PartialOrd::partial_cmp`; `Lexicographic` is the intended instance. */
module Versions {
  import opened Wrappers
  import opened Response

  datatype Cmp = Less | Equal | Greater

  type Ordering = (VersionData, VersionData) -> Option<Cmp>

  /** `a > b` under a `partial_cmp`. */
  predicate Exceeds(ord: Ordering, a: VersionData, b: VersionData) {
    ord(a, b) == Some(Cmp.Greater)
  }

  /** `a <= b` under a `partial_cmp`: false for incomparable values. */
  predicate AtMost(ord: Ordering, a: VersionData, b: VersionData) {
    ord(a, b) == Some(Less) || ord(a, b) == Some(Equal)
  }

  function CompareInt(a: int, b: int): Cmp {
    if a < b then Less else if a == b then Equal else Cmp.Greater
  }

  /** Compare major, then minor, then security, then build; the display
      strings are never compared. */
  function Lexicographic(a: VersionData, b: VersionData): Option<Cmp> {
    var c := CompareInt(a.major, b.major);
    if c != Equal then Some(c) else
    var c := CompareInt(a.minor, b.minor);
    if c != Equal then Some(c) else
    var c := CompareInt(a.security, b.security);
    if c != Equal then Some(c) else
    Some(CompareInt(a.build, b.build))
  }

  function Numbers(v: VersionData): (int, int, int, int) {
    (v.major, v.minor, v.security, v.build)
  }

  predicate Before(a: VersionData, b: VersionData) {
    Lexicographic(a, b) == Some(Less)
  }

  /** `Lexicographic` is total, equal exactly on equal numbers, and antisymmetric. */
  lemma LexicographicTotal(a: VersionData, b: VersionData)
    ensures Lexicographic(a, b).Some?
    ensures Lexicographic(a, b) == Some(Equal) <==> Numbers(a) == Numbers(b)
    ensures Lexicographic(a, b) == Some(Less) <==> Lexicographic(b, a) == Some(Cmp.Greater)
  {
  }

  lemma LexicographicTransitive(a: VersionData, b: VersionData, c: VersionData)
    requires Before(a, b) && Before(b, c)
    ensures Before(a, c)
  {
  }

  /** For distinct numbers exactly one of `a < b`, `b < a` holds. */
  lemma LexicographicTrichotomy(a: VersionData, b: VersionData)
    ensures Numbers(a) != Numbers(b) ==> (Before(a, b) <==> !Before(b, a))
    ensures !Before(a, a)
  {
  }

  /** Under a total ordering `<=` is exactly "not `>`"; the workflows' two
      tests then agree, and the lexicographic ordering is such an ordering. */
  lemma AtMostIsNotGreater(ord: Ordering, a: VersionData, b: VersionData)
    requires ord(a, b).Some?
    ensures AtMost(ord, a, b) <==> !Exceeds(ord, a, b)
  {
    match ord(a, b).value
    case Less =>
    case Equal =>
    case Greater =>
  }

  lemma LexicographicExamples(v: VersionData)
    ensures Before(v.(major := 1, minor := 0, security := 0, build := 5),
                   v.(major := 1, minor := 0, security := 1, build := 0))
    ensures Before(v.(major := 1, minor := 0, security := 1, build := 0),
                   v.(major := 2, minor := 0, security := 0, build := 0))
    ensures Before(v.(major := 11, minor := 0, security := 1, build := 5),
                   v.(major := 11, minor := 0, security := 5, build := 44))
  {
  }
}
