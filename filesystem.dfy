/** The filesystem the installer works on, as a tree whose directories keep
    their entries in listing order (the order a directory stream yields them).
    Paths are sequences of components below the root; joining a path with a
    name appends a component. */
module FileSystem {
  import opened Wrappers

  newtype byte = x: int | 0 <= x < 256

  type Path = seq<string>

  datatype Node = File(data: seq<byte>) | Dir(entries: seq<Entry>)

  datatype Entry = Entry(name: string, node: Node)

  /** The filesystem operations that can fail, named for error reports and
      for the environment's failure oracle. */
  datatype IoOp =
    | CreateDirAll(path: Path)
    | RemoveDirAll(path: Path)
    | OpenWrite(path: Path)
    | WriteAll(path: Path)
    | ReadFile(path: Path)
    | ReadDir(path: Path)
    | Rename(from: Path, to: Path)
    | RemoveFile(path: Path)
    | Spawn(command: seq<string>)
      /** Writing a chunk of the download into the pipe to the unpacker. */
    | Pipe

  // ---- Paths ----

  predicate Prefix(a: Path, b: Path) { |a| <= |b| && b[..|a|] == a }

  /** Neither path lies inside the other. */
  predicate Disjoint(a: Path, b: Path) { !Prefix(a, b) && !Prefix(b, a) }

  function Parent(p: Path): Path
    requires p != []
  {
    p[..|p| - 1]
  }

  /** The path as text, `/a/b`; the root is `/`. */
  function PathText(p: Path): string {
    if p == [] then "/" else Segments(p)
  }

  function Segments(p: Path): string {
    if p == [] then "" else "/" + p[0] + Segments(p[1..])
  }

  /** A prefix of `a + [c]` is `a + [c]` itself or a prefix of `a`. */
  lemma PrefixOfExtended(a: Path, c: string, b: Path)
    ensures Prefix(b, a + [c]) ==> Prefix(a, b) || Prefix(b, a)
    ensures Prefix(a + [c], b) ==> Prefix(a, b)
  {
    if Prefix(b, a + [c]) {
      if |b| <= |a| {
        assert (a + [c])[..|b|] == a[..|b|];
      } else {
        assert b[..|a|] == a;
      }
    }
    if Prefix(a + [c], b) {
      assert b[..|a|] == (a + [c])[..|a|];
    }
  }

  lemma DisjointExtend(a: Path, c: string, b: Path)
    requires Disjoint(a, b)
    ensures Disjoint(a + [c], b)
  {
    PrefixOfExtended(a, c, b);
  }

  /** Paths with the same first component are prefixes of each other as their tails are. */
  lemma PrefixCons(p: Path, q: Path)
    requires p != [] && q != [] && p[0] == q[0]
    ensures Prefix(p[1..], q[1..]) ==> Prefix(p, q)
  {
    if Prefix(p[1..], q[1..]) {
      assert q[..|p|] == [q[0]] + q[1..][..|p| - 1];
    }
  }

  lemma DisjointTail(p: Path, q: Path)
    requires p != [] && q != [] && p[0] == q[0] && Disjoint(p, q)
    ensures Disjoint(p[1..], q[1..])
  {
    PrefixCons(p, q);
    PrefixCons(q, p);
  }

  /** A one-component path is a prefix of every path starting with that component. */
  lemma SingletonPrefix(p: Path, q: Path)
    requires q != []
    ensures |p| == 1 && p[0] == q[0] ==> Prefix(p, q)
  {
    if |p| == 1 && p[0] == q[0] {
      assert q[..1] == [q[0]];
    }
  }

  // ---- Directory entries ----

  predicate HasName(es: seq<Entry>, name: string) {
    exists i :: 0 <= i < |es| && es[i].name == name
  }

  lemma HasNameTail(es: seq<Entry>, name: string)
    requires es != []
    ensures HasName(es, name) <==> es[0].name == name || HasName(es[1..], name)
  {
    if HasName(es, name) && es[0].name != name {
      var i :| 0 <= i < |es| && es[i].name == name;
      assert es[1..][i - 1].name == name;
    }
    if HasName(es[1..], name) {
      var i :| 0 <= i < |es[1..]| && es[1..][i].name == name;
      assert es[i + 1].name == name;
    }
  }

  /** Two entries never share a name, as in a real directory. */
  predicate UniqueNames(es: seq<Entry>) {
    forall i, j :: 0 <= i < j < |es| ==> es[i].name != es[j].name
  }

  /** The first entry called `name`. */
  function Child(es: seq<Entry>, name: string): (r: Option<Node>)
    ensures r.None? <==> !HasName(es, name)
  {
    if es == [] then None
    else if es[0].name == name then Some(es[0].node)
    else
      HasNameTail(es, name);
      Child(es[1..], name)
  }

  /** With unique names, looking up an entry's name finds that entry. */
  lemma {:induction false} ChildAt(es: seq<Entry>, k: nat)
    requires UniqueNames(es) && k < |es|
    ensures Child(es, es[k].name) == Some(es[k].node)
  {
    if k > 0 {
      assert es[0].name != es[k].name;
      assert es[1..][k - 1] == es[k];
      ChildAt(es[1..], k - 1);
    }
  }

  /** Replaces the first entry called `name`, or appends one. */
  function SetChild(es: seq<Entry>, name: string, m: Node): seq<Entry> {
    if es == [] then [Entry(name, m)]
    else if es[0].name == name then [Entry(name, m)] + es[1..]
    else [es[0]] + SetChild(es[1..], name, m)
  }

  /** Drops every entry called `name`. */
  function Without(es: seq<Entry>, name: string): seq<Entry> {
    if es == [] then []
    else (if es[0].name == name then [] else [es[0]]) + Without(es[1..], name)
  }

  lemma {:induction false} ChildSetChild(es: seq<Entry>, a: string, m: Node, b: string)
    ensures Child(SetChild(es, a, m), b) == if a == b then Some(m) else Child(es, b)
  {
    if es != [] && es[0].name != a {
      ChildSetChild(es[1..], a, m, b);
      assert SetChild(es, a, m)[1..] == SetChild(es[1..], a, m);
    } else if es != [] {
      assert SetChild(es, a, m)[1..] == es[1..];
    }
  }

  lemma {:induction false} ChildWithout(es: seq<Entry>, a: string, b: string)
    ensures Child(Without(es, a), b) == if a == b then None else Child(es, b)
  {
    if es != [] {
      ChildWithout(es[1..], a, b);
      if es[0].name != a {
        assert Without(es, a) == [es[0]] + Without(es[1..], a);
        assert Without(es, a)[1..] == Without(es[1..], a);
      } else {
        assert Without(es, a) == Without(es[1..], a);
      }
    }
  }

  lemma {:induction false} SetChildAppends(es: seq<Entry>, a: string, m: Node)
    requires !HasName(es, a)
    ensures SetChild(es, a, m) == es + [Entry(a, m)]
  {
    if es != [] {
      HasNameTail(es, a);
      SetChildAppends(es[1..], a, m);
      assert es == [es[0]] + es[1..];
    }
  }

  lemma {:induction false} WithoutAbsent(es: seq<Entry>, a: string)
    requires !HasName(es, a)
    ensures Without(es, a) == es
  {
    if es != [] {
      HasNameTail(es, a);
      WithoutAbsent(es[1..], a);
      assert es == [es[0]] + es[1..];
    }
  }

  /** In a directory without duplicate names, dropping the first entry's name drops just it. */
  lemma WithoutFirst(es: seq<Entry>)
    requires es != [] && UniqueNames(es)
    ensures Without(es, es[0].name) == es[1..]
  {
    assert !HasName(es[1..], es[0].name) by {
      forall i | 0 <= i < |es[1..]|
        ensures es[1..][i].name != es[0].name
      {
        assert es[1..][i] == es[i + 1];
      }
    }
    WithoutAbsent(es[1..], es[0].name);
  }

  // ---- The tree ----

  function Lookup(n: Node, p: Path): Option<Node>
    decreases |p|
  {
    if p == [] then Some(n)
    else if n.File? then None
    else
      match Child(n.entries, p[0])
      case None => None
      case Some(c) => Lookup(c, p[1..])
  }

  predicate Exists(n: Node, p: Path) { Lookup(n, p).Some? }

  predicate IsDir(n: Node, p: Path) { Lookup(n, p).Some? && Lookup(n, p).value.Dir? }

  predicate IsFile(n: Node, p: Path) { Lookup(n, p).Some? && Lookup(n, p).value.File? }

  /** Sets the node at `p` (the root itself when `p` is empty); a tree in
      which `p`'s parent is not a directory is returned unchanged. */
  function Put(n: Node, p: Path, m: Node): Node
    decreases |p|
  {
    if p == [] then m
    else if n.File? then n
    else if |p| == 1 then Dir(SetChild(n.entries, p[0], m))
    else
      match Child(n.entries, p[0])
      case None => n
      case Some(c) => Dir(SetChild(n.entries, p[0], Put(c, p[1..], m)))
  }

  /** Removes what is at `p` (never the root); a missing `p` leaves the tree unchanged. */
  function Remove(n: Node, p: Path): Node
    decreases |p|
  {
    if p == [] || n.File? then n
    else if |p| == 1 then Dir(Without(n.entries, p[0]))
    else
      match Child(n.entries, p[0])
      case None => n
      case Some(c) => Dir(SetChild(n.entries, p[0], Remove(c, p[1..])))
  }

  /** `create_dir_all`: every missing directory along `p` is created; a file
      in the way makes it fail. */
  function MkdirAll(n: Node, p: Path): Option<Node>
    decreases |p|
  {
    if n.File? then None
    else if p == [] then Some(n)
    else
      var c := Child(n.entries, p[0]).GetOr(Dir([]));
      match MkdirAll(c, p[1..])
      case None => None
      case Some(c') => Some(Dir(SetChild(n.entries, p[0], c')))
  }

  /** Writing `data` at offset 0 of a file opened without truncation: bytes
      of the old contents beyond the new length remain. */
  function Overlay(prior: seq<byte>, data: seq<byte>): (r: seq<byte>)
    ensures |r| == if |prior| > |data| then |prior| else |data|
    ensures r[..|data|] == data
    ensures |prior| > |data| ==> r[|data|..] == prior[|data|..]
  {
    if |prior| > |data| then data + prior[|data|..] else data
  }

  // ---- Lookup after an update ----

  lemma {:induction false} LookupPutHere(n: Node, p: Path, m: Node)
    requires p != [] && IsDir(n, Parent(p))
    ensures Lookup(Put(n, p, m), p) == Some(m)
    decreases |p|
  {
    ChildSetChild(n.entries, p[0], if |p| == 1 then m else Put(Child(n.entries, p[0]).value, p[1..], m), p[0]);
    if |p| > 1 {
      assert Parent(p[1..]) == Parent(p)[1..];
      LookupPutHere(Child(n.entries, p[0]).value, p[1..], m);
    }
  }

  lemma {:induction false} LookupPutElsewhere(n: Node, p: Path, m: Node, q: Path)
    requires Disjoint(p, q)
    ensures Lookup(Put(n, p, m), q) == Lookup(n, q)
    decreases |p|
  {
    assert p != [] && q != [] by { assert Prefix([], q) && Prefix([], p); }
    if n.Dir? {
      if |p| == 1 {
        SingletonPrefix(p, q);
        ChildSetChild(n.entries, p[0], m, q[0]);
      } else if Child(n.entries, p[0]).Some? {
        var c := Child(n.entries, p[0]).value;
        ChildSetChild(n.entries, p[0], Put(c, p[1..], m), q[0]);
        if p[0] == q[0] {
          SingletonPrefix(q, p);
          DisjointTail(p, q);
          LookupPutElsewhere(c, p[1..], m, q[1..]);
        }
      }
    }
  }

  /** Above the updated path, the tree holds the update applied to the subtree. */
  lemma {:induction false} LookupPutAbove(n: Node, p: Path, m: Node, q: Path)
    requires Prefix(q, p) && q != p && Exists(n, q)
    ensures Lookup(Put(n, p, m), q) == Some(Put(Lookup(n, q).value, p[|q|..], m))
    decreases |q|
  {
    if q != [] {
      assert p[0] == q[0] by { assert p[..|q|][0] == p[0]; }
      var c := Child(n.entries, p[0]).value;
      assert |p| > 1;
      ChildSetChild(n.entries, p[0], Put(c, p[1..], m), p[0]);
      assert Prefix(q[1..], p[1..]) by { assert p[1..][..|q| - 1] == p[..|q|][1..]; }
      LookupPutAbove(c, p[1..], m, q[1..]);
      assert p[1..][|q| - 1..] == p[|q|..];
    }
  }

  lemma {:induction false} LookupRemoveElsewhere(n: Node, p: Path, q: Path)
    requires Disjoint(p, q)
    ensures Lookup(Remove(n, p), q) == Lookup(n, q)
    decreases |p|
  {
    assert p != [] && q != [] by { assert Prefix([], q) && Prefix([], p); }
    if n.Dir? {
      if |p| == 1 {
        SingletonPrefix(p, q);
        ChildWithout(n.entries, p[0], q[0]);
      } else if Child(n.entries, p[0]).Some? {
        var c := Child(n.entries, p[0]).value;
        ChildSetChild(n.entries, p[0], Remove(c, p[1..]), q[0]);
        if p[0] == q[0] {
          SingletonPrefix(q, p);
          DisjointTail(p, q);
          LookupRemoveElsewhere(c, p[1..], q[1..]);
        }
      }
    }
  }

  lemma {:induction false} LookupRemoveAbove(n: Node, p: Path, q: Path)
    requires Prefix(q, p) && q != p && Exists(n, q)
    ensures Lookup(Remove(n, p), q) == Some(Remove(Lookup(n, q).value, p[|q|..]))
    decreases |q|
  {
    if q != [] {
      assert p[0] == q[0] by { assert p[..|q|][0] == p[0]; }
      var c := Child(n.entries, p[0]).value;
      assert |p| > 1;
      ChildSetChild(n.entries, p[0], Remove(c, p[1..]), p[0]);
      assert Prefix(q[1..], p[1..]) by { assert p[1..][..|q| - 1] == p[..|q|][1..]; }
      LookupRemoveAbove(c, p[1..], q[1..]);
      assert p[1..][|q| - 1..] == p[|q|..];
    }
  }

  /** After removing `p`, nothing at or below `p` exists. */
  lemma {:induction false} LookupRemoveBelow(n: Node, p: Path, q: Path)
    requires p != [] && Prefix(p, q)
    ensures Lookup(Remove(n, p), q) == None
    decreases |p|
  {
    assert q[0] == p[0] by { assert q[..|p|][0] == q[0]; }
    if n.File? {
      LookupMissingBelow(n, p, q);
    } else if |p| == 1 {
      ChildWithout(n.entries, p[0], p[0]);
    } else if Child(n.entries, p[0]).None? {
      LookupMissingBelow(n, p, q);
    } else {
      var c := Child(n.entries, p[0]).value;
      ChildSetChild(n.entries, p[0], Remove(c, p[1..]), p[0]);
      assert Prefix(p[1..], q[1..]) by { assert q[1..][..|p| - 1] == q[..|p|][1..]; }
      LookupRemoveBelow(c, p[1..], q[1..]);
    }
  }

  /** Nothing exists below a path that does not exist (or below a file). */
  lemma {:induction false} LookupMissingBelow(n: Node, p: Path, q: Path)
    requires Prefix(p, q) && (Lookup(n, p).None? || (p != q && IsFile(n, p)))
    ensures Lookup(n, q) == None
    decreases |p|
  {
    if p != [] {
      assert q[0] == p[0] by { assert q[..|p|][0] == q[0]; }
      if n.Dir? && Child(n.entries, p[0]).Some? {
        assert Prefix(p[1..], q[1..]) by { assert q[1..][..|p| - 1] == q[..|p|][1..]; }
        LookupMissingBelow(Child(n.entries, p[0]).value, p[1..], q[1..]);
      }
    }
  }

  lemma {:induction false} MkdirAllResult(n: Node, p: Path, q: Path)
    requires MkdirAll(n, p).Some?
    ensures IsDir(MkdirAll(n, p).value, p)
    ensures IsDir(n, p) ==> MkdirAll(n, p) == Some(n)
    ensures !Exists(n, p) ==> Lookup(MkdirAll(n, p).value, p) == Some(Dir([]))
    ensures Disjoint(p, q) ==> Lookup(MkdirAll(n, p).value, q) == Lookup(n, q)
    decreases |p|
  {
    if p != [] {
      var c := Child(n.entries, p[0]).GetOr(Dir([]));
      var c' := MkdirAll(c, p[1..]).value;
      ChildSetChild(n.entries, p[0], c', p[0]);
      if q != [] {
        ChildSetChild(n.entries, p[0], c', q[0]);
      }
      if Disjoint(p, q) && p[0] == q[0] {
        SingletonPrefix(p, q);
        SingletonPrefix(q, p);
        DisjointTail(p, q);
        MkdirAllResult(c, p[1..], q[1..]);
        assert Child(n.entries, p[0]).None? ==> Lookup(c, q[1..]) == None;
      } else {
        MkdirAllResult(c, p[1..], if q == [] then q else q[1..]);
      }
      if IsDir(n, p) {
        assert Child(n.entries, p[0]).Some?;
        assert SetChild(n.entries, p[0], c) == n.entries by {
          SetChildSame(n.entries, p[0]);
        }
      }
      if !Exists(n, p) && Child(n.entries, p[0]).None? {
        assert |p| > 1 ==> Lookup(c, p[1..]) == None;
      }
    } else {
      assert Disjoint(p, q) ==> false by { assert Prefix([], q); }
    }
  }

  /** Setting the first entry of a name to what it already holds changes nothing. */
  lemma {:induction false} SetChildSame(es: seq<Entry>, a: string)
    requires Child(es, a).Some?
    ensures SetChild(es, a, Child(es, a).value) == es
  {
    if es[0].name != a {
      SetChildSame(es[1..], a);
      assert es == [es[0]] + es[1..];
    } else {
      assert es == [es[0]] + es[1..];
    }
  }

  /** One more component looks up one more level. */
  lemma {:induction false} LookupSnoc(n: Node, p: Path, c: string)
    ensures Lookup(n, p + [c]) == if IsDir(n, p) then Child(Lookup(n, p).value.entries, c) else None
    decreases |p|
  {
    if p != [] {
      assert (p + [c])[0] == p[0];
      assert (p + [c])[1..] == p[1..] + [c];
      if n.Dir? && Child(n.entries, p[0]).Some? {
        LookupSnoc(Child(n.entries, p[0]).value, p[1..], c);
      }
    }
  }

  /** What exists has all its ancestors existing. */
  lemma {:induction false} ExistsAbove(n: Node, p: Path, q: Path)
    ensures Prefix(p, q) && Exists(n, q) ==> Exists(n, p)
    decreases |p|
  {
    if Prefix(p, q) && Exists(n, q) && p != [] {
      assert q[0] == p[0] by { assert q[..|p|][0] == q[0]; }
      assert Prefix(p[1..], q[1..]) by { assert q[1..][..|p| - 1] == q[..|p|][1..]; }
      ExistsAbove(Child(n.entries, p[0]).value, p[1..], q[1..]);
    }
  }

  /** Removing a file from a tree in which `a` is already gone leaves both gone. */
  lemma RemoveAfterRemove(n: Node, a: Path, b: Path)
    requires b != [] && Lookup(n, a) == None && IsFile(n, b)
    ensures Lookup(Remove(n, b), a) == None && Lookup(Remove(n, b), b) == None
  {
    ExistsAbove(n, a, b);
    LookupRemoveBelow(n, b, b);
    if Prefix(b, a) {
      LookupRemoveBelow(n, b, a);
    } else {
      LookupRemoveElsewhere(n, b, a);
    }
  }

  /** Both sides of a rename keep their disjointness when one name is appended to each. */
  lemma DisjointBoth(a: Path, b: Path, c: string, d: string)
    requires Disjoint(a, b)
    ensures Disjoint(a + [c], b + [d])
  {
    DisjointExtend(a, c, b);
    DisjointExtend(b, d, a + [c]);
  }

  /** `m` agrees with `n` at every path outside `a`. */
  ghost predicate SameOutside(n: Node, m: Node, a: Path) {
    forall q :: Disjoint(q, a) ==> Lookup(m, q) == Lookup(n, q)
  }

  /** Two prefixes of one path are comparable. */
  lemma PrefixesComparable(q: Path, a: Path, p: Path)
    ensures Prefix(q, p) && Prefix(a, p) ==> Prefix(q, a) || Prefix(a, q)
  {
    if Prefix(q, p) && Prefix(a, p) {
      if |q| <= |a| {
        assert a[..|q|] == p[..|a|][..|q|];
      } else {
        assert q[..|a|] == p[..|q|][..|a|];
      }
    }
  }

  lemma PrefixTransitive(a: Path, p: Path, q: Path)
    ensures Prefix(a, p) && Prefix(p, q) ==> Prefix(a, q)
  {
    if Prefix(a, p) && Prefix(p, q) {
      assert q[..|a|] == q[..|p|][..|a|];
    }
  }

  /** A path outside `a` is outside everything below `a`. */
  lemma DisjointBelow(a: Path, p: Path, q: Path)
    requires Prefix(a, p) && Disjoint(q, a)
    ensures Disjoint(q, p)
  {
    PrefixesComparable(q, a, p);
    PrefixTransitive(a, p, q);
  }

  lemma PutOutside(n: Node, p: Path, m: Node, a: Path)
    requires Prefix(a, p)
    ensures SameOutside(n, Put(n, p, m), a)
  {
    forall q | Disjoint(q, a)
      ensures Lookup(Put(n, p, m), q) == Lookup(n, q)
    {
      DisjointBelow(a, p, q);
      LookupPutElsewhere(n, p, m, q);
    }
  }

  lemma RemoveOutside(n: Node, p: Path, a: Path)
    requires Prefix(a, p)
    ensures SameOutside(n, Remove(n, p), a)
  {
    forall q | Disjoint(q, a)
      ensures Lookup(Remove(n, p), q) == Lookup(n, q)
    {
      DisjointBelow(a, p, q);
      LookupRemoveElsewhere(n, p, q);
    }
  }

  lemma MkdirAllOutside(n: Node, p: Path, a: Path)
    requires MkdirAll(n, p).Some? && Prefix(a, p)
    ensures SameOutside(n, MkdirAll(n, p).value, a)
  {
    forall q | Disjoint(q, a)
      ensures Lookup(MkdirAll(n, p).value, q) == Lookup(n, q)
    {
      DisjointBelow(a, p, q);
      MkdirAllResult(n, p, q);
    }
  }

  /** Setting a path that already exists makes it hold the new node. */
  lemma {:induction false} LookupPutExisting(n: Node, p: Path, m: Node)
    requires p != [] && Exists(n, p)
    ensures Lookup(Put(n, p, m), p) == Some(m)
    decreases |p|
  {
    var c := Child(n.entries, p[0]).value;
    ChildSetChild(n.entries, p[0], if |p| == 1 then m else Put(c, p[1..], m), p[0]);
    if |p| > 1 {
      LookupPutExisting(c, p[1..], m);
    }
  }

  /** The bytes of the file at `p`, or none when there is no file. */
  function Contents(n: Node, p: Path): seq<byte> {
    if IsFile(n, p) then Lookup(n, p).value.data else []
  }

  lemma SameOutsideWiden(n: Node, m: Node, a: Path, b: Path)
    requires Prefix(a, b) && SameOutside(n, m, b)
    ensures SameOutside(n, m, a)
  {
    forall q | Disjoint(q, a)
      ensures Lookup(m, q) == Lookup(n, q)
    {
      DisjointBelow(a, b, q);
    }
  }
}
