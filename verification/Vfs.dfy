/**
  The mount table of `kernel/src/fs/vfs.rs`: normalising and ordering mount points, routing a
  path to the mount that holds it, and showing mount points in directory listings.
*/
module Vfs {
  import opened Wrappers

  /** A mounted file system, `fs` naming the driver. */
  datatype Mount = Mount(path: string, fs: nat)

  datatype FileInfo = FileInfo(name: string, size: nat, isDir: bool)

  // ---------------------------------------------------------------- mounting

  /** A leading slash, and no trailing one except for the root. */
  predicate Normal(p: string) { p == "/" || (|p| > 1 && p[0] == '/' && p[|p| - 1] != '/') }

  function TrimSlashes(s: string): (r: string)
    ensures r <= s && (s != "" ==> r != "")
    ensures forall i :: |r| <= i < |s| ==> s[i] == '/'
    ensures |r| > 1 ==> r[|r| - 1] != '/'
  {
    if |s| > 1 && s[|s| - 1] == '/' then TrimSlashes(s[..|s| - 1]) else s
  }

  function Normalize(p: string): (r: string)
    ensures Normal(r)
  {
    TrimSlashes(if p != "" && p[0] == '/' then p else "/" + p)
  }

  /** The normalised path is the given one up to slashes at its ends, and normal paths are left alone. */
  lemma NormalizeKeeps(p: string)
    ensures Normal(p) ==> Normalize(p) == p
    ensures
      var s := if p != "" && p[0] == '/' then p else "/" + p;
      Normalize(p) <= s && forall i :: |Normalize(p)| <= i < |s| ==> s[i] == '/'
  {
    if Normal(p) && p != "/" {
      assert TrimSlashes(p) == p;
    }
  }

  /** Longest paths first. */
  ghost predicate Ordered(ms: seq<Mount>) {
    && (forall i, j :: 0 <= i < j < |ms| ==> |ms[i].path| >= |ms[j].path|)
    && (forall i :: 0 <= i < |ms| ==> Normal(ms[i].path))
  }

  ghost predicate Distinct(ms: seq<Mount>) { forall i, j :: 0 <= i < j < |ms| ==> ms[i].path != ms[j].path }

  // ---------------------------------------------------------------- resolving

  /** The path is the mount point, or lies below it at a component boundary; the root holds every path. */
  predicate Covers(m: string, path: string) {
    path == m || m == "/" || (m <= path && |m| < |path| && path[|m|] == '/')
  }

  /** Written out: the mount point, a slash, and the rest. */
  lemma CoversIs(m: string, path: string)
    ensures Covers(m, path) <==> path == m || m == "/" || exists rest :: path == m + "/" + rest
  {
    if m <= path && |m| < |path| && path[|m|] == '/' {
      assert path == m + "/" + path[|m| + 1..];
    }
  }

  function Relative(m: string, path: string): string
    requires Covers(m, path)
  {
    if path == m then "/" else if m == "/" then path else path[|m|..]
  }

  datatype Route = Route(mount: Mount, relative: string)

  /** The first mount that covers the path. */
  function Resolve(ms: seq<Mount>, path: string): Option<Route> {
    if ms == [] then None
    else if Covers(ms[0].path, path) then Some(Route(ms[0], Relative(ms[0].path, path)))
    else Resolve(ms[1..], path)
  }

  /** m is the longest mount point that covers the path. */
  ghost predicate Longest(ms: seq<Mount>, path: string, m: Mount) {
    m in ms && Covers(m.path, path) && forall x :: x in ms && Covers(x.path, path) ==> |x.path| <= |m.path|
  }

  lemma {:induction false} ResolveFinds(ms: seq<Mount>, path: string)
    requires Ordered(ms)
    ensures
      match Resolve(ms, path)
      case Some(r) => Longest(ms, path, r.mount) && r.relative == Relative(r.mount.path, path)
      case None => forall x :: x in ms ==> !Covers(x.path, path)
  {
    if ms != [] && !Covers(ms[0].path, path) {
      ResolveFinds(ms[1..], path);
      forall x | x in ms && x != ms[0] ensures x in ms[1..] { }
    }
  }

  /** Two normal mount points of the same length that cover the same path are the same. */
  lemma CoverUnique(m: string, n: string, path: string)
    requires Normal(m) && Normal(n) && Covers(m, path) && Covers(n, path) && |m| == |n|
    ensures m == n
  {
    if m != "/" && n != "/" {
      assert m == path[..|m|] && n == path[..|n|];
    }
  }

  /** Where a path is routed depends on what is mounted, not on the order of mounting. */
  lemma OrderIrrelevant(a: seq<Mount>, b: seq<Mount>, path: string)
    requires Ordered(a) && Ordered(b) && Distinct(a) && Distinct(b) && forall m :: m in a <==> m in b
    ensures Resolve(a, path) == Resolve(b, path)
  {
    ResolveFinds(a, path);
    ResolveFinds(b, path);
    var x, y := Resolve(a, path), Resolve(b, path);
    if x.Some? && y.Some? {
      var m, n := x.value.mount, y.value.mount;
      assert m in b && n in a;
      var i :| 0 <= i < |a| && a[i] == m;
      var j :| 0 <= j < |a| && a[j] == n;
      CoverUnique(m.path, n.path, path);
      assert i == j;
    }
  }

  /** The original path put together again. */
  function Rebuild(m: string, relative: string): string {
    if m == "/" then relative else if relative == "/" then m else m + relative
  }

  /**
    Mount point and relative path give the original path back if and only if the path is not a
    mount point followed by a slash, which is routed like the mount point itself.
  */
  lemma Rebuilds(m: string, path: string)
    requires Normal(m) && Covers(m, path)
    ensures Rebuild(m, Relative(m, path)) == path <==> m == "/" || path != m + "/"
    ensures Rebuild(m, Relative(m, path)) == path || Rebuild(m, Relative(m, path)) + "/" == path
    ensures Relative(m, m) == "/" && (m == "/" ==> Relative(m, path) == path)
    ensures m != "/" && path != m ==> path == m + Relative(m, path) && Relative(m, path)[0] == '/'
  {
    if path != m && m != "/" {
      assert m == path[..|m|] && path == m + path[|m|..];
    }
  }

  // ---------------------------------------------------------------- listing

  /** Index of the first slash, or the length. */
  function FirstSlash(s: string): (i: nat)
    ensures i <= |s| && (i < |s| ==> s[i] == '/') && forall j :: 0 <= j < i ==> s[j] != '/'
  {
    if s == "" || s[0] == '/' then 0 else FirstSlash(s[1..]) + 1
  }

  /** What the paths of a directory's contents start with. */
  function Prefix(dir: string): string
    requires dir != ""
  {
    if dir == "/" || dir[|dir| - 1] == '/' then dir else dir + "/"
  }

  function EntryName(dir: string, component: string): string {
    if dir == "/" then "/" + component + "/" else component + "/"
  }

  /** The name under which a mount point shows up in a directory, if it does. */
  function Shown(m: string, dir: string): Option<string>
    requires dir != ""
  {
    if m == "/" || !(Prefix(dir) <= m) then None
    else
      var rest := m[|Prefix(dir)|..];
      var component := rest[..FirstSlash(rest)];
      if component == "" then None else Some(EntryName(dir, component))
  }

  /** m is the path in the directory, or below its child, of the given name. */
  ghost predicate Below(m: string, dir: string, component: string)
    requires dir != ""
  {
    && component != "" && '/' !in component
    && exists rest ::
         && (rest == "" || rest[0] == '/')
         && m == (if dir[|dir| - 1] == '/' then dir + component + rest else dir + "/" + component + rest)
  }

  /** A listing of the directory shows m's way down as `name`: "/c/" in the root, "c/" elsewhere. */
  ghost predicate Child(m: string, dir: string, name: string)
    requires dir != ""
  {
    exists component ::
      Below(m, dir, component) && name == if dir == "/" then "/" + component + "/" else component + "/"
  }

  lemma ComponentFirst(component: string, tail: string)
    requires '/' !in component && (tail == "" || tail[0] == '/')
    ensures FirstSlash(component + tail) == |component| && (component + tail)[..|component|] == component
  {
    var rest := component + tail;
    assert forall j :: 0 <= j < |component| ==> rest[j] == component[j] && component[j] in component;
    assert tail != "" ==> rest[|component|] == '/';
  }

  lemma ShownBelow(m: string, dir: string, name: string)
    requires dir != "" && Shown(m, dir) == Some(name)
    ensures Child(m, dir, name)
  {
    var p := Prefix(dir);
    var rest := m[|p|..];
    var k := FirstSlash(rest);
    var component := rest[..k];
    assert m == p + component + rest[k..];
    assert forall j :: 0 <= j < k ==> component[j] == rest[j];
    assert Below(m, dir, component);
  }

  lemma BelowShown(m: string, dir: string, component: string)
    requires dir != "" && Below(m, dir, component)
    ensures Shown(m, dir) == Some(EntryName(dir, component))
  {
    var p := Prefix(dir);
    var tail :| (tail == "" || tail[0] == '/') &&
                m == (if dir[|dir| - 1] == '/' then dir + component + tail else dir + "/" + component + tail);
    assert m == p + (component + tail) && |m| > 1;
    assert m[..|p|] == p && m[|p|..] == component + tail;
    ComponentFirst(component, tail);
  }

  /** A mount point shows up in a directory under exactly the name of the child on the way to it. */
  lemma ShownIsChild(m: string, dir: string, name: string)
    requires dir != ""
    ensures Shown(m, dir) == Some(name) <==> Child(m, dir, name)
  {
    if Shown(m, dir) == Some(name) {
      ShownBelow(m, dir, name);
    }
    if Child(m, dir, name) {
      var component :| Below(m, dir, component) && name == if dir == "/" then "/" + component + "/" else component + "/";
      BelowShown(m, dir, component);
    }
  }

  /** Some mount shows up in the directory under this name. */
  ghost predicate ShowsAs(ms: seq<Mount>, dir: string, name: string)
    requires dir != ""
  {
    exists m :: m in ms && Child(m.path, dir, name)
  }

  ghost predicate Named(entries: seq<FileInfo>, name: string) {
    exists i :: 0 <= i < |entries| && entries[i].name == name
  }

  /** The entries of the file system followed by `added`: new names, each once, each a shown mount. */
  ghost predicate Extended(dir: string, ms: seq<Mount>, entries: seq<FileInfo>, all: seq<FileInfo>)
    requires dir != ""
  {
    && entries <= all
    && (forall i :: |entries| <= i < |all| ==> all[i].size == 0 && all[i].isDir)
    && (forall i, j :: 0 <= i < j < |all| && |entries| <= j ==> all[i].name != all[j].name)
    && (forall i :: |entries| <= i < |all| ==> ShowsAs(ms, dir, all[i].name))
    && (forall name :: ShowsAs(ms, dir, name) ==> Named(all, name))
  }

  lemma ShowsNext(ms: seq<Mount>, k: nat, dir: string)
    requires dir != "" && k < |ms|
    ensures forall name :: ShowsAs(ms[..k + 1], dir, name) <==>
              ShowsAs(ms[..k], dir, name) || Shown(ms[k].path, dir) == Some(name)
  {
    var a, b := ms[..k], ms[..k + 1];
    assert b == a + [ms[k]];
    assert forall m :: m in b <==> m in a || m == ms[k];
    forall name ensures Shown(ms[k].path, dir) == Some(name) <==> Child(ms[k].path, dir, name) {
      ShownIsChild(ms[k].path, dir, name);
    }
  }

  lemma NamedNext(es: seq<FileInfo>, e: FileInfo)
    ensures forall name :: Named(es + [e], name) <==> Named(es, name) || e.name == name
  {
    var all := es + [e];
    assert all[|es|] == e;
    forall name | Named(es, name) ensures Named(all, name) {
      var i :| 0 <= i < |es| && es[i].name == name;
      assert all[i].name == name;
    }
  }

  /** What the longest mount that covers the directory lists for it. */
  function Listed(ms: seq<Mount>, dir: string, listing: (nat, string) -> seq<FileInfo>): seq<FileInfo> {
    var route := Resolve(ms, dir);
    if route.Some? then listing(route.value.mount.fs, route.value.relative) else []
  }

  method Contains(entries: seq<FileInfo>, name: string) returns (b: bool)
    ensures b <==> Named(entries, name)
  {
    for i := 0 to |entries|
      invariant forall j :: 0 <= j < i ==> entries[j].name != name
    {
      if entries[i].name == name {
        return true;
      }
    }
    b := false;
  }

  /** The mounts shown in a directory, in mount order. */
  method MountEntries(ms: seq<Mount>, dir: string) returns (es: seq<FileInfo>)
    requires dir != ""
    ensures forall i :: 0 <= i < |es| ==> es[i].size == 0 && es[i].isDir
    ensures forall name :: Named(es, name) <==> ShowsAs(ms, dir, name)
  {
    es := [];
    for k := 0 to |ms|
      invariant forall i :: 0 <= i < |es| ==> es[i].size == 0 && es[i].isDir
      invariant forall name :: Named(es, name) <==> ShowsAs(ms[..k], dir, name)
    {
      var shown := Shown(ms[k].path, dir);
      ShowsNext(ms, k, dir);
      if shown.Some? {
        NamedNext(es, FileInfo(shown.value, 0, true));
        es := es + [FileInfo(shown.value, 0, true)];
      }
    }
    assert ms[..|ms|] == ms;
  }

  /** Adds the mount entries whose names are not there yet. */
  method Merge(entries: seq<FileInfo>, mounts: seq<FileInfo>) returns (all: seq<FileInfo>)
    ensures entries <= all
    ensures forall i, j :: 0 <= i < j < |all| && |entries| <= j ==> all[i].name != all[j].name
    ensures forall i :: |entries| <= i < |all| ==> all[i] in mounts
    ensures forall k :: 0 <= k < |mounts| ==> Named(all, mounts[k].name)
  {
    all := entries;
    for k := 0 to |mounts|
      invariant entries <= all
      invariant forall i, j :: 0 <= i < j < |all| && |entries| <= j ==> all[i].name != all[j].name
      invariant forall i :: |entries| <= i < |all| ==> all[i] in mounts
      invariant forall j :: 0 <= j < k ==> Named(all, mounts[j].name)
    {
      var there := Contains(all, mounts[k].name);
      if !there {
        NamedNext(all, mounts[k]);
        all := all + [mounts[k]];
      }
    }
  }

  // ---------------------------------------------------------------- the table

  method NormalizePath(p: string) returns (r: string)
    ensures r == Normalize(p)
  {
    if p == "/" {
      return "/";
    }
    r := p;
    if r == "" || r[0] != '/' {
      r := "/" + r;
    }
    ghost var s := r;
    while r[|r| - 1] == '/' && |r| > 1
      invariant r != "" && TrimSlashes(r) == TrimSlashes(s)
      decreases |r|
    {
      r := r[..|r| - 1];
    }
  }

  lemma NextPoint(ns: seq<Mount>, k: nat)
    requires k < |ns|
    ensures forall m :: m in ns[..k + 1] <==> m in ns[..k] || m == ns[k]
    ensures Distinct(ns) ==> forall m :: m in ns[..k] ==> m.path != ns[k].path
  {
    assert ns[..k + 1] == ns[..k] + [ns[k]];
  }

  function Normalized(points: seq<Mount>): (ns: seq<Mount>)
    ensures |ns| == |points|
    ensures forall i :: 0 <= i < |ns| ==> ns[i] == Mount(Normalize(points[i].path), points[i].fs)
  {
    seq(|points|, i requires 0 <= i < |points| => Mount(Normalize(points[i].path), points[i].fs))
  }

  class Table {
    var mounts: seq<Mount>

    ghost predicate Valid()
      reads this
    {
      Ordered(mounts)
    }

    constructor ()
      ensures Valid() && mounts == []
    {
      mounts := [];
    }

    /** Pushes the mount and restores the order; among equally long paths the earlier mount stays first. */
    method MountAt(point: string, fs: nat)
      requires Valid()
      modifies this
      ensures Valid()
      ensures forall m :: m in mounts <==> m in old(mounts) || m == Mount(Normalize(point), fs)
      ensures old(Distinct(mounts)) && (forall m :: m in old(mounts) ==> m.path != Normalize(point)) ==> Distinct(mounts)
    {
      var path := NormalizePath(point);
      var m := Mount(path, fs);
      var k := |mounts|;
      while k > 0 && |mounts[k - 1].path| < |path|
        invariant 0 <= k <= |mounts| && forall i :: k <= i < |mounts| ==> |mounts[i].path| < |path|
      {
        k := k - 1;
      }
      SplicedOrdered(mounts, k, m);
      SplicedElements(mounts, k, m);
      if Distinct(mounts) && forall x :: x in mounts ==> x.path != path {
        SplicedDistinct(mounts, k, m);
      }
      mounts := Spliced(mounts, k, m);
    }

    /** A sequence of mounts: the table holds exactly their normalised forms, in order of length. */
    method MountAll(points: seq<Mount>)
      requires mounts == []
      modifies this
      ensures Valid() && forall m :: m in mounts <==> m in Normalized(points)
      ensures Distinct(Normalized(points)) ==> Distinct(mounts)
    {
      for k := 0 to |points|
        invariant Valid() && forall m :: m in mounts <==> m in Normalized(points)[..k]
        invariant Distinct(Normalized(points)) ==> Distinct(mounts)
      {
        NextPoint(Normalized(points), k);
        MountAt(points[k].path, points[k].fs);
      }
      assert Normalized(points)[..|points|] == Normalized(points);
    }

    /** The driver of the longest mount point that covers the path, and the path within it. */
    method ResolveMut(path: string) returns (r: Option<Route>)
      requires Valid()
      ensures r == Resolve(mounts, path)
      ensures r.Some? ==> Longest(mounts, path, r.value.mount) && r.value.relative == Relative(r.value.mount.path, path)
      ensures r.None? <==> forall x :: x in mounts ==> !Covers(x.path, path)
    {
      ResolveFinds(mounts, path);
      assert mounts[0..] == mounts;
      for i := 0 to |mounts|
        invariant Resolve(mounts[i..], path) == Resolve(mounts, path)
      {
        var m := mounts[i].path;
        assert mounts[i..][0] == mounts[i] && mounts[i..][1..] == mounts[i + 1..];
        if path == m {
          return Some(Route(mounts[i], "/"));
        } else if m == "/" {
          return Some(Route(mounts[i], path));
        } else if m <= path && |m| < |path| && path[|m|] == '/' {
          return Some(Route(mounts[i], path[|m|..]));
        }
      }
      r := None;
    }

    /**
      The listing of the directory by the driver that holds it, with each shown mount added once;
      `listing` is what each driver's list_dir returns for a relative path.
    */
    method ListDir(path: string, listing: (nat, string) -> seq<FileInfo>) returns (all: seq<FileInfo>)
      requires Valid()
      ensures
        var dir := if path == "" then "/" else path;
        Extended(dir, mounts, Listed(mounts, dir, listing), all)
    {
      var dir := if path == "" then "/" else path;
      var shown := MountEntries(mounts, dir);
      var route := ResolveMut(dir);
      var entries := if route.Some? then listing(route.value.mount.fs, route.value.relative) else [];
      all := Merge(entries, shown);
      forall i | |entries| <= i < |all| ensures ShowsAs(mounts, dir, all[i].name) && all[i].size == 0 && all[i].isDir {
        var j :| 0 <= j < |shown| && shown[j] == all[i];
        assert Named(shown, shown[j].name);
      }
      forall name | ShowsAs(mounts, dir, name) ensures Named(all, name) {
        assert Named(shown, name);
        var i :| 0 <= i < |shown| && shown[i].name == name;
        assert Named(all, shown[i].name);
      }
    }
  }

  function Spliced(ms: seq<Mount>, k: nat, m: Mount): (r: seq<Mount>)
    requires k <= |ms|
    ensures |r| == |ms| + 1
    ensures forall i :: 0 <= i < |r| ==> r[i] == if i < k then ms[i] else if i == k then m else ms[i - 1]
  {
    ms[..k] + [m] + ms[k..]
  }

  lemma SplicedElements(ms: seq<Mount>, k: nat, m: Mount)
    requires k <= |ms|
    ensures forall x :: x in Spliced(ms, k, m) <==> x in ms || x == m
  {
    var r := Spliced(ms, k, m);
    assert r[k] == m;
    forall x | x in ms ensures x in r {
      var i :| 0 <= i < |ms| && ms[i] == x;
      assert r[if i < k then i else i + 1] == x;
    }
  }

  lemma SplicedOrdered(ms: seq<Mount>, k: nat, m: Mount)
    requires Ordered(ms) && Normal(m.path) && k <= |ms|
    requires k > 0 ==> |ms[k - 1].path| >= |m.path|
    requires forall i :: k <= i < |ms| ==> |ms[i].path| < |m.path|
    ensures Ordered(Spliced(ms, k, m))
  {
    assert forall i :: 0 <= i < k ==> |ms[i].path| >= |m.path|;
  }

  lemma SplicedDistinct(ms: seq<Mount>, k: nat, m: Mount)
    requires Distinct(ms) && k <= |ms| && forall x :: x in ms ==> x.path != m.path
    ensures Distinct(Spliced(ms, k, m))
  {
    assert forall i :: 0 <= i < |ms| ==> ms[i] in ms;
  }
}
