/** What a path argument means at the root: which file system is asked, for which path, and what that does. */
module RootPaths {
  import opened Wrappers
  import opened Paths
  import opened Namespace
  import opened Operations
  import opened Renaming
  import opened Handles
  import opened Runs
  import opened Listing
  import opened Enumeration
  import opened Mounts
  import opened FdTable
  import opened MemoryFileSystem
  import opened RootVirtualFS

  // ----- where a path leads

  // A relative path is taken below the working directory: `..`s go up from there, and names down again. An
  // absolute one starts at `/`, where `..` stays.
  lemma ResolvedIsExact(vfs: RootVFS, ups: Parts, names: seq<Name>, parts: Parts)
    requires NoNames(ups)
    ensures vfs.Resolved(Path(false, ups + Abs(names))) == Above(vfs.cwd, CountUps(ups)) + names
    ensures vfs.Resolved(Path(true, ups + Abs(names))) == names
    ensures vfs.Resolved(Path(false, parts)) == vfs.Resolved(Path(true, Abs(vfs.cwd) + parts))
  {
    DotsThenNames(vfs.cwd, ups, names);
    DotsThenNames([], ups, names);
    assert [] + names == names;
    BelowBase(vfs.cwd, parts);
  }

  lemma DotsThenNames(base: seq<Name>, ups: Parts, names: seq<Name>)
    requires NoNames(ups)
    ensures NormFrom(base, ups + Abs(names)) == Above(base, CountUps(ups)) + names
  {
    NormFromConcat(base, ups, Abs(names));
    NormFromNames(NormFrom(base, ups), names);
    DotsGoAbove(base, ups);
  }

  lemma BelowBase(base: seq<Name>, parts: Parts)
    ensures NormFrom(base, parts) == NormFrom([], Abs(base) + parts)
  {
    NormFromConcat([], Abs(base), parts);
    NormFromNames([], base);
    assert [] + base == base;
  }

  // Beside a descriptor, an absolute path ignores it; -100 stands for the working directory, a tracked
  // descriptor for its path, and any other for nothing.
  lemma ResolvedAtIsExact(vfs: RootVFS, dirfd: int, ups: Parts, names: seq<Name>, parts: Parts)
    requires NoNames(ups)
    ensures var rel := Path(false, ups + Abs(names));
      && vfs.ResolvedAt(dirfd, Path(true, ups + Abs(names))) == Some(names)
      && vfs.ResolvedAt(-100, rel) == Some(Above(vfs.cwd, CountUps(ups)) + names)
      && (dirfd != -100 ==>
            vfs.ResolvedAt(dirfd, rel)
            == if dirfd in vfs.fds then Some(Above(vfs.fds[dirfd].path, CountUps(ups)) + names) else None)
    ensures dirfd != -100 && dirfd in vfs.fds ==>
              vfs.ResolvedAt(dirfd, Path(false, parts))
              == vfs.ResolvedAt(dirfd, Path(true, Abs(vfs.fds[dirfd].path) + parts))
  {
    DotsThenNames(vfs.cwd, ups, names);
    DotsThenNames([], ups, names);
    assert [] + names == names;
    if dirfd in vfs.fds {
      DotsThenNames(vfs.fds[dirfd].path, ups, names);
      BelowBase(vfs.fds[dirfd].path, parts);
    }
  }

  // How a call beside a descriptor is routed: through the handle only for a relative path below a tracked
  // descriptor that has one.
  lemma RouteIsExact(vfs: RootVFS, dirfd: int, ups: Parts, names: seq<Name>)
    requires NoNames(ups)
    ensures var rel := Path(false, ups + Abs(names));
      && vfs.RouteOf(dirfd, Path(true, ups + Abs(names))) == ViaPath(names)
      && vfs.RouteOf(-100, rel) == ViaPath(Above(vfs.cwd, CountUps(ups)) + names)
      && (dirfd != -100 && dirfd !in vfs.fds ==> vfs.RouteOf(dirfd, rel) == Nowhere)
      && (dirfd != -100 && dirfd in vfs.fds ==>
            vfs.RouteOf(dirfd, rel)
            == match vfs.fds[dirfd].handle
               case Some(h) => ViaHandle(h, vfs.fds[dirfd].path)
               case None => ViaPath(Above(vfs.fds[dirfd].path, CountUps(ups)) + names))
  {
    ResolvedAtIsExact(vfs, dirfd, ups, names, []);
    ResolvedAtIsExact(vfs, -100, ups, names, []);
  }

  // ----- which file system is asked

  // `m` is the longest mounted prefix of `p`; the empty one stands for the root.
  ghost predicate MountOf(vfs: RootVFS, m: seq<Name>, p: seq<Name>) {
    && m <= p && (m != [] ==> Abs(m) in vfs.mounts)
    && forall j :: |m| < j <= |p| ==> Abs(p[..j]) !in vfs.mounts
  }

  function Mounted(vfs: RootVFS, m: seq<Name>): MemoryFS
    requires m != [] ==> Abs(m) in vfs.mounts
  {
    if m == [] then vfs.root else vfs.mounts[Abs(m)]
  }

  // The file system mounted there is asked for the rest of the path.
  lemma MountServes(vfs: RootVFS, m: seq<Name>, p: seq<Name>)
    requires MountOf(vfs, m, p)
    ensures vfs.System(p) == Mounted(vfs, m) && vfs.Subpath(p) == Abs(p[|m|..])
  {
    var k := DispatchIsExact(vfs.root, vfs.mounts, p);
    assert p[..|m|] == m;
    assert k > 0 ==> Abs(p[..k]) in vfs.mounts;
  }

  lemma EveryPathHasAMount(vfs: RootVFS, p: seq<Name>) returns (m: seq<Name>)
    ensures MountOf(vfs, m, p)
    ensures forall n :: MountOf(vfs, n, p) ==> n == m
  {
    var k := DispatchIsExact(vfs.root, vfs.mounts, p);
    m := p[..k];
    forall n | MountOf(vfs, n, p)
      ensures n == m
    {
      assert p[..|n|] == n;
      assert k > 0 ==> Abs(p[..k]) in vfs.mounts;
    }
  }

  // With separate file systems no two paths are one path of one of them.
  lemma PathsStayApart(vfs: RootVFS, p: seq<Name>, q: seq<Name>)
    requires SeparateSystems(vfs.root, vfs.mounts)
    requires vfs.System(p) == vfs.System(q) && vfs.Subpath(p) == vfs.Subpath(q)
    ensures p == q
  {
    NamesOfAbs(Dispatch(vfs.root, vfs.mounts, p).1);
    NamesOfAbs(Dispatch(vfs.root, vfs.mounts, q).1);
    DispatchIsInjective(vfs.root, vfs.mounts, p, q);
  }

  // What a call at a path asks its file system to do, and what an open records.
  lemma CallsAtMount(vfs: RootVFS, m: seq<Name>, p: seq<Name>, parts: Parts, flags: Flags, mode: nat, backing: int)
    requires MountOf(vfs, m, p)
    ensures var sub := Abs(p[|m|..]);
      && vfs.SystemOf(ViaPath(p)) == Mounted(vfs, m)
      && vfs.OpenOn(ViaPath(p), parts, flags, mode, backing) == Op.Open(sub, flags, mode, backing)
      && vfs.MkdirOn(ViaPath(p), parts, mode) == Op.Mkdir(sub, mode)
      && vfs.RemovalOf(p, false) == Op.Unlink(sub) && vfs.RemovalOf(p, true) == Op.Rmdir(sub)
      && vfs.Tracking(ViaPath(p), parts) == p
  {
    MountServes(vfs, m, p);
  }

  // ----- what the calls come to

  // Without the directory flag a removal succeeds on a file and nothing else, with it on an empty
  // directory other than the mounted root.
  lemma RemovalGoesByFlag(vfs: RootVFS, m: seq<Name>, p: seq<Name>)
    requires MountOf(vfs, m, p) && Mounted(vfs, m).Good()
    ensures var fs, sub := Mounted(vfs, m), p[|m|..];
            var there := Lookup(fs.state, sub);
      && Step(fs.Now(), vfs.RemovalOf(p, false), fs.memfd).rc
         == (if there.Some? && !IsDir(fs.state, there.value) then 0 else -1)
      && Step(fs.Now(), vfs.RemovalOf(p, true), fs.memfd).rc
         == if sub != [] && there.Some? && IsDir(fs.state, there.value) && NoChildPath(fs.state, sub) then 0 else -1
  {
    var s, sub := Mounted(vfs, m).state, p[|m|..];
    CallsAtMount(vfs, m, p, [], Flags(false, false, false, false), 0, 0);
    NamesOfAbs(sub);
    RemoveSucceedsExactlyWhen(s, Abs(sub), File);
    RemoveSucceedsExactlyWhen(s, Abs(sub), Dir);
    if Lookup(s, sub).Some? && IsDir(s, Lookup(s, sub).value) {
      EmptyMeansNoChildPath(s, sub);
    }
  }

  ghost predicate NoChildPath(s: State, p: seq<Name>) {
    forall n :: Lookup(s, p + [n]).None?
  }

  // A rename has a file system to go to exactly when both arguments resolve and one mount serves both.
  lemma RenameWithinOneMount(vfs: RootVFS, o: Option<seq<Name>>, n: Option<seq<Name>>, om: seq<Name>, nm: seq<Name>)
    requires SeparateSystems(vfs.root, vfs.mounts)
    requires (o.Some? ==> MountOf(vfs, om, o.value)) && (n.Some? ==> MountOf(vfs, nm, n.value))
    ensures vfs.RenameSystem(o, n).Some? <==> o.Some? && n.Some? && om == nm
    ensures vfs.RenameSystem(o, n).Some? ==> vfs.RenameSystem(o, n).value == Mounted(vfs, om)
  {
    if o.Some? && n.Some? {
      MountServes(vfs, om, o.value);
      MountServes(vfs, nm, n.value);
      NamesOfAbs(om);
      NamesOfAbs(nm);
    }
  }

  // What a tracked descriptor lists: its handle's directory, and without one the directory at its path.
  lemma ListsIsExact(vfs: RootVFS, info: FdInfo<Handle>, m: seq<Name>)
    requires vfs.Readable(info) && MountOf(vfs, m, info.path)
    ensures var d := Lookup(Mounted(vfs, m).state, info.path[|m|..]);
            match info.handle
            case Some(h) =>
              IsDir(h.fs.state, h.node.id) ==>
                Listable(h.fs.state, h.node.id) && vfs.Lists(info) == Some(FullListing(h.fs.state, h.node.id))
            case None =>
              if d.Some? && IsDir(Mounted(vfs, m).state, d.value) then
                Listable(Mounted(vfs, m).state, d.value)
                && vfs.Lists(info) == Some(FullListing(Mounted(vfs, m).state, d.value))
              else vfs.Lists(info) == None
  {
    MountServes(vfs, m, info.path);
    NamesOfAbs(info.path[|m|..]);
    match info.handle {
      case Some(h) => TreeIsListable(h.fs.state, h.node.id);
      case None => ListsByPath(Mounted(vfs, m).state, info.path[|m|..]);
    }
  }

  lemma ListsByPath(s: State, p: seq<Name>)
    requires Tree(s)
    ensures var d := Lookup(s, p);
      && (d.Some? ==> Listable(s, d.value))
      && ListedAt(s, d) == if d.Some? && IsDir(s, d.value) then Some(FullListing(s, d.value)) else None
  {
    if Lookup(s, p).Some? {
      TreeIsListable(s, Lookup(s, p).value);
    }
  }

  // Opening by a path below the working directory: the file system mounted longest above it is asked for
  // the rest, and the new descriptor is recorded under the whole path, at offset 0.
  method OpenBelowCwd(vfs: RootVFS, ups: Parts, names: seq<Name>, flags: Flags, mode: nat, backing: int,
                      ghost m: seq<Name>, ghost p: seq<Name>)
    returns (fd: int)
    requires NoNames(ups) && p == Above(vfs.cwd, CountUps(ups)) + names && MountOf(vfs, m, p)
    requires Mounted(vfs, m).Good()
    modifies vfs`fds, Mounted(vfs, m).Footprint()
    ensures Kept(Mounted(vfs, m))
    ensures vfs.Opens(old(vfs.fds), p, Mounted(vfs, m), fd,
                      Step(old(Mounted(vfs, m).Now()), Op.Open(Abs(p[|m|..]), flags, mode, backing),
                           Mounted(vfs, m).memfd))
    ensures fd >= 0 ==> fd in vfs.fds && vfs.fds[fd].path == p && vfs.fds[fd].dirOffset == 0
    ensures forall x :: x in old(vfs.fds) && x != fd ==> x in vfs.fds && vfs.fds[x] == old(vfs.fds)[x]
  {
    ResolvedIsExact(vfs, ups, names, []);
    MountServes(vfs, m, p);
    fd := vfs.Open(Path(false, ups + Abs(names)), flags, mode, backing, p);
  }
}
