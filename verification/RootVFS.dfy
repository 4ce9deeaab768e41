/**
 The root of the virtual file system: path resolution against a working directory and tracked
 descriptors, dispatch to mounted memory file systems, and directory reading through descriptors.
 */
module RootVirtualFS {
  import opened Wrappers
  import opened Paths
  import opened Namespace
  import opened Operations
  import opened Runs
  import opened Listing
  import opened Dirents
  import opened Enumeration
  import opened Mounts
  import opened FdTable
  import opened MemoryFileSystem

  const AT_FDCWD := -100

  // A backend's handle on an opened object.
  datatype Handle = Handle(node: Node, fs: MemoryFS)

  // How a path argument beside a directory descriptor is resolved.
  datatype Route =
    | ViaHandle(handle: Handle, tracked: seq<Name>)
    | ViaPath(path: seq<Name>)
    | Nowhere

  // What reading directory records comes to: not ours to answer, an offset past the listing (where the
  // source's slice panics), or the answer of the encoder.
  datatype Dents = NotVirtual | OffsetPastEnd | Bytes(n: int)

  class RootVFS {
    const root: MemoryFS
    const mounts: map<Parts, MemoryFS>
    const hash: seq<Name> -> U64  // the process's path hash
    var cwd: seq<Name>
    var fds: map<int, FdInfo<Handle>>

    constructor (root: MemoryFS, mounts: map<Parts, MemoryFS>, hash: seq<Name> -> U64)
      ensures this.root == root && this.mounts == mounts && this.hash == hash && cwd == [] && fds == map[]
    {
      this.root, this.mounts, this.hash, cwd, fds := root, mounts, hash, [], map[];
    }

    // ----- the file systems: separate trees drawing from one id counter

    ghost function Systems(): set<MemoryFS> {
      {root} + mounts.Values
    }

    ghost predicate SystemsGood()
      reads Systems(), root.ids, set f | f in Systems() :: f.ids
      reads set f, n | f in Systems() && n in f.all.Values :: n
    {
      && (forall f :: f in Systems() ==> f.Good() && f.ids == root.ids)
      && (forall f, g :: f in Systems() && g in Systems() && f != g ==> f.all.Values !! g.all.Values)
    }

    // Each call below changes at most one file system, and keeps that one; so all stay good and separate.
    twostate lemma StepKeepsSystems(f: MemoryFS)
      requires old(SystemsGood()) && f in Systems() && Kept(f)
      requires forall g :: g in Systems() && g != f ==> unchanged(g) && unchanged(old(g.all.Values))
      ensures SystemsGood()
    {
      forall g | g in Systems() && g != f
        ensures g.Good() && f.all.Values !! g.all.Values
      {
        g.StaysGood();
        f.StaysApart(g);
      }
    }

    lemma SystemIsOurs(p: seq<Name>)
      ensures System(p) in Systems()
    {
      var m := DispatchIsExact(root, mounts, p);
    }

    // ----- resolution

    function Resolved(path: Path): seq<Name>
      reads this`cwd
    {
      NormFrom(if path.absolute then [] else cwd, path.parts)
    }

    function ResolvedAt(dirfd: int, path: Path): Option<seq<Name>>
      reads this`cwd, this`fds
    {
      if path.absolute || dirfd == AT_FDCWD then Some(Resolved(path))
      else if dirfd in fds then Some(NormFrom(fds[dirfd].path, path.parts))
      else None
    }

    // A relative path below a descriptor with a handle goes through the handle, whatever the tracked path.
    function RouteOf(dirfd: int, path: Path): Route
      reads this`cwd, this`fds
    {
      if !path.absolute && dirfd != AT_FDCWD && dirfd in fds && fds[dirfd].handle.Some?
      then ViaHandle(fds[dirfd].handle.value, fds[dirfd].path)
      else PathRoute(dirfd, path)
    }

    function PathRoute(dirfd: int, path: Path): Route
      reads this`cwd, this`fds
    {
      match ResolvedAt(dirfd, path)
      case Some(p) => ViaPath(p)
      case None => Nowhere
    }

    function System(p: seq<Name>): MemoryFS {
      Dispatch(root, mounts, p).0
    }

    function Subpath(p: seq<Name>): Parts {
      Abs(Dispatch(root, mounts, p).1)
    }

    method SetCwd(path: Path)
      requires path.absolute
      modifies this`cwd
      ensures cwd == NormFrom([], path.parts)
    {
      cwd := NormalizeAbsolute(path.parts);
    }

    method ResolvePath(path: Path) returns (p: seq<Name>)
      ensures p == Resolved(path)
    {
      if path.absolute {
        p := NormalizeAbsolute(path.parts);
      } else {
        p := JoinNormalized(cwd, path.parts);
      }
    }

    method ResolveOpenatPath(dirfd: int, path: Path) returns (p: Option<seq<Name>>)
      ensures p == ResolvedAt(dirfd, path)
    {
      var q;
      if path.absolute {
        q := NormalizeAbsolute(path.parts);
        return Some(q);
      }
      if dirfd == AT_FDCWD {
        q := ResolvePath(path);
        return Some(q);
      }
      if dirfd !in fds {
        return None;
      }
      q := JoinNormalized(fds[dirfd].path, path.parts);
      return Some(q);
    }

    method FindRoute(dirfd: int, path: Path) returns (route: Route)
      ensures route == RouteOf(dirfd, path)
    {
      if !path.absolute && dirfd != AT_FDCWD && dirfd in fds && fds[dirfd].handle.Some? {
        return ViaHandle(fds[dirfd].handle.value, fds[dirfd].path);
      }
      var p := ResolveOpenatPath(dirfd, path);
      return if p.Some? then ViaPath(p.value) else Nowhere;
    }

    method PathToFs(p: seq<Name>) returns (fs: MemoryFS, subpath: Parts)
      ensures fs == System(p) && subpath == Subpath(p)
    {
      var sub;
      fs, sub := AbsolutePathToFs<MemoryFS>(root, mounts, p);
      subpath := Abs(sub);
    }

    // ----- the descriptor table

    method TrackOpen(fd: int, handle: Option<Handle>, path: seq<Name>) returns (r: int)
      modifies this`fds
      ensures r == fd && fds == Tracked(old(fds), fd, path, handle)
    {
      if fd >= 0 {
        fds := fds[fd := FdInfo(path, 0, handle)];
      }
      return fd;
    }

    method ForgetFd(fd: int)
      modifies this`fds
      ensures fds == Forgotten(old(fds), fd)
    {
      fds := fds - {fd};
    }

    method CloneFd(oldfd: int, newfd: int)
      modifies this`fds
      ensures fds == Cloned(old(fds), oldfd, newfd)
    {
      if oldfd in fds {
        fds := fds[newfd := fds[oldfd]];
      } else {
        fds := fds - {newfd};
      }
    }

    // ----- what a routed call acts on; the root stands in where there is nothing to act on

    function SystemOf(route: Route): MemoryFS {
      match route
      case ViaHandle(h, _) => h.fs
      case ViaPath(p) => System(p)
      case Nowhere => root
    }

    ghost function Touched(route: Route): set<object>
      reads SystemOf(route)
    {
      if route.Nowhere? then {} else SystemOf(route).Footprint()
    }

    ghost predicate Ready(route: Route)
      reads SystemOf(route), SystemOf(route).all.Values, SystemOf(route).ids
    {
      && (!route.Nowhere? ==> SystemOf(route).Good())
      && (route.ViaHandle? ==> route.handle.fs.Owns(route.handle.node))
    }

    // The path recorded for what is opened.
    function Tracking(route: Route, parts: Parts): seq<Name> {
      match route
      case ViaHandle(_, base) => NormFrom(base, parts)
      case ViaPath(p) => p
      case Nowhere => []
    }

    function OpenOn(route: Route, parts: Parts, flags: Flags, mode: nat, backing: int): Op
      requires !route.Nowhere?
    {
      match route
      case ViaHandle(h, _) => OpenVia(h.node.id, parts, flags, mode, backing)
      case ViaPath(p) => Op.Open(Subpath(p), flags, mode, backing)
    }

    function MkdirOn(route: Route, parts: Parts, mode: nat): Op
      requires !route.Nowhere?
    {
      match route
      case ViaHandle(h, _) => MkdirVia(h.node.id, parts, mode)
      case ViaPath(p) => Op.Mkdir(Subpath(p), mode)
    }

    // The answer, the file system and the table after an open with a given outcome.
    ghost predicate Opens(before: map<int, FdInfo<Handle>>, p: seq<Name>, fs: MemoryFS, fd: int, o: Outcome)
      reads this`fds, fs, fs.ids
    {
      && fd == o.rc && fs.Now() == o.sys
      && (if fd < 0 then fds == before
          else fd in fds && fds == Tracked(before, fd, p, fds[fd].handle) && HandleIs(fds[fd].handle, fs, o.node))
    }

    // ----- opening

    // `p` is the absolute path that `path` comes to.
    method Open(path: Path, flags: Flags, mode: nat, backing: int, ghost p: seq<Name>) returns (fd: int)
      requires p == Resolved(path) && System(p).Good()
      modifies this`fds, System(p).Footprint()
      ensures Kept(System(p))
      ensures Opens(old(fds), p, System(p), fd,
                    Step(old(System(p).Now()), Op.Open(Subpath(p), flags, mode, backing), System(p).memfd))
    {
      ghost var target := System(p);
      assert target.Good();
      var resolved := ResolvePath(path);
      fd := OpenPath(resolved, flags, mode, backing);
    }

    method OpenPath(p: seq<Name>, flags: Flags, mode: nat, backing: int) returns (fd: int)
      requires System(p).Good()
      modifies this`fds, System(p).Footprint()
      ensures Kept(System(p))
      ensures Opens(old(fds), p, System(p), fd,
                    Step(old(System(p).Now()), Op.Open(Subpath(p), flags, mode, backing), System(p).memfd))
    {
      ghost var target := System(p);
      assert target.Good();
      var fs, subpath := PathToFs(p);
      assert fs == target && target.Good();
      fd := OpenIn(fs, p, subpath, flags, mode, backing);
    }

    method OpenIn(fs: MemoryFS, p: seq<Name>, subpath: Parts, flags: Flags, mode: nat, backing: int) returns (fd: int)
      requires fs.Good()
      modifies this`fds, fs.Footprint()
      ensures Kept(fs)
      ensures Opens(old(fds), p, fs, fd, Step(old(fs.Now()), Op.Open(subpath, flags, mode, backing), fs.memfd))
    {
      ghost var o := Step(fs.Now(), Op.Open(subpath, flags, mode, backing), fs.memfd);
      var node;
      assert this !in fs.Footprint();
      fd, node := fs.OpenWithHandle(subpath, flags, mode, backing);
      assert fds == old(fds);
      fd := TrackNode(fd, fs, node, p, o);
    }

    method OpenAtHandle(h: Handle, base: seq<Name>, parts: Parts, flags: Flags, mode: nat, backing: int)
      returns (fd: int)
      requires h.fs.Good() && h.fs.Owns(h.node)
      modifies this`fds, h.fs.Footprint()
      ensures Kept(h.fs)
      ensures Opens(old(fds), NormFrom(base, parts), h.fs, fd,
                    Step(old(h.fs.Now()), OpenVia(h.node.id, parts, flags, mode, backing), h.fs.memfd))
    {
      var p := JoinNormalized(base, parts);
      fd := OpenChildIn(h, p, parts, flags, mode, backing);
    }

    method OpenChildIn(h: Handle, p: seq<Name>, parts: Parts, flags: Flags, mode: nat, backing: int) returns (fd: int)
      requires h.fs.Good() && h.fs.Owns(h.node)
      modifies this`fds, h.fs.Footprint()
      ensures Kept(h.fs)
      ensures Opens(old(fds), p, h.fs, fd,
                    Step(old(h.fs.Now()), OpenVia(h.node.id, parts, flags, mode, backing), h.fs.memfd))
    {
      ghost var o := Step(h.fs.Now(), OpenVia(h.node.id, parts, flags, mode, backing), h.fs.memfd);
      var node;
      assert this !in h.fs.Footprint();
      fd, node := h.fs.OpenChild(h.node, parts, flags, mode, backing);
      assert fds == old(fds);
      fd := TrackNode(fd, h.fs, node, p, o);
    }

    // Record what an open answered.
    method TrackNode(fd: int, fs: MemoryFS, node: Option<Node>, p: seq<Name>, ghost o: Outcome) returns (r: int)
      requires fs.Good() && (node.Some? ==> fs.Owns(node.value)) && o == Outcome(fd, IdOf(node), fs.Now())
      modifies this`fds
      ensures fs.Good() && Opens(old(fds), p, fs, r, o)
    {
      r := TrackOpen(fd, if node.Some? then Some(Handle(node.value, fs)) else None, p);
    }

    // `route` is how the arguments resolve.
    method OpenAt(dirfd: int, path: Path, flags: Flags, mode: nat, backing: int, ghost route: Route) returns (fd: int)
      requires route == RouteOf(dirfd, path) && Ready(route)
      modifies this`fds, Touched(route)
      ensures if route.Nowhere? then fd == -1 && fds == old(fds)
              else
                && Kept(SystemOf(route))
                && Opens(old(fds), Tracking(route, path.parts), SystemOf(route), fd,
                         Step(old(SystemOf(route).Now()), OpenOn(route, path.parts, flags, mode, backing),
                              SystemOf(route).memfd))
    {
      ghost var target := SystemOf(route);
      assert !route.Nowhere? ==> target.Good();
      var found := FindRoute(dirfd, path);
      assert found == route && (!route.Nowhere? ==> target.Good());
      fd := OpenRouted(found, path.parts, flags, mode, backing);
    }

    method OpenRouted(route: Route, parts: Parts, flags: Flags, mode: nat, backing: int) returns (fd: int)
      requires Ready(route)
      modifies this`fds, Touched(route)
      ensures if route.Nowhere? then fd == -1 && fds == old(fds)
              else
                && Kept(SystemOf(route))
                && Opens(old(fds), Tracking(route, parts), SystemOf(route), fd,
                         Step(old(SystemOf(route).Now()), OpenOn(route, parts, flags, mode, backing),
                              SystemOf(route).memfd))
    {
      match route
      case ViaHandle(h, base) => fd := OpenAtHandle(h, base, parts, flags, mode, backing);
      case ViaPath(p) => fd := OpenPath(p, flags, mode, backing);
      case Nowhere => fd := -1;
    }

    // ----- changing the namespace

    method MkdirAt(dirfd: int, path: Path, mode: nat, ghost route: Route) returns (rc: int)
      requires route == RouteOf(dirfd, path) && Ready(route)
      modifies Touched(route)
      ensures if route.Nowhere? then rc == -1
              else
                && Kept(SystemOf(route))
                && Outcome(rc, None, SystemOf(route).Now())
                     == Step(old(SystemOf(route).Now()), MkdirOn(route, path.parts, mode), SystemOf(route).memfd)
    {
      ghost var target := SystemOf(route);
      assert !route.Nowhere? ==> target.Good();
      var found := FindRoute(dirfd, path);
      assert found == route && (!route.Nowhere? ==> target.Good());
      rc := MkdirRouted(found, path.parts, mode);
    }

    method MkdirRouted(route: Route, parts: Parts, mode: nat) returns (rc: int)
      requires Ready(route)
      modifies Touched(route)
      ensures if route.Nowhere? then rc == -1
              else
                && Kept(SystemOf(route))
                && Outcome(rc, None, SystemOf(route).Now())
                     == Step(old(SystemOf(route).Now()), MkdirOn(route, parts, mode), SystemOf(route).memfd)
    {
      match route
      case ViaHandle(h, _) => rc := h.fs.MkdirChild(h.node, parts, mode);
      case ViaPath(p) => rc := MkdirPath(p, mode);
      case Nowhere => rc := -1;
    }

    method MkdirPath(p: seq<Name>, mode: nat) returns (rc: int)
      requires System(p).Good()
      modifies System(p).Footprint()
      ensures Kept(System(p))
      ensures Outcome(rc, None, System(p).Now())
           == Step(old(System(p).Now()), Op.Mkdir(Subpath(p), mode), System(p).memfd)
    {
      ghost var target := System(p);
      assert target.Good();
      var fs, subpath := PathToFs(p);
      assert fs == target && target.Good();
      rc := fs.Mkdir(subpath, mode);
    }

    // Removal resolves by the tracked path even below a descriptor with a handle.
    method UnlinkAt(dirfd: int, path: Path, removeDir: bool, ghost route: Route) returns (rc: int)
      requires route == PathRoute(dirfd, path) && Ready(route)
      modifies Touched(route)
      ensures if route.Nowhere? then rc == -1
              else
                && Kept(SystemOf(route))
                && Outcome(rc, None, SystemOf(route).Now())
                     == Step(old(SystemOf(route).Now()), RemovalOf(route.path, removeDir), SystemOf(route).memfd)
    {
      ghost var target := SystemOf(route);
      assert !route.Nowhere? ==> target.Good();
      var p := ResolveOpenatPath(dirfd, path);
      assert (p.Some? ==> route == ViaPath(p.value)) && (!route.Nowhere? ==> target.Good());
      if p.None? {
        return -1;
      }
      rc := RemovePath(p.value, removeDir);
    }

    method RemovePath(p: seq<Name>, removeDir: bool) returns (rc: int)
      requires System(p).Good()
      modifies System(p).Footprint()
      ensures Kept(System(p))
      ensures Outcome(rc, None, System(p).Now()) == Step(old(System(p).Now()), RemovalOf(p, removeDir), System(p).memfd)
    {
      ghost var target := System(p);
      assert target.Good();
      var fs, subpath := PathToFs(p);
      assert fs == target && target.Good();
      if removeDir {
        rc := fs.Rmdir(subpath);
      } else {
        rc := fs.Unlink(subpath);
      }
    }

    function RemovalOf(p: seq<Name>, removeDir: bool): Op {
      if removeDir then Op.Rmdir(Subpath(p)) else Op.Unlink(Subpath(p))
    }

    // The one file system a rename is about, if both paths resolve and lie in the same one.
    function RenameSystem(o: Option<seq<Name>>, n: Option<seq<Name>>): Option<MemoryFS> {
      if o.Some? && n.Some? && System(o.value) == System(n.value) then Some(System(o.value)) else None
    }

    // A rename across file systems fails and changes nothing at all. `o` and `n` are what the arguments
    // resolve to.
    method RenameAt(oldDirfd: int, oldPath: Path, newDirfd: int, newPath: Path,
                    ghost o: Option<seq<Name>>, ghost n: Option<seq<Name>>) returns (rc: int)
      requires o == ResolvedAt(oldDirfd, oldPath) && n == ResolvedAt(newDirfd, newPath)
      requires RenameSystem(o, n).Some? ==> System(o.value).Good()
      modifies (if RenameSystem(o, n).Some? then System(o.value).Footprint() else {})
      ensures RenameSystem(o, n).None? ==> rc == -1
      ensures RenameSystem(o, n).Some? ==>
                Kept(System(o.value)) && Outcome(rc, None, System(o.value).Now())
                  == Step(old(System(o.GetOr([])).Now()), Op.Rename(Subpath(o.value), Subpath(n.value)),
                          System(o.value).memfd)
    {
      ghost var target := System(o.GetOr([]));
      assert RenameSystem(o, n).Some? ==> target.Good();
      var source, goal := ResolveBoth(oldDirfd, oldPath, newDirfd, newPath);
      assert source == o && goal == n;
      assert RenameSystem(o, n).Some? ==> target.Good();
      if source.None? || goal.None? {
        return -1;
      }
      rc := RenamePaths(source.value, goal.value);
    }

    method ResolveBoth(oldDirfd: int, oldPath: Path, newDirfd: int, newPath: Path)
      returns (o: Option<seq<Name>>, n: Option<seq<Name>>)
      ensures o == ResolvedAt(oldDirfd, oldPath) && n == ResolvedAt(newDirfd, newPath)
    {
      o := ResolveOpenatPath(oldDirfd, oldPath);
      n := ResolveOpenatPath(newDirfd, newPath);
    }

    method RenamePaths(o: seq<Name>, n: seq<Name>) returns (rc: int)
      requires System(o) == System(n) ==> System(o).Good()
      modifies (if System(o) == System(n) then System(o).Footprint() else {})
      ensures System(o) != System(n) ==> rc == -1
      ensures System(o) == System(n) ==>
                Kept(System(o)) && Outcome(rc, None, System(o).Now())
                  == Step(old(System(o).Now()), Op.Rename(Subpath(o), Subpath(n)), System(o).memfd)
    {
      ghost var target := System(o);
      assert target == System(n) ==> target.Good();
      var oldFs, oldSub := PathToFs(o);
      var newFs, newSub := PathToFs(n);
      if oldFs != newFs {
        return -1;
      }
      rc := oldFs.Rename(oldSub, newSub);
    }

    // ----- reading directories

    // The file system that answers for a tracked descriptor: its handle's, or its path's.
    function SystemBehind(info: FdInfo<Handle>): MemoryFS {
      if info.handle.Some? then info.handle.value.fs else System(info.path)
    }

    ghost function ByHandle(info: FdInfo<Handle>): Option<seq<DirEntry>>
      requires SystemBehind(info).Good()
      reads SystemBehind(info), SystemBehind(info).all.Values, SystemBehind(info).ids
    {
      if info.handle.Some? then ListedAt(SystemBehind(info).state, Some(info.handle.value.node.id)) else None
    }

    // The path is only looked at when the handle lists nothing.
    ghost predicate Readable(info: FdInfo<Handle>)
      reads SystemBehind(info), SystemBehind(info).all.Values, SystemBehind(info).ids
      reads System(info.path), System(info.path).all.Values, System(info.path).ids
    {
      && SystemBehind(info).Good()
      && (info.handle.Some? ==> info.handle.value.fs.Owns(info.handle.value.node))
      && (ByHandle(info).None? ==> System(info.path).Good())
    }

    // What a tracked descriptor lists: its handle's directory, or else the one at its tracked path.
    ghost function Lists(info: FdInfo<Handle>): Option<seq<DirEntry>>
      requires Readable(info)
      reads SystemBehind(info), SystemBehind(info).all.Values, SystemBehind(info).ids
      reads System(info.path), System(info.path).all.Values, System(info.path).ids
    {
      if ByHandle(info).Some? then ByHandle(info)
      else ListedAt(System(info.path).state, Lookup(System(info.path).state, Names(Subpath(info.path))))
    }

    // One call: as many of the records from the descriptor's offset on as go into the buffer, and the
    // offset moves past them; a call that fails moves nothing. `listing` is what the descriptor lists.
    method GetDents64(fd: int, buf: array?<Byte>, count: int, ghost listing: Option<seq<DirEntry>>) returns (r: Dents)
      requires fd in fds ==> Readable(fds[fd]) && listing == Lists(fds[fd])
      requires buf != null ==> count <= buf.Length
      modifies this`fds, buf
      ensures Answers(hash, old(fds), fds, fd, listing, old(Contents(buf)), Contents(buf), count, r)
    {
      if fd !in fds {
        return NotVirtual;
      }
      var info := fds[fd];
      var es := ListFor(info);
      assert es == listing;
      if es.None? {
        return NotVirtual;
      }
      if info.dirOffset > |es.value| {
        return OffsetPastEnd;
      }
      r := WriteFrom(fd, info, es.value, buf, count);
    }

    method WriteFrom(fd: int, info: FdInfo<Handle>, es: seq<DirEntry>, buf: array?<Byte>, count: int) returns (r: Dents)
      requires fd in fds && fds[fd] == info && info.dirOffset <= |es|
      requires buf != null ==> count <= buf.Length
      modifies this`fds, buf
      ensures Answers(hash, old(fds), fds, fd, Some(es), old(Contents(buf)), Contents(buf), count, r)
    {
      MovedNowhere(fds, fd);
      ghost var size := |Chunk(info.path, hash, es[info.dirOffset..], info.dirOffset,
                               Taken(es, info.dirOffset, buf != null, count))|;
      var result := WriteDirents64(info.path, hash, es[info.dirOffset..], info.dirOffset, buf, count);
      if buf != null {
        assert buf[size..] == old(buf[..])[size..];
        assert buf[..] == buf[..size] + buf[size..];
      }
      if result.bytesWritten >= 0 {
        fds := fds[fd := info.(dirOffset := info.dirOffset + result.entriesConsumed)];
      }
      return Bytes(result.bytesWritten);
    }

    method ListFor(info: FdInfo<Handle>) returns (r: Option<seq<DirEntry>>)
      requires Readable(info)
      ensures r == old(Lists(info))
    {
      var es := ListByHandle(info);
      if es.None? {
        es := ListByPath(info.path);
      }
      return es;
    }

    method ListByHandle(info: FdInfo<Handle>) returns (r: Option<seq<DirEntry>>)
      requires Readable(info)
      ensures r == old(ByHandle(info))
      ensures r.None? ==> System(info.path).Good() && unchanged(System(info.path))
    {
      ghost var target, behind := System(info.path), SystemBehind(info);
      assert behind.Good() && (ByHandle(info).None? ==> target.Good());
      if info.handle.None? {
        return None;
      }
      var es := info.handle.value.fs.ReadNodeDir(info.handle.value.node);
      return if es.Some? then Some(Dots() + es.value) else None;
    }

    method ListByPath(path: seq<Name>) returns (r: Option<seq<DirEntry>>)
      requires System(path).Good()
      ensures r == old(ListedAt(System(path).state, Lookup(System(path).state, Names(Subpath(path)))))
    {
      ghost var target := System(path);
      assert target.Good();
      var fs, subpath := PathToFs(path);
      var es := fs.ReadDir(subpath);
      return if es.Some? then Some(Dots() + es.value) else None;
    }
  }

  // What a buffer holds; a null pointer has nothing behind it.
  ghost function Contents(buf: array?<Byte>): Option<seq<Byte>>
    reads buf
  {
    if buf == null then None else Some(buf[..])
  }

  // How many entries a call at an offset takes, an unusable buffer taking none.
  function Taken(es: seq<DirEntry>, off: nat, usable: bool, count: int): (k: nat)
    requires off <= |es|
    ensures off + k <= |es|
  {
    if !usable || count <= 0 then 0 else Take(off, Call(es, count))
  }

  // What a call answers and does, in terms of the table and the buffer before and after it.
  ghost predicate Answers<H>(hash: seq<Name> -> U64, before: map<int, FdInfo<H>>, after: map<int, FdInfo<H>>, fd: int,
                             listing: Option<seq<DirEntry>>, was: Option<seq<Byte>>, now: Option<seq<Byte>>,
                             count: int, r: Dents)
  {
    if fd !in before || listing.None? || before[fd].dirOffset > |listing.value| then
      && r == (if fd !in before || listing.None? then NotVirtual else OffsetPastEnd)
      && after == before && now == was
    else
      Wrote(hash, before[fd], listing.value, Taken(listing.value, before[fd].dirOffset, was.Some?, count),
            was, now, count, r)
      && after == MovedTo(before, fd, before[fd].dirOffset
                                      + Taken(listing.value, before[fd].dirOffset, was.Some?, count))
  }

  // The bytes of `k` records in the buffer, and its rest as it was; -1 for an unusable buffer or where
  // the next record does not fit.
  ghost predicate Wrote<H>(hash: seq<Name> -> U64, info: FdInfo<H>, es: seq<DirEntry>, k: nat,
                        was: Option<seq<Byte>>, now: Option<seq<Byte>>, count: int, r: Dents)
    requires info.dirOffset + k <= |es|
  {
    var bytes := Chunk(info.path, hash, es[info.dirOffset..], info.dirOffset, k);
    var failed := was.None? || count <= 0 || (k == 0 && info.dirOffset < |es|);
    && r == Bytes(if failed then -1 else |bytes|)
    && (was.None? ==> now.None?)
    && (was.Some? ==> |bytes| <= |was.value| && now == Some(bytes + was.value[|bytes|..]))
  }

  ghost predicate HandleIs(h: Option<Handle>, fs: MemoryFS, node: Option<NodeId>)
    reads fs
  {
    match node
    case None => h.None?
    case Some(id) => h.Some? && h.value.fs == fs && fs.Owns(h.value.node) && h.value.node.id == id
  }

  twostate predicate Kept(fs: MemoryFS)
    reads fs, fs.all.Values, fs.ids
  {
    fs.Good() && fs.Grows()
  }

  method JoinNormalized(base: seq<Name>, parts: Parts) returns (p: seq<Name>)
    ensures p == NormFrom(base, parts)
  {
    p := NormalizeAbsolute(Abs(base) + parts);
    NormFromConcat([], Abs(base), parts);
    NormFromNames([], base);
    assert [] + base == base;
  }
}
