/**
 What the calls of the root keep: every mounted file system good and apart from the others, and every
 tracked handle on a node of one of them.
 */
module RootInvariant {
  import opened Wrappers
  import opened Paths
  import opened Operations
  import opened FdTable
  import opened MemoryFileSystem
  import opened RootVirtualFS

  ghost predicate HandlesOwned(vfs: RootVFS)
    reads vfs`fds, vfs.Systems()
  {
    forall fd :: fd in vfs.fds && vfs.fds[fd].handle.Some? ==> Ours(vfs, vfs.fds[fd].handle.value)
  }

  ghost predicate Ours(vfs: RootVFS, h: Handle)
    reads vfs.Systems()
  {
    h.fs in vfs.Systems() && h.fs.Owns(h.node)
  }

  // The handles in the table.
  ghost function Held(vfs: RootVFS): set<Handle>
    reads vfs`fds
  {
    set x | x in vfs.fds && vfs.fds[x].handle.Some? :: vfs.fds[x].handle.value
  }

  // A call on `target` does not reach the other file systems; the handles held are on nodes of these or of
  // `target`.
  ghost predicate Bystanders(target: MemoryFS, others: set<MemoryFS>, held: set<Handle>)
    reads target, others, set h | h in held :: h.fs
  {
    && (forall g :: g in others ==> g != target && g.all.Values !! target.all.Values)
    && (forall h :: h in held ==> h.fs in others + {target} && h.fs.Owns(h.node))
  }

  // The file system a rename is about; the root stands in where there is none.
  function RenameTarget(vfs: RootVFS, o: Option<seq<Name>>, n: Option<seq<Name>>): MemoryFS {
    vfs.RenameSystem(o, n).GetOr(vfs.root)
  }

  lemma RouteIsOurs(vfs: RootVFS, route: Route)
    requires route.ViaHandle? ==> Ours(vfs, route.handle)
    ensures vfs.SystemOf(route) in vfs.Systems()
  {
    if route.ViaPath? {
      vfs.SystemIsOurs(route.path);
    }
  }

  // ----- the calls

  method ApartOpen(vfs: RootVFS, path: Path, flags: Flags, mode: nat, backing: int, ghost p: seq<Name>,
                   ghost others: set<MemoryFS>, ghost held: set<Handle>)
    returns (fd: int)
    requires p == vfs.Resolved(path)
    requires vfs.System(p).Good() && Bystanders(vfs.System(p), others, held)
    requires Held(vfs) <= held
    modifies vfs`fds, vfs.System(p).Footprint()
    ensures Kept(vfs.System(p))
    ensures forall g :: g in others ==> unchanged(g) && unchanged(old(g.all.Values))
    ensures forall h :: h in held ==> h.fs.Owns(h.node)
    ensures forall x :: x in vfs.fds && vfs.fds[x].handle.Some? ==>
              var h := vfs.fds[x].handle.value;
              h in held || (h.fs == vfs.System(p) && h.fs.Owns(h.node))
  {
    ghost var target := vfs.System(p);
    ghost var changed := target.Footprint();
    assert forall g :: g in others ==> g !in changed && g.all.Values !! changed;
    ghost var before := vfs.fds;
    assert vfs !in changed && forall h :: h in held ==> h.fs == target || h.fs in others;
    fd := vfs.Open(path, flags, mode, backing, p);
    forall x | x in vfs.fds && vfs.fds[x].handle.Some?
      ensures vfs.fds[x].handle.value in held
           || (vfs.fds[x].handle.value.fs == target && target.Owns(vfs.fds[x].handle.value.node))
    {
      if x != fd {
        assert before[x] == vfs.fds[x];
      }
    }
  }

  method Open(vfs: RootVFS, path: Path, flags: Flags, mode: nat, backing: int, ghost p: seq<Name>)
    returns (fd: int)
    requires vfs.SystemsGood() && HandlesOwned(vfs)
    requires p == vfs.Resolved(path)
    modifies vfs`fds, vfs.System(p).Footprint()
    ensures vfs.SystemsGood() && HandlesOwned(vfs)
  {
    vfs.SystemIsOurs(p);
    ghost var target, held := vfs.System(p), Held(vfs);
    ghost var others := vfs.Systems() - {target};
    assert forall g :: g in vfs.Systems() && g != target ==> g in others;
    fd := ApartOpen(vfs, path, flags, mode, backing, p, others, held);
    vfs.StepKeepsSystems(target);
  }

  method ApartOpenAt(vfs: RootVFS, dirfd: int, path: Path, flags: Flags, mode: nat, backing: int, ghost route: Route,
                     ghost others: set<MemoryFS>, ghost held: set<Handle>)
    returns (fd: int)
    requires route == vfs.RouteOf(dirfd, path) && vfs.Ready(route)
    requires vfs.SystemOf(route).Good() && Bystanders(vfs.SystemOf(route), others, held)
    requires Held(vfs) <= held
    modifies vfs`fds, vfs.Touched(route)
    ensures Kept(vfs.SystemOf(route))
    ensures forall g :: g in others ==> unchanged(g) && unchanged(old(g.all.Values))
    ensures forall h :: h in held ==> h.fs.Owns(h.node)
    ensures forall x :: x in vfs.fds && vfs.fds[x].handle.Some? ==>
              var h := vfs.fds[x].handle.value;
              h in held || (h.fs == vfs.SystemOf(route) && h.fs.Owns(h.node))
  {
    ghost var target := vfs.SystemOf(route);
    ghost var changed := target.Footprint();
    assert forall g :: g in others ==> g !in changed && g.all.Values !! changed;
    ghost var before := vfs.fds;
    assert vfs !in changed && forall h :: h in held ==> h.fs == target || h.fs in others;
    fd := vfs.OpenAt(dirfd, path, flags, mode, backing, route);
    forall x | x in vfs.fds && vfs.fds[x].handle.Some?
      ensures vfs.fds[x].handle.value in held
           || (vfs.fds[x].handle.value.fs == target && target.Owns(vfs.fds[x].handle.value.node))
    {
      if x != fd {
        assert before[x] == vfs.fds[x];
      }
    }
  }

  method OpenAt(vfs: RootVFS, dirfd: int, path: Path, flags: Flags, mode: nat, backing: int, ghost route: Route)
    returns (fd: int)
    requires vfs.SystemsGood() && HandlesOwned(vfs)
    requires route == vfs.RouteOf(dirfd, path)
    modifies vfs`fds, vfs.Touched(route)
    ensures vfs.SystemsGood() && HandlesOwned(vfs)
  {
    RouteIsOurs(vfs, route);
    ghost var target, held := vfs.SystemOf(route), Held(vfs);
    ghost var others := vfs.Systems() - {target};
    assert forall g :: g in vfs.Systems() && g != target ==> g in others;
    fd := ApartOpenAt(vfs, dirfd, path, flags, mode, backing, route, others, held);
    vfs.StepKeepsSystems(target);
  }

  method ApartMkdirAt(vfs: RootVFS, dirfd: int, path: Path, mode: nat, ghost route: Route,
                      ghost others: set<MemoryFS>, ghost held: set<Handle>)
    returns (rc: int)
    requires route == vfs.RouteOf(dirfd, path) && vfs.Ready(route)
    requires vfs.SystemOf(route).Good() && Bystanders(vfs.SystemOf(route), others, held)
    requires Held(vfs) <= held
    modifies vfs.Touched(route)
    ensures Kept(vfs.SystemOf(route))
    ensures forall g :: g in others ==> unchanged(g) && unchanged(old(g.all.Values))
    ensures forall h :: h in held ==> h.fs.Owns(h.node)
    ensures forall x :: x in vfs.fds && vfs.fds[x].handle.Some? ==> vfs.fds[x].handle.value in held
  {
    ghost var target := vfs.SystemOf(route);
    ghost var changed := target.Footprint();
    assert forall g :: g in others ==> g !in changed && g.all.Values !! changed;
    assert vfs !in changed && forall h :: h in held ==> h.fs == target || h.fs in others;
    rc := vfs.MkdirAt(dirfd, path, mode, route);
  }

  method MkdirAt(vfs: RootVFS, dirfd: int, path: Path, mode: nat, ghost route: Route)
    returns (rc: int)
    requires vfs.SystemsGood() && HandlesOwned(vfs)
    requires route == vfs.RouteOf(dirfd, path)
    modifies vfs.Touched(route)
    ensures vfs.SystemsGood() && HandlesOwned(vfs)
  {
    RouteIsOurs(vfs, route);
    ghost var target, held := vfs.SystemOf(route), Held(vfs);
    ghost var others := vfs.Systems() - {target};
    assert forall g :: g in vfs.Systems() && g != target ==> g in others;
    rc := ApartMkdirAt(vfs, dirfd, path, mode, route, others, held);
    vfs.StepKeepsSystems(target);
  }

  method ApartUnlinkAt(vfs: RootVFS, dirfd: int, path: Path, removeDir: bool, ghost route: Route,
                       ghost others: set<MemoryFS>, ghost held: set<Handle>)
    returns (rc: int)
    requires route == vfs.PathRoute(dirfd, path)
    requires vfs.SystemOf(route).Good() && Bystanders(vfs.SystemOf(route), others, held)
    requires Held(vfs) <= held
    modifies vfs.Touched(route)
    ensures Kept(vfs.SystemOf(route))
    ensures forall g :: g in others ==> unchanged(g) && unchanged(old(g.all.Values))
    ensures forall h :: h in held ==> h.fs.Owns(h.node)
    ensures forall x :: x in vfs.fds && vfs.fds[x].handle.Some? ==> vfs.fds[x].handle.value in held
  {
    ghost var target := vfs.SystemOf(route);
    ghost var changed := target.Footprint();
    assert forall g :: g in others ==> g !in changed && g.all.Values !! changed;
    assert vfs !in changed && forall h :: h in held ==> h.fs == target || h.fs in others;
    rc := vfs.UnlinkAt(dirfd, path, removeDir, route);
  }

  method UnlinkAt(vfs: RootVFS, dirfd: int, path: Path, removeDir: bool, ghost route: Route)
    returns (rc: int)
    requires vfs.SystemsGood() && HandlesOwned(vfs)
    requires route == vfs.PathRoute(dirfd, path)
    modifies vfs.Touched(route)
    ensures vfs.SystemsGood() && HandlesOwned(vfs)
  {
    RouteIsOurs(vfs, route);
    ghost var target, held := vfs.SystemOf(route), Held(vfs);
    ghost var others := vfs.Systems() - {target};
    assert forall g :: g in vfs.Systems() && g != target ==> g in others;
    rc := ApartUnlinkAt(vfs, dirfd, path, removeDir, route, others, held);
    vfs.StepKeepsSystems(target);
  }

  method ApartRenameAt(vfs: RootVFS, oldDirfd: int, oldPath: Path, newDirfd: int, newPath: Path,
                  ghost o: Option<seq<Name>>, ghost n: Option<seq<Name>>,
                       ghost others: set<MemoryFS>, ghost held: set<Handle>)
    returns (rc: int)
    requires o == vfs.ResolvedAt(oldDirfd, oldPath) && n == vfs.ResolvedAt(newDirfd, newPath)
    requires RenameTarget(vfs, o, n).Good() && Bystanders(RenameTarget(vfs, o, n), others, held)
    requires Held(vfs) <= held
    modifies (if vfs.RenameSystem(o, n).Some? then RenameTarget(vfs, o, n).Footprint() else {})
    ensures Kept(RenameTarget(vfs, o, n))
    ensures forall g :: g in others ==> unchanged(g) && unchanged(old(g.all.Values))
    ensures forall h :: h in held ==> h.fs.Owns(h.node)
    ensures forall x :: x in vfs.fds && vfs.fds[x].handle.Some? ==> vfs.fds[x].handle.value in held
  {
    ghost var target := RenameTarget(vfs, o, n);
    ghost var changed := target.Footprint();
    assert forall g :: g in others ==> g !in changed && g.all.Values !! changed;
    assert vfs !in changed && forall h :: h in held ==> h.fs == target || h.fs in others;
    rc := vfs.RenameAt(oldDirfd, oldPath, newDirfd, newPath, o, n);
  }

  method RenameAt(vfs: RootVFS, oldDirfd: int, oldPath: Path, newDirfd: int, newPath: Path,
                  ghost o: Option<seq<Name>>, ghost n: Option<seq<Name>>)
    returns (rc: int)
    requires vfs.SystemsGood() && HandlesOwned(vfs)
    requires o == vfs.ResolvedAt(oldDirfd, oldPath) && n == vfs.ResolvedAt(newDirfd, newPath)
    modifies (if vfs.RenameSystem(o, n).Some? then RenameTarget(vfs, o, n).Footprint() else {})
    ensures vfs.SystemsGood() && HandlesOwned(vfs)
  {
    vfs.SystemIsOurs(o.GetOr([]));
    ghost var target, held := RenameTarget(vfs, o, n), Held(vfs);
    ghost var others := vfs.Systems() - {target};
    assert forall g :: g in vfs.Systems() && g != target ==> g in others;
    rc := ApartRenameAt(vfs, oldDirfd, oldPath, newDirfd, newPath, o, n, others, held);
    vfs.StepKeepsSystems(target);
  }
}
