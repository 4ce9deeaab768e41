/** The hooked descriptor calls: each makes the kernel's call, then brings the tracked table up to date. */
module LibcHooks {
  import opened Wrappers
  import opened Paths
  import opened Namespace
  import opened Operations
  import opened Runs
  import opened FdTable
  import opened MemoryFileSystem
  import opened RootVirtualFS

  class Hooks {
    const vfs: RootVFS
    var kernel: map<int, Description<Handle>>  // what the process's descriptors refer to

    constructor (vfs: RootVFS, kernel: map<int, Description<Handle>>)
      ensures this.vfs == vfs && this.kernel == kernel
    {
      this.vfs, this.kernel := vfs, kernel;
    }

    function Now(): Tables<Handle>
      reads this`kernel, vfs`fds
    {
      Tables(kernel, vfs.fds)
    }

    // ----- the kernel's own calls; what the kernel chooses is a parameter

    method KernelClose(fd: int, error: bool) returns (r: int)
      modifies this`kernel
      ensures kernel == old(kernel) - {fd} && r == CloseResult(old(kernel), fd, error)
    {
      r := if fd in kernel && !error then 0 else -1;
      kernel := kernel - {fd};
    }

    method KernelCopy(oldfd: int, newfd: int, ok: bool) returns (r: int)
      requires ok ==> oldfd in kernel
      modifies this`kernel
      ensures kernel == (if ok then old(kernel)[newfd := old(kernel)[oldfd]] else old(kernel))
      ensures r == if ok then newfd else -1
    {
      if !ok {
        return -1;
      }
      kernel := kernel[newfd := kernel[oldfd]];
      return newfd;
    }

    // ----- the hooks

    method Close(fd: int, error: bool) returns (r: int)
      modifies this`kernel, vfs`fds
      ensures Now() == After(old(Now()), FdTable.Call.Close(fd, error))
      ensures r == CloseResult(old(kernel), fd, error)
    {
      r := KernelClose(fd, error);
      if r == 0 {
        vfs.ForgetFd(fd);
      }
    }

    // `dup`, and `fcntl` with `F_DUPFD` or `F_DUPFD_CLOEXEC`: `given` is the number the kernel picks.
    method Dup(oldfd: int, given: int) returns (r: int)
      requires Legal(kernel, FdTable.Call.Dup(oldfd, given))
      modifies this`kernel, vfs`fds
      ensures Now() == After(old(Now()), FdTable.Call.Dup(oldfd, given))
      ensures r == if given >= 0 then given else -1
    {
      r := KernelCopy(oldfd, given, given >= 0);
      if r >= 0 {
        vfs.CloneFd(oldfd, r);
      }
    }

    method Dup2(oldfd: int, newfd: int, ok: bool) returns (r: int)
      requires Legal(kernel, FdTable.Call.Dup2(oldfd, newfd, ok))
      modifies this`kernel, vfs`fds
      ensures Now() == After(old(Now()), FdTable.Call.Dup2(oldfd, newfd, ok))
      ensures r == if ok then newfd else -1
    {
      r := KernelCopy(oldfd, newfd, ok);
      if r >= 0 {
        vfs.CloneFd(oldfd, r);
      }
    }

    method Dup3(oldfd: int, newfd: int, ok: bool) returns (r: int)
      requires Legal(kernel, FdTable.Call.Dup3(oldfd, newfd, ok))
      modifies this`kernel, vfs`fds
      ensures Now() == After(old(Now()), FdTable.Call.Dup3(oldfd, newfd, ok))
      ensures r == if ok then newfd else -1
    {
      r := KernelCopy(oldfd, newfd, ok);
      if r >= 0 {
        vfs.CloneFd(oldfd, r);
      }
    }

    // An open through the file system. The kernel's number becomes a VFS-opened descriptor exactly when
    // the call answers with it, and the handle is the node the file system opened.
    method Open(path: Path, flags: Flags, mode: nat, backing: int, ghost p: seq<Name>)
      returns (fd: int, ghost handle: Option<Handle>)
      requires p == vfs.Resolved(path) && vfs.System(p).Good()
      requires backing < 0 || backing !in kernel
      modifies this`kernel, vfs`fds, vfs.System(p).Footprint()
      ensures Legal(old(kernel), VfsOpen(fd, p, handle))
      ensures Now() == After(old(Now()), VfsOpen(fd, p, handle))
      ensures fd >= 0 ==> HandleIs(handle, vfs.System(p),
                Step(old(vfs.System(p).Now()), Op.Open(vfs.Subpath(p), flags, mode, backing), vfs.System(p).memfd).node)
    {
      OpenAnswersWithItsBacking(vfs.System(p).Now(), vfs.Subpath(p), flags, mode, backing, vfs.System(p).memfd);
      assert this !in vfs.System(p).Footprint() && vfs !in vfs.System(p).Footprint();
      fd := vfs.Open(path, flags, mode, backing, p);
      handle := None;
      if fd >= 0 {
        handle := vfs.fds[fd].handle;
        kernel := kernel[fd := VfsOpened(vfs.fds[fd].handle)];
      }
    }

    // An open that bypasses the hooks.
    method ForeignOpen(fd: int)
      requires Legal(kernel, FdTable.Call.ForeignOpen(fd))
      modifies this`kernel
      ensures Now() == After(old(Now()), FdTable.Call.ForeignOpen(fd))
    {
      if fd >= 0 {
        kernel := kernel[fd := Foreign];
      }
    }
  }

  lemma OpenAnswersWithItsBacking(sys: Sys, path: Parts, flags: Flags, mode: nat, backing: int, memfd: NodeId -> bool)
    ensures var o := Step(sys, Op.Open(path, flags, mode, backing), memfd);
            (o.rc == backing && (o.node.Some? <==> backing >= 0)) || (o.rc == -1 && o.node.None?)
  {
  }
}
