/** The tracked descriptor table against the kernel's, under the hooked descriptor calls. */
module FdTable {
  import opened Wrappers
  import opened Paths

  // What is recorded of a tracked descriptor; `H` is the backend's handle on the opened object.
  datatype FdInfo<H> = FdInfo(path: seq<Name>, dirOffset: nat, handle: Option<H>)

  // What the kernel's descriptor refers to: something this library opened, or something it did not.
  datatype Description<H> = Foreign | VfsOpened(handle: Option<H>)
  datatype Tables<H> = Tables(kernel: map<int, Description<H>>, tracked: map<int, FdInfo<H>>)

  // ----- the table operations

  function Tracked<H>(fds: map<int, FdInfo<H>>, fd: int, path: seq<Name>, handle: Option<H>): map<int, FdInfo<H>> {
    if fd >= 0 then fds[fd := FdInfo(path, 0, handle)] else fds
  }

  function Forgotten<H>(fds: map<int, FdInfo<H>>, fd: int): map<int, FdInfo<H>> {
    fds - {fd}
  }

  function Cloned<H>(fds: map<int, FdInfo<H>>, oldfd: int, newfd: int): map<int, FdInfo<H>> {
    if oldfd in fds then fds[newfd := fds[oldfd]] else fds - {newfd}
  }

  // The table after a descriptor's directory offset has moved.
  function MovedTo<H>(fds: map<int, FdInfo<H>>, fd: int, off: nat): map<int, FdInfo<H>>
    requires fd in fds
  {
    fds[fd := fds[fd].(dirOffset := off)]
  }

  lemma MovedNowhere<H>(fds: map<int, FdInfo<H>>, fd: int)
    requires fd in fds
    ensures MovedTo(fds, fd, fds[fd].dirOffset) == fds
  {
  }

  // ----- calls, with what the kernel answers

  // `fd` and `result` are the kernel's choices, negative for an error. `Dup` is also `F_DUPFD` and
  // `F_DUPFD_CLOEXEC`. `error` on a close reports an error although the descriptor is released.
  datatype Call<H> =
    | VfsOpen(fd: int, path: seq<Name>, handle: Option<H>)
    | ForeignOpen(fd: int)
    | Close(fd: int, error: bool)
    | Dup(oldfd: int, result: int)
    | Dup2(oldfd: int, newfd: int, ok: bool)
    | Dup3(oldfd: int, newfd: int, ok: bool)

  // A kernel hands out only descriptors that are not in use, and copies only ones that are.
  predicate Legal<H>(kernel: map<int, Description<H>>, c: Call<H>) {
    match c
    case VfsOpen(fd, _, _) => fd < 0 || fd !in kernel
    case ForeignOpen(fd) => fd < 0 || fd !in kernel
    case Close(_, _) => true
    case Dup(oldfd, result) => result < 0 || (oldfd in kernel && result !in kernel)
    case Dup2(oldfd, newfd, ok) => ok ==> oldfd in kernel && newfd >= 0
    case Dup3(oldfd, newfd, ok) => ok ==> oldfd in kernel && newfd >= 0 && oldfd != newfd
  }

  function KernelAfter<H>(kernel: map<int, Description<H>>, c: Call<H>): map<int, Description<H>>
    requires Legal(kernel, c)
  {
    match c
    case VfsOpen(fd, _, handle) => if fd >= 0 then kernel[fd := VfsOpened(handle)] else kernel
    case ForeignOpen(fd) => if fd >= 0 then kernel[fd := Foreign] else kernel
    case Close(fd, _) => kernel - {fd}
    case Dup(oldfd, result) => if result >= 0 then kernel[result := kernel[oldfd]] else kernel
    case Dup2(oldfd, newfd, ok) => if ok then kernel[newfd := kernel[oldfd]] else kernel
    case Dup3(oldfd, newfd, ok) => if ok then kernel[newfd := kernel[oldfd]] else kernel
  }

  function CloseResult<H>(kernel: map<int, Description<H>>, fd: int, error: bool): int {
    if fd in kernel && !error then 0 else -1
  }

  function TrackedAfter<H>(t: Tables<H>, c: Call<H>): map<int, FdInfo<H>> {
    match c
    case VfsOpen(fd, path, handle) => Tracked(t.tracked, fd, path, handle)
    case ForeignOpen(_) => t.tracked
    case Close(fd, error) => if CloseResult(t.kernel, fd, error) == 0 then Forgotten(t.tracked, fd) else t.tracked
    case Dup(oldfd, result) => if result >= 0 then Cloned(t.tracked, oldfd, result) else t.tracked
    case Dup2(oldfd, newfd, ok) => if ok then Cloned(t.tracked, oldfd, newfd) else t.tracked
    case Dup3(oldfd, newfd, ok) => if ok then Cloned(t.tracked, oldfd, newfd) else t.tracked
  }

  function After<H>(t: Tables<H>, c: Call<H>): Tables<H>
    requires Legal(t.kernel, c)
  {
    Tables(KernelAfter(t.kernel, c), TrackedAfter(t, c))
  }

  // A copy answers with what its original stood for, offset included; one of a foreign descriptor is not
  // tracked. No other descriptor changes.
  lemma CopyIsExact<H>(t: Tables<H>, c: Call<H>, oldfd: int, newfd: int)
    requires Legal(t.kernel, c)
    requires (c == Dup(oldfd, newfd) && newfd >= 0) || c == Dup2(oldfd, newfd, true) || c == Dup3(oldfd, newfd, true)
    ensures var t' := After(t, c);
      && (newfd in t'.tracked <==> oldfd in t.tracked)
      && (oldfd in t.tracked ==> t'.tracked[newfd] == t.tracked[oldfd])
      && newfd in t'.kernel && t'.kernel[newfd] == t.kernel[oldfd]
    ensures SameBut(t, After(t, c), newfd)
  {
  }

  // The tables agree at every descriptor but one.
  ghost predicate SameBut<H>(t: Tables<H>, t': Tables<H>, fd: int) {
    && (forall x :: x != fd ==> (x in t'.tracked <==> x in t.tracked) && (x in t'.kernel <==> x in t.kernel))
    && (forall x :: x != fd && x in t.tracked && x in t'.tracked ==> t'.tracked[x] == t.tracked[x])
    && (forall x :: x != fd && x in t.kernel && x in t'.kernel ==> t'.kernel[x] == t.kernel[x])
  }

  // Opening starts at offset 0 under the path that was opened, closing ends it, and a call that fails
  // changes nothing.
  lemma OpenAndCloseAreExact<H>(t: Tables<H>, fd: int, path: seq<Name>, handle: Option<H>)
    requires fd >= 0
    ensures fd !in t.kernel ==>
              var t' := After(t, VfsOpen(fd, path, handle));
              fd in t'.tracked && t'.tracked[fd].path == path && t'.tracked[fd].handle == handle
              && t'.tracked[fd].dirOffset == 0 && SameBut(t, t', fd)
    ensures fd in t.kernel ==> fd !in After(t, Close(fd, false)).tracked && SameBut(t, After(t, Close(fd, false)), fd)
    ensures fd !in t.kernel ==> After(t, Close(fd, false)) == t
  {
  }

  lemma FailuresChangeNothing<H>(t: Tables<H>, fd: int, other: int, path: seq<Name>, handle: Option<H>)
    ensures fd < 0 ==> After(t, VfsOpen(fd, path, handle)) == t && After(t, ForeignOpen(fd)) == t
    ensures fd < 0 ==> After(t, Dup(other, fd)) == t
    ensures After(t, Dup2(other, fd, false)) == t && After(t, Dup3(other, fd, false)) == t
  {
  }

  // ----- agreement

  // A descriptor is tracked exactly when it refers to something this library opened, and then with the
  // handle that open returned.
  predicate InSync<H(==)>(t: Tables<H>) {
    && (forall fd :: fd in t.tracked ==> fd in t.kernel && t.kernel[fd] == VfsOpened(t.tracked[fd].handle))
    && (forall fd :: fd in t.kernel && t.kernel[fd].VfsOpened? ==> fd in t.tracked)
  }

  predicate ReleasesDespiteError<H>(t: Tables<H>, c: Call<H>) {
    c.Close? && c.error && c.fd in t.kernel && t.kernel[c.fd].VfsOpened?
  }

  // Each call keeps the tables in step, but for a close of a tracked descriptor that reports an error
  // after releasing it: that one leaves a stale entry.
  lemma SyncKeptExactlyWhen<H>(t: Tables<H>, c: Call<H>)
    requires InSync(t) && Legal(t.kernel, c)
    ensures InSync(After(t, c)) <==> !ReleasesDespiteError(t, c)
  {
    var t' := After(t, c);
    if ReleasesDespiteError(t, c) {
      assert c.fd in t'.tracked;
    }
  }

  ghost predicate LegalRun<H>(t: Tables<H>, cs: seq<Call<H>>)
    decreases |cs|
  {
    cs == [] || (Legal(t.kernel, cs[0]) && !ReleasesDespiteError(t, cs[0]) && LegalRun(After(t, cs[0]), cs[1..]))
  }

  ghost function RunCalls<H>(t: Tables<H>, cs: seq<Call<H>>): Tables<H>
    requires LegalRun(t, cs)
    decreases |cs|
  {
    if cs == [] then t else RunCalls(After(t, cs[0]), cs[1..])
  }

  // Over any run from a process in which only foreign descriptors are open.
  lemma {:induction false} RunStaysInSync<H>(t: Tables<H>, cs: seq<Call<H>>)
    requires InSync(t) && LegalRun(t, cs)
    ensures InSync(RunCalls(t, cs))
    decreases |cs|
  {
    if cs != [] {
      SyncKeptExactlyWhen(t, cs[0]);
      RunStaysInSync(After(t, cs[0]), cs[1..]);
    }
  }

  // What the stale entry does: a foreign file that reuses the number is answered for by the closed handle.
  lemma ErrorOnCloseLeavesStaleHandle<H>(t: Tables<H>, fd: int)
    requires InSync(t) && fd >= 0 && fd in t.tracked
    ensures Legal(t.kernel, Close(fd, true)) && Legal(After(t, Close(fd, true)).kernel, ForeignOpen(fd))
    ensures var t' := After(After(t, Close(fd, true)), ForeignOpen(fd));
            fd in t'.tracked && t'.tracked[fd] == t.tracked[fd] && t'.kernel[fd] == Foreign
  {
  }
}
