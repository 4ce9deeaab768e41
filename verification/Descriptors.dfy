/**
 What a program relies on when it works through descriptors of the root: names below an opened directory
 mean what they mean at the directory's present path, and reading a directory to its end gives all of it.
 */
module Descriptors {
  import opened Wrappers
  import opened Paths
  import opened Namespace
  import opened Operations
  import opened Renaming
  import opened Handles
  import opened Runs
  import opened Listing
  import opened Dirents
  import opened Enumeration
  import opened FdTable
  import opened MemoryFileSystem
  import opened RootVirtualFS

  // ----- a stale tracked path

  // `dirfd` has a handle on the directory that is at `p` now, whatever path is tracked for it.
  ghost predicate StandsAt(vfs: RootVFS, dirfd: int, h: Handle, p: seq<Name>)
    reads vfs`fds, h.fs, h.fs.all.Values, h.fs.ids
  {
    && dirfd != AT_FDCWD && dirfd in vfs.fds && vfs.fds[dirfd].handle == Some(h)
    && h.fs.Good() && h.fs.Owns(h.node) && Lookup(h.fs.state, p) == Some(h.node.id)
  }

  lemma StaleTrackedPathIsIgnored(vfs: RootVFS, dirfd: int, h: Handle, p: seq<Name>, ups: Parts, names: seq<Name>)
    requires StandsAt(vfs, dirfd, h, p) && NoNames(ups)
    ensures var rel := ups + Abs(names);
            var route := vfs.RouteOf(dirfd, Path(false, rel));
      && route == ViaHandle(h, vfs.fds[dirfd].path)
      && (forall mode ::
            Step(h.fs.Now(), vfs.MkdirOn(route, rel, mode), h.fs.memfd)
            == Step(h.fs.Now(), Op.Mkdir(Abs(NormFrom(p, rel)), mode), h.fs.memfd))
      && (forall flags, mode, backing ::
            Step(h.fs.Now(), vfs.OpenOn(route, rel, flags, mode, backing), h.fs.memfd)
            == Step(h.fs.Now(), Op.Open(Abs(NormFrom(p, rel)), flags, mode, backing), h.fs.memfd))
  {
    var now := h.fs.Now();
    forall mode {
      CreateFromActsAtCurrentPath(now.state, p, ups, names, Dir, mode, now.next, h.fs.memfd(now.next));
    }
    forall flags, mode, backing {
      OpenFromActsAtCurrentPath(now.state, p, ups, names, flags, mode, now.next, h.fs.memfd(now.next), backing);
    }
  }

  // Removing and renaming below a descriptor go by its tracked path all the same: where the directory has
  // moved they act at its present path exactly when the two paths agree above the dots.
  lemma RemovalGoesByTrackedPath(vfs: RootVFS, dirfd: int, h: Handle, p: seq<Name>, ups: Parts, names: seq<Name>)
    requires StandsAt(vfs, dirfd, h, p) && NoNames(ups)
    ensures var rel := ups + Abs(names);
            var tracked := vfs.fds[dirfd].path;
      && vfs.PathRoute(dirfd, Path(false, rel)) == ViaPath(NormFrom(tracked, rel))
      && (NormFrom(tracked, rel) == NormFrom(p, rel) <==> Above(tracked, CountUps(ups)) == Above(p, CountUps(ups)))
  {
    StaleBaseAgreesExactlyWhen(vfs.fds[dirfd].path, p, ups, names);
  }

  // Where they differ: `/a` is renamed to `/b` while a descriptor opened at `/a` is held. Its directory and
  // the file `f` in it are at `/b` and `/b/f` now; removing `f` through the descriptor looks for `/a/f`,
  // and fails although removing `/b/f` would succeed.
  lemma RenamedDirectoryMisleadsRemoval(s: State, a: Name, b: Name, f: Name)
    requires Tree(s) && a != b && Lookup(s, [b]).None?
    requires Lookup(s, [a, f]).Some? && !IsDir(s, Lookup(s, [a, f]).value)
    ensures var s' := RenameAt(s, [Normal(a)], [Normal(b)]).1;
      && RenameAt(s, [Normal(a)], [Normal(b)]).0
      && Lookup(s', [b]) == Lookup(s, [a]) && Lookup(s', [b, f]) == Lookup(s, [a, f])
      && !RemoveAt(s', Abs(NormFrom([a], Abs([f]))), File).0
      && RemoveAt(s', Abs(NormFrom([b], Abs([f]))), File).0
  {
    OneNameMoves(s, a, b, f);
    RenameKeepsTree(s, [Normal(a)], [Normal(b)]);
    OnlyThePresentPathIsRemoved(RenameAt(s, [Normal(a)], [Normal(b)]).1, a, b, f);
  }

  lemma OnlyThePresentPathIsRemoved(s: State, a: Name, b: Name, f: Name)
    requires Tree(s) && Lookup(s, [a, f]).None? && Lookup(s, [b, f]).Some? && !IsDir(s, Lookup(s, [b, f]).value)
    ensures !RemoveAt(s, Abs(NormFrom([a], Abs([f]))), File).0
    ensures RemoveAt(s, Abs(NormFrom([b], Abs([f]))), File).0
  {
    NormFromNames([a], [f]);
    NormFromNames([b], [f]);
    assert [a] + [f] == [a, f] && [b] + [f] == [b, f];
    NamesOfAbs([a, f]);
    if RemoveAt(s, Abs([a, f]), File).0 {
      RemoveIsUnlinked(s, Abs([a, f]), File);
    }
    FilesAreRemoved(s, [b, f]);
  }

  lemma OneNameMoves(s: State, a: Name, b: Name, f: Name)
    requires Tree(s) && a != b && Lookup(s, [b]).None? && Lookup(s, [a, f]).Some?
    ensures RenameAt(s, [Normal(a)], [Normal(b)]).0
    ensures var s' := RenameAt(s, [Normal(a)], [Normal(b)]).1;
      && Lookup(s', [b]) == Lookup(s, [a]) && Lookup(s', [b, f]) == Lookup(s, [a, f]) && Lookup(s', [a, f]) == None
      && (forall x :: Known(s, x) ==> Known(s', x) && s'.inodes[x].kind == s.inodes[x].kind)
  {
    assert Abs([a]) == [Normal(a)] && Abs([b]) == [Normal(b)] && Init([Normal(b)]) == [];
    NamesOfAbs([a]);
    NamesOfAbs([b]);
    WalkPrefix(s, s.root, [a], [a, f]);
    assert !([a] <= [b]) && !([Normal(a)] <= [Normal(b)]) by {
      assert [a][0] != [b][0] && [Normal(a)][0] != [Normal(b)][0];
    }
    RenameSucceedsExactlyWhen(s, [Normal(a)], [Normal(b)]);
    RenameMovesOneSubtree(s, [Normal(a)], [Normal(b)]);
    assert [a] + [] == [a] && [b] + [] == [b] && [a] + [f] == [a, f] && [b] + [f] == [b, f];
  }

  lemma FilesAreRemoved(s: State, p: seq<Name>)
    requires Tree(s) && p != [] && Lookup(s, p).Some? && !IsDir(s, Lookup(s, p).value)
    ensures RemoveAt(s, Abs(p), File).0
  {
    assert Init(Abs(p)) == Abs(Init(p));
    NamesOfAbs(Init(p));
    WalkLast(s, s.root, p);
  }

  method OpenBelow(vfs: RootVFS, dirfd: int, ups: Parts, names: seq<Name>, flags: Flags, mode: nat, backing: int,
                   ghost h: Handle, ghost p: seq<Name>)
    returns (fd: int)
    requires StandsAt(vfs, dirfd, h, p) && NoNames(ups)
    modifies vfs`fds, h.fs.Footprint()
    ensures Kept(h.fs)
    ensures vfs.Opens(old(vfs.fds), NormFrom(old(vfs.fds)[dirfd].path, ups + Abs(names)), h.fs, fd,
                      Step(old(h.fs.Now()), Op.Open(Abs(NormFrom(p, ups + Abs(names))), flags, mode, backing),
                           h.fs.memfd))
  {
    StaleTrackedPathIsIgnored(vfs, dirfd, h, p, ups, names);
    fd := vfs.OpenAt(dirfd, Path(false, ups + Abs(names)), flags, mode, backing, ViaHandle(h, vfs.fds[dirfd].path));
  }

  method MkdirBelow(vfs: RootVFS, dirfd: int, ups: Parts, names: seq<Name>, mode: nat,
                    ghost h: Handle, ghost p: seq<Name>)
    returns (rc: int)
    requires StandsAt(vfs, dirfd, h, p) && NoNames(ups)
    modifies h.fs.Footprint()
    ensures Kept(h.fs)
    ensures Outcome(rc, None, h.fs.Now())
         == Step(old(h.fs.Now()), Op.Mkdir(Abs(NormFrom(p, ups + Abs(names))), mode), h.fs.memfd)
  {
    StaleTrackedPathIsIgnored(vfs, dirfd, h, p, ups, names);
    rc := vfs.MkdirAt(dirfd, Path(false, ups + Abs(names)), mode, ViaHandle(h, vfs.fds[dirfd].path));
  }

  // ----- reading a directory to its end

  // `fd` has a handle on a directory whose listing is `es`.
  ghost predicate Reading(vfs: RootVFS, fd: int, h: Handle, es: seq<DirEntry>)
    reads vfs`fds, h.fs, h.fs.all.Values, h.fs.ids
  {
    && fd in vfs.fds && vfs.fds[fd].handle == Some(h) && vfs.fds[fd].dirOffset <= |es| && HandleLists(h, es)
  }

  ghost predicate HandleLists(h: Handle, es: seq<DirEntry>)
    reads h.fs, h.fs.all.Values, h.fs.ids
  {
    h.fs.Good() && h.fs.Owns(h.node) && ListedAt(h.fs.state, Some(h.node.id)) == Some(es)
  }

  // An answer to a call on a directory, in the words of the encoder.
  lemma AnswerTook<H>(hash: seq<Name> -> U64, before: map<int, FdInfo<H>>, after: map<int, FdInfo<H>>, fd: int,
                      es: seq<DirEntry>, was: seq<Byte>, now: Option<seq<Byte>>, count: nat, r: Dents)
    requires fd in before && before[fd].dirOffset <= |es| && count > 0
    requires Answers(hash, before, after, fd, Some(es), Some(was), now, count, r)
    ensures r.Bytes? && now.Some?
    ensures var off := before[fd].dirOffset;
            var k := Take(off, Call(es, count));
      && after == MovedTo(before, fd, off + k)
      && (if k == 0 then r.n == (if off == |es| then 0 else -1)
          else 0 < r.n <= |now.value|
               && now.value[..r.n] == Chunk(before[fd].path, hash, es[off..], off, k))
  {
    var off := before[fd].dirOffset;
    var k := Take(off, Call(es, count));
    ChunkSize(before[fd].path, hash, es[off..], off, k);
  }

  // The calls without records: an unusable buffer answers -1, an unknown or unlistable descriptor is left to
  // the kernel, an offset past the listing has no answer; none changes the table or the buffer.
  lemma OtherAnswers<H>(hash: seq<Name> -> U64, before: map<int, FdInfo<H>>, after: map<int, FdInfo<H>>, fd: int,
                        listing: Option<seq<DirEntry>>, was: Option<seq<Byte>>, now: Option<seq<Byte>>, count: int,
                        r: Dents)
    requires Answers(hash, before, after, fd, listing, was, now, count, r)
    ensures fd !in before || listing.None? ==> r == NotVirtual && after == before && now == was
    ensures fd in before && listing.Some? && before[fd].dirOffset > |listing.value| ==>
              r == OffsetPastEnd && after == before && now == was
    ensures fd in before && listing.Some? && before[fd].dirOffset <= |listing.value| && (was.None? || count <= 0) ==>
              r == Bytes(-1) && after == before && now == was
  {
    if fd in before && listing.Some? && before[fd].dirOffset <= |listing.value| && (was.None? || count <= 0) {
      NothingTaken(before[fd].path, hash, listing.value[before[fd].dirOffset..], before[fd].dirOffset);
      MovedNowhere(before, fd);
      assert was.Some? ==> [] + was.value[0..] == was.value;
    }
  }

  lemma NothingTaken(path: seq<Name>, hash: seq<Name> -> U64, es: seq<DirEntry>, start: nat)
    ensures Chunk(path, hash, es, start, 0) == []
  {
    assert es[..0] == [];
  }

  // A read through a copy of a descriptor goes on where the original stood, and leaves it there.
  lemma CopyReadsOn<H>(hash: seq<Name> -> U64, t: Tables<H>, c: FdTable.Call<H>, oldfd: int, newfd: int,
                       after: map<int, FdInfo<H>>, es: seq<DirEntry>, was: seq<Byte>, now: Option<seq<Byte>>,
                       count: nat, r: Dents)
    requires Legal(t.kernel, c) && oldfd in t.tracked && oldfd != newfd
    requires (c == Dup(oldfd, newfd) && newfd >= 0) || c == Dup2(oldfd, newfd, true) || c == Dup3(oldfd, newfd, true)
    requires t.tracked[oldfd].dirOffset <= |es| && count > 0
    requires Answers(hash, After(t, c).tracked, after, newfd, Some(es), Some(was), now, count, r)
    ensures var off := t.tracked[oldfd].dirOffset;
            var k := Take(off, Enumeration.Call(es, count));
      && oldfd in after && after[oldfd] == t.tracked[oldfd]
      && newfd in after && after[newfd].path == t.tracked[oldfd].path && after[newfd].handle == t.tracked[oldfd].handle
      && after[newfd].dirOffset == off + k
      && (k > 0 ==> now.Some? && 0 < r.n <= |now.value|
                    && now.value[..r.n] == Chunk(t.tracked[oldfd].path, hash, es[off..], off, k))
      && forall fd :: fd != newfd ==>
           (fd in after <==> fd in t.tracked) && (fd in after ==> after[fd] == t.tracked[fd])
  {
    CopyIsExact(t, c, oldfd, newfd);
    AnswerTook(hash, After(t, c).tracked, after, newfd, es, was, now, count, r);
  }

  lemma ChunkSize(path: seq<Name>, hash: seq<Name> -> U64, es: seq<DirEntry>, start: nat, k: nat)
    requires k <= |es|
    ensures k == 0 <==> Chunk(path, hash, es, start, k) == []
  {
    if k > 0 {
      RecLenBounds(Last(Records(path, hash, es[..k], start)).name);
    }
  }

  // One call moves the offset past what it took; the descriptor goes on listing the same.
  method ReadOnce(vfs: RootVFS, fd: int, buf: array<Byte>, count: int, ghost h: Handle, ghost es: seq<DirEntry>)
    returns (r: Dents)
    requires Reading(vfs, fd, h, es) && 0 < count <= buf.Length
    modifies vfs`fds, buf
    ensures Reading(vfs, fd, h, es)
    ensures Answers(vfs.hash, old(vfs.fds), vfs.fds, fd, Some(es), Some(old(buf[..])), Some(buf[..]), count, r)
  {
    ghost var before, was := vfs.fds, buf[..];
    r := vfs.GetDents64(fd, buf, count, Some(es));
    assert HandleLists(h, es);
    AnswerTook(vfs.hash, before, vfs.fds, fd, es, was, Some(buf[..]), count, r);
  }

  // The encoding of a directory's records from one offset up to another.
  function Span(path: seq<Name>, hash: seq<Name> -> U64, es: seq<DirEntry>, off: nat, end: nat): seq<Byte>
    requires off <= end <= |es|
  {
    EncodeAll(Records(path, hash, es, 0)[off..end])
  }

  lemma SpanGrows(path: seq<Name>, hash: seq<Name> -> U64, es: seq<DirEntry>, off: nat, cur: nat, end: nat,
                  sofar: seq<Byte>, more: seq<Byte>)
    requires off <= cur <= end <= |es| && sofar == Span(path, hash, es, off, cur)
    requires more == Chunk(path, hash, es[cur..], cur, end - cur)
    ensures sofar + more == Span(path, hash, es, off, end)
  {
    var rs := Records(path, hash, es, 0);
    RecordsOfSlice(path, hash, es, cur, end);
    assert rs[off..end] == rs[off..cur] + rs[cur..end];
    EncodeAllConcat(rs[off..cur], rs[cur..end]);
  }

  lemma RecordsOfSlice(path: seq<Name>, hash: seq<Name> -> U64, es: seq<DirEntry>, cur: nat, end: nat)
    requires cur <= end <= |es|
    ensures Records(path, hash, es[cur..][..end - cur], cur) == Records(path, hash, es, 0)[cur..end]
  {
  }

  // What one call puts in the buffer.
  method ReadSome(vfs: RootVFS, fd: int, buf: array<Byte>, count: int, ghost h: Handle, ghost es: seq<DirEntry>,
                  ghost info: FdInfo<Handle>)
    returns (n: int, more: seq<Byte>)
    requires Reading(vfs, fd, h, es) && 0 < count <= buf.Length && vfs.fds[fd] == info
    modifies vfs`fds, buf
    ensures Reading(vfs, fd, h, es)
    ensures vfs.fds[fd] == info.(dirOffset := info.dirOffset + Take(info.dirOffset, Call(es, count)))
    ensures more == Chunk(info.path, vfs.hash, es[info.dirOffset..], info.dirOffset,
                          Take(info.dirOffset, Call(es, count)))
    ensures n <= 0 <==> Take(info.dirOffset, Call(es, count)) == 0
    ensures n == 0 <==> info.dirOffset == |es|
    ensures n < 0 ==> RecLen(es[info.dirOffset].name) > count
  {
    ghost var before, was := vfs.fds, buf[..];
    var r := ReadOnce(vfs, fd, buf, count, h, es);
    AnswerTook(vfs.hash, before, vfs.fds, fd, es, was, Some(buf[..]), count, r);
    ChunkSize(info.path, vfs.hash, es[info.dirOffset..], info.dirOffset, Take(info.dirOffset, Call(es, count)));
    n, more := r.n, if r.n > 0 then buf[..r.n] else [];
  }

  // One call more: what has been read grows by what it takes, or it is the end, or the next record does
  // not fit.
  method ReadMore(vfs: RootVFS, fd: int, buf: array<Byte>, count: int, sofar: seq<Byte>, ghost h: Handle,
                  ghost es: seq<DirEntry>, ghost info: FdInfo<Handle>, ghost off: nat, ghost end: nat)
    returns (n: int, bytes: seq<Byte>)
    requires Reading(vfs, fd, h, es) && 0 < count <= buf.Length && vfs.fds[fd] == info
    requires off <= info.dirOffset && end == info.dirOffset + Take(info.dirOffset, Call(es, count))
    requires sofar == Span(info.path, vfs.hash, es, off, info.dirOffset)
    modifies vfs`fds, buf
    ensures Reading(vfs, fd, h, es) && vfs.fds[fd] == info.(dirOffset := end)
    ensures bytes == Span(info.path, vfs.hash, es, off, end)
    ensures n <= 0 <==> end == info.dirOffset
    ensures n == 0 <==> info.dirOffset == |es|
    ensures n < 0 ==> RecLen(es[info.dirOffset].name) > count
  {
    var more;
    n, more := ReadSome(vfs, fd, buf, count, h, es, info);
    SpanGrows(info.path, vfs.hash, es, off, info.dirOffset, end, sofar, more);
    bytes := sofar + more;
  }

  lemma OneMoreCall(off: nat, es: seq<DirEntry>, calls: seq<Enumeration.Call>, count: nat)
    requires AllFind(es, calls)
    ensures AllFind(es, calls + [Call(es, count)])
    ensures EndOffset(off, calls + [Call(es, count)])
         == EndOffset(off, calls) + Take(EndOffset(off, calls), Call(es, count))
  {
    var more := calls + [Call(es, count)];
    assert Init(more) == calls && Last(more) == Call(es, count);
    LastCall(off, more);
  }

  // Call until the answer is 0 or an error, keeping what the calls put in the buffer. What is kept is the
  // encoding of the records from the descriptor's offset on, each once: all of them, or all up to the first
  // that does not fit in the buffer. `calls` are the calls made, as the theory of enumeration sees them.
  method ReadDirectory(vfs: RootVFS, fd: int, buf: array<Byte>, count: int, ghost h: Handle, ghost es: seq<DirEntry>,
                       ghost path: seq<Name>, ghost off: nat)
    returns (bytes: seq<Byte>, ok: bool, ghost end: nat, ghost calls: seq<Enumeration.Call>)
    requires Reading(vfs, fd, h, es) && 0 < count <= buf.Length
    requires path == vfs.fds[fd].path && off == vfs.fds[fd].dirOffset
    modifies vfs`fds, buf
    ensures Reading(vfs, fd, h, es) && vfs.fds[fd].path == path && vfs.fds[fd].dirOffset == end
    ensures off <= end <= |es| && (ok <==> end == |es|) && (!ok ==> RecLen(es[end].name) > count)
    ensures bytes == Span(path, vfs.hash, es, off, end)
    ensures AllFind(es, calls) && end == EndOffset(off, calls)
    ensures bytes == EncodeAll(Stream(path, vfs.hash, off, calls))
    ensures ReadsBack(bytes, Records(path, vfs.hash, es, 0), off, end)
    ensures Describes(Records(path, vfs.hash, es, 0), h.fs.state, h.node.id, path, vfs.hash)
  {
    bytes, ok, end, calls := [], false, off, [];
    while true
      invariant Reading(vfs, fd, h, es) && vfs.fds[fd].path == path && vfs.fds[fd].dirOffset == end
      invariant AllFind(es, calls) && off <= end <= |es| && end == EndOffset(off, calls)
      invariant bytes == Span(path, vfs.hash, es, off, end)
      decreases |es| - end
    {
      ghost var next := end + Take(end, Call(es, count));
      var n;
      n, bytes := ReadMore(vfs, fd, buf, count, bytes, h, es, vfs.fds[fd], off, next);
      if n <= 0 {
        ok := n == 0;
        break;
      }
      OneMoreCall(off, es, calls, count);
      end, calls := next, calls + [Call(es, count)];
    }
    StreamIsASlice(path, vfs.hash, es, off, calls, end);
    SpanReadsBack(path, vfs.hash, es, off, end);
    HandleRecords(h, es, path, vfs.hash);
  }

  // The bytes are the encoding of those records, and decode to them exactly when they fit their fields.
  ghost predicate ReadsBack(bytes: seq<Byte>, rs: seq<Record>, off: nat, end: nat)
    requires off <= end <= |rs|
  {
    && bytes == EncodeAll(rs[off..end])
    && (Decode(bytes) == Some(rs[off..end]) <==> forall i :: off <= i < end ==> Encodable(rs[i]))
  }

  lemma SpanReadsBack(path: seq<Name>, hash: seq<Name> -> U64, es: seq<DirEntry>, off: nat, end: nat)
    requires off <= end <= |es|
    ensures ReadsBack(Span(path, hash, es, off, end), Records(path, hash, es, 0), off, end)
  {
    var rs := Records(path, hash, es, 0);
    DecodesBackExactlyWhen(rs[off..end]);
    assert (forall i :: off <= i < end ==> Encodable(rs[i]))
      <==> forall i :: 0 <= i < end - off ==> Encodable(rs[off..end][i]) by {
      assert forall i :: off <= i < end ==> rs[off..end][i - off] == rs[i];
    }
  }

  // A handle's records, in terms of the directory it is on.
  lemma HandleRecords(h: Handle, es: seq<DirEntry>, path: seq<Name>, hash: seq<Name> -> U64)
    requires HandleLists(h, es)
    ensures Describes(Records(path, hash, es, 0), h.fs.state, h.node.id, path, hash)
  {
    TreeIsListable(h.fs.state, h.node.id);
    RecordsDescribe(h.fs.state, h.node.id, path, hash);
  }
}
