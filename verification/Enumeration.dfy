/** Reading a directory through successive getdents64 calls while the file system goes on changing. */
module Enumeration {
  import opened Wrappers
  import opened Paths
  import opened Namespace
  import opened Operations
  import opened Runs
  import opened Listing
  import opened Dirents

  function Dots(): seq<DirEntry> {
    [DirEntry([DOT], Dir, None), DirEntry([DOT, DOT], Dir, None)]
  }

  ghost function FullListing(s: State, d: NodeId): seq<DirEntry>
    requires Listable(s, d)
  {
    Dots() + ListingOf(s, d)
  }

  // What a descriptor's directory lists, if there is a directory.
  ghost function ListedAt(s: State, d: Option<NodeId>): Option<seq<DirEntry>>
    requires Tree(s)
  {
    if d.Some? && IsDir(s, d.value) then
      TreeIsListable(s, d.value);
      Some(FullListing(s, d.value))
    else None
  }

  // One call: the entries it finds in the directory, and the size of its buffer.
  datatype Call = Call(listing: seq<DirEntry>, count: nat)

  // How many entries a call at an offset takes.
  function Take(off: nat, call: Call): (k: nat)
    ensures off <= |call.listing| ==> off + k <= |call.listing|
  {
    if off <= |call.listing| then Fit(call.listing[off..], call.count) else 0
  }

  // They are as many as go into its buffer.
  lemma TakeIsLongest(path: seq<Name>, hash: seq<Name> -> U64, off: nat, call: Call, k: nat)
    requires off + k <= |call.listing|
    ensures |EncodeAll(Records(path, hash, call.listing, 0)[off..off + k])| <= call.count <==> k <= Take(off, call)
  {
    var rest := call.listing[off..];
    FitIsLongest(rest, call.count, k);
    SizeIsEncodedLength(path, hash, rest[..k], off);
    assert Records(path, hash, rest[..k], off) == Records(path, hash, call.listing, 0)[off..off + k];
  }

  // The offset the calls end at.
  function EndOffset(off: nat, calls: seq<Call>): nat
    decreases |calls|
  {
    if calls == [] then off else EndOffset(off + Take(off, calls[0]), calls[1..])
  }

  // The records the calls return together. `path` is the path tracked for the descriptor, which only
  // serves to number `.` and `..`.
  function Stream(path: seq<Name>, hash: seq<Name> -> U64, off: nat, calls: seq<Call>): seq<Record>
    decreases |calls|
  {
    if calls == [] || off > |calls[0].listing| then []
    else
      var k := Take(off, calls[0]);
      Records(path, hash, calls[0].listing[off..][..k], off) + Stream(path, hash, off + k, calls[1..])
  }

  // ----- calls that all find the same listing

  predicate AllFind(es: seq<DirEntry>, calls: seq<Call>) {
    forall i :: 0 <= i < |calls| ==> calls[i].listing == es
  }

  // A buffer has room for the record that is next.
  predicate NextFits(off: nat, call: Call) {
    off < |call.listing| ==> RecLen(call.listing[off].name) <= call.count
  }

  // Every buffer has room for the record that is next when its call comes.
  predicate BuffersFit(off: nat, calls: seq<Call>)
    decreases |calls|
  {
    calls == [] || (NextFits(off, calls[0]) && BuffersFit(off + Take(off, calls[0]), calls[1..]))
  }

  lemma {:induction false} EndIsInRange(es: seq<DirEntry>, off: nat, calls: seq<Call>)
    requires off <= |es| && AllFind(es, calls)
    ensures off <= EndOffset(off, calls) <= |es|
    decreases |calls|
  {
    if calls != [] {
      EndIsInRange(es, off + Take(off, calls[0]), calls[1..]);
    }
  }

  // A call whose buffer has room takes nothing exactly when nothing is left.
  lemma TakesNothingExactlyAtEnd(off: nat, call: Call)
    requires off <= |call.listing| && NextFits(off, call)
    ensures Take(off, call) == 0 <==> off == |call.listing|
  {
  }

  // The last call, apart from the ones before it.
  lemma {:induction false} LastCall(off: nat, calls: seq<Call>)
    requires calls != []
    ensures var before := EndOffset(off, Init(calls));
      && EndOffset(off, calls) == before + Take(before, Last(calls))
      && (BuffersFit(off, calls) <==> BuffersFit(off, Init(calls)) && NextFits(before, Last(calls)))
    decreases |calls|
  {
    if |calls| > 1 {
      var k := Take(off, calls[0]);
      LastCall(off + k, calls[1..]);
      InitOfTail(calls);
    } else {
      assert Init(calls) == [] && calls[1..] == [] && Last(calls) == calls[0];
    }
  }

  lemma InitOfTail<T>(xs: seq<T>)
    requires |xs| > 1
    ensures Init(xs)[0] == xs[0] && Init(xs)[1..] == Init(xs[1..]) && Last(xs[1..]) == Last(xs)
  {
  }

  lemma {:induction false} AllIsConsumed(es: seq<DirEntry>, off: nat, calls: seq<Call>)
    requires off <= |es| && AllFind(es, calls) && BuffersFit(off, calls) && off + |calls| >= |es|
    ensures EndOffset(off, calls) == |es|
    decreases |calls|
  {
    if calls != [] {
      TakesNothingExactlyAtEnd(off, calls[0]);
      AllIsConsumed(es, off + Take(off, calls[0]), calls[1..]);
    }
  }

  lemma {:induction false} StreamIsASlice(path: seq<Name>, hash: seq<Name> -> U64, es: seq<DirEntry>, off: nat,
                                          calls: seq<Call>, end: nat)
    requires off <= |es| && AllFind(es, calls) && end == EndOffset(off, calls)
    ensures off <= end <= |es|
    ensures Stream(path, hash, off, calls) == Records(path, hash, es, 0)[off..end]
    decreases |calls|
  {
    EndIsInRange(es, off, calls);
    if calls != [] {
      var k := Take(off, calls[0]);
      StreamStep(path, hash, es, off, calls);
      StreamIsASlice(path, hash, es, off + k, calls[1..], end);
      SlicesJoin(path, hash, es, off, k, end);
    }
  }

  lemma StreamStep(path: seq<Name>, hash: seq<Name> -> U64, es: seq<DirEntry>, off: nat, calls: seq<Call>)
    requires calls != [] && off <= |es| && calls[0].listing == es
    ensures var k := Take(off, calls[0]);
      && Stream(path, hash, off, calls)
         == Records(path, hash, es[off..][..k], off) + Stream(path, hash, off + k, calls[1..])
      && EndOffset(off, calls) == EndOffset(off + k, calls[1..])
  {
  }

  lemma SlicesJoin(path: seq<Name>, hash: seq<Name> -> U64, es: seq<DirEntry>, off: nat, k: nat, end: nat)
    requires off + k <= end <= |es|
    ensures var rs := Records(path, hash, es, 0);
            Records(path, hash, es[off..][..k], off) + rs[off + k..end] == rs[off..end]
  {
  }

  // ----- calls made while the file system runs on

  // Some run of operations, by path or through handles, leads from one state to the other.
  ghost predicate Leads(a: Sys, b: Sys, memfd: NodeId -> bool) {
    exists ops :: NormalRenames(ops) && Run(a, ops, memfd) == b
  }

  predicate NormalRenames(ops: seq<Op>) {
    forall i :: 0 <= i < |ops| ==> NormalRename(ops[i])
  }

  // `seen` are the states the calls find, in order; anything may happen between them but a change to
  // the entries of `d` itself.
  ghost predicate Undisturbed(sys: Sys, d: NodeId, seen: seq<Sys>, memfd: NodeId -> bool)
    requires Known(sys.state, d)
    decreases |seen|
  {
    seen == [] || (
      && Leads(sys, seen[0], memfd)
      && Known(seen[0].state, d) && seen[0].state.inodes[d].entries == sys.state.inodes[d].entries
      && Undisturbed(seen[0], d, seen[1..], memfd))
  }

  // The same entries list the same, whatever else has changed.
  lemma ListingPersists(a: Sys, b: Sys, d: NodeId, memfd: NodeId -> bool)
    requires Sound(a) && IsDir(a.state, d) && Leads(a, b, memfd)
    requires Known(b.state, d) && b.state.inodes[d].entries == a.state.inodes[d].entries
    ensures Sound(b) && IsDir(b.state, d) && Listable(a.state, d) && Listable(b.state, d)
    ensures FullListing(b.state, d) == FullListing(a.state, d)
  {
    var ops :| NormalRenames(ops) && Run(a, ops, memfd) == b;
    RunIsSound(a, ops, memfd);
    SameEntriesListTheSame(a, b, d);
  }

  lemma SameEntriesListTheSame(a: Sys, b: Sys, d: NodeId)
    requires Sound(a) && Sound(b) && Continues(a, b) && Known(a.state, d)
    requires b.state.inodes[d].entries == a.state.inodes[d].entries
    ensures Listable(a.state, d) && Listable(b.state, d)
    ensures ListingOf(b.state, d) == ListingOf(a.state, d)
  {
    TreeIsListable(a.state, d);
    TreeIsListable(b.state, d);
    SortedIsAscendingAndComplete(a.state.inodes[d].entries.Keys);
  }

  lemma {:induction false} UndisturbedListings(sys: Sys, d: NodeId, seen: seq<Sys>, memfd: NodeId -> bool, i: nat)
    requires Sound(sys) && IsDir(sys.state, d) && Undisturbed(sys, d, seen, memfd) && i < |seen|
    ensures Listable(seen[i].state, d) && Listable(sys.state, d)
    ensures FullListing(seen[i].state, d) == FullListing(sys.state, d)
    decreases i
  {
    ListingPersists(sys, seen[0], d, memfd);
    if i > 0 {
      UndisturbedListings(seen[0], d, seen[1..], memfd, i - 1);
    }
  }

  // The calls as `getdents64` makes them: each lists the directory in the state it finds.
  ghost predicate CallsOn(d: NodeId, seen: seq<Sys>, calls: seq<Call>) {
    && |seen| == |calls|
    && forall i :: 0 <= i < |calls| ==> Listable(seen[i].state, d) && calls[i].listing == FullListing(seen[i].state, d)
  }

  // The children follow the dots, each once, in strictly ascending order.
  lemma FullListingIsExact(s: State, d: NodeId)
    requires Tree(s) && IsDir(s, d)
    ensures Listable(s, d)
    ensures var es := FullListing(s, d);
      && es[..2] == Dots()
      && (forall i, j :: 2 <= i < j < |es| ==> Less(es[i].name, es[j].name))
      && (forall n :: Child(s, d, n).Some? <==> exists i :: 2 <= i < |es| && es[i].name == n)
      && (forall i :: 2 <= i < |es| ==> Child(s, d, es[i].name).Some? && es[i].ino == Child(s, d, es[i].name))
  {
    ListingIsExact(s, d);
    forall n
      ensures Child(s, d, n).Some? <==> exists i :: 2 <= i < |FullListing(s, d)| && FullListing(s, d)[i].name == n
    {
      NamedInFull(s, d, n);
    }
  }

  lemma NamedInFull(s: State, d: NodeId, n: Name)
    requires Tree(s) && IsDir(s, d) && Listable(s, d)
    ensures Child(s, d, n).Some? <==> exists i :: 2 <= i < |FullListing(s, d)| && FullListing(s, d)[i].name == n
  {
    ListsName(s, d, n);
    var es, ls := FullListing(s, d), ListingOf(s, d);
    if i :| 0 <= i < |ls| && ls[i].name == n {
      assert es[i + 2].name == n;
    }
    if i :| 2 <= i < |es| && es[i].name == n {
      assert ls[i - 2].name == n;
    }
  }

  // The record of the `i`-th entry of a directory: a child, with the inode and the type lookup finds.
  ghost predicate RecordsChild(r: Record, i: nat, s: State, d: NodeId) {
    r.off == i + 1 && Child(s, d, r.name) == Some(r.ino) && r.dtype == if IsDir(s, r.ino) then 4 else 8
  }

  // What the records of a whole directory hold: `.` and `..`, numbered by the path tracked for it and by
  // that one's parent, and then every child once, in strictly ascending order.
  ghost predicate Describes(rs: seq<Record>, s: State, d: NodeId, path: seq<Name>, hash: seq<Name> -> U64) {
    && |rs| >= 2
    && rs[0] == Record(hash(path), 1, 4, [46])
    && rs[1] == Record(hash(if path == [] then [] else path[..|path| - 1]), 2, 4, [46, 46])
    && (forall i :: 2 <= i < |rs| ==> RecordsChild(rs[i], i, s, d))
    && (forall i, j :: 2 <= i < j < |rs| ==> Less(rs[i].name, rs[j].name))
    && (forall n :: Child(s, d, n).Some? ==> exists i :: 2 <= i < |rs| && rs[i].name == n)
  }

  lemma RecordsDescribe(s: State, d: NodeId, path: seq<Name>, hash: seq<Name> -> U64)
    requires Tree(s) && IsDir(s, d) && Listable(s, d)
    ensures Describes(Records(path, hash, FullListing(s, d), 0), s, d, path, hash)
  {
    var rs := Records(path, hash, FullListing(s, d), 0);
    DotRecords(path, hash, ListingOf(s, d));
    RecordNames(s, d, path, hash);
    forall i | 2 <= i < |rs|
      ensures RecordsChild(rs[i], i, s, d)
    {
      ChildRecord(s, d, path, hash, i);
    }
  }

  lemma DotRecords(path: seq<Name>, hash: seq<Name> -> U64, es: seq<DirEntry>)
    ensures var rs := Records(path, hash, Dots() + es, 0);
      && rs[0] == Record(hash(path), 1, 4, [46])
      && rs[1] == Record(hash(if path == [] then [] else path[..|path| - 1]), 2, 4, [46, 46])
  {
  }

  lemma RecordNames(s: State, d: NodeId, path: seq<Name>, hash: seq<Name> -> U64)
    requires Tree(s) && IsDir(s, d) && Listable(s, d)
    ensures var rs := Records(path, hash, FullListing(s, d), 0);
      && (forall i, j :: 2 <= i < j < |rs| ==> Less(rs[i].name, rs[j].name))
      && (forall n :: Child(s, d, n).Some? ==> exists i :: 2 <= i < |rs| && rs[i].name == n)
  {
    var rs := Records(path, hash, FullListing(s, d), 0);
    ListingIsExact(s, d);
    NamesOfRecords(path, hash, ListingOf(s, d));
    forall n | Child(s, d, n).Some?
      ensures exists i :: 2 <= i < |rs| && rs[i].name == n
    {
      var i :| 0 <= i < |ListingOf(s, d)| && ListingOf(s, d)[i].name == n;
      assert rs[i + 2].name == n;
    }
  }

  lemma NamesOfRecords(path: seq<Name>, hash: seq<Name> -> U64, es: seq<DirEntry>)
    ensures var rs := Records(path, hash, Dots() + es, 0);
            forall i :: 2 <= i < |rs| ==> rs[i].name == es[i - 2].name
  {
  }

  lemma ChildRecord(s: State, d: NodeId, path: seq<Name>, hash: seq<Name> -> U64, i: nat)
    requires Tree(s) && IsDir(s, d) && Listable(s, d) && 2 <= i < |FullListing(s, d)|
    ensures RecordsChild(Records(path, hash, FullListing(s, d), 0)[i], i, s, d)
  {
    ListsChild(s, d, i - 2);
    assert FullListing(s, d)[i] == ListingOf(s, d)[i - 2];
  }

  // What a reader whose buffers have room for the next record has read: no record twice, none skipped.
  // Its last call answers with nothing exactly when the calls before it have read everything, so a
  // reader that stops at the first empty answer has the whole listing (see `FullListingIsExact`); it comes
  // to that answer after at most one call per record.
  lemma EnumerationIsExact(sys: Sys, d: NodeId, path: seq<Name>, hash: seq<Name> -> U64,
                           seen: seq<Sys>, calls: seq<Call>, memfd: NodeId -> bool)
    requires Sound(sys) && IsDir(sys.state, d) && Undisturbed(sys, d, seen, memfd) && CallsOn(d, seen, calls)
    requires BuffersFit(0, calls)
    ensures Listable(sys.state, d)
    ensures var es := FullListing(sys.state, d);
      && EndOffset(0, calls) <= |es|
      && Stream(path, hash, 0, calls) == Records(path, hash, es, 0)[..EndOffset(0, calls)]
      && (calls != [] ==>
            (Take(EndOffset(0, Init(calls)), Last(calls)) == 0 <==> EndOffset(0, Init(calls)) == |es|))
      && (calls != [] && Take(EndOffset(0, Init(calls)), Last(calls)) == 0 ==>
            Stream(path, hash, 0, calls) == Records(path, hash, es, 0))
      && (|calls| > |es| ==> Take(EndOffset(0, Init(calls)), Last(calls)) == 0)
  {
    TreeIsListable(sys.state, d);
    var es := FullListing(sys.state, d);
    forall i | 0 <= i < |calls|
      ensures calls[i].listing == es
    {
      UndisturbedListings(sys, d, seen, memfd, i);
    }
    ReaderIsExact(path, hash, es, calls);
  }

  lemma ReaderIsExact(path: seq<Name>, hash: seq<Name> -> U64, es: seq<DirEntry>, calls: seq<Call>)
    requires AllFind(es, calls) && BuffersFit(0, calls)
    ensures EndOffset(0, calls) <= |es|
    ensures Stream(path, hash, 0, calls) == Records(path, hash, es, 0)[..EndOffset(0, calls)]
    ensures calls != [] ==>
              (Take(EndOffset(0, Init(calls)), Last(calls)) == 0 <==> EndOffset(0, Init(calls)) == |es|)
    ensures calls != [] && Take(EndOffset(0, Init(calls)), Last(calls)) == 0 ==>
              Stream(path, hash, 0, calls) == Records(path, hash, es, 0)
    ensures |calls| > |es| ==> Take(EndOffset(0, Init(calls)), Last(calls)) == 0
  {
    StreamIsASlice(path, hash, es, 0, calls, EndOffset(0, calls));
    if calls != [] {
      var before := EndOffset(0, Init(calls));
      LastCall(0, calls);
      EndIsInRange(es, 0, Init(calls));
      TakesNothingExactlyAtEnd(before, Last(calls));
      if |calls| > |es| {
        AllIsConsumed(es, 0, Init(calls));
      }
      assert Records(path, hash, es, 0)[..|es|] == Records(path, hash, es, 0);
    }
  }

  // One case: a directory read with nothing else going on, in buffers that each hold any one of its
  // records, is read whole by the time a call answers with nothing.
  lemma QuietDirectoryIsReadWhole(sys: Sys, d: NodeId, path: seq<Name>, hash: seq<Name> -> U64, counts: seq<nat>,
                                  memfd: NodeId -> bool)
    requires Sound(sys) && IsDir(sys.state, d) && Listable(sys.state, d) && counts != []
    requires forall i :: 0 <= i < |counts| ==> HoldsEach(FullListing(sys.state, d), counts[i])
    ensures var es := FullListing(sys.state, d);
            var calls := CallsFinding(es, counts);
      && (Take(EndOffset(0, Init(calls)), Last(calls)) == 0 ==>
            Stream(path, hash, 0, calls) == Records(path, hash, es, 0))
      && (|counts| > |es| ==> Take(EndOffset(0, Init(calls)), Last(calls)) == 0)
  {
    var es := FullListing(sys.state, d);
    QuietIsUndisturbed(sys, d, |counts|, memfd);
    EachBufferFits(es, 0, counts);
    EnumerationIsExact(sys, d, path, hash, SameStates(sys, |counts|), CallsFinding(es, counts), memfd);
  }

  predicate HoldsEach(es: seq<DirEntry>, count: nat) {
    forall i :: 0 <= i < |es| ==> RecLen(es[i].name) <= count
  }

  function CallsFinding(es: seq<DirEntry>, counts: seq<nat>): (calls: seq<Call>)
    ensures |calls| == |counts| && AllFind(es, calls)
    ensures forall i :: 0 <= i < |calls| ==> calls[i].count == counts[i]
  {
    seq(|counts|, i requires 0 <= i < |counts| => Call(es, counts[i]))
  }

  function SameStates(sys: Sys, n: nat): seq<Sys> {
    seq(n, i => sys)
  }

  lemma {:induction false} QuietIsUndisturbed(sys: Sys, d: NodeId, n: nat, memfd: NodeId -> bool)
    requires Known(sys.state, d)
    ensures Undisturbed(sys, d, SameStates(sys, n), memfd)
  {
    if n > 0 {
      assert NormalRenames([]) && Run(sys, [], memfd) == sys;
      assert SameStates(sys, n)[1..] == SameStates(sys, n - 1);
      QuietIsUndisturbed(sys, d, n - 1, memfd);
    }
  }

  lemma {:induction false} EachBufferFits(es: seq<DirEntry>, off: nat, counts: seq<nat>)
    requires off <= |es| && forall i :: 0 <= i < |counts| ==> HoldsEach(es, counts[i])
    ensures BuffersFit(off, CallsFinding(es, counts))
    decreases |counts|
  {
    if counts != [] {
      var calls := CallsFinding(es, counts);
      assert calls[1..] == CallsFinding(es, counts[1..]);
      EachBufferFits(es, off + Take(off, calls[0]), counts[1..]);
    }
  }

  // On the way, each call's buffer decodes to the records it stands for exactly when their names hold no
  // NUL and their lengths fit; inodes and offsets fit as long as ids and the directory stay below 64 bits.
  lemma EveryCallDecodes(sys: Sys, d: NodeId, path: seq<Name>, hash: seq<Name> -> U64, off: nat, count: nat)
    requires Sound(sys) && IsDir(sys.state, d) && Listable(sys.state, d) && off <= |FullListing(sys.state, d)|
    requires sys.next <= U64_SIZE && |FullListing(sys.state, d)| < U64_SIZE / 2
    ensures var rest := FullListing(sys.state, d)[off..];
            var k := Fit(rest, count);
            Decode(Chunk(path, hash, rest, off, k)) == Some(Records(path, hash, rest[..k], off)) <==>
              forall i :: 0 <= i < k ==> NulFree(rest[i].name) && RecLen(rest[i].name) < 65536
  {
    InodesFit(sys, d);
    SliceDecodes(path, hash, FullListing(sys.state, d)[off..], off, count);
  }

  lemma InodesFit(sys: Sys, d: NodeId)
    requires Sound(sys) && IsDir(sys.state, d) && Listable(sys.state, d) && sys.next <= U64_SIZE
    ensures forall e :: e in FullListing(sys.state, d) && e.ino.Some? ==> e.ino.value < U64_SIZE
  {
    var es := FullListing(sys.state, d);
    FullListingIsExact(sys.state, d);
    forall i | 0 <= i < |es|
      ensures es[i].ino.Some? ==> es[i].ino.value < U64_SIZE
    {
      if i < 2 {
        assert es[i] == es[..2][i];
      } else {
        ChildFacts(sys.state, d, es[i].name);
      }
    }
  }

  lemma SliceDecodes(path: seq<Name>, hash: seq<Name> -> U64, rest: seq<DirEntry>, off: nat, count: nat)
    requires forall e :: e in rest && e.ino.Some? ==> e.ino.value < U64_SIZE
    requires off + |rest| < U64_SIZE / 2
    ensures var k := Fit(rest, count);
            Decode(Chunk(path, hash, rest, off, k)) == Some(Records(path, hash, rest[..k], off)) <==>
              forall i :: 0 <= i < k ==> NulFree(rest[i].name) && RecLen(rest[i].name) < 65536
  {
    var k := Fit(rest, count);
    var rs := Records(path, hash, rest[..k], off);
    WrittenBytesDecode(path, hash, rest, off, count);
    forall i | 0 <= i < k
      ensures Encodable(rs[i]) <==> NulFree(rest[i].name) && RecLen(rest[i].name) < 65536
    {
      assert rest[i] in rest;
    }
  }

  // ----- a directory that loses entries while it is read

  // A reader at an offset has yet to come to the entry of a child.
  ghost predicate Ahead(es: seq<DirEntry>, off: nat, c: Name) {
    exists i :: 2 <= i < |es| && off <= i && es[i].name == c
  }

  // A child's place in a listing: after the dots and the names before it.
  lemma AheadByRank(s: State, d: NodeId, off: nat, c: Name)
    requires Tree(s) && IsDir(s, d) && Listable(s, d) && c in s.inodes[d].entries
    ensures Ahead(FullListing(s, d), off, c) <==> off <= 2 + |Before(s.inodes[d].entries.Keys, c)|
  {
    var ns := s.inodes[d].entries.Keys;
    var k := |Before(ns, c)|;
    SortedRank(ns, c);
    NamesInOrder(s, d);
    forall i | 0 <= i < |Sorted(ns)| && Sorted(ns)[i] == c
      ensures i == k
    {
      SortedIsDistinct(ns, i, k);
    }
    AheadByPlace(FullListing(s, d), Sorted(ns), off, c, k);
  }

  lemma AheadByPlace(es: seq<DirEntry>, names: seq<Name>, off: nat, c: Name, k: nat)
    requires |es| == 2 + |names| && forall i :: 2 <= i < |es| ==> es[i].name == names[i - 2]
    requires k < |names| && names[k] == c && forall i :: 0 <= i < |names| && names[i] == c ==> i == k
    ensures Ahead(es, off, c) <==> off <= 2 + k
  {
    assert es[k + 2].name == c;
  }

  lemma NamesInOrder(s: State, d: NodeId)
    requires Listable(s, d)
    ensures var es, names := FullListing(s, d), Sorted(s.inodes[d].entries.Keys);
            |es| == 2 + |names| && forall i :: 2 <= i < |es| ==> es[i].name == names[i - 2]
  {
    SortedIsAscendingAndComplete(s.inodes[d].entries.Keys);
    ShiftedNames(ListingOf(s, d));
  }

  lemma ShiftedNames(ls: seq<DirEntry>)
    ensures forall i :: 2 <= i < |Dots() + ls| ==> (Dots() + ls)[i].name == ls[i - 2].name
  {
  }

  // Between two calls, whatever has changed: a child that is there both times is skipped exactly when its
  // place drops below the offset, and read again exactly when it rises past it.
  lemma OffsetSkipsOrRepeatsExactlyWhen(s: State, s': State, d: NodeId, off: nat, c: Name)
    requires Tree(s) && Tree(s') && IsDir(s, d) && IsDir(s', d) && Listable(s, d) && Listable(s', d)
    requires c in s.inodes[d].entries && c in s'.inodes[d].entries
    ensures var before, after := Ahead(FullListing(s, d), off, c), Ahead(FullListing(s', d), off, c);
            var place := 2 + |Before(s.inodes[d].entries.Keys, c)|;
            var place' := 2 + |Before(s'.inodes[d].entries.Keys, c)|;
      && (before && !after <==> place' < off <= place)
      && (!before && after <==> place < off <= place')
  {
    AheadByRank(s, d, off, c);
    AheadByRank(s', d, off, c);
  }

  // While entries are only removed, a child that stays is never read twice; it is skipped exactly when the
  // reader has not come to it and more of the names before it go than there are records left before it.
  lemma RemovalsSkipExactlyWhen(s: State, s': State, d: NodeId, off: nat, c: Name)
    requires Tree(s) && Tree(s') && IsDir(s, d) && IsDir(s', d) && Listable(s, d) && Listable(s', d)
    requires s'.inodes[d].entries.Keys <= s.inodes[d].entries.Keys && c in s'.inodes[d].entries
    ensures var before, after := FullListing(s, d), FullListing(s', d);
            var removed := s.inodes[d].entries.Keys - s'.inodes[d].entries.Keys;
            var place := 2 + |Before(s.inodes[d].entries.Keys, c)|;
      && (!Ahead(before, off, c) ==> !Ahead(after, off, c))
      && (Ahead(before, off, c) && !Ahead(after, off, c) <==> off <= place < off + |Before(removed, c)|)
  {
    var ns, ns' := s.inodes[d].entries.Keys, s'.inodes[d].entries.Keys;
    AheadByRank(s, d, off, c);
    AheadByRank(s', d, off, c);
    assert Before(ns, c) == Before(ns', c) + Before(ns - ns', c);
  }

  // Removing a child shortens the listing by one, so a reader at its end is past it then, where a call has
  // no answer.
  lemma RemovalShortensListing(s: State, path: Parts, kind: Kind, d: NodeId)
    requires Tree(s) && RemoveAt(s, path, kind).0 && Lookup(s, Init(Names(path))) == Some(d)
    ensures var s' := RemoveAt(s, path, kind).1;
      && Listable(s, d) && Listable(s', d)
      && |FullListing(s', d)| == |FullListing(s, d)| - 1
  {
    var p, s' := Names(path), RemoveAt(s, path, kind).1;
    RemoveIsUnlinked(s, path, kind);
    RemoveKeepsTree(s, path, kind);
    WalkLast(s, s.root, p);
    UnlinkedEdges(s, p, d, Lookup(s, p).value);
    TreeIsListable(s, d);
    TreeIsListable(s', d);
    assert s'.inodes[d].entries == s.inodes[d].entries - {Last(p)};
    assert s'.inodes[d].entries.Keys == s.inodes[d].entries.Keys - {Last(p)};
  }
}
