/** The overlay over memory layers: a writable top, an optional middle and a base. */
module OverlayFileSystem {
  import opened Wrappers
  import opened Paths
  import opened Namespace
  import opened Operations
  import opened Runs
  import opened Listing
  import opened MemoryFileSystem
  import opened Overlay

  class OverlayFS {
    const top: MemoryFS
    const middle: MemoryFS?
    const base: MemoryFS

    ghost predicate LayersGood()
      reads top, top.all.Values, top.ids, base, base.all.Values, base.ids
      reads middle, if middle == null then {} else middle.all.Values, if middle == null then {} else {middle.ids}
    {
      top.Good() && base.Good() && (middle != null ==> middle.Good())
    }

    // The layers are three file systems with nothing but the id counter in common.
    ghost predicate Apart()
      reads top, base, middle
    {
      && top != base && top.ids == base.ids && top.all.Values !! base.all.Values
      && (middle != null ==>
            && middle.ids == top.ids && middle != top && middle != base
            && top.all.Values !! middle.all.Values)
    }

    ghost predicate Good()
      reads top, top.all.Values, top.ids, base, base.all.Values, base.ids
      reads middle, if middle == null then {} else middle.all.Values, if middle == null then {} else {middle.ids}
    {
      LayersGood() && Apart()
    }

    ghost function Below(): (below: seq<State>)
      reads base, middle
      ensures below != []
    {
      if middle == null then [base.state] else [middle.state, base.state]
    }

    ghost function Layers(): (layers: seq<State>)
      reads top, base, middle
      ensures layers != []
    {
      [top.state] + Below()
    }

    constructor (top: MemoryFS, middle: MemoryFS?, base: MemoryFS)
      ensures this.top == top && this.middle == middle && this.base == base
    {
      this.top, this.middle, this.base := top, middle, base;
    }

    method VisibleLayer(path: Parts) returns (fs: MemoryFS)
      requires LayersGood()
      ensures fs == if Lookup(top.state, Names(path)).Some? then top
                    else if middle != null && Lookup(middle.state, Names(path)).Some? then middle
                    else base
      ensures fs.state == Visible(Layers(), Names(path))
    {
      var rc := top.Access(path);
      if rc == 0 {
        return top;
      }
      assert Layers()[1..] == Below();
      if middle != null {
        rc := middle.Access(path);
        assert Below()[1..] == [base.state] && Layers()[1..] == Below();
        if rc == 0 {
          return middle;
        }
      }
      assert Visible([base.state], Names(path)) == base.state;
      return base;
    }

    method Access(path: Parts) returns (rc: int)
      requires LayersGood()
      ensures rc == Rc(SomeLayerHas(Layers(), Names(path)))
    {
      var fs := VisibleLayer(path);
      rc := fs.Access(path);
      VisibleIsFirst(Layers(), Names(path));
    }

    method PathExistsBelowTop(path: Parts) returns (b: bool)
      requires LayersGood()
      ensures b <==> Lookup(Visible(Below(), Names(path)), Names(path)).Some?
    {
      if middle != null {
        assert Below()[1..] == [base.state];
        var rc := middle.Access(path);
        if rc == 0 {
          return true;
        }
      }
      var rc := base.Access(path);
      return rc == 0;
    }

    ghost function Lower(): set<MemoryFS> {
      if middle == null then {base} else {base, middle}
    }

    // The layers below the top survive whatever a growing top layer did.
    twostate lemma BelowUntouched()
      requires old(Good()) && top.Good() && top.Grows()
      requires forall g :: g in Lower() ==> unchanged(g) && unchanged(old(g.all.Values))
      ensures Good() && Below() == old(Below())
    {
      assert base in Lower() && (middle != null ==> middle in Lower());
      base.StaysGood();
      top.StaysApart(base);
      if middle != null {
        middle.StaysGood();
        top.StaysApart(middle);
      }
    }

    // Make the parents a write needs; only the top layer changes.
    method EnsureTopParentDirs(path: Parts)
      requires Good()
      modifies top, top.all.Values, top.ids
      ensures Good() && Below() == old(Below()) && top.Grows()
      ensures top.Now() == EnsureParents(old(top.Now()), old(Below()), path, top.memfd)
    {
      if path != [] {
        var dir := Init(path);
        var wanted := ParentWanted(dir);
        top.StaysGood();
        base.StaysGood();
        if middle != null {
          middle.StaysGood();
        }
        if wanted {
          MakeChainInTop(dir);
        }
      }
    }

    method MakeChainInTop(dir: Parts)
      requires Good()
      modifies top, top.all.Values, top.ids
      ensures Good() && Below() == old(Below()) && top.Grows()
      ensures top.Now() == Materialise(old(top.Now()), dir, 1, top.memfd)
    {
      MakeChainApart(top, dir, Lower());
      BelowUntouched();
    }

    method MkdirInTop(path: Parts, mode: nat) returns (rc: int)
      requires Good()
      modifies top, top.all.Values, top.ids
      ensures Good() && Below() == old(Below())
      ensures Outcome(rc, None, top.Now()) == Step(old(top.Now()), Op.Mkdir(path, mode), top.memfd)
    {
      rc := MkdirApart(top, path, mode, Lower());
      BelowUntouched();
    }

    method OpenInTop(path: Parts, flags: Flags, mode: nat, backing: int) returns (fd: int)
      requires Good()
      modifies top, top.all.Values, top.ids
      ensures Good() && Below() == old(Below())
      ensures var o := Step(old(top.Now()), Op.Open(path, flags, mode, backing), top.memfd);
              fd == o.rc && top.Now() == o.sys
    {
      fd := OpenApart(top, path, flags, mode, backing, Lower());
      BelowUntouched();
    }

    method ParentWanted(dir: Parts) returns (wanted: bool)
      requires LayersGood()
      ensures wanted <==> Lookup(top.state, Names(dir)).None? && Lookup(Visible(Below(), Names(dir)), Names(dir)).Some?
    {
      var rc := top.Access(dir);
      if rc == 0 {
        return false;
      }
      wanted := PathExistsBelowTop(dir);
    }

    method Mkdir(path: Parts, mode: nat) returns (rc: int)
      requires Good()
      modifies top, top.all.Values, top.ids
      ensures Good() && Below() == old(Below())
      ensures Outcome(rc, None, top.Now()) == OverlayMkdir(old(top.Now()), old(Below()), path, mode, top.memfd)
    {
      EnsureTopParentDirs(path);
      rc := MkdirInTop(path, mode);
    }

    // Opening for writing goes to the top layer; any other open to the layer that serves the path.
    method Open(path: Parts, flags: Flags, mode: nat, backing: int) returns (fd: int)
      requires Good()
      modifies top, top.all.Values, top.ids
      ensures Good() && Below() == old(Below())
      ensures flags.creat || flags.otherWrite ==>
                var o := OverlayOpenForWriting(old(top.Now()), old(Below()), path, flags, mode, backing, top.memfd);
                fd == o.rc && top.Now() == o.sys
      ensures !flags.creat && !flags.otherWrite ==>
                && top.Now() == old(top.Now())
                && fd == OpenAt(Visible(old(Layers()), Names(path)), path, flags, mode, 0, false, backing).fd
    {
      if flags.creat || flags.otherWrite {
        EnsureTopParentDirs(path);
        fd := OpenInTop(path, flags, mode, backing);
      } else {
        fd := OpenVisible(path, flags, mode, backing);
        top.StaysGood();
        base.StaysGood();
        if middle != null {
          middle.StaysGood();
        }
      }
    }

    method OpenVisible(path: Parts, flags: Flags, mode: nat, backing: int) returns (fd: int)
      requires LayersGood() && !flags.creat
      ensures fd == OpenAt(Visible(Layers(), Names(path)), path, flags, mode, 0, false, backing).fd
    {
      var fs := VisibleLayer(path);
      fd := OpenExisting(fs, path, flags, mode, backing);
    }

    method ReadDir(path: Parts) returns (r: Option<seq<DirEntry>>)
      requires LayersGood()
      ensures r == MergeLayers(None, Layers(), Names(path))
      ensures r.Some? <==> SomeLayerLists(Layers(), Names(path))
    {
      MergeLayersSteps(Layers(), Names(path));
      MergeAnswersExactlyWhen(None, Layers(), Names(path));
      r := AddLayer(top, path, None);
      assert LayersGood();
      if middle != null {
        r := AddLayer(middle, path, r);
        assert base.Good();
      }
      r := AddLayer(base, path, r);
    }
  }

  // One layer's turn in a merged listing: entries whose names are new are appended.
  method AddLayer(fs: MemoryFS, path: Parts, acc: Option<seq<DirEntry>>) returns (r: Option<seq<DirEntry>>)
    requires fs.Good()
    ensures r == AddListing(acc, fs.state, Names(path))
  {
    var found := fs.ReadDir(path);
    if found.None? {
      return acc;
    }
    var entries := AppendNew(acc.GetOr([]), found.value);
    return Some(entries);
  }

  // The entries whose names are new, after those there are.
  method AppendNew(acc: seq<DirEntry>, found: seq<DirEntry>) returns (entries: seq<DirEntry>)
    ensures entries == Merge(acc, found)
  {
    entries := acc;
    for i := 0 to |found|
      invariant Merge(entries, found[i..]) == Merge(acc, found)
    {
      assert found[i..][1..] == found[i + 1..];
      if Find(entries, found[i].name).None? {
        entries := entries + [found[i]];
      }
    }
  }

  method OpenLayer(fs: MemoryFS, path: Parts, flags: Flags, mode: nat, backing: int) returns (fd: int)
    requires fs.Good()
    modifies fs, fs.all.Values, fs.ids
    ensures fs.Good() && fs.Grows()
    ensures var o := Step(old(fs.Now()), Op.Open(path, flags, mode, backing), fs.memfd); fd == o.rc && fs.Now() == o.sys
  {
    var handle;
    fd, handle := fs.OpenWithHandle(path, flags, mode, backing);
  }

  method OpenExisting(fs: MemoryFS, path: Parts, flags: Flags, mode: nat, backing: int) returns (fd: int)
    requires fs.Good() && !flags.creat
    ensures fd == OpenAt(fs.state, path, flags, mode, 0, false, backing).fd
  {
    OpenWithoutCreating(fs.state, path, flags, mode, fs.ids.next, fs.memfd(fs.ids.next), backing);
    var handle;
    fd, handle := fs.OpenWithHandle(path, flags, mode, backing);
  }

  // Each ancestor, shortest first, that the top layer does not have.
  method MakeChain(top: MemoryFS, dir: Parts)
    requires top.Good()
    modifies top, top.all.Values, top.ids
    ensures top.Good() && top.Grows()
    ensures top.Now() == Materialise(old(top.Now()), dir, 1, top.memfd)
  {
    ghost var chain := Materialise(top.Now(), dir, 1, top.memfd);
    var i := 1;
    while i <= |dir|
      invariant 1 <= i && top.Good() && top.Grows()
      invariant Materialise(top.Now(), dir, i, top.memfd) == chain
      decreases |dir| + 1 - i
    {
      MakeMissing(top, dir[..i]);
      i := i + 1;
    }
  }

  method MakeMissing(top: MemoryFS, path: Parts)
    requires top.Good()
    modifies top, top.all.Values, top.ids
    ensures top.Good() && top.Grows()
    ensures top.Now() == if Lookup(old(top.state), Names(path)).Some? then old(top.Now())
                         else Step(old(top.Now()), Op.Mkdir(path, DIR_MODE), top.memfd).sys
  {
    var rc := top.Access(path);
    if rc != 0 {
      rc := top.Mkdir(path, DIR_MODE);
    }
  }

  // ----- a call on one layer leaves the layers that are apart from it

  method MkdirApart(top: MemoryFS, path: Parts, mode: nat, ghost others: set<MemoryFS>) returns (rc: int)
    requires top.Good() && forall g :: g in others ==> g != top && g.all.Values !! top.all.Values
    modifies top, top.all.Values, top.ids
    ensures top.Good() && top.Grows()
    ensures forall g :: g in others ==> unchanged(g) && unchanged(old(g.all.Values))
    ensures Outcome(rc, None, top.Now()) == Step(old(top.Now()), Op.Mkdir(path, mode), top.memfd)
  {
    ghost var changed := top.Footprint();
    assert forall g :: g in others ==> g !in changed && g.all.Values !! changed;
    rc := top.Mkdir(path, mode);
  }

  method OpenApart(top: MemoryFS, path: Parts, flags: Flags, mode: nat, backing: int, ghost others: set<MemoryFS>)
    returns (fd: int)
    requires top.Good() && forall g :: g in others ==> g != top && g.all.Values !! top.all.Values
    modifies top, top.all.Values, top.ids
    ensures top.Good() && top.Grows()
    ensures forall g :: g in others ==> unchanged(g) && unchanged(old(g.all.Values))
    ensures var o := Step(old(top.Now()), Op.Open(path, flags, mode, backing), top.memfd);
            fd == o.rc && top.Now() == o.sys
  {
    ghost var changed := top.Footprint();
    assert forall g :: g in others ==> g !in changed && g.all.Values !! changed;
    fd := OpenLayer(top, path, flags, mode, backing);
  }

  method MakeChainApart(top: MemoryFS, dir: Parts, ghost others: set<MemoryFS>)
    requires top.Good() && forall g :: g in others ==> g != top && g.all.Values !! top.all.Values
    modifies top, top.all.Values, top.ids
    ensures top.Good() && top.Grows()
    ensures forall g :: g in others ==> unchanged(g) && unchanged(old(g.all.Values))
    ensures top.Now() == Materialise(old(top.Now()), dir, 1, top.memfd)
  {
    ghost var changed := top.Footprint();
    assert forall g :: g in others ==> g !in changed && g.all.Values !! changed;
    MakeChain(top, dir);
  }
}
