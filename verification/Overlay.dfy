/** A left-biased union of layers: lookup, listing, and directories materialised in the top layer. */
module Overlay {
  import opened Wrappers
  import opened Paths
  import opened Namespace
  import opened Operations
  import opened Runs
  import opened Listing

  // ----- lookup through the layers, topmost first

  // The layer a path is served by; the last layer answers for paths nobody has.
  function Visible(layers: seq<State>, p: seq<Name>): State
    requires layers != []
  {
    if |layers| == 1 || Lookup(layers[0], p).Some? then layers[0] else Visible(layers[1..], p)
  }

  ghost predicate SomeLayerHas(layers: seq<State>, p: seq<Name>) {
    exists i :: 0 <= i < |layers| && Lookup(layers[i], p).Some?
  }

  lemma {:induction false} VisibleIsFirst(layers: seq<State>, p: seq<Name>)
    requires layers != []
    ensures Lookup(Visible(layers, p), p).Some? <==> SomeLayerHas(layers, p)
    decreases |layers|
  {
    if |layers| > 1 && Lookup(layers[0], p).None? {
      VisibleIsFirst(layers[1..], p);
      if SomeLayerHas(layers, p) {
        var i :| 0 <= i < |layers| && Lookup(layers[i], p).Some?;
        assert Lookup(layers[1..][i - 1], p).Some?;
      }
    }
  }

  // It is the first layer that has the path, or the last one.
  lemma {:induction false} VisibleLayerIs(layers: seq<State>, p: seq<Name>, i: nat)
    requires i < |layers| && forall j :: 0 <= j < i ==> Lookup(layers[j], p).None?
    requires Lookup(layers[i], p).Some? || i == |layers| - 1
    ensures Visible(layers, p) == layers[i]
    decreases i
  {
    if i > 0 {
      VisibleLayerIs(layers[1..], p, i - 1);
    }
  }

  // ----- merged listings

  function Find(es: seq<DirEntry>, n: Name): Option<DirEntry> {
    if es == [] then None
    else if es[0].name == n then Some(es[0])
    else Find(es[1..], n)
  }

  // Append the entries whose names are not there yet.
  function Merge(acc: seq<DirEntry>, es: seq<DirEntry>): seq<DirEntry>
    decreases |es|
  {
    if es == [] then acc
    else Merge(if Find(acc, es[0].name).Some? then acc else acc + [es[0]], es[1..])
  }

  predicate DistinctNames(es: seq<DirEntry>) {
    forall i, j :: 0 <= i < j < |es| ==> es[i].name != es[j].name
  }

  lemma {:induction false} FindAppend(es: seq<DirEntry>, e: DirEntry, n: Name)
    ensures Find(es + [e], n) == if Find(es, n).Some? then Find(es, n) else if e.name == n then Some(e) else None
    decreases |es|
  {
    if es == [] {
      assert es + [e] == [e];
    } else {
      assert (es + [e])[1..] == es[1..] + [e];
      FindAppend(es[1..], e, n);
    }
  }

  lemma {:induction false} FindIffNamed(es: seq<DirEntry>, n: Name)
    ensures Find(es, n).Some? <==> exists i :: 0 <= i < |es| && es[i].name == n
    ensures Find(es, n).Some? ==> Find(es, n).value in es && Find(es, n).value.name == n
    decreases |es|
  {
    if es != [] {
      FindIffNamed(es[1..], n);
      if exists i :: 0 <= i < |es| && es[i].name == n {
        var i :| 0 <= i < |es| && es[i].name == n;
        assert i > 0 ==> es[1..][i - 1].name == n;
      }
    }
  }

  lemma {:induction false} MergeFinds(acc: seq<DirEntry>, es: seq<DirEntry>, n: Name)
    ensures Find(Merge(acc, es), n) == if Find(acc, n).Some? then Find(acc, n) else Find(es, n)
    decreases |es|
  {
    if es != [] {
      FindAppend(acc, es[0], n);
      MergeFinds(if Find(acc, es[0].name).Some? then acc else acc + [es[0]], es[1..], n);
    }
  }

  lemma {:induction false} MergeOnlyAppends(acc: seq<DirEntry>, es: seq<DirEntry>)
    ensures acc <= Merge(acc, es)
    decreases |es|
  {
    if es != [] {
      MergeOnlyAppends(if Find(acc, es[0].name).Some? then acc else acc + [es[0]], es[1..]);
    }
  }

  // Entries are appended in the order they are listed in.
  lemma {:induction false} MergeKeepsOrder(acc: seq<DirEntry>, a: seq<DirEntry>, b: seq<DirEntry>)
    ensures acc <= Merge(acc, a) <= Merge(acc, a + b) == Merge(Merge(acc, a), b)
    decreases |a|
  {
    MergeOnlyAppends(acc, a);
    if a == [] {
      assert a + b == b;
      MergeOnlyAppends(acc, b);
    } else {
      assert (a + b)[1..] == a[1..] + b;
      MergeKeepsOrder(if Find(acc, a[0].name).Some? then acc else acc + [a[0]], a[1..], b);
    }
  }

  lemma {:induction false} MergeKeepsDistinct(acc: seq<DirEntry>, es: seq<DirEntry>)
    requires DistinctNames(acc)
    ensures DistinctNames(Merge(acc, es))
    decreases |es|
  {
    if es != [] {
      FindIffNamed(acc, es[0].name);
      MergeKeepsDistinct(if Find(acc, es[0].name).Some? then acc else acc + [es[0]], es[1..]);
    }
  }

  // What one layer lists at a path, if it has a directory there.
  ghost function LayerListing(s: State, p: seq<Name>): Option<seq<DirEntry>>
    requires Tree(s)
  {
    match Lookup(s, p)
    case None => None
    case Some(d) =>
      TreeIsListable(s, d);
      if IsDir(s, d) then Some(ListingOf(s, d)) else None
  }

  ghost function AddListing(acc: Option<seq<DirEntry>>, s: State, p: seq<Name>): Option<seq<DirEntry>>
    requires Tree(s)
  {
    var es := LayerListing(s, p);
    if es.None? then acc else Some(Merge(acc.GetOr([]), es.value))
  }

  ghost function MergeLayers(acc: Option<seq<DirEntry>>, layers: seq<State>, p: seq<Name>): Option<seq<DirEntry>>
    requires forall i :: 0 <= i < |layers| ==> Tree(layers[i])
    decreases |layers|
  {
    if layers == [] then acc else MergeLayers(AddListing(acc, layers[0], p), layers[1..], p)
  }

  lemma MergeLayersSteps(layers: seq<State>, p: seq<Name>)
    requires 2 <= |layers| <= 3 && forall i :: 0 <= i < |layers| ==> Tree(layers[i])
    ensures MergeLayers(None, layers, p)
         == (var two := AddListing(AddListing(None, layers[0], p), layers[1], p);
             if |layers| == 2 then two else AddListing(two, layers[2], p))
  {
    var one := AddListing(None, layers[0], p);
    var two := AddListing(one, layers[1], p);
    assert MergeLayers(None, layers, p) == MergeLayers(one, layers[1..], p);
    assert layers[1..][0] == layers[1] && layers[1..][1..] == layers[2..];
    assert MergeLayers(one, layers[1..], p) == MergeLayers(two, layers[2..], p);
    if |layers| == 3 {
      assert layers[2..][0] == layers[2] && layers[2..][1..] == [];
      assert MergeLayers(two, layers[2..], p) == MergeLayers(AddListing(two, layers[2], p), [], p);
    }
  }

  // There is a listing, an empty one perhaps, exactly when some layer has a directory there.
  lemma {:induction false} MergeAnswersExactlyWhen(acc: Option<seq<DirEntry>>, layers: seq<State>, p: seq<Name>)
    requires forall i :: 0 <= i < |layers| ==> Tree(layers[i])
    ensures MergeLayers(acc, layers, p).Some? <==> acc.Some? || SomeLayerLists(layers, p)
    decreases |layers|
  {
    if layers != [] {
      MergeAnswersExactlyWhen(AddListing(acc, layers[0], p), layers[1..], p);
      if SomeLayerLists(layers, p) && !IsDirAt(layers[0], p) {
        var i :| 0 <= i < |layers| && IsDirAt(layers[i], p);
        assert IsDirAt(layers[1..][i - 1], p);
      }
    }
  }

  ghost predicate SomeLayerLists(layers: seq<State>, p: seq<Name>) {
    exists i :: 0 <= i < |layers| && IsDirAt(layers[i], p)
  }

  // The entry lookup would report for a child: its name, kind and inode.
  function EntryAt(s: State, p: seq<Name>, n: Name): Option<DirEntry> {
    match Lookup(s, p + [n])
    case None => None
    case Some(c) => Some(DirEntry(n, s.inodes[c].kind, Some(c)))
  }

  lemma ListingFindsChildren(s: State, p: seq<Name>, n: Name)
    requires Tree(s)
    ensures EntryAt(s, p, n) == (match LayerListing(s, p) case None => None case Some(es) => Find(es, n))
    ensures LayerListing(s, p).Some? ==> DistinctNames(LayerListing(s, p).value)
  {
    WalkSnoc(s, s.root, p, n);
    if LayerListing(s, p).Some? {
      var d, es := Lookup(s, p).value, LayerListing(s, p).value;
      ListingIsExact(s, d);
      FindIffNamed(es, n);
      forall i, j | 0 <= i < j < |es|
        ensures es[i].name != es[j].name
      {
        LessIsStrictTotalOrder(es[i].name, es[j].name, es[i].name);
      }
    }
  }

  lemma {:induction false} MergedFinds(acc: Option<seq<DirEntry>>, layers: seq<State>, p: seq<Name>, n: Name)
    requires layers != [] && forall i :: 0 <= i < |layers| ==> Tree(layers[i])
    requires DistinctNames(acc.GetOr([]))
    ensures var r := MergeLayers(acc, layers, p);
      && DistinctNames(r.GetOr([]))
      && Find(r.GetOr([]), n) == if Find(acc.GetOr([]), n).Some? then Find(acc.GetOr([]), n)
                                 else EntryAt(Visible(layers, p + [n]), p, n)
    decreases |layers|
  {
    var es := LayerListing(layers[0], p);
    ListingFindsChildren(layers[0], p, n);
    var acc' := AddListing(acc, layers[0], p);
    if es.Some? {
      MergeFinds(acc.GetOr([]), es.value, n);
      MergeKeepsDistinct(acc.GetOr([]), es.value);
    }
    if |layers| > 1 {
      MergedFinds(acc', layers[1..], p, n);
    } else {
      assert layers[1..] == [];
    }
  }

  // The merged listing of a path names `n` exactly when looking `n` up below it succeeds, once, and with
  // the kind and inode found in the layer that serves it.
  lemma ListingAgreesWithLookup(layers: seq<State>, p: seq<Name>, n: Name)
    requires layers != [] && forall i :: 0 <= i < |layers| ==> Tree(layers[i])
    ensures var es := MergeLayers(None, layers, p).GetOr([]);
      && DistinctNames(es)
      && Find(es, n) == EntryAt(Visible(layers, p + [n]), p, n)
      && ((exists i :: 0 <= i < |es| && es[i].name == n) <==> SomeLayerHas(layers, p + [n]))
  {
    MergedFinds(None, layers, p, n);
    FindIffNamed(MergeLayers(None, layers, p).GetOr([]), n);
    VisibleIsFirst(layers, p + [n]);
  }

  // ----- directories materialised in the top layer

  const DIR_MODE := 0x1ED

  // Make each missing ancestor, from the `i`-th on, in the top layer.
  function Materialise(top: Sys, dir: Parts, i: nat, memfd: NodeId -> bool): Sys
    decreases |dir| + 1 - i
  {
    if i > |dir| then top
    else if Lookup(top.state, Names(dir[..i])).Some? then Materialise(top, dir, i + 1, memfd)
    else Materialise(Step(top, Op.Mkdir(dir[..i], DIR_MODE), memfd).sys, dir, i + 1, memfd)
  }

  function EnsureParents(top: Sys, below: seq<State>, path: Parts, memfd: NodeId -> bool): Sys
    requires below != []
  {
    if path == [] || Lookup(top.state, Names(Init(path))).Some?
       || Lookup(Visible(below, Names(Init(path))), Names(Init(path))).None?
    then top
    else Materialise(top, Init(path), 1, memfd)
  }

  function OverlayMkdir(top: Sys, below: seq<State>, path: Parts, mode: nat, memfd: NodeId -> bool): Outcome
    requires below != []
  {
    Step(EnsureParents(top, below, path, memfd), Op.Mkdir(path, mode), memfd)
  }

  function OverlayOpenForWriting(top: Sys, below: seq<State>, path: Parts, flags: Flags, mode: nat, backing: int,
                                 memfd: NodeId -> bool): Outcome
    requires below != []
  {
    Step(EnsureParents(top, below, path, memfd), Op.Open(path, flags, mode, backing), memfd)
  }

  // ----- what a path is served with

  datatype Served = Served(id: NodeId, kind: Kind, mode: nat)

  function NodeAt(s: State, p: seq<Name>): Option<Served> {
    match Lookup(s, p)
    case None => None
    case Some(id) => Some(Served(id, s.inodes[id].kind, s.inodes[id].mode))
  }

  // The node, kind and mode a path stands for, in the layer that serves it.
  function ServedAt(layers: seq<State>, p: seq<Name>): Option<Served>
    requires layers != []
  {
    NodeAt(Visible(layers, p), p)
  }

  lemma TopFirst(s: State, below: seq<State>, p: seq<Name>)
    requires below != []
    ensures ServedAt([s] + below, p) == if Lookup(s, p).Some? then NodeAt(s, p) else ServedAt(below, p)
  {
    assert ([s] + below)[1..] == below;
  }

  // ----- the top layer only grows

  ghost predicate KeepsPaths(s: State, s': State) {
    forall q :: Lookup(s, q).Some? ==> NodeAt(s', q) == NodeAt(s, q)
  }

  lemma CreatingKeepsPaths(top: Sys, op: Op, memfd: NodeId -> bool)
    requires Sound(top) && Creates(op)
    ensures Sound(Step(top, op, memfd).sys) && KeepsPaths(top.state, Step(top, op, memfd).sys.state)
  {
    StepIsSound(top, op, memfd);
    forall q: seq<Name> | Lookup(top.state, q).Some?
      ensures NodeAt(Step(top, op, memfd).sys.state, q) == NodeAt(top.state, q)
    {
      CreationKeepsLookup(top, op, memfd, q);
      CreationKeepsMode(top, op, memfd, Lookup(top.state, q).value);
    }
  }

  lemma CreationKeepsMode(top: Sys, op: Op, memfd: NodeId -> bool, id: NodeId)
    requires Sound(top) && Creates(op) && Known(top.state, id)
    ensures var s' := Step(top, op, memfd).sys.state;
            Known(s', id) && s'.inodes[id].kind == top.state.inodes[id].kind
            && s'.inodes[id].mode == top.state.inodes[id].mode
  {
    var d, name, kind, mode := CreationHasOneForm(top, op, memfd);
  }

  lemma {:induction false} MaterialiseKeepsPaths(top: Sys, dir: Parts, i: nat, memfd: NodeId -> bool)
    requires Sound(top)
    ensures Sound(Materialise(top, dir, i, memfd)) && KeepsPaths(top.state, Materialise(top, dir, i, memfd).state)
    decreases |dir| + 1 - i
  {
    if i <= |dir| {
      if Lookup(top.state, Names(dir[..i])).Some? {
        MaterialiseKeepsPaths(top, dir, i + 1, memfd);
      } else {
        var op := Op.Mkdir(dir[..i], DIR_MODE);
        CreatingKeepsPaths(top, op, memfd);
        MaterialiseKeepsPaths(Step(top, op, memfd).sys, dir, i + 1, memfd);
      }
    }
  }

  lemma EnsureParentsKeepsPaths(top: Sys, below: seq<State>, path: Parts, memfd: NodeId -> bool)
    requires Sound(top) && below != []
    ensures Sound(EnsureParents(top, below, path, memfd))
    ensures KeepsPaths(top.state, EnsureParents(top, below, path, memfd).state)
  {
    if path != [] {
      MaterialiseKeepsPaths(top, Init(path), 1, memfd);
    }
  }

  // ----- and only by the prefixes of the path that is written

  lemma NamesOfSlice(path: Parts, i: nat)
    requires IsNormal(path) && i <= |path|
    ensures |Names(path)| == |path| && Names(path[..i]) == Names(path)[..i]
  {
    NamesOfNormal(path);
    NamesOfNormal(path[..i]);
    forall j | 0 <= j < i
      ensures Names(path[..i])[j] == Names(path)[j]
    {
      assert path[..i][j] == path[j];
    }
  }

  lemma ParentNames(path: Parts)
    requires IsNormal(path) && path != []
    ensures Names(path) != [] && Names(Init(path)) == Init(Names(path)) && IsNormal(Init(path))
  {
    NamesOfSlice(path, |path| - 1);
  }

  lemma WriteMakesOnlyItsPath(top: Sys, op: Op, memfd: NodeId -> bool, q: seq<Name>)
    requires Sound(top) && (op.Mkdir? || op.Open?) && IsNormal(op.path)
    requires q != Names(op.path) && Lookup(top.state, q).None?
    ensures Lookup(Step(top, op, memfd).sys.state, q).None?
  {
    var Sys(s, next) := top;
    var path := op.path;
    NamesOfNormal(path);
    if path != [] && Lookup(s, Names(Init(path))).Some? && Step(top, op, memfd).sys.state != s {
      var kind := if op.Mkdir? then Dir else File;
      CreateWalk(s, s.root, Names(Init(path)), Last(path).name, kind, op.mode, next, s.root, q);
    }
  }

  lemma {:induction false} MaterialiseMakesOnlyPrefixes(top: Sys, dir: Parts, i: nat, memfd: NodeId -> bool,
                                                        q: seq<Name>)
    requires Sound(top) && IsNormal(dir) && !(q <= Names(dir)) && Lookup(top.state, q).None?
    ensures Lookup(Materialise(top, dir, i, memfd).state, q).None?
    decreases |dir| + 1 - i
  {
    if i <= |dir| {
      if Lookup(top.state, Names(dir[..i])).Some? {
        MaterialiseMakesOnlyPrefixes(top, dir, i + 1, memfd, q);
      } else {
        var op := Op.Mkdir(dir[..i], DIR_MODE);
        StepIsSound(top, op, memfd);
        NamesOfSlice(dir, i);
        WriteMakesOnlyItsPath(top, op, memfd, q);
        MaterialiseMakesOnlyPrefixes(Step(top, op, memfd).sys, dir, i + 1, memfd, q);
      }
    }
  }

  lemma EnsureParentsMakesOnlyPrefixes(top: Sys, below: seq<State>, path: Parts, memfd: NodeId -> bool, q: seq<Name>)
    requires Sound(top) && below != [] && IsNormal(path) && Lookup(top.state, q).None?
    requires path == [] || !(q <= Init(Names(path)))
    ensures Lookup(EnsureParents(top, below, path, memfd).state, q).None?
  {
    if path != [] {
      ParentNames(path);
      MaterialiseMakesOnlyPrefixes(top, Init(path), 1, memfd, q);
    }
  }

  // Making a directory or opening for writing leaves what every path is served with, but for the path
  // itself and its ancestors where the top layer has none; a path that was visible stays visible, and one
  // that is made or opened is served by the top layer. The layers below are not arguments that change.
  lemma WritesKeepVisibility(top: Sys, below: seq<State>, path: Parts, op: Op, memfd: NodeId -> bool, q: seq<Name>)
    requires Sound(top) && below != [] && (op.Mkdir? || op.Open?) && op.path == path && IsNormal(path)
    ensures var o := Step(EnsureParents(top, below, path, memfd), op, memfd);
            var before, after := [top.state] + below, [o.sys.state] + below;
      && Sound(o.sys)
      && (Lookup(top.state, q).Some? || !(q <= Names(path)) ==> ServedAt(after, q) == ServedAt(before, q))
      && (ServedAt(before, q).Some? ==> ServedAt(after, q).Some?)
      && ((op.Mkdir? && o.rc == 0) || (op.Open? && o.node.Some?) ==>
            Lookup(o.sys.state, Names(path)).Some? && ServedAt(after, Names(path)) == NodeAt(o.sys.state, Names(path)))
  {
    var mid := EnsureParents(top, below, path, memfd);
    var s' := Step(mid, op, memfd).sys.state;
    EnsureParentsKeepsPaths(top, below, path, memfd);
    CreatingKeepsPaths(mid, op, memfd);
    TopFirst(top.state, below, q);
    TopFirst(s', below, q);
    TopFirst(s', below, Names(path));
    if Lookup(top.state, q).None? && !(q <= Names(path)) {
      NamesOfNormal(path);
      assert path != [] && q <= Init(Names(path)) ==> q <= Names(path);
      EnsureParentsMakesOnlyPrefixes(top, below, path, memfd, q);
      WriteMakesOnlyItsPath(mid, op, memfd, q);
    }
    var o := Step(mid, op, memfd);
    if (op.Mkdir? && o.rc == 0) || (op.Open? && o.node.Some?) {
      MadePathResolves(mid, op, memfd);
    }
  }

  lemma MadePathResolves(top: Sys, op: Op, memfd: NodeId -> bool)
    requires Sound(top) && (op.Mkdir? || op.Open?) && IsNormal(op.path)
    requires (op.Mkdir? && Step(top, op, memfd).rc == 0) || (op.Open? && Step(top, op, memfd).node.Some?)
    ensures Lookup(Step(top, op, memfd).sys.state, Names(op.path)).Some?
  {
    var Sys(s, next) := top;
    var p := Names(op.path);
    NamesOfNormal(op.path);
    if Lookup(s, p).None? {
      var kind := if op.Mkdir? then Dir else File;
      CreateWalk(s, s.root, Names(Init(op.path)), Last(op.path).name, kind, op.mode, next, s.root, p);
    } else if op.Mkdir? {
      WalkLast(s, s.root, p);
      ChildFacts(s, Lookup(s, Init(p)).value, Last(p));
    }
  }

  // ----- how far the missing ancestors are made

  ghost predicate IsDirAt(s: State, p: seq<Name>) {
    Lookup(s, p).Some? && IsDir(s, Lookup(s, p).value)
  }

  ghost predicate NoFileAbove(s: State, p: seq<Name>) {
    forall j :: 0 <= j <= |p| && Lookup(s, p[..j]).Some? ==> IsDirAt(s, p[..j])
  }

  // How many nodes are missing on the way to a path, itself included.
  function Missing(s: State, p: seq<Name>): nat {
    if p == [] || Lookup(s, p).Some? then 0 else 1 + Missing(s, Init(p))
  }

  // Backing files can be made for the next `k` ids.
  ghost predicate Makeable(next: NodeId, k: nat, memfd: NodeId -> bool) {
    forall id :: next <= id < next + k ==> memfd(id)
  }

  lemma {:induction false} MissingBelow(s: State, p: seq<Name>, i: nat)
    requires i <= |p| && Lookup(s, p[..i]).Some? && (i < |p| ==> Lookup(s, p[..i + 1]).None?)
    ensures Missing(s, p) == |p| - i
    decreases |p|
  {
    if i == |p| {
      assert p[..i] == p;
    } else {
      if Lookup(s, p).Some? {
        WalkPrefix(s, s.root, p[..i + 1], p);
      }
      assert Init(p)[..i] == p[..i];
      assert i < |Init(p)| ==> Init(p)[..i + 1] == p[..i + 1];
      MissingBelow(s, Init(p), i);
    }
  }

  lemma MissingAt(s: State, p: seq<Name>, i: nat, j: nat)
    requires i <= |p| && j <= |p| && Lookup(s, p[..i]).Some? && (i < |p| ==> Lookup(s, p[..i + 1]).None?)
    ensures Missing(s, p[..j]) == if j <= i then 0 else j - i
  {
    if j <= i {
      assert p[..i][..j] == p[..j];
      WalkPrefix(s, s.root, p[..j], p[..i]);
    } else {
      assert p[..j][..i] == p[..i] && p[..j][..i + 1] == p[..i + 1];
      MissingBelow(s, p[..j], i);
    }
  }

  // Making one directory under a directory, where there is nothing yet.
  lemma MkdirAddsDirectory(top: Sys, path: Parts, mode: nat, memfd: NodeId -> bool)
    requires Sound(top) && IsNormal(path) && path != []
    requires IsDirAt(top.state, Init(Names(path))) && Lookup(top.state, Names(path)).None?
    ensures var o := Step(top, Op.Mkdir(path, mode), memfd);
      && o.sys.next == top.next + 1
      && (!memfd(top.next) ==> o.rc == -1 && o.sys.state == top.state)
      && (memfd(top.next) ==>
            && o.rc == 0 && NodeAt(o.sys.state, Names(path)) == Some(Served(top.next, Dir, mode % 4096))
            && (forall q :: q != Names(path) ==> Lookup(o.sys.state, q) == Lookup(top.state, q))
            && (forall q :: IsDirAt(top.state, q) ==> IsDirAt(o.sys.state, q)))
  {
    var Sys(s, next) := top;
    var p := Names(path);
    ParentNames(path);
    WalkLast(s, s.root, p);
    NamesOfNormal(path);
    ChildFacts(s, Lookup(s, Init(p)).value, Last(p));
    assert p == Init(p) + [Last(p)];
    if memfd(next) {
      DirectoryAdded(s, p, mode, next);
    }
  }

  lemma DirectoryAdded(s: State, p: seq<Name>, mode: nat, id: NodeId)
    requires Tree(s) && !Known(s, id) && p != [] && Lookup(s, Init(p)).Some? && p == Init(p) + [Last(p)]
    requires CreateIn(s, Lookup(s, Init(p)).value, Last(p), Dir, mode, id, true).node.Some?
    ensures var s' := CreateIn(s, Lookup(s, Init(p)).value, Last(p), Dir, mode, id, true).state;
      && NodeAt(s', p) == Some(Served(id, Dir, mode % 4096))
      && (forall q :: q != p ==> Lookup(s', q) == Lookup(s, q))
      && (forall q :: IsDirAt(s, q) ==> IsDirAt(s', q))
  {
    forall q: seq<Name> {
      CreateWalk(s, s.root, Init(p), Last(p), Dir, mode, id, s.root, q);
    }
    WalkLast(s, s.root, p);
    ChildFacts(s, Lookup(s, Init(p)).value, Last(p));
  }

  // Nothing is made under a path that is missing, nor under a file.
  lemma MkdirWithoutParent(top: Sys, path: Parts, mode: nat, memfd: NodeId -> bool)
    requires IsNormal(path) && path != [] && !IsDirAt(top.state, Init(Names(path)))
    ensures Step(top, Op.Mkdir(path, mode), memfd) == Outcome(-1, None, top)
  {
    ParentNames(path);
  }

  lemma {:induction false} MaterialiseStopsAt(top: Sys, dir: Parts, i: nat, memfd: NodeId -> bool, j: nat)
    requires Sound(top) && IsNormal(dir) && j <= |Names(dir)|
    requires !IsDirAt(top.state, Names(dir)[..j]) && (Lookup(top.state, Names(dir)[..j]).Some? || j < i)
    ensures Materialise(top, dir, i, memfd) == top
    decreases |dir| + 1 - i
  {
    var s, p := top.state, Names(dir);
    if i <= |dir| {
      MaterialiseStopsAt(top, dir, i + 1, memfd, j);
      NamesOfSlice(dir, i);
      if i <= j {
        WalkPrefix(s, s.root, p[..i], p[..j]);
        assert Lookup(s, Names(dir[..i])).Some?;
      } else {
        MkdirBeyondStop(top, dir, i, memfd, j);
      }
    }
  }

  lemma MkdirBeyondStop(top: Sys, dir: Parts, i: nat, memfd: NodeId -> bool, j: nat)
    requires IsNormal(dir) && j < i <= |dir| == |Names(dir)| && !IsDirAt(top.state, Names(dir)[..j])
    ensures Step(top, Op.Mkdir(dir[..i], DIR_MODE), memfd).sys == top
  {
    var s, p := top.state, Names(dir);
    NamesOfSlice(dir, i);
    assert Init(p[..i]) == p[..i - 1] && p[..i - 1][..j] == p[..j];
    if IsDirAt(s, p[..i - 1]) {
      WalkPrefix(s, s.root, p[..j], p[..i - 1]);
    }
    MkdirWithoutParent(top, dir[..i], DIR_MODE, memfd);
  }

  lemma ChainStaysClear(s: State, s': State, p: seq<Name>, i: nat)
    requires i <= |p| && NoFileAbove(s, p) && IsDirAt(s', p[..i])
    requires forall q :: q != p[..i] ==> Lookup(s', q) == Lookup(s, q)
    requires forall q :: IsDirAt(s, q) ==> IsDirAt(s', q)
    ensures NoFileAbove(s', p)
  {
    forall j | 0 <= j <= |p| && Lookup(s', p[..j]).Some?
      ensures IsDirAt(s', p[..j])
    {
      if p[..j] != p[..i] {
        assert IsDirAt(s, p[..j]);
      }
    }
  }

  // What the loop leaves at one of the ancestors: it is there exactly when backing files can be made for
  // all that is missing up to it, and then it is a directory; one that is made has mode 0o755.
  ghost predicate Reached(top: Sys, r: Sys, p: seq<Name>, memfd: NodeId -> bool) {
    && (Lookup(r.state, p).Some? <==> Makeable(top.next, Missing(top.state, p), memfd))
    && (Lookup(r.state, p).Some? ==> IsDirAt(r.state, p))
    && (Lookup(r.state, p).Some? && Lookup(top.state, p).None? ==>
          Lookup(r.state, p).value >= top.next && NodeAt(r.state, p).value.mode == 0x1ED)
  }

  // The `i`-th ancestor is the first that is missing.
  ghost predicate AtGap(top: Sys, dir: Parts, i: nat) {
    && Sound(top) && IsNormal(dir) && 1 <= i <= |dir| == |Names(dir)| && NoFileAbove(top.state, Names(dir))
    && IsDirAt(top.state, Names(dir)[..i - 1]) && Lookup(top.state, Names(dir)[..i]).None?
  }

  lemma GapIsFilled(top: Sys, dir: Parts, i: nat, memfd: NodeId -> bool)
    requires AtGap(top, dir, i) && memfd(top.next)
    ensures var names := Names(dir);
            var top' := Step(top, Op.Mkdir(dir[..i], DIR_MODE), memfd).sys;
      && Sound(top') && top'.next == top.next + 1 && NoFileAbove(top'.state, names)
      && NodeAt(top'.state, names[..i]) == Some(Served(top.next, Dir, 0x1ED))
      && (forall q :: q != names[..i] ==> Lookup(top'.state, q) == Lookup(top.state, q))
      && (i < |names| ==> Lookup(top'.state, names[..i + 1]).None?)
  {
    var s, names := top.state, Names(dir);
    GapStep(top, dir, i, memfd);
    StepIsSound(top, Op.Mkdir(dir[..i], DIR_MODE), memfd);
    ChainStaysClear(s, Step(top, Op.Mkdir(dir[..i], DIR_MODE), memfd).sys.state, names, i);
    NothingPastGap(s, names, i);
  }

  lemma GapStep(top: Sys, dir: Parts, i: nat, memfd: NodeId -> bool)
    requires AtGap(top, dir, i) && memfd(top.next)
    ensures var top' := Step(top, Op.Mkdir(dir[..i], DIR_MODE), memfd).sys;
      && top'.next == top.next + 1 && NodeAt(top'.state, Names(dir)[..i]) == Some(Served(top.next, Dir, 0x1ED))
      && (forall q :: q != Names(dir)[..i] ==> Lookup(top'.state, q) == Lookup(top.state, q))
      && (forall q :: IsDirAt(top.state, q) ==> IsDirAt(top'.state, q))
  {
    NamesOfSlice(dir, i);
    assert Init(Names(dir)[..i]) == Names(dir)[..i - 1];
    MkdirAddsDirectory(top, dir[..i], DIR_MODE, memfd);
  }

  lemma NothingPastGap(s: State, names: seq<Name>, i: nat)
    requires i <= |names| && Lookup(s, names[..i]).None?
    ensures i < |names| ==> Lookup(s, names[..i + 1]).None? && names[..i + 1] != names[..i]
  {
    if i < |names| {
      assert |names[..i + 1]| != |names[..i]|;
      if Lookup(s, names[..i + 1]).Some? {
        WalkPrefix(s, s.root, names[..i], names[..i + 1]);
      }
    }
  }

  // Filling the gap leaves one less to make beyond it.
  lemma FilledReaches(top: Sys, top': Sys, r: Sys, names: seq<Name>, i: nat, j: nat, memfd: NodeId -> bool)
    requires 1 <= i <= |names| && j <= |names| && memfd(top.next) && top'.next == top.next + 1
    requires Lookup(top.state, names[..i - 1]).Some? && Lookup(top.state, names[..i]).None?
    requires NodeAt(top'.state, names[..i]) == Some(Served(top.next, Dir, 0x1ED))
    requires i < |names| ==> Lookup(top'.state, names[..i + 1]).None?
    requires forall q :: q != names[..i] ==> Lookup(top'.state, q) == Lookup(top.state, q)
    requires KeepsPaths(top'.state, r.state) && Reached(top', r, names[..j], memfd)
    ensures Reached(top, r, names[..j], memfd)
    ensures Missing(top.state, names[..j]) == if j < i then 0 else 1 + Missing(top'.state, names[..j])
  {
    MissingAt(top.state, names, i - 1, j);
    MissingAt(top'.state, names, i, j);
    assert |names[..j]| == j && |names[..i]| == i;
    if j >= i {
      MakeableNext(top.next, Missing(top'.state, names[..j]), memfd);
    }
  }

  lemma MakeableNext(next: NodeId, k: nat, memfd: NodeId -> bool)
    ensures Makeable(next, 1 + k, memfd) <==> memfd(next) && Makeable(next + 1, k, memfd)
  {
  }

  lemma GapStays(top: Sys, dir: Parts, i: nat, memfd: NodeId -> bool, j: nat)
    requires AtGap(top, dir, i) && !memfd(top.next) && j <= |dir|
    ensures Materialise(top, dir, i, memfd) == Sys(top.state, top.next + 1)
    ensures Reached(top, Materialise(top, dir, i, memfd), Names(dir)[..j], memfd)
    ensures j == |dir| ==> Lookup(top.state, Names(dir)[..j]).None?
  {
    var s, names := top.state, Names(dir);
    GapStopsLoop(top, dir, i, memfd);
    MissingAt(s, names, i - 1, j);
    if j < i {
      assert names[..i - 1][..j] == names[..j];
      WalkPrefix(s, s.root, names[..j], names[..i - 1]);
    }
  }

  lemma GapStopsLoop(top: Sys, dir: Parts, i: nat, memfd: NodeId -> bool)
    requires AtGap(top, dir, i) && !memfd(top.next)
    ensures Materialise(top, dir, i, memfd) == Sys(top.state, top.next + 1)
  {
    NamesOfSlice(dir, i);
    assert Init(Names(dir)[..i]) == Names(dir)[..i - 1];
    MkdirAddsDirectory(top, dir[..i], DIR_MODE, memfd);
    MaterialiseStopsAt(Sys(top.state, top.next + 1), dir, i + 1, memfd, i);
  }

  // With no file in the way, that is what the loop leaves at each of the ancestors; a backing file that
  // cannot be made leaves the ancestors made before it.
  lemma {:induction false} MaterialiseReaches(top: Sys, dir: Parts, i: nat, memfd: NodeId -> bool, j: nat)
    requires Sound(top) && IsNormal(dir) && 1 <= i <= |dir| + 1 && j <= |dir| == |Names(dir)|
    requires IsDirAt(top.state, Names(dir)[..i - 1]) && NoFileAbove(top.state, Names(dir))
    ensures Reached(top, Materialise(top, dir, i, memfd), Names(dir)[..j], memfd)
    ensures var p, r := Names(dir)[..j], Materialise(top, dir, i, memfd);
            j == |dir| && Lookup(r.state, p).Some? ==> r.next == top.next + Missing(top.state, p)
    decreases |dir| + 1 - i
  {
    var s, names := top.state, Names(dir);
    if i > |dir| {
      assert names[..i - 1][..j] == names[..j];
      WalkPrefix(s, s.root, names[..j], names[..i - 1]);
    } else {
      NamesOfSlice(dir, i);
      if Lookup(s, names[..i]).Some? {
        MaterialiseReaches(top, dir, i + 1, memfd, j);
      } else if memfd(top.next) {
        GapIsFilled(top, dir, i, memfd);
        var top' := Step(top, Op.Mkdir(dir[..i], DIR_MODE), memfd).sys;
        MaterialiseReaches(top', dir, i + 1, memfd, j);
        MaterialiseKeepsPaths(top', dir, i + 1, memfd);
        FilledReaches(top, top', Materialise(top', dir, i + 1, memfd), names, i, j, memfd);
      } else {
        GapStays(top, dir, i, memfd, j);
      }
    }
  }

  // ----- what a write makes of the top layer, whatever backing files can be made

  // The parent is a directory of the top layer, or is absent there, exists below, and no file of the top
  // layer is in the way.
  ghost predicate Reaches(s: State, below: seq<State>, path: Parts)
    requires path != []
  {
    var parent := Names(Init(path));
    IsDirAt(s, parent) || (Lookup(s, parent).None? && SomeLayerHas(below, parent) && NoFileAbove(s, parent))
  }

  lemma EnsureParentsReaches(top: Sys, below: seq<State>, path: Parts, memfd: NodeId -> bool, q: seq<Name>)
    requires Sound(top) && below != [] && IsNormal(path) && path != [] && q <= Names(Init(path))
    ensures var mid := EnsureParents(top, below, path, memfd);
      && (!Reaches(top.state, below, path) ==> mid == top)
      && (Reaches(top.state, below, path) ==> Reached(top, mid, q, memfd))
      && (Reaches(top.state, below, path) && q == Names(Init(path)) && Lookup(mid.state, q).Some? ==>
            mid.next == top.next + Missing(top.state, q))
  {
    var s, dir := top.state, Init(path);
    var names := Names(dir);
    ParentNames(path);
    NamesOfNormal(dir);
    VisibleIsFirst(below, names);
    assert names[..|q|] == q;
    if Lookup(s, names).Some? {
      WalkPrefix(s, s.root, q, names);
    } else if SomeLayerHas(below, names) && NoFileAbove(s, names) {
      assert names[..0] == [];
      MaterialiseReaches(top, dir, 1, memfd, |q|);
    } else if !NoFileAbove(s, names) {
      var j :| 0 <= j <= |names| && Lookup(s, names[..j]).Some? && !IsDirAt(s, names[..j]);
      MaterialiseStopsAt(top, dir, 1, memfd, j);
    }
  }

  lemma CreationMakesPath(s: State, path: Parts, kind: Kind, mode: nat, id: NodeId, memfd: bool)
    requires Tree(s) && !Known(s, id) && IsNormal(path) && path != [] && Lookup(s, Names(path)).None?
    ensures var made := CreateAt(s, path, kind, mode, id, memfd);
      && NodeAt(made.state, Names(path)) == (if made.node.Some? then Some(Served(id, kind, mode % 4096)) else None)
      && made.node == (if IsDirAt(s, Names(Init(path))) && memfd then Some(id) else None)
  {
    var p := Names(path);
    ParentNames(path);
    NamesOfNormal(path);
    WalkLast(s, s.root, p);
    assert p == Init(p) + [Last(p)];
    if IsDirAt(s, Init(p)) {
      ChildFacts(s, Lookup(s, Init(p)).value, Last(p));
      if memfd {
        CreateWalk(s, s.root, Init(p), Last(p), kind, mode, id, s.root, p);
      }
    }
  }

  // Writing a path that is absent makes it exactly when its parent is a directory and its backing file
  // can be made.
  lemma WriteMakesPath(top: Sys, op: Op, memfd: NodeId -> bool)
    requires Sound(top) && (op.Mkdir? || op.Open?) && IsNormal(op.path) && op.path != []
    requires Lookup(top.state, Names(op.path)).None?
    ensures var o, p := Step(top, op, memfd), Names(op.path);
      && (op.Mkdir? ==> (o.rc == 0 <==> Lookup(o.sys.state, p).Some?) && (o.rc == 0 || o.rc == -1))
      && NodeAt(o.sys.state, p)
         == if IsDirAt(top.state, Names(Init(op.path))) && (op.Mkdir? || op.flags.creat) && memfd(top.next)
            then Some(Served(top.next, if op.Mkdir? then Dir else File, op.mode % 4096)) else None
  {
    CreationMakesPath(top.state, op.path, if op.Mkdir? then Dir else File, op.mode, top.next, memfd(top.next));
  }

  // When the top layer comes to have a path: the path or an ancestor of it, the parent within reach, and
  // backing files for all that is missing on the way.
  ghost predicate TakesOver(top: Sys, below: seq<State>, op: Op, memfd: NodeId -> bool, q: seq<Name>)
    requires op.Mkdir? || op.Open?
  {
    && op.path != [] && q <= Names(op.path) && Reaches(top.state, below, op.path)
    && (q == Names(op.path) ==> op.Mkdir? || op.flags.creat)
    && Makeable(top.next, Missing(top.state, q), memfd)
  }

  lemma TopTakesOverExactlyWhen(top: Sys, below: seq<State>, op: Op, memfd: NodeId -> bool, q: seq<Name>)
    requires Sound(top) && below != [] && (op.Mkdir? || op.Open?) && IsNormal(op.path)
    requires Lookup(top.state, q).None?
    ensures var s' := Step(EnsureParents(top, below, op.path, memfd), op, memfd).sys.state;
      && (Lookup(s', q).Some? <==> TakesOver(top, below, op, memfd, q))
      && (Lookup(s', q).Some? ==>
            && Lookup(s', q).value >= top.next
            && NodeAt(s', q).value.kind == (if q == Names(op.path) && op.Open? then File else Dir)
            && NodeAt(s', q).value.mode == if q == Names(op.path) then op.mode % 4096 else 0x1ED)
  {
    var path, p := op.path, Names(op.path);
    var mid := EnsureParents(top, below, path, memfd);
    EnsureParentsKeepsPaths(top, below, path, memfd);
    CreatingKeepsPaths(mid, op, memfd);
    if path == [] {
      WriteMakesOnlyItsPath(top, op, memfd, q);
    } else {
      ParentNames(path);
      ProperPrefix(q, p);
      if q <= Init(p) {
        AncestorTakenOver(top, below, op, memfd, q);
      } else if q == p {
        PathTakenOver(top, below, op, memfd);
      } else {
        EnsureParentsMakesOnlyPrefixes(top, below, path, memfd, q);
        WriteMakesOnlyItsPath(mid, op, memfd, q);
      }
    }
  }

  lemma ProperPrefix<T>(q: seq<T>, p: seq<T>)
    requires p != []
    ensures q <= p <==> q == p || q <= Init(p)
  {
  }

  lemma AncestorTakenOver(top: Sys, below: seq<State>, op: Op, memfd: NodeId -> bool, q: seq<Name>)
    requires Sound(top) && below != [] && (op.Mkdir? || op.Open?) && IsNormal(op.path) && op.path != []
    requires Lookup(top.state, q).None? && q <= Names(Init(op.path))
    ensures var s' := Step(EnsureParents(top, below, op.path, memfd), op, memfd).sys.state;
      && (Lookup(s', q).Some? <==> TakesOver(top, below, op, memfd, q))
      && (Lookup(s', q).Some? ==>
            && Lookup(s', q).value >= top.next
            && NodeAt(s', q).value.kind == Dir && NodeAt(s', q).value.mode == 0x1ED)
  {
    var mid := EnsureParents(top, below, op.path, memfd);
    ParentNames(op.path);
    EnsureParentsReaches(top, below, op.path, memfd, q);
    EnsureParentsKeepsPaths(top, below, op.path, memfd);
    CreatingKeepsPaths(mid, op, memfd);
    if Lookup(mid.state, q).None? {
      WriteMakesOnlyItsPath(mid, op, memfd, q);
    }
  }

  lemma PathTakenOver(top: Sys, below: seq<State>, op: Op, memfd: NodeId -> bool)
    requires Sound(top) && below != [] && (op.Mkdir? || op.Open?) && IsNormal(op.path) && op.path != []
    requires Lookup(top.state, Names(op.path)).None?
    ensures var p := Names(op.path);
            var o := Step(EnsureParents(top, below, op.path, memfd), op, memfd);
      && (Lookup(o.sys.state, p).Some? <==> TakesOver(top, below, op, memfd, p))
      && (Lookup(o.sys.state, p).Some? ==>
            && Lookup(o.sys.state, p).value >= top.next
            && NodeAt(o.sys.state, p).value.kind == (if op.Open? then File else Dir)
            && NodeAt(o.sys.state, p).value.mode == op.mode % 4096)
      && (op.Mkdir? ==> (o.rc == 0 <==> Lookup(o.sys.state, p).Some?) && (o.rc == 0 || o.rc == -1))
  {
    var mid := EnsureParents(top, below, op.path, memfd);
    ParentNames(op.path);
    ParentIsReady(top, below, op.path, memfd);
    EnsureParentsMakesOnlyPrefixes(top, below, op.path, memfd, Names(op.path));
    EnsureParentsKeepsPaths(top, below, op.path, memfd);
    WriteMakesPath(mid, op, memfd);
  }

  // The parent is a directory then, and a backing file can be made for one more node.
  lemma ParentIsReady(top: Sys, below: seq<State>, path: Parts, memfd: NodeId -> bool)
    requires Sound(top) && below != [] && IsNormal(path) && path != [] && Lookup(top.state, Names(path)).None?
    ensures var mid := EnsureParents(top, below, path, memfd);
      && (IsDirAt(mid.state, Names(Init(path))) ==> mid.next >= top.next)
      && (IsDirAt(mid.state, Names(Init(path))) && memfd(mid.next) <==>
            Reaches(top.state, below, path) && Makeable(top.next, Missing(top.state, Names(path)), memfd))
  {
    ParentMade(top, below, path, memfd);
    ParentNames(path);
    var mid, parent := EnsureParents(top, below, path, memfd), Names(Init(path));
    OneMoreFile(IsDirAt(mid.state, parent), Reaches(top.state, below, path), top.next, Missing(top.state, parent),
                mid.next, memfd);
    assert Missing(top.state, Names(path)) == 1 + Missing(top.state, parent);
  }

  lemma ParentMade(top: Sys, below: seq<State>, path: Parts, memfd: NodeId -> bool)
    requires Sound(top) && below != [] && IsNormal(path) && path != []
    ensures var mid, parent := EnsureParents(top, below, path, memfd), Names(Init(path));
      && (IsDirAt(mid.state, parent) <==>
            Reaches(top.state, below, path) && Makeable(top.next, Missing(top.state, parent), memfd))
      && (IsDirAt(mid.state, parent) ==> mid.next == top.next + Missing(top.state, parent))
  {
    EnsureParentsReaches(top, below, path, memfd, Names(Init(path)));
  }

  lemma OneMoreFile(made: bool, reaches: bool, next: NodeId, k: nat, next': NodeId, memfd: NodeId -> bool)
    requires made <==> reaches && Makeable(next, k, memfd)
    requires made ==> next' == next + k
    ensures made && memfd(next') <==> reaches && Makeable(next, 1 + k, memfd)
  {
    assert Makeable(next, 1 + k, memfd) <==> Makeable(next, k, memfd) && memfd(next + k);
  }

  // Making a directory through the overlay succeeds exactly when the path is new in the top layer, its
  // parent is within reach, and backing files can be made for all that is missing; when the parent is out
  // of reach the top layer is as it was.
  lemma MkdirSucceedsExactlyWhen(top: Sys, below: seq<State>, path: Parts, mode: nat, memfd: NodeId -> bool)
    requires Sound(top) && below != [] && IsNormal(path)
    ensures var o := OverlayMkdir(top, below, path, mode, memfd);
      && o.rc == (if && path != [] && Lookup(top.state, Names(path)).None? && Reaches(top.state, below, path)
                     && Makeable(top.next, Missing(top.state, Names(path)), memfd)
                  then 0 else -1)
      && (path == [] || !Reaches(top.state, below, path) ==> o.sys == top)
  {
    var op := Op.Mkdir(path, mode);
    if path != [] {
      ParentNames(path);
      EnsureParentsReaches(top, below, path, memfd, Names(Init(path)));
      if Lookup(top.state, Names(path)).None? {
        PathTakenOver(top, below, op, memfd);
      } else {
        var mid := EnsureParents(top, below, path, memfd);
        EnsureParentsKeepsPaths(top, below, path, memfd);
        WalkLast(mid.state, mid.state.root, Names(path));
        ChildFacts(mid.state, Lookup(mid.state, Init(Names(path))).value, Last(Names(path)));
      }
      if !Reaches(top.state, below, path) {
        MkdirWithoutParent(top, path, mode, memfd);
      }
    }
  }

  // Opening for writing gives a handle exactly when the kernel gives a descriptor, and the top layer has the
  // path and the flags accept what is there, or has it not and a file is made: the parent within reach and
  // backing files for all that is missing. The handle is then on the node at the path.
  lemma OpenForWritingSucceedsExactlyWhen(top: Sys, below: seq<State>, path: Parts, flags: Flags, mode: nat,
                                          backing: int, memfd: NodeId -> bool)
    requires Sound(top) && below != [] && IsNormal(path)
    ensures var o := OverlayOpenForWriting(top, below, path, flags, mode, backing, memfd);
            var p := Names(path);
      && (o.node.Some? <==>
            && backing >= 0
            && (if Lookup(top.state, p).Some? then
                  !(flags.creat && flags.excl) && (flags.directory ==> IsDirAt(top.state, p))
                else
                  !flags.directory && TakesOver(top, below, Op.Open(path, flags, mode, backing), memfd, p)))
      && (o.node.Some? ==> o.rc == backing && Lookup(o.sys.state, p) == o.node)
      && (o.node.None? ==> o.rc < 0)
  {
    var mid, op := EnsureParents(top, below, path, memfd), Op.Open(path, flags, mode, backing);
    EnsureParentsKeepsPaths(top, below, path, memfd);
    if Lookup(top.state, Names(path)).None? {
      NewPathOpens(top, below, op, memfd);
    } else {
      assert NodeAt(mid.state, Names(path)) == NodeAt(top.state, Names(path));
      OpenAnswers(mid, op, memfd);
    }
  }

  lemma NewPathOpens(top: Sys, below: seq<State>, op: Op, memfd: NodeId -> bool)
    requires Sound(top) && below != [] && op.Open? && IsNormal(op.path) && Lookup(top.state, Names(op.path)).None?
    ensures var o := Step(EnsureParents(top, below, op.path, memfd), op, memfd);
      && (o.node.Some? <==> op.backing >= 0 && !op.flags.directory && TakesOver(top, below, op, memfd, Names(op.path)))
      && (o.node.Some? ==> o.rc == op.backing && Lookup(o.sys.state, Names(op.path)) == o.node)
      && (o.node.None? ==> o.rc < 0)
  {
    var mid := EnsureParents(top, below, op.path, memfd);
    TopTakesOverExactlyWhen(top, below, op, memfd, Names(op.path));
    EnsureParentsKeepsPaths(top, below, op.path, memfd);
    if op.path != [] {
      ParentNames(op.path);
      EnsureParentsMakesOnlyPrefixes(top, below, op.path, memfd, Names(op.path));
      OpenAnswers(mid, op, memfd);
    }
  }

  // What an open answers, in terms of what is at the path afterwards.
  lemma OpenAnswers(sys: Sys, op: Op, memfd: NodeId -> bool)
    requires Sound(sys) && op.Open? && IsNormal(op.path)
    ensures var o, p := Step(sys, op, memfd), Names(op.path);
      && (o.node.Some? <==>
            && op.backing >= 0 && Lookup(o.sys.state, p).Some? && (op.flags.directory ==> IsDirAt(o.sys.state, p))
            && !(Lookup(sys.state, p).Some? && op.flags.creat && op.flags.excl))
      && (o.node.Some? ==> o.rc == op.backing && Lookup(o.sys.state, p) == o.node)
      && (o.node.None? ==> o.rc < 0)
      && (Lookup(sys.state, p).Some? ==> o.sys.state == sys.state)
  {
    var Sys(s, next) := sys;
    if Lookup(s, Names(op.path)).None? && op.path != [] {
      CreationMakesPath(s, op.path, File, op.mode, next, memfd(next));
      WriteMakesPath(sys, op, memfd);
    }
  }

  // What making a directory leaves: paths the top layer had keep node, kind and mode; a path it gains is the
  // one made, with the caller's mode, or an ancestor of it, with 0o755.
  lemma MkdirLeaves(top: Sys, below: seq<State>, path: Parts, mode: nat, memfd: NodeId -> bool, q: seq<Name>)
    requires Sound(top) && below != [] && IsNormal(path)
    ensures var o, p := OverlayMkdir(top, below, path, mode, memfd), Names(path);
      && (Lookup(top.state, q).Some? ==> NodeAt(o.sys.state, q) == NodeAt(top.state, q))
      && (Lookup(top.state, q).None? && Lookup(o.sys.state, q).Some? ==>
            && q <= p && Lookup(o.sys.state, q).value >= top.next
            && NodeAt(o.sys.state, q).value.kind == Dir
            && NodeAt(o.sys.state, q).value.mode == if q == p then mode % 4096 else 0x1ED)
      && (o.rc == 0 ==> Lookup(top.state, p).None? && IsDirAt(o.sys.state, p) && (q <= p ==> IsDirAt(o.sys.state, q)))
  {
    var op := Op.Mkdir(path, mode);
    WriteLeaves(top, below, op, memfd, q);
    MkdirSucceedsExactlyWhen(top, below, path, mode, memfd);
    if OverlayMkdir(top, below, path, mode, memfd).rc == 0 {
      PathTakenOver(top, below, op, memfd);
      if q <= Names(path) {
        DirectoriesAbove(OverlayMkdir(top, below, path, mode, memfd).sys.state, Names(path), q);
      }
    }
  }

  // And what opening for writing leaves, whether it gives a handle or not.
  lemma OpenForWritingLeaves(top: Sys, below: seq<State>, path: Parts, flags: Flags, mode: nat, backing: int,
                             memfd: NodeId -> bool, q: seq<Name>)
    requires Sound(top) && below != [] && IsNormal(path)
    ensures var o := OverlayOpenForWriting(top, below, path, flags, mode, backing, memfd);
            var p := Names(path);
      && (Lookup(top.state, q).Some? ==> NodeAt(o.sys.state, q) == NodeAt(top.state, q))
      && (Lookup(top.state, q).None? && Lookup(o.sys.state, q).Some? ==>
            && q <= p && Lookup(o.sys.state, q).value >= top.next
            && NodeAt(o.sys.state, q).value.kind == (if q == p then File else Dir)
            && NodeAt(o.sys.state, q).value.mode == if q == p then mode % 4096 else 0x1ED)
      && (o.node.Some? ==> Lookup(o.sys.state, p) == o.node && (q < p ==> IsDirAt(o.sys.state, q)))
  {
    WriteLeaves(top, below, Op.Open(path, flags, mode, backing), memfd, q);
    OpenForWritingSucceedsExactlyWhen(top, below, path, flags, mode, backing, memfd);
    var o := OverlayOpenForWriting(top, below, path, flags, mode, backing, memfd);
    if o.node.Some? && q < Names(path) {
      WalkPrefix(o.sys.state, o.sys.state.root, q, Names(path));
    }
  }

  lemma DirectoriesAbove(s: State, p: seq<Name>, q: seq<Name>)
    requires IsDirAt(s, p) && q <= p
    ensures IsDirAt(s, q)
  {
    WalkPrefix(s, s.root, q, p);
  }

  lemma WriteLeaves(top: Sys, below: seq<State>, op: Op, memfd: NodeId -> bool, q: seq<Name>)
    requires Sound(top) && below != [] && (op.Mkdir? || op.Open?) && IsNormal(op.path)
    ensures var s' := Step(EnsureParents(top, below, op.path, memfd), op, memfd).sys.state;
      && (Lookup(top.state, q).Some? ==> NodeAt(s', q) == NodeAt(top.state, q))
      && (Lookup(top.state, q).None? && Lookup(s', q).Some? ==>
            && q <= Names(op.path) && Lookup(s', q).value >= top.next
            && NodeAt(s', q).value.kind == (if q == Names(op.path) && op.Open? then File else Dir)
            && NodeAt(s', q).value.mode == if q == Names(op.path) then op.mode % 4096 else 0x1ED)
  {
    var mid := EnsureParents(top, below, op.path, memfd);
    EnsureParentsKeepsPaths(top, below, op.path, memfd);
    CreatingKeepsPaths(mid, op, memfd);
    if Lookup(top.state, q).None? {
      TopTakesOverExactlyWhen(top, below, op, memfd, q);
    }
  }

  // ----- so what is served changes for exactly these paths

  // The layers draw ids from one counter.
  ghost predicate IdsBelow(below: seq<State>, next: NodeId) {
    forall i, id: NodeId :: 0 <= i < |below| && Known(below[i], id) ==> id < next
  }

  lemma {:induction false} VisibleIsALayer(layers: seq<State>, p: seq<Name>)
    requires layers != []
    ensures Visible(layers, p) in layers
    decreases |layers|
  {
    if |layers| > 1 && Lookup(layers[0], p).None? {
      VisibleIsALayer(layers[1..], p);
    }
  }

  lemma ServedChangesExactlyWhen(top: Sys, below: seq<State>, op: Op, memfd: NodeId -> bool, q: seq<Name>)
    requires Sound(top) && below != [] && IdsBelow(below, top.next)
    requires (op.Mkdir? || op.Open?) && IsNormal(op.path)
    ensures var s' := Step(EnsureParents(top, below, op.path, memfd), op, memfd).sys.state;
            ServedAt([s'] + below, q) != ServedAt([top.state] + below, q) <==>
              Lookup(top.state, q).None? && TakesOver(top, below, op, memfd, q)
  {
    var s' := Step(EnsureParents(top, below, op.path, memfd), op, memfd).sys.state;
    WritesKeepVisibility(top, below, op.path, op, memfd, q);
    TopFirst(top.state, below, q);
    TopFirst(s', below, q);
    VisibleIsALayer(below, q);
    if Lookup(top.state, q).None? {
      TopTakesOverExactlyWhen(top, below, op, memfd, q);
    }
  }

  // A file of a lower layer that is in the way of a write, but not of the top layer, is hidden by a
  // directory: exactly when the top layer takes its path over, and not as a file.
  lemma LowerFileBecomesDirectoryExactlyWhen(top: Sys, below: seq<State>, op: Op, memfd: NodeId -> bool,
                                             q: seq<Name>)
    requires Sound(top) && below != [] && (op.Mkdir? || op.Open?) && IsNormal(op.path)
    requires ServedAt([top.state] + below, q).Some? && ServedAt([top.state] + below, q).value.kind == File
    ensures var s' := Step(EnsureParents(top, below, op.path, memfd), op, memfd).sys.state;
            ServedAt([s'] + below, q).Some? &&
            (ServedAt([s'] + below, q).value.kind == Dir <==>
               && Lookup(top.state, q).None? && TakesOver(top, below, op, memfd, q)
               && !(q == Names(op.path) && op.Open?))
  {
    var s' := Step(EnsureParents(top, below, op.path, memfd), op, memfd).sys.state;
    WritesKeepVisibility(top, below, op.path, op, memfd, q);
    TopFirst(top.state, below, q);
    TopFirst(s', below, q);
    if Lookup(top.state, q).None? {
      TopTakesOverExactlyWhen(top, below, op, memfd, q);
    }
  }

  // With a file `/f` below and an empty top layer, making `/f/x` answers 0 and `/f` is a directory.
  lemma MkdirHidesLowerFile(top: NodeId, base: State, f: Name, x: Name, mode: nat, memfd: NodeId -> bool)
    requires Tree(base) && Lookup(base, [f]).Some? && !IsDirAt(base, [f])
    requires memfd(top + 1) && memfd(top + 2)
    ensures var empty := Sys(Initial(top), top + 1);
            var o := OverlayMkdir(empty, [base], [Normal(f), Normal(x)], mode, memfd);
      && ServedAt([empty.state, base], [f]) == NodeAt(base, [f])
      && o.rc == 0 && ServedAt([o.sys.state, base], [f]).Some?
      && ServedAt([o.sys.state, base], [f]).value.kind == Dir
  {
    var empty, path := Sys(Initial(top), top + 1), [Normal(f), Normal(x)];
    InitialIsTree(top);
    NamesOfTwo(f, x);
    EmptyTopTakesOver(empty, base, Op.Mkdir(path, mode), memfd);
    MkdirSucceedsExactlyWhen(empty, [base], path, mode, memfd);
    TopFirst(empty.state, [base], [f]);
    assert [empty.state] + [base] == [empty.state, base];
    LowerFileBecomesDirectoryExactlyWhen(empty, [base], Op.Mkdir(path, mode), memfd, [f]);
    var s' := OverlayMkdir(empty, [base], path, mode, memfd).sys.state;
    assert [s'] + [base] == [s', base];
  }

  // With a file `/d/f` below and an empty top layer, opening it for writing without the create flag fails
  // and has made `/d` in the top layer.
  lemma FailedOpenMakesParents(top: NodeId, base: State, d: Name, f: Name, flags: Flags, mode: nat, backing: int,
                               memfd: NodeId -> bool)
    requires Tree(base) && Lookup(base, [d, f]).Some? && Lookup(base, [d]).Some? && !flags.creat
    requires memfd(top + 1) && memfd(top + 2)
    ensures var empty := Sys(Initial(top), top + 1);
            var o := OverlayOpenForWriting(empty, [base], [Normal(d), Normal(f)], flags, mode, backing, memfd);
      && Lookup(empty.state, [d]).None? && Lookup(o.sys.state, [d]).Some?
      && o.node.None? && o.rc < 0 && Lookup(o.sys.state, [d, f]).None?
  {
    var empty, path := Sys(Initial(top), top + 1), [Normal(d), Normal(f)];
    var op := Op.Open(path, flags, mode, backing);
    InitialIsTree(top);
    NamesOfTwo(d, f);
    EmptyTopTakesOver(empty, base, op, memfd);
    TopTakesOverExactlyWhen(empty, [base], op, memfd, [d]);
    TopTakesOverExactlyWhen(empty, [base], op, memfd, [d, f]);
    OpenForWritingSucceedsExactlyWhen(empty, [base], path, flags, mode, backing, memfd);
  }

  lemma EmptyTopTakesOver(top: Sys, base: State, op: Op, memfd: NodeId -> bool)
    requires top.state == Initial(top.state.root) && top.next == top.state.root + 1 && (op.Mkdir? || op.Open?)
    requires IsNormal(op.path) && |op.path| == 2 == |Names(op.path)| && Lookup(base, Names(Init(op.path))).Some?
    requires memfd(top.next) && memfd(top.next + 1)
    ensures Sound(top) && TakesOver(top, [base], op, memfd, Names(Init(op.path)))
    ensures Lookup(top.state, Names(op.path)).None? && Lookup(top.state, Names(Init(op.path))).None?
    ensures op.Mkdir? || op.flags.creat ==> TakesOver(top, [base], op, memfd, Names(op.path))
  {
    var p, parent := Names(op.path), Names(Init(op.path));
    FreshIsSound(top.state.root);
    InitialIsTree(top.state.root);
    ParentNames(op.path);
    assert |parent| == 1 && Init(parent) == [];
    assert forall j :: 0 <= j <= 1 && Lookup(top.state, parent[..j]).Some? ==> parent[..j] == [];
    assert Lookup([base][0], parent).Some?;
    assert Missing(top.state, parent) == 1;
    assert Init(p) == parent && p != [];
    assert Missing(top.state, p) == 2;
  }

  lemma NamesOfTwo(f: Name, x: Name)
    ensures Names([Normal(f), Normal(x)]) == [f, x] && Names([Normal(f)]) == [f]
    ensures Init([Normal(f), Normal(x)]) == [Normal(f)]
  {
    assert Init([Normal(f)]) == [] && Names([Normal(f)]) == [f];
    assert Init([Normal(f), Normal(x)]) == [Normal(f)];
  }
}
