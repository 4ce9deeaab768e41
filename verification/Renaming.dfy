/**
 Rename moves exactly one subtree; when it succeeds; and the exact condition under which its
 lexical guard keeps the tree.
 */
module Renaming {
  import opened Wrappers
  import opened Paths
  import opened Namespace
  import opened Operations

  // What a rename that moves something has found: the two directories, the source and the target.
  ghost predicate Moves(s: State, o: seq<Name>, n: seq<Name>, od: NodeId, nd: NodeId, id: NodeId,
                        target: Option<NodeId>)
  {
    && o != [] && n != [] && o != n
    && Lookup(s, Init(o)) == Some(od) && Lookup(s, Init(n)) == Some(nd) && IsDir(s, nd)
    && Lookup(s, o) == Some(id) && Lookup(s, n) == target
    && (target.Some? ==> CanReplace(s, id, target.value))
  }

  lemma RenameFinds(s: State, o: seq<Name>, n: seq<Name>, blocked: bool)
    returns (od: NodeId, nd: NodeId, id: NodeId, target: Option<NodeId>)
    requires Tree(s) && o != [] && n != [] && o != n && RenameNames(s, o, n, blocked).0
    ensures Moves(s, o, n, od, nd, id, target)
    ensures RenameNames(s, o, n, blocked) == (true, Relink(s, od, Last(o), nd, Last(n), id, target))
  {
    WalkLast(s, s.root, o);
    WalkLast(s, s.root, n);
    od, nd := Lookup(s, Init(o)).value, Lookup(s, Init(n)).value;
    id, target := Lookup(s, o).value, Lookup(s, n);
    if target == Some(id) {
      LookupInjective(s, o, n);
    }
  }

  // A target that can be replaced has nothing below it, so it is not above its source.
  lemma TargetIsNotAbove(s: State, o: seq<Name>, n: seq<Name>, od: NodeId, nd: NodeId, id: NodeId,
                         target: Option<NodeId>)
    requires Tree(s) && Moves(s, o, n, od, nd, id, target)
    ensures !(n <= o)
    ensures target.Some? ==> s.inodes[target.value].entries == map[] && target.value != id
  {
    if target.Some? {
      assert EntriesOk(s, target.value);
      if target.value == id {
        LookupInjective(s, o, n);
      }
    }
    if n <= o {
      WalkPrefix(s, s.root, n, o);
      OnlyNodeUnderEmpty(s, n, target.value, o);
    }
  }

  // The nodes the edit touches are distinct, but for the two directories.
  lemma MoveDistinct(s: State, o: seq<Name>, n: seq<Name>, od: NodeId, nd: NodeId, id: NodeId, target: Option<NodeId>)
    requires Tree(s) && Moves(s, o, n, od, nd, id, target) && !(o <= n)
    ensures id != od && id != nd && id != s.root && ParentOf(s, id) == Some(od)
    ensures target.Some? ==> target.value != s.root && target.value != od && target.value != nd && target.value != id
    ensures target.Some? ==> ParentOf(s, target.value) == Some(nd)
  {
    TargetIsNotAbove(s, o, n, od, nd, id, target);
    WalkLast(s, s.root, o);
    WalkLast(s, s.root, n);
    ChildFacts(s, od, Last(o));
    ChildFacts(s, nd, Last(n));
    if id == nd {
      LookupInjective(s, o, Init(n));
    }
    if id == od {
      LookupInjective(s, o, Init(o));
    }
    if target == Some(nd) {
      LookupInjective(s, n, Init(n));
    }
  }

  lemma MovedEdge(s: State, o: seq<Name>, n: seq<Name>, od: NodeId, nd: NodeId, id: NodeId, target: Option<NodeId>,
                  x: NodeId, m: Name)
    requires Tree(s) && Moves(s, o, n, od, nd, id, target)
    requires !AtEdge(s, s.root, o, x, m) && !AtEdge(s, s.root, n, x, m)
    ensures Child(Relink(s, od, Last(o), nd, Last(n), id, target), x, m) == Child(s, x, m)
  {
    WalkLast(s, s.root, n);
    if IsDir(s, x) {
      ChildFacts(s, x, m);
      SameChild(s, x, m, nd, Last(n));
    }
  }

  lemma MovedEdges(s: State, o: seq<Name>, n: seq<Name>, od: NodeId, nd: NodeId, id: NodeId, target: Option<NodeId>)
    requires Tree(s) && Moves(s, o, n, od, nd, id, target)
    ensures SameEdgesBut(s, Relink(s, od, Last(o), nd, Last(n), id, target), s.root, o, n)
  {
    forall x: NodeId, m: Name | !AtEdge(s, s.root, o, x, m) && !AtEdge(s, s.root, n, x, m)
      ensures Child(Relink(s, od, Last(o), nd, Last(n), id, target), x, m) == Child(s, x, m)
    {
      MovedEdge(s, o, n, od, nd, id, target, x, m);
    }
  }

  lemma MovedEnds(s: State, o: seq<Name>, n: seq<Name>, od: NodeId, nd: NodeId, id: NodeId, target: Option<NodeId>)
    requires Tree(s) && Moves(s, o, n, od, nd, id, target) && !(o <= n)
    ensures var s' := Relink(s, od, Last(o), nd, Last(n), id, target);
            Child(s', od, Last(o)) == None && Child(s', nd, Last(n)) == Some(id)
  {
    MoveDistinct(s, o, n, od, nd, id, target);
    WalkLast(s, s.root, o);
    assert o == Init(o) + [Last(o)] && n == Init(n) + [Last(n)];
    if od == nd && Last(o) == Last(n) {
      LookupInjective(s, Init(o), Init(n));
    }
  }

  // A move seen from below its source: nothing changes.
  lemma SubtreeUnchanged(s: State, s': State, o: seq<Name>, n: seq<Name>, id: NodeId, r: seq<Name>)
    requires Tree(s) && o != [] && n != [] && Lookup(s, o) == Some(id) && Known(s', id)
    requires SameEdgesBut(s, s', s.root, o, n) && !(n <= o) && !(o <= n && n <= o + r)
    ensures Walk(s', id, r) == Walk(s, id, r)
  {
    forall k | 0 <= k < |r| && Walk(s, id, r[..k]).Some?
      ensures Child(s, Walk(s, id, r[..k]).value, r[k]) == Child(s', Walk(s, id, r[..k]).value, r[k])
    {
      var x, q := Walk(s, id, r[..k]).value, o + r;
      assert q[..|o| + k] == o + r[..k] && q[|o| + k] == r[k];
      WalkConcat(s, s.root, o, r[..k]);
      if AtEdge(s, s.root, o, x, r[k]) {
        LookupInjective(s, Init(o), q[..|o| + k]);
      } else if AtEdge(s, s.root, n, x, r[k]) {
        EdgeOnWalk(s, s.root, n, s.root, q, |o| + k);
      }
    }
    WalkAgree(s, s', id, r);
  }

  // Every walk after a move, from any starting place, in terms of the walks before it.
  lemma MovedWalk(s: State, o: seq<Name>, n: seq<Name>, od: NodeId, nd: NodeId, id: NodeId, target: Option<NodeId>,
                  t: NodeId, q: seq<Name>)
    requires Tree(s) && Moves(s, o, n, od, nd, id, target) && !(o <= n) && IsTop(s, t)
    ensures Walk(Relink(s, od, Last(o), nd, Last(n), id, target), t, q)
         == if t == s.root && n <= q then Lookup(s, o + q[|n|..])
            else if t == s.root && o <= q then None
            else Walk(s, t, q)
  {
    var s' := Relink(s, od, Last(o), nd, Last(n), id, target);
    TargetIsNotAbove(s, o, n, od, nd, id, target);
    MovedEdges(s, o, n, od, nd, id, target);
    MovedEnds(s, o, n, od, nd, id, target);
    if t == s.root && n <= q {
      assert o <= Init(n) ==> o <= n;
      EdgesSymmetric(s, s', s.root, o, n);
      WalkThroughEdge(s, s', s.root, n, o, q);
      SubtreeUnchanged(s, s', o, n, id, q[|n|..]);
      WalkConcat(s, s.root, o, q[|n|..]);
    } else if t == s.root && o <= q {
      assert n <= Init(o) ==> n <= o;
      WalkThroughEdge(s, s', s.root, o, n, q);
    } else {
      WalkOffEdges(s, s', s.root, o, n, t, q);
    }
  }

  lemma EdgesSymmetric(s: State, s': State, u: NodeId, a: seq<Name>, b: seq<Name>)
    requires SameEdgesBut(s, s', u, a, b)
    ensures SameEdgesBut(s, s', u, b, a)
  {
  }

  lemma MovedEntry(s: State, o: seq<Name>, n: seq<Name>, od: NodeId, nd: NodeId, id: NodeId, target: Option<NodeId>,
                   x: NodeId, m: Name)
    requires Tree(s) && Moves(s, o, n, od, nd, id, target) && !(o <= n) && Known(s, x)
    requires m in Relink(s, od, Last(o), nd, Last(n), id, target).inodes[x].entries
    ensures var s' := Relink(s, od, Last(o), nd, Last(n), id, target);
            var y := s'.inodes[x].entries[m];
            && Mapped(s', y) && y != s.root && ParentOf(s', y) == Some(x)
            && (y == id ==> x == nd && m == Last(n))
            && (y != id ==> m in s.inodes[x].entries && s.inodes[x].entries[m] == y)
  {
    MoveDistinct(s, o, n, od, nd, id, target);
    if x == nd && m == Last(n) {
      WalkLast(s, s.root, o);
    } else {
      assert EntriesOk(s, x);
      WalkLast(s, s.root, o);
      WalkLast(s, s.root, n);
      SameChild(s, x, m, nd, Last(n));
      SameChild(s, x, m, od, Last(o));
    }
  }

  lemma MovedKeepsEntries(s: State, o: seq<Name>, n: seq<Name>, od: NodeId, nd: NodeId, id: NodeId,
                          target: Option<NodeId>, x: NodeId)
    requires Tree(s) && Moves(s, o, n, od, nd, id, target) && !(o <= n) && Known(s, x)
    ensures EntriesOk(Relink(s, od, Last(o), nd, Last(n), id, target), x)
  {
    var es := Relink(s, od, Last(o), nd, Last(n), id, target).inodes[x].entries;
    forall m | m in es {
      MovedEntry(s, o, n, od, nd, id, target, x, m);
    }
    assert EntriesOk(s, x);
    WalkLast(s, s.root, o);
  }

  lemma MovedKeepsAddresses(s: State, o: seq<Name>, n: seq<Name>, od: NodeId, nd: NodeId, id: NodeId,
                            target: Option<NodeId>, x: NodeId)
    requires Tree(s) && Moves(s, o, n, od, nd, id, target) && !(o <= n) && Known(s, x)
    ensures HasAddress(Relink(s, od, Last(o), nd, Last(n), id, target), x)
  {
    var s' := Relink(s, od, Last(o), nd, Last(n), id, target);
    MoveDistinct(s, o, n, od, nd, id, target);
    TargetIsNotAbove(s, o, n, od, nd, id, target);
    assert HasAddress(s, x);
    var t, q :| IsTop(s, t) && Walk(s, t, q) == Some(x);
    if t == s.root && o <= q {
      var q' := n + q[|o|..];
      MovedWalk(s, o, n, od, nd, id, target, t, q');
      assert q'[|n|..] == q[|o|..] && o + q[|o|..] == q;
      assert IsTop(s', t) && Walk(s', t, q') == Some(x);
    } else if t == s.root && n <= q {
      WalkPrefix(s, s.root, n, q);
      OnlyNodeUnderEmpty(s, n, target.value, q);
      assert IsTop(s', x) && Walk(s', x, []) == Some(x);
    } else {
      MovedWalk(s, o, n, od, nd, id, target, t, q);
      assert IsTop(s', t) && Walk(s', t, q) == Some(x);
    }
  }

  lemma MovedKeepsTree(s: State, o: seq<Name>, n: seq<Name>, od: NodeId, nd: NodeId, id: NodeId, target: Option<NodeId>)
    requires Tree(s) && Moves(s, o, n, od, nd, id, target) && !(o <= n)
    ensures Tree(Relink(s, od, Last(o), nd, Last(n), id, target))
  {
    var s' := Relink(s, od, Last(o), nd, Last(n), id, target);
    MoveDistinct(s, o, n, od, nd, id, target);
    forall x: NodeId | Known(s', x)
      ensures LifeOk(s'.inodes[x]) && EntriesOk(s', x) && HasAddress(s', x)
    {
      MovedKeepsEntries(s, o, n, od, nd, id, target, x);
      MovedKeepsAddresses(s, o, n, od, nd, id, target, x);
    }
    TreeFromParts(s');
  }

  // ----- main results, for paths whose guard is the prefix test

  // Success means neither path is a prefix of the other.
  lemma SuccessSeparatesPaths(s: State, o: seq<Name>, n: seq<Name>)
    requires Tree(s) && o != [] && n != [] && o != n && RenameNames(s, o, n, o <= n).0
    ensures !(o <= n) && !(n <= o)
  {
    var od, nd, id, target := RenameFinds(s, o, n, o <= n);
    TargetIsNotAbove(s, o, n, od, nd, id, target);
    if o <= n {
      assert o <= Init(n);
      WalkPrefix(s, s.root, o, Init(n));
      WalkLast(s, s.root, o);
    }
  }

  // Where a path leads after a move that does not go below its own source.
  lemma MoveAt(s: State, o: seq<Name>, n: seq<Name>, blocked: bool, q: seq<Name>)
    requires Tree(s) && o != [] && n != [] && !(o <= n) && RenameNames(s, o, n, blocked).0
    ensures !(n <= o)
    ensures Lookup(RenameNames(s, o, n, blocked).1, q)
         == if n <= q then Lookup(s, o + q[|n|..]) else if o <= q then None else Lookup(s, q)
  {
    var od, nd, id, target := RenameFinds(s, o, n, blocked);
    TargetIsNotAbove(s, o, n, od, nd, id, target);
    MovedWalk(s, o, n, od, nd, id, target, s.root, q);
  }

  lemma NamesMoveOneSubtree(s: State, o: seq<Name>, n: seq<Name>, blocked: bool)
    requires Tree(s) && o != [] && n != [] && !(o <= n) && RenameNames(s, o, n, blocked).0
    ensures OneSubtreeMoved(s, RenameNames(s, o, n, blocked).1, o, n)
  {
    var s' := RenameNames(s, o, n, blocked).1;
    forall r
      ensures Lookup(s', n + r) == Lookup(s, o + r) && Lookup(s', o + r) == None
    {
      MoveAt(s, o, n, blocked, n + r);
      MoveAt(s, o, n, blocked, o + r);
      assert (n + r)[|n|..] == r;
      if n <= o + r {
        PrefixesNest(o, n, o + r);
      }
    }
    forall q | !(o <= q) && !(n <= q)
      ensures Lookup(s', q) == Lookup(s, q)
    {
      MoveAt(s, o, n, blocked, q);
    }
    var od, nd, id, target := RenameFinds(s, o, n, blocked);
  }

  // What stood at and under `o` stands at and under `n`, nothing is left at `o`, all other paths, and every
  // node's identity, kind and mode, are as they were.
  ghost predicate OneSubtreeMoved(s: State, s': State, o: seq<Name>, n: seq<Name>) {
    && (forall r :: Lookup(s', n + r) == Lookup(s, o + r))
    && (forall r :: Lookup(s', o + r) == None)
    && (forall q :: !(o <= q) && !(n <= q) ==> Lookup(s', q) == Lookup(s, q))
    && s'.inodes.Keys == s.inodes.Keys && s'.root == s.root
    && (forall x :: Known(s, x) ==> s'.inodes[x].kind == s.inodes[x].kind && s'.inodes[x].mode == s.inodes[x].mode)
  }

  lemma PrefixesNest<T>(a: seq<T>, b: seq<T>, q: seq<T>)
    requires a <= q && b <= q
    ensures a <= b || b <= a
  {
    assert a == q[..|a|] && b == q[..|b|];
  }

  // When a rename of all-but-root names succeeds, in terms of lookups of whole paths; a failure changes
  // nothing. `blocked` is the outcome of the prefix test.
  lemma RenameNamesSucceeds(s: State, o: seq<Name>, n: seq<Name>, blocked: bool)
    requires Tree(s) && o != [] && n != []
    ensures RenameNames(s, o, n, blocked).0 <==>
      && Lookup(s, o).Some? && (IsDir(s, Lookup(s, o).value) ==> !blocked)
      && Lookup(s, Init(n)).Some? && IsDir(s, Lookup(s, Init(n)).value)
      && (o == n || Replaceable(s, Lookup(s, o).value, n))
    ensures !RenameNames(s, o, n, blocked).0 ==> RenameNames(s, o, n, blocked).1 == s
  {
    WalkLast(s, s.root, o);
    WalkLast(s, s.root, n);
    if Lookup(s, o).Some? && Lookup(s, o) == Lookup(s, n) {
      LookupInjective(s, o, n);
    }
    if Lookup(s, n).Some? && IsDir(s, Lookup(s, n).value) {
      EmptyMeansNoChildPath(s, n);
    }
  }

  // The target is free, or a file for a file, or a directory without children for a directory.
  ghost predicate Replaceable(s: State, x: NodeId, n: seq<Name>) {
    Lookup(s, n).Some? ==>
      var y := Lookup(s, n).value;
      || (!IsDir(s, x) && !IsDir(s, y))
      || (IsDir(s, x) && IsDir(s, y) && forall m :: Lookup(s, n + [m]).None?)
  }

  // When rename returns 0, for all absolute paths, the root, equal ones and ones that keep a `..`
  // included; a failure changes nothing. Both sides of the condition are lookups before the call.
  lemma RenameSucceedsExactlyWhen(s: State, o: Parts, n: Parts)
    requires Tree(s)
    ensures RenameAt(s, o, n).0 <==>
      && o != [] && n != []
      && (o != n ==>
            && FileName(o).Some? && FileName(n).Some?
            && Lookup(s, Names(o)).Some? && (IsDir(s, Lookup(s, Names(o)).value) ==> !(o <= n))
            && Lookup(s, Names(Init(n))).Some? && IsDir(s, Lookup(s, Names(Init(n))).value)
            && (Names(o) == Names(n) || Replaceable(s, Lookup(s, Names(o)).value, Names(n))))
    ensures !RenameAt(s, o, n).0 ==> RenameAt(s, o, n).1 == s
  {
    if FileName(o).Some? && FileName(n).Some? {
      RenameNamesSucceeds(s, Names(o), Names(n), o <= n);
      assert Init(Names(n)) == Names(Init(n));
    }
  }

  lemma EmptyMeansNoChildPath(s: State, p: seq<Name>)
    requires Tree(s) && Lookup(s, p).Some? && IsDir(s, Lookup(s, p).value)
    ensures s.inodes[Lookup(s, p).value].entries == map[] <==> forall m :: Lookup(s, p + [m]).None?
  {
    var d := Lookup(s, p).value;
    forall m
      ensures Lookup(s, p + [m]).Some? <==> m in s.inodes[d].entries
    {
      WalkSnoc(s, s.root, p, m);
      ChildFacts(s, d, m);
    }
  }

  // A successful rename drops at most the node its target named, and that node is not above the source.
  lemma ReplacedIsNotAnAncestor(s: State, o: seq<Name>, n: seq<Name>, x: NodeId)
    requires Tree(s) && o != [] && n != [] && o != n && RenameNames(s, o, n, o <= n).0
    requires Mapped(s, x) && !Mapped(RenameNames(s, o, n, o <= n).1, x)
    ensures Lookup(s, n) == Some(x) && Lookup(s, o).Some?
    ensures forall k: nat :: Up(s, Lookup(s, o).value, k) != Some(x)
  {
    SuccessSeparatesPaths(s, o, n);
    var od, nd, id, target := RenameFinds(s, o, n, o <= n);
    MoveDistinct(s, o, n, od, nd, id, target);
    LexicalGuardIsAncestorTest(s, n, o);
  }

  // ----- the guard on arbitrary component paths

  // Without the guard a directory moved below itself closes a cycle that no starting place reaches.
  lemma UnguardedMoveBreaksTree(s: State, o: seq<Name>, n: seq<Name>, od: NodeId, nd: NodeId, id: NodeId,
                                target: Option<NodeId>)
    requires Tree(s) && Moves(s, o, n, od, nd, id, target) && o <= n
    ensures !Tree(Relink(s, od, Last(o), nd, Last(n), id, target))
  {
    var s' := Relink(s, od, Last(o), nd, Last(n), id, target);
    var r := Init(n)[|o|..];
    assert o + r == Init(n);
    WalkConcat(s, s.root, o, r);
    UnguardedCycle(s, o, n, od, nd, id, target, r);
    var c := r + [Last(n)];
    if Tree(s') {
      assert HasAddress(s', id);
      var t, p :| IsTop(s', t) && Walk(s', t, p) == Some(id);
      WalkConcat(s', t, p, c);
      AddressUnique(s', t, p, t, p + c);
    }
  }

  lemma UnguardedCycle(s: State, o: seq<Name>, n: seq<Name>, od: NodeId, nd: NodeId, id: NodeId,
                       target: Option<NodeId>, r: seq<Name>)
    requires Tree(s) && Moves(s, o, n, od, nd, id, target) && o + r == Init(n)
    ensures var s' := Relink(s, od, Last(o), nd, Last(n), id, target);
            Walk(s', id, r + [Last(n)]) == Some(id)
  {
    var s' := Relink(s, od, Last(o), nd, Last(n), id, target);
    TargetIsNotAbove(s, o, n, od, nd, id, target);
    WalkConcat(s, s.root, o, r);
    WalkLast(s, s.root, o);
    WalkLast(s, s.root, n);
    ChildFacts(s, od, Last(o));
    if target.Some? {
      ChildFacts(s, nd, Last(n));
    }
    if nd == od {
      LookupInjective(s, Init(o), Init(n));
    }
    MovedEdges(s, o, n, od, nd, id, target);
    SubtreeUnchanged(s, s', o, n, id, r);
    WalkSnoc(s', id, r, Last(n));
  }

  // A rename that succeeds keeps the tree unless its source's names properly prefix its target's.
  lemma SuccessKeepsTreeUnlessBelow(s: State, o: seq<Name>, n: seq<Name>, blocked: bool)
    requires Tree(s) && o != [] && n != []
    ensures Tree(RenameNames(s, o, n, blocked).1) <==> !(o < n && RenameNames(s, o, n, blocked).0)
  {
    if RenameNames(s, o, n, blocked).0 && o != n {
      var od, nd, id, target := RenameFinds(s, o, n, blocked);
      if o <= n {
        UnguardedMoveBreaksTree(s, o, n, od, nd, id, target);
      } else {
        MovedKeepsTree(s, o, n, od, nd, id, target);
      }
    }
  }

  // A directory is to move below itself, to a free place or over an empty directory, along paths on which
  // the component-wise prefix test does not show it.
  ghost predicate MovesBelowItself(s: State, o: Parts, n: Parts) {
    && FileName(o).Some? && FileName(n).Some? && Names(o) < Names(n) && !(o <= n)
    && Lookup(s, Names(Init(n))).Some? && IsDir(s, Lookup(s, Names(Init(n))).value)
    && (Lookup(s, Names(n)).Some? ==>
          IsDir(s, Lookup(s, Names(n)).value) && forall m :: Lookup(s, Names(n) + [m]).None?)
  }

  // For all absolute paths, normal or not: exactly those renames break the tree.
  lemma RenameKeepsTreeExactlyWhen(s: State, o: Parts, n: Parts)
    requires Tree(s)
    ensures Tree(RenameAt(s, o, n).1) <==> !MovesBelowItself(s, o, n)
  {
    if FileName(o).Some? && FileName(n).Some? {
      var p, q := Names(o), Names(n);
      SuccessKeepsTreeUnlessBelow(s, p, q, o <= n);
      RenameNamesSucceeds(s, p, q, o <= n);
      assert Init(q) == Names(Init(n));
      if p < q && Lookup(s, Init(q)).Some? {
        assert p <= Init(q);
        WalkPrefix(s, s.root, p, Init(q));
      }
    }
  }

  // Any other rename that succeeds moves exactly one subtree, or changes nothing when its paths name the
  // same place.
  lemma RenameMovesOneSubtree(s: State, o: Parts, n: Parts)
    requires Tree(s) && RenameAt(s, o, n).0 && !MovesBelowItself(s, o, n)
    ensures Names(o) != Names(n) ==> OneSubtreeMoved(s, RenameAt(s, o, n).1, Names(o), Names(n))
    ensures Names(o) == Names(n) ==> RenameAt(s, o, n).1 == s
  {
    if o != n {
      RenameKeepsTreeExactlyWhen(s, o, n);
      SuccessKeepsTreeUnlessBelow(s, Names(o), Names(n), o <= n);
      if Names(o) != Names(n) {
        assert !(Names(o) <= Names(n));
        NamesMoveOneSubtree(s, Names(o), Names(n), o <= n);
      }
    }
  }

  lemma RenameKeepsTree(s: State, o: Parts, n: Parts)
    requires Tree(s) && IsNormal(o) && IsNormal(n)
    ensures Tree(RenameAt(s, o, n).1)
  {
    RenameKeepsTreeExactlyWhen(s, o, n);
    StartsWithOnNames(o, n);
  }
}
