/** Runs: any sequence of operations, by path or through opened nodes, from a fresh file system. */
module Runs {
  import opened Wrappers
  import opened Paths
  import opened Namespace
  import opened Operations
  import opened Renaming
  import opened Handles

  // `next` is the process-wide id counter; `Elsewhere` is another file system drawing from it.
  datatype Sys = Sys(state: State, next: NodeId)
  datatype Op =
    | Mkdir(path: Parts, mode: nat)
    | Open(path: Parts, flags: Flags, mode: nat, backing: int)
    | Unlink(path: Parts)
    | Rmdir(path: Parts)
    | Rename(source: Parts, target: Parts)
    | Chmod(path: Parts, mode: nat)
    | OpenVia(start: NodeId, rel: Parts, flags: Flags, mode: nat, backing: int)
    | MkdirVia(start: NodeId, rel: Parts, mode: nat)
    | Elsewhere

  datatype Outcome = Outcome(rc: int, node: Option<NodeId>, sys: Sys)

  function Rc(ok: bool): int {
    if ok then 0 else -1
  }

  function AfterMade(m: Made, next: NodeId): Outcome {
    Outcome(Rc(m.node.Some?), None, Sys(m.state, if m.drawn then next + 1 else next))
  }

  function AfterOpened(o: Opened, next: NodeId): Outcome {
    Outcome(o.fd, o.node, Sys(o.state, if o.drawn then next + 1 else next))
  }

  // `memfd(id)` is whether creating the backing file for the node drawn with that id succeeds.
  function Step(sys: Sys, op: Op, memfd: NodeId -> bool): Outcome {
    var Sys(s, next) := sys;
    match op
    case Mkdir(path, mode) => AfterMade(CreateAt(s, path, Dir, mode, next, memfd(next)), next)
    case Open(path, flags, mode, backing) => AfterOpened(OpenAt(s, path, flags, mode, next, memfd(next), backing), next)
    case Unlink(path) => Outcome(Rc(RemoveAt(s, path, File).0), None, Sys(RemoveAt(s, path, File).1, next))
    case Rmdir(path) => Outcome(Rc(RemoveAt(s, path, Dir).0), None, Sys(RemoveAt(s, path, Dir).1, next))
    case Rename(o, n) => Outcome(Rc(RenameAt(s, o, n).0), None, Sys(RenameAt(s, o, n).1, next))
    case Chmod(path, mode) => Outcome(Rc(ChmodAt(s, path, mode).0), None, Sys(ChmodAt(s, path, mode).1, next))
    case OpenVia(start, rel, flags, mode, backing) =>
      AfterOpened(OpenFrom(s, start, rel, flags, mode, next, memfd(next), backing), next)
    case MkdirVia(start, rel, mode) => AfterMade(CreateFrom(s, start, rel, Dir, mode, next, memfd(next)), next)
    case Elsewhere => Outcome(0, None, Sys(s, next + 1))
  }

  function Run(sys: Sys, ops: seq<Op>, memfd: NodeId -> bool): Sys
    decreases |ops|
  {
    if ops == [] then sys else Run(Step(sys, ops[0], memfd).sys, ops[1..], memfd)
  }

  // Only renaming needs its paths normalised; every other operation takes any absolute path.
  predicate NormalRename(op: Op) {
    op.Rename? ==> IsNormal(op.source) && IsNormal(op.target)
  }

  ghost predicate SoundIds(sys: Sys) {
    forall id: NodeId :: Known(sys.state, id) ==> id < sys.next
  }

  ghost predicate Sound(sys: Sys) {
    Tree(sys.state) && SoundIds(sys)
  }

  // ----- the tree, and what a step never does to a node

  predicate Creates(op: Op) {
    op.Mkdir? || op.Open? || op.OpenVia? || op.MkdirVia?
  }

  // However a creating operation finds its directory, it changes nothing or adds one entry to it.
  lemma CreationHasOneForm(sys: Sys, op: Op, memfd: NodeId -> bool)
    returns (d: NodeId, name: Name, kind: Kind, mode: nat)
    requires Creates(op)
    ensures var Sys(s, next) := sys;
            var Sys(s', next') := Step(sys, op, memfd).sys;
            var made := CreateIn(s, d, name, kind, mode, next, memfd(next));
            (s' == s && next <= next' <= next + 1) || (s' == made.state && next' == next + 1)
  {
    var Sys(s, next) := sys;
    var p := if op.Mkdir? || op.Open? then op.path else op.rel;
    kind, mode := if op.Mkdir? || op.MkdirVia? then Dir else File, op.mode;
    name := FileName(p).GetOr([]);
    d := if p == [] then 0
         else if op.Mkdir? || op.Open? then Lookup(s, Names(Init(p))).GetOr(0)
         else RelWalk(s, op.start, Init(p)).GetOr(0);
  }

  lemma StepKeepsTree(sys: Sys, op: Op, memfd: NodeId -> bool)
    requires Sound(sys) && NormalRename(op)
    ensures Tree(Step(sys, op, memfd).sys.state)
  {
    var Sys(s, next) := sys;
    match op {
      case Unlink(path) => RemoveKeepsTree(s, path, File);
      case Rmdir(path) => RemoveKeepsTree(s, path, Dir);
      case Rename(o, n) => RenameKeepsTree(s, o, n);
      case Chmod(path, mode) => ChmodKeepsTree(s, path, mode);
      case Elsewhere =>
      case _ =>
        var d, name, kind, mode := CreationHasOneForm(sys, op, memfd);
        CreateKeepsTree(s, d, name, kind, mode, next, memfd(next));
    }
  }

  // A node keeps its id and kind for ever, a dropped node is never mapped again, and new nodes
  // take ids never handed out before.
  ghost predicate Continues(a: Sys, b: Sys) {
    && a.next <= b.next && a.state.root == b.state.root
    && (forall id: NodeId :: Known(a.state, id) ==>
          Known(b.state, id) && b.state.inodes[id].kind == a.state.inodes[id].kind)
    && (forall id: NodeId :: Known(a.state, id) && Mapped(b.state, id) ==> Mapped(a.state, id))
    && (forall id: NodeId :: Known(b.state, id) && !Known(a.state, id) ==> a.next <= id < b.next)
  }

  ghost predicate SameNodes(s: State, s': State) {
    && s'.root == s.root && s'.inodes.Keys == s.inodes.Keys
    && forall id: NodeId :: Known(s, id) ==>
         s'.inodes[id].kind == s.inodes[id].kind && (Mapped(s', id) ==> Mapped(s, id))
  }

  lemma RemovalKeepsNodes(s: State, path: Parts, kind: Kind)
    ensures SameNodes(s, RemoveAt(s, path, kind).1)
  {
  }

  lemma RenameKeepsNodes(s: State, o: Parts, n: Parts)
    ensures SameNodes(s, RenameAt(s, o, n).1)
  {
    if o != n && FileName(o).Some? && FileName(n).Some? {
      RenameAtByParents(s, o, n);
      var od, nd := Lookup(s, Names(Init(o))), Lookup(s, Names(Init(n)));
      if od.Some? && nd.Some? {
        RenameBetweenKeepsNodes(s, od.value, FileName(o).value, nd.value, FileName(n).value, o <= n);
      }
    }
  }

  lemma RenameBetweenKeepsNodes(s: State, od: NodeId, o: Name, nd: NodeId, n: Name, blocked: bool)
    ensures SameNodes(s, RenameBetween(s, od, o, nd, n, blocked).1)
  {
  }

  lemma StepContinues(sys: Sys, op: Op, memfd: NodeId -> bool)
    requires Sound(sys)
    ensures Continues(sys, Step(sys, op, memfd).sys) && SoundIds(Step(sys, op, memfd).sys)
  {
    var s, s' := sys.state, Step(sys, op, memfd).sys.state;
    match op {
      case Unlink(path) =>
        RemovalKeepsNodes(s, path, File);
        SameNodesContinue(sys, s');
      case Rmdir(path) =>
        RemovalKeepsNodes(s, path, Dir);
        SameNodesContinue(sys, s');
      case Rename(o, n) =>
        RenameKeepsNodes(s, o, n);
        SameNodesContinue(sys, s');
      case Chmod(path, mode) =>
        assert SameNodes(s, s');
        SameNodesContinue(sys, s');
      case Elsewhere =>
      case _ =>
        var d, name, kind, mode := CreationHasOneForm(sys, op, memfd);
        CreationContinues(sys, d, name, kind, mode, memfd(sys.next));
    }
  }

  lemma SameNodesContinue(sys: Sys, s': State)
    requires SoundIds(sys) && SameNodes(sys.state, s')
    ensures Continues(sys, Sys(s', sys.next)) && SoundIds(Sys(s', sys.next))
  {
  }

  lemma CreationContinues(sys: Sys, d: NodeId, name: Name, kind: Kind, mode: nat, ok: bool)
    requires SoundIds(sys)
    ensures var b := Sys(CreateIn(sys.state, d, name, kind, mode, sys.next, ok).state, sys.next + 1);
            Continues(sys, b) && SoundIds(b)
  {
  }

  lemma StepIsSound(sys: Sys, op: Op, memfd: NodeId -> bool)
    requires Sound(sys) && NormalRename(op)
    ensures Sound(Step(sys, op, memfd).sys) && Continues(sys, Step(sys, op, memfd).sys)
  {
    StepKeepsTree(sys, op, memfd);
    StepContinues(sys, op, memfd);
  }

  lemma {:induction false} RunIsSound(sys: Sys, ops: seq<Op>, memfd: NodeId -> bool)
    requires Sound(sys) && forall i :: 0 <= i < |ops| ==> NormalRename(ops[i])
    ensures Sound(Run(sys, ops, memfd)) && Continues(sys, Run(sys, ops, memfd))
    decreases |ops|
  {
    if ops != [] {
      StepIsSound(sys, ops[0], memfd);
      RunIsSound(Step(sys, ops[0], memfd).sys, ops[1..], memfd);
    }
  }

  lemma FreshIsSound(root: NodeId)
    ensures Sound(Sys(Initial(root), root + 1))
  {
    InitialIsTree(root);
  }

  // Tree shape in every state a fresh file system can reach.
  lemma EveryRunIsATree(root: NodeId, ops: seq<Op>, memfd: NodeId -> bool)
    requires forall i :: 0 <= i < |ops| ==> NormalRename(ops[i])
    ensures Sound(Run(Sys(Initial(root), root + 1), ops, memfd))
  {
    FreshIsSound(root);
    RunIsSound(Sys(Initial(root), root + 1), ops, memfd);
  }

  // On paths that keep a `..` the guard can be talked past: moving `/a` to `/../a/b` closes a cycle.
  lemma UnnormalisedRenameBreaksTree(root: NodeId, a: Name, b: Name, memfd: NodeId -> bool)
    requires memfd(root + 1)
    ensures var empty := Sys(Initial(root), root + 1);
            var mid := Step(empty, Mkdir([Normal(a)], 0x1ED), memfd).sys;
            !Tree(Step(mid, Rename([Normal(a)], [ParentDir, Normal(a), Normal(b)]), memfd).sys.state)
  {
    var mid := OneDirectory(root, a, b, memfd);
    LoneDirectoryMovesBelowItself(mid.state, root + 1, a, b);
    RenameKeepsTreeExactlyWhen(mid.state, [Normal(a)], [ParentDir, Normal(a), Normal(b)]);
  }

  // A fresh file system with one empty directory in it.
  lemma OneDirectory(root: NodeId, a: Name, b: Name, memfd: NodeId -> bool) returns (mid: Sys)
    requires memfd(root + 1)
    ensures mid == Step(Sys(Initial(root), root + 1), Mkdir([Normal(a)], 0x1ED), memfd).sys
    ensures Tree(mid.state) && Child(mid.state, mid.state.root, a) == Some(root + 1)
    ensures IsDir(mid.state, root + 1) && Child(mid.state, root + 1, b) == None
  {
    var empty, mk := Sys(Initial(root), root + 1), Mkdir([Normal(a)], 0x1ED);
    InitialIsTree(root);
    StepIsSound(empty, mk, memfd);
    mid := Step(empty, mk, memfd).sys;
    assert Init([Normal(a)]) == [];
  }

  lemma LoneDirectoryMovesBelowItself(s: State, d: NodeId, a: Name, b: Name)
    requires Tree(s) && Child(s, s.root, a) == Some(d) && IsDir(s, d) && Child(s, d, b) == None
    ensures MovesBelowItself(s, [Normal(a)], [ParentDir, Normal(a), Normal(b)])
  {
    NamesPastDotDot(a, b);
    assert [Normal(a)][0] != [ParentDir, Normal(a), Normal(b)][0];
    assert Init([ParentDir, Normal(a), Normal(b)]) == [ParentDir, Normal(a)];
    assert [] + [a] == [a] && [a] + [b] == [a, b];
    WalkSnoc(s, s.root, [], a);
    WalkSnoc(s, s.root, [a], b);
  }

  lemma NamesPastDotDot(a: Name, b: Name)
    ensures Names([Normal(a)]) == [a] && Names([ParentDir, Normal(a)]) == [a]
    ensures Names([ParentDir, Normal(a), Normal(b)]) == [a, b]
  {
    assert Init([Normal(a)]) == [] && Init([ParentDir]) == [] && Init([ParentDir, Normal(a)]) == [ParentDir];
    assert Names([ParentDir]) == [] && Names([ParentDir, Normal(a)]) == [a];
    assert Init([ParentDir, Normal(a), Normal(b)]) == [ParentDir, Normal(a)];
  }

  // The life of every node ever allocated, in any run: link count, parent and mapping agree, its
  // identity is fixed, and once dropped it stays dropped.
  lemma NodeLifeCycle(root: NodeId, before: seq<Op>, after: seq<Op>, memfd: NodeId -> bool, id: NodeId)
    requires forall i :: 0 <= i < |before| ==> NormalRename(before[i])
    requires forall i :: 0 <= i < |after| ==> NormalRename(after[i])
    requires Known(Run(Sys(Initial(root), root + 1), before, memfd).state, id)
    ensures var a := Run(Sys(Initial(root), root + 1), before, memfd);
            var b := Run(a, after, memfd);
      && id < a.next <= b.next && Known(b.state, id)
      && b.state.inodes[id].kind == a.state.inodes[id].kind
      && (b.state.inodes[id].links == 0 <==> b.state.inodes[id].parent == None)
      && (b.state.inodes[id].links == 0 <==> !Mapped(b.state, id))
      && (!Mapped(a.state, id) ==> !Mapped(b.state, id))
  {
    EveryRunIsATree(root, before, memfd);
    var a := Run(Sys(Initial(root), root + 1), before, memfd);
    RunIsSound(a, after, memfd);
  }

  // ----- a linked node stays linked until it is dropped

  ghost predicate Linked(s: State, id: NodeId) {
    exists p :: Lookup(s, p) == Some(id)
  }

  // Parent pointers of nodes that stay mapped keep leading to the root.
  lemma StepKeepsLinked(sys: Sys, op: Op, memfd: NodeId -> bool, id: NodeId)
    requires Sound(sys) && NormalRename(op) && Linked(sys.state, id)
    requires Mapped(Step(sys, op, memfd).sys.state, id)
    ensures Linked(Step(sys, op, memfd).sys.state, id)
  {
    var s := sys.state;
    var s' := Step(sys, op, memfd).sys.state;
    var p :| Lookup(s, p) == Some(id);
    match op {
      case Rename(o, n) =>
        RenameKeepsLinked(s, o, n, p);
      case Unlink(path) => RemoveKeepsLinked(s, path, File, p);
      case Rmdir(path) => RemoveKeepsLinked(s, path, Dir, p);
      case Chmod(path, mode) =>
        ChmodKeepsWalks(s, path, mode, s.root, p);
        assert Lookup(s', p) == Some(id);
      case Elsewhere =>
      case _ =>
        CreationKeepsLookup(sys, op, memfd, p);
        assert Lookup(s', p) == Some(id);
    }
  }

  lemma CreateInKeepsLookup(s: State, d: NodeId, name: Name, kind: Kind, mode: nat, id: NodeId, memfd: bool,
                            p: seq<Name>)
    requires Tree(s) && !Known(s, id) && Lookup(s, p).Some?
    ensures Lookup(CreateIn(s, d, name, kind, mode, id, memfd).state, p) == Lookup(s, p)
  {
    if CreateIn(s, d, name, kind, mode, id, memfd).node.Some? {
      assert HasAddress(s, d);
      var u, dir :| IsTop(s, u) && Walk(s, u, dir) == Some(d);
      CreateWalk(s, u, dir, name, kind, mode, id, s.root, p);
      WalkSnoc(s, u, dir, name);
      ChildFacts(s, d, name);
    }
  }

  lemma CreationKeepsLookup(sys: Sys, op: Op, memfd: NodeId -> bool, p: seq<Name>)
    requires Sound(sys) && Lookup(sys.state, p).Some? && Creates(op)
    ensures Lookup(Step(sys, op, memfd).sys.state, p) == Lookup(sys.state, p)
  {
    var Sys(s, next) := sys;
    var d, name, kind, mode := CreationHasOneForm(sys, op, memfd);
    CreateInKeepsLookup(s, d, name, kind, mode, next, memfd(next), p);
  }

  lemma RenameKeepsLinked(s: State, o: Parts, n: Parts, p: seq<Name>)
    requires Tree(s) && IsNormal(o) && IsNormal(n) && Lookup(s, p).Some?
    requires Mapped(RenameAt(s, o, n).1, Lookup(s, p).value)
    ensures Linked(RenameAt(s, o, n).1, Lookup(s, p).value)
  {
    var s' := RenameAt(s, o, n).1;
    if s' == s {
      assert Lookup(s', p) == Lookup(s, p);
    } else {
      StartsWithOnNames(o, n);
      NamesOfNormal(o);
      NamesOfNormal(n);
      MoveKeepsLinked(s, Names(o), Names(n), p);
    }
  }

  lemma MoveKeepsLinked(s: State, o: seq<Name>, n: seq<Name>, p: seq<Name>)
    requires Tree(s) && o != [] && n != [] && o != n && RenameNames(s, o, n, o <= n).0 && Lookup(s, p).Some?
    requires Mapped(RenameNames(s, o, n, o <= n).1, Lookup(s, p).value)
    ensures Linked(RenameNames(s, o, n, o <= n).1, Lookup(s, p).value)
  {
    var s' := RenameNames(s, o, n, o <= n).1;
    var q := if o <= p then n + p[|o|..] else p;
    SuccessSeparatesPaths(s, o, n);
    var od, nd, id, target := RenameFinds(s, o, n, o <= n);
    MovedWalk(s, o, n, od, nd, id, target, s.root, q);
    assert o <= p ==> q[|n|..] == p[|o|..] && o + p[|o|..] == p;
    if n <= p && !(o <= p) {
      TargetIsNotAbove(s, o, n, od, nd, id, target);
      WalkPrefix(s, s.root, n, p);
      OnlyNodeUnderEmpty(s, n, target.value, p);
    } else {
      assert Lookup(s', q) == Lookup(s, p);
    }
  }

  lemma RemoveKeepsLinked(s: State, path: Parts, kind: Kind, p: seq<Name>)
    requires Tree(s) && Lookup(s, p).Some?
    requires Mapped(RemoveAt(s, path, kind).1, Lookup(s, p).value)
    ensures Linked(RemoveAt(s, path, kind).1, Lookup(s, p).value)
  {
    var s' := RemoveAt(s, path, kind).1;
    if RemoveAt(s, path, kind).0 {
      RemoveIsUnlinked(s, path, kind);
      var q := Names(path);
      var d, id := Lookup(s, Init(q)).value, Lookup(s, q).value;
      UnlinkedWalk(s, q, d, id, s.root, p);
      if q <= p {
        OnlyNodeUnderEmpty(s, q, id, p);
      }
    }
    assert Lookup(s', p) == Lookup(s, p);
  }

  lemma {:induction false} RunKeepsLinked(sys: Sys, ops: seq<Op>, memfd: NodeId -> bool, id: NodeId)
    requires Sound(sys) && Linked(sys.state, id)
    requires forall i :: 0 <= i < |ops| ==> NormalRename(ops[i])
    requires Mapped(Run(sys, ops, memfd).state, id)
    ensures Linked(Run(sys, ops, memfd).state, id)
    decreases |ops|
  {
    if ops != [] {
      var sys' := Step(sys, ops[0], memfd).sys;
      StepIsSound(sys, ops[0], memfd);
      RunIsSound(sys', ops[1..], memfd);
      StepKeepsLinked(sys, ops[0], memfd, id);
      RunKeepsLinked(sys', ops[1..], memfd, id);
    }
  }

  // However stale the path a handle was opened under: after any run that does not remove or replace
  // the node, opening and creating through it act at the path the node has now.
  lemma HandleActsAtCurrentPath(sys: Sys, ops: seq<Op>, memfd: NodeId -> bool, id: NodeId, ups: Parts, names: seq<Name>)
    returns (p: seq<Name>)
    requires Sound(sys) && Linked(sys.state, id)
    requires forall i :: 0 <= i < |ops| ==> NormalRename(ops[i])
    requires Mapped(Run(sys, ops, memfd).state, id) && NoNames(ups)
    ensures var now := Run(sys, ops, memfd);
      && Lookup(now.state, p) == Some(id)
      && (forall mode :: Step(now, MkdirVia(id, ups + Abs(names), mode), memfd)
                      == Step(now, Mkdir(Abs(NormFrom(p, ups + Abs(names))), mode), memfd))
      && (forall flags, mode, backing :: Step(now, OpenVia(id, ups + Abs(names), flags, mode, backing), memfd)
                                         == Step(now, Open(Abs(NormFrom(p, ups + Abs(names))), flags, mode, backing),
                                                 memfd))
  {
    var now := Run(sys, ops, memfd);
    RunIsSound(sys, ops, memfd);
    RunKeepsLinked(sys, ops, memfd, id);
    p :| Lookup(now.state, p) == Some(id);
    forall mode {
      CreateFromActsAtCurrentPath(now.state, p, ups, names, Dir, mode, now.next, memfd(now.next));
    }
    forall flags, mode, backing {
      OpenFromActsAtCurrentPath(now.state, p, ups, names, flags, mode, now.next, memfd(now.next), backing);
    }
  }

  // A directory that has been removed but is still open takes new children; no path reaches them.
  lemma RemovedDirectoryTakesChildren(sys: Sys, d: NodeId, n: Name, mode: nat, memfd: NodeId -> bool)
    requires Sound(sys) && IsDir(sys.state, d) && !Mapped(sys.state, d)
    requires n !in sys.state.inodes[d].entries && memfd(sys.next)
    ensures var o := Step(sys, MkdirVia(d, [Normal(n)], mode), memfd);
            o.rc == 0 && Mapped(o.sys.state, sys.next) && !Linked(o.sys.state, sys.next)
  {
    var op := MkdirVia(d, [Normal(n)], mode);
    StepIsSound(sys, op, memfd);
    var s' := Step(sys, op, memfd).sys.state;
    assert Init([Normal(n)]) == [];
    assert Child(s', d, n) == Some(sys.next);
    WalkSnoc(s', d, [], n);
    assert [] + [n] == [n];
    if Linked(s', sys.next) {
      var p :| Lookup(s', p) == Some(sys.next);
      AddressUnique(s', s'.root, p, d, [n]);
    }
  }
}
