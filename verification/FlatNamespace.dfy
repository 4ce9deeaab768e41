/**
 The simple picture of a file system: a prefix-closed map from normal paths to what they name.
 Every run of path operations on the node heap is a run on this map.
 */
module FlatNamespace {
  import opened Wrappers
  import opened Paths
  import opened Namespace
  import opened Operations
  import opened Renaming
  import opened Runs

  datatype Info = Info(id: NodeId, kind: Kind, mode: nat)
  type Flat = imap<seq<Name>, Info>

  ghost function InfoOf(s: State, id: NodeId): Info
    requires Known(s, id)
  {
    Info(id, s.inodes[id].kind, s.inodes[id].mode)
  }

  ghost function View(s: State): Flat {
    imap p: seq<Name> | Lookup(s, p).Some? :: InfoOf(s, Lookup(s, p).value)
  }

  ghost predicate PrefixClosed(m: Flat) {
    && [] in m
    && forall p, q :: p in m && q < p ==> q in m && m[q].kind.Dir?
  }

  ghost predicate Childless(m: Flat, p: seq<Name>) {
    forall q :: q in m ==> !(p < q)
  }

  // ----- the operations on the map

  datatype FlatMade = FlatMade(node: Option<NodeId>, kind: Option<Kind>, map': Flat, drawn: bool)
  datatype FlatOutcome = FlatOutcome(rc: int, node: Option<NodeId>, map': Flat, next: NodeId)

  ghost function FlatCreate(m: Flat, p: seq<Name>, kind: Kind, mode: nat, id: NodeId, memfd: bool): FlatMade {
    if p == [] || Init(p) !in m || m[Init(p)].kind.File? || p in m then FlatMade(None, None, m, false)
    else if !memfd then FlatMade(None, None, m, true)
    else FlatMade(Some(id), Some(kind), m[p := Info(id, kind, mode % 4096)], true)
  }

  ghost function FlatOpen(m: Flat, p: seq<Name>, flags: Flags, mode: nat, id: NodeId, memfd: bool,
                          backing: int): FlatOutcome
  {
    if p in m && flags.creat && flags.excl then FlatOutcome(-1, None, m, id)
    else if p !in m && !flags.creat then FlatOutcome(-1, None, m, id)
    else
      var made := if p in m then FlatMade(Some(m[p].id), Some(m[p].kind), m, false)
                  else FlatCreate(m, p, File, mode, id, memfd);
      var next := if made.drawn then id + 1 else id;
      if made.node.None? || (flags.directory && made.kind != Some(Dir)) then FlatOutcome(-1, None, made.map', next)
      else FlatOutcome(backing, if backing < 0 then None else made.node, made.map', next)
  }

  ghost function FlatRemove(m: Flat, p: seq<Name>, kind: Kind): (bool, Flat) {
    if p != [] && p in m && m[p].kind == kind && Childless(m, p)
    then (true, imap q | q in m && q != p :: m[q])
    else (false, m)
  }

  ghost predicate FlatRenames(m: Flat, o: seq<Name>, n: seq<Name>) {
    && o != [] && n != []
    && o in m && Init(n) in m && m[Init(n)].kind.Dir?
    && (m[o].kind.Dir? ==> !(o <= n))
    && (n in m ==> m[n].kind == m[o].kind && Childless(m, n))
  }

  ghost function Moved(m: Flat, o: seq<Name>, n: seq<Name>): Flat {
    imap q: seq<Name> | (n <= q && o + q[|n|..] in m) || (q in m && !(n <= q) && !(o <= q)) ::
      if n <= q then m[o + q[|n|..]] else m[q]
  }

  ghost function FlatRename(m: Flat, o: seq<Name>, n: seq<Name>): (bool, Flat) {
    if o == n then (o != [], m)
    else if FlatRenames(m, o, n) then (true, Moved(m, o, n))
    else (false, m)
  }

  ghost function FlatChmod(m: Flat, p: seq<Name>, mode: nat): (bool, Flat) {
    if p in m then (true, m[p := m[p].(mode := mode % 4096)]) else (false, m)
  }

  predicate ByPath(op: Op) {
    match op
    case Rename(o, n) => IsNormal(o) && IsNormal(n)
    case OpenVia(_, _, _, _, _) => false
    case MkdirVia(_, _, _) => false
    case Elsewhere => true
    case _ => IsNormal(op.path)
  }

  ghost function FlatStep(m: Flat, next: NodeId, op: Op, memfd: NodeId -> bool): FlatOutcome
    requires ByPath(op)
  {
    match op
    case Mkdir(path, mode) =>
      var made := FlatCreate(m, Names(path), Dir, mode, next, memfd(next));
      FlatOutcome(Rc(made.node.Some?), None, made.map', if made.drawn then next + 1 else next)
    case Open(path, flags, mode, backing) => FlatOpen(m, Names(path), flags, mode, next, memfd(next), backing)
    case Unlink(path) =>
      FlatOutcome(Rc(FlatRemove(m, Names(path), File).0), None, FlatRemove(m, Names(path), File).1, next)
    case Rmdir(path) =>
      FlatOutcome(Rc(FlatRemove(m, Names(path), Dir).0), None, FlatRemove(m, Names(path), Dir).1, next)
    case Rename(o, n) =>
      FlatOutcome(Rc(FlatRename(m, Names(o), Names(n)).0), None, FlatRename(m, Names(o), Names(n)).1, next)
    case Chmod(path, mode) =>
      FlatOutcome(Rc(FlatChmod(m, Names(path), mode).0), None, FlatChmod(m, Names(path), mode).1, next)
    case Elsewhere => FlatOutcome(0, None, m, next + 1)
  }

  // ----- the view

  lemma ViewIsPrefixClosed(s: State)
    requires Tree(s)
    ensures PrefixClosed(View(s))
  {
    assert Lookup(s, []) == Some(s.root);
    forall p, q | p in View(s) && q < p
      ensures q in View(s) && View(s)[q].kind.Dir?
    {
      WalkPrefix(s, s.root, q, p);
    }
  }

  lemma ChildlessMeansEmpty(s: State, p: seq<Name>)
    requires Tree(s) && Lookup(s, p).Some?
    ensures Childless(View(s), p) <==> s.inodes[Lookup(s, p).value].entries == map[]
  {
    var id := Lookup(s, p).value;
    assert EntriesOk(s, id);
    if s.inodes[id].entries == map[] {
      forall q | q in View(s)
        ensures !(p < q)
      {
        if p < q {
          OnlyNodeUnderEmpty(s, p, id, q);
        }
      }
    } else {
      EmptyMeansNoChildPath(s, p);
      var m :| Lookup(s, p + [m]).Some?;
      assert p + [m] in View(s) && p < p + [m];
    }
  }

  lemma NormalPath(path: Parts)
    requires IsNormal(path)
    ensures path == [] <==> Names(path) == []
    ensures path != [] ==> FileName(path) == Some(Last(Names(path))) && Names(Init(path)) == Init(Names(path))
  {
    NamesOfNormal(path);
  }

  // ----- refinement, operation by operation

  lemma CreateRefines(s: State, path: Parts, kind: Kind, mode: nat, id: NodeId, memfd: bool)
    requires Tree(s) && IsNormal(path) && !Known(s, id)
    ensures var made := CreateAt(s, path, kind, mode, id, memfd);
            var flat := FlatCreate(View(s), Names(path), kind, mode, id, memfd);
            && made.node == flat.node && made.drawn == flat.drawn && View(made.state) == flat.map'
            && (made.node.Some? ==> Known(made.state, id) && made.state.inodes[id].kind == kind)
  {
    var p := Names(path);
    NormalPath(path);
    if p != [] && Lookup(s, Init(p)).Some? {
      CreateInRefines(s, p, kind, mode, id, memfd);
    }
  }

  lemma CreateInRefines(s: State, p: seq<Name>, kind: Kind, mode: nat, id: NodeId, memfd: bool)
    requires Tree(s) && p != [] && !Known(s, id) && Lookup(s, Init(p)).Some?
    ensures var made := CreateIn(s, Lookup(s, Init(p)).value, Last(p), kind, mode, id, memfd);
            var flat := FlatCreate(View(s), p, kind, mode, id, memfd);
            && made.node == flat.node && made.drawn == flat.drawn && View(made.state) == flat.map'
            && (made.node.Some? ==> Known(made.state, id) && made.state.inodes[id].kind == kind)
  {
    var d := Lookup(s, Init(p)).value;
    WalkLast(s, s.root, p);
    if IsDir(s, d) {
      ChildFacts(s, d, Last(p));
    }
    if CreateIn(s, d, Last(p), kind, mode, id, memfd).node.Some? {
      CreateAddsOnePath(s, p, kind, mode, id);
    }
  }

  lemma CreateAddsOnePath(s: State, p: seq<Name>, kind: Kind, mode: nat, id: NodeId)
    requires Tree(s) && p != [] && !Known(s, id) && Lookup(s, Init(p)).Some?
    requires CreateIn(s, Lookup(s, Init(p)).value, Last(p), kind, mode, id, true).node.Some?
    ensures View(CreateIn(s, Lookup(s, Init(p)).value, Last(p), kind, mode, id, true).state)
         == View(s)[p := Info(id, kind, mode % 4096)]
  {
    var d := Lookup(s, Init(p)).value;
    var s' := CreateIn(s, d, Last(p), kind, mode, id, true).state;
    assert p == Init(p) + [Last(p)];
    forall q: seq<Name>
      ensures Lookup(s', q) == if q == p then Some(id) else Lookup(s, q)
    {
      CreateWalk(s, s.root, Init(p), Last(p), kind, mode, id, s.root, q);
    }
    assert View(s') == View(s)[p := Info(id, kind, mode % 4096)];
  }

  lemma OpenRefines(s: State, path: Parts, flags: Flags, mode: nat, next: NodeId, memfd: bool, backing: int)
    requires Tree(s) && IsNormal(path) && !Known(s, next)
    ensures FlatOpen(View(s), Names(path), flags, mode, next, memfd, backing)
         == FlatOfOpened(OpenAt(s, path, flags, mode, next, memfd, backing), next)
  {
    var existing, made := Lookup(s, Names(path)), CreateAt(s, path, File, mode, next, memfd);
    CreateRefines(s, path, File, mode, next, memfd);
    assert existing.Some? ==> View(s)[Names(path)] == InfoOf(s, existing.value);
    OpenResolvedRefines(s, Names(path), existing, made, flags, mode, next, memfd, backing);
  }

  ghost function FlatOfOpened(o: Opened, next: NodeId): FlatOutcome {
    FlatOutcome(o.fd, o.node, View(o.state), if o.drawn then next + 1 else next)
  }

  lemma OpenResolvedRefines(s: State, p: seq<Name>, existing: Option<NodeId>, made: Made, flags: Flags,
                            mode: nat, next: NodeId, memfd: bool, backing: int)
    requires existing.Some? <==> p in View(s)
    requires existing.Some? ==> Known(s, existing.value) && View(s)[p] == InfoOf(s, existing.value)
    requires var flat := FlatCreate(View(s), p, File, mode, next, memfd);
             && made.node == flat.node && made.drawn == flat.drawn && View(made.state) == flat.map'
             && (made.node.Some? ==> Known(made.state, next) && made.state.inodes[next].kind == File)
    ensures FlatOpen(View(s), p, flags, mode, next, memfd, backing)
         == FlatOfOpened(OpenResolved(s, existing, made, flags, backing), next)
  {
    var m := View(s);
    if existing.None? && flags.creat {
      var flat := FlatCreate(m, p, File, mode, next, memfd);
    }
  }

  lemma RemoveRefines(s: State, path: Parts, kind: Kind)
    requires Tree(s) && IsNormal(path)
    ensures var r := RemoveAt(s, path, kind);
            FlatRemove(View(s), Names(path), kind) == (r.0, View(r.1))
  {
    var p := Names(path);
    NormalPath(path);
    if p != [] {
      WalkLast(s, s.root, p);
      if Lookup(s, p).Some? {
        ChildlessMeansEmpty(s, p);
        assert EntriesOk(s, Lookup(s, p).value);
      }
      if RemoveAt(s, path, kind).0 {
        RemoveIsUnlinked(s, path, kind);
        RemoveDropsOnePath(s, p, Lookup(s, Init(p)).value, Lookup(s, p).value);
      }
    }
  }

  lemma RemoveDropsOnePath(s: State, p: seq<Name>, d: NodeId, id: NodeId)
    requires Tree(s) && Removable(s, p, d, id)
    ensures View(Unlinked(s, d, Last(p), id)) == imap q | q in View(s) && q != p :: View(s)[q]
  {
    var s' := Unlinked(s, d, Last(p), id);
    forall q: seq<Name>
      ensures Lookup(s', q) == if q == p then None else Lookup(s, q)
    {
      UnlinkedWalk(s, p, d, id, s.root, q);
      if p <= q && Lookup(s, q).Some? {
        OnlyNodeUnderEmpty(s, p, id, q);
      }
    }
    assert View(s') == imap q | q in View(s) && q != p :: View(s)[q];
  }

  lemma RenameRefines(s: State, o: Parts, n: Parts)
    requires Tree(s) && IsNormal(o) && IsNormal(n)
    ensures var r := RenameAt(s, o, n);
            FlatRename(View(s), Names(o), Names(n)) == (r.0, View(r.1))
  {
    NormalPath(o);
    NormalPath(n);
    StartsWithOnNames(o, n);
    if o != [] && n != [] && o != n {
      RenameNamesRefines(s, Names(o), Names(n));
    }
  }

  lemma RenameNamesRefines(s: State, o: seq<Name>, n: seq<Name>)
    requires Tree(s) && o != [] && n != [] && o != n
    ensures RenameNames(s, o, n, o <= n).0 <==> FlatRenames(View(s), o, n)
    ensures View(RenameNames(s, o, n, o <= n).1)
         == if FlatRenames(View(s), o, n) then Moved(View(s), o, n) else View(s)
  {
    RenameNamesSucceeds(s, o, n, o <= n);
    if Lookup(s, n).Some? {
      ChildlessMeansEmpty(s, n);
      assert EntriesOk(s, Lookup(s, n).value);
      if IsDir(s, Lookup(s, n).value) {
        EmptyMeansNoChildPath(s, n);
      }
    }
    if RenameNames(s, o, n, o <= n).0 {
      MoveRefines(s, o, n);
    }
  }

  lemma MoveRefinesAt(s: State, o: seq<Name>, n: seq<Name>, q: seq<Name>)
    requires Tree(s) && o != [] && n != [] && o != n && RenameNames(s, o, n, o <= n).0
    ensures var s' := RenameNames(s, o, n, o <= n).1;
      && (Lookup(s', q).Some? <==> q in Moved(View(s), o, n))
      && (Lookup(s', q).Some? ==> InfoOf(s', Lookup(s', q).value) == Moved(View(s), o, n)[q])
  {
    SuccessSeparatesPaths(s, o, n);
    var od, nd, id, target := RenameFinds(s, o, n, o <= n);
    MovedWalk(s, o, n, od, nd, id, target, s.root, q);
  }

  lemma MoveRefines(s: State, o: seq<Name>, n: seq<Name>)
    requires Tree(s) && o != [] && n != [] && o != n && RenameNames(s, o, n, o <= n).0
    ensures View(RenameNames(s, o, n, o <= n).1) == Moved(View(s), o, n)
  {
    forall q: seq<Name> {
      MoveRefinesAt(s, o, n, q);
    }
  }

  lemma ChmodRefines(s: State, path: Parts, mode: nat)
    requires Tree(s)
    ensures var r := ChmodAt(s, path, mode);
            FlatChmod(View(s), Names(path), mode) == (r.0, View(r.1))
  {
    var p, r := Names(path), ChmodAt(s, path, mode);
    if r.0 {
      forall q: seq<Name>
        ensures Lookup(r.1, q) == Lookup(s, q)
        ensures Lookup(s, q) == Lookup(s, p) ==> q == p
      {
        ChmodKeepsWalks(s, path, mode, s.root, q);
        if Lookup(s, q) == Lookup(s, p) {
          LookupInjective(s, p, q);
        }
      }
      assert View(r.1) == FlatChmod(View(s), p, mode).1;
    }
  }

  lemma StepRefines(sys: Sys, op: Op, memfd: NodeId -> bool)
    requires Sound(sys) && ByPath(op)
    ensures var o := Step(sys, op, memfd);
            FlatStep(View(sys.state), sys.next, op, memfd) == FlatOutcome(o.rc, o.node, View(o.sys.state), o.sys.next)
  {
    var Sys(s, next) := sys;
    match op {
      case Mkdir(path, mode) => CreateRefines(s, path, Dir, mode, next, memfd(next));
      case Open(path, flags, mode, backing) => OpenRefines(s, path, flags, mode, next, memfd(next), backing);
      case Unlink(path) => RemoveRefines(s, path, File);
      case Rmdir(path) => RemoveRefines(s, path, Dir);
      case Rename(o, n) => RenameRefines(s, o, n);
      case Chmod(path, mode) => ChmodRefines(s, path, mode);
      case Elsewhere =>
    }
  }

  // ----- refinement of whole runs

  // What a caller sees of a run: the return code and the node of each operation in turn.
  function Codes(sys: Sys, ops: seq<Op>, memfd: NodeId -> bool): seq<(int, Option<NodeId>)>
    decreases |ops|
  {
    if ops == [] then []
    else
      var o := Step(sys, ops[0], memfd);
      [(o.rc, o.node)] + Codes(o.sys, ops[1..], memfd)
  }

  ghost function FlatCodes(m: Flat, next: NodeId, ops: seq<Op>, memfd: NodeId -> bool): seq<(int, Option<NodeId>)>
    requires forall i :: 0 <= i < |ops| ==> ByPath(ops[i])
    decreases |ops|
  {
    if ops == [] then []
    else
      var o := FlatStep(m, next, ops[0], memfd);
      [(o.rc, o.node)] + FlatCodes(o.map', o.next, ops[1..], memfd)
  }

  ghost function FlatRun(m: Flat, next: NodeId, ops: seq<Op>, memfd: NodeId -> bool): Flat
    requires forall i :: 0 <= i < |ops| ==> ByPath(ops[i])
    decreases |ops|
  {
    if ops == [] then m
    else
      var o := FlatStep(m, next, ops[0], memfd);
      FlatRun(o.map', o.next, ops[1..], memfd)
  }

  lemma {:induction false} RunRefines(sys: Sys, ops: seq<Op>, memfd: NodeId -> bool)
    requires Sound(sys) && forall i :: 0 <= i < |ops| ==> ByPath(ops[i])
    ensures Codes(sys, ops, memfd) == FlatCodes(View(sys.state), sys.next, ops, memfd)
    ensures View(Run(sys, ops, memfd).state) == FlatRun(View(sys.state), sys.next, ops, memfd)
    decreases |ops|
  {
    if ops != [] {
      StepRefines(sys, ops[0], memfd);
      StepIsSound(sys, ops[0], memfd);
      RunRefines(Step(sys, ops[0], memfd).sys, ops[1..], memfd);
    }
  }

  ghost function FreshMap(root: NodeId): Flat {
    imap[[] := Info(root, Dir, 0x1ED)]
  }

  lemma InitialView(root: NodeId)
    ensures View(Initial(root)) == FreshMap(root)
  {
    InitialIsTree(root);
  }

  // From a fresh file system, every return code and every later lookup is the flat map's.
  lemma MemoryFSRefinesFlatMap(root: NodeId, ops: seq<Op>, memfd: NodeId -> bool)
    requires forall i :: 0 <= i < |ops| ==> ByPath(ops[i])
    ensures Codes(Sys(Initial(root), root + 1), ops, memfd) == FlatCodes(FreshMap(root), root + 1, ops, memfd)
    ensures View(Run(Sys(Initial(root), root + 1), ops, memfd).state) == FlatRun(FreshMap(root), root + 1, ops, memfd)
    ensures PrefixClosed(FlatRun(FreshMap(root), root + 1, ops, memfd))
  {
    FreshIsSound(root);
    InitialView(root);
    RunRefines(Sys(Initial(root), root + 1), ops, memfd);
    EveryRunIsATree(root, ops, memfd);
    ViewIsPrefixClosed(Run(Sys(Initial(root), root + 1), ops, memfd).state);
  }
}
