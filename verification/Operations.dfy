/**
 What creation, removal, renaming and mode changes do to a namespace, and that each keeps the tree.
 Kernel outcomes (`memfd_create`, reopening a backing file) are arguments.
 */
module Operations {
  import opened Wrappers
  import opened Paths
  import opened Namespace

  // `drawn` says that a node id was taken from the process-wide counter.
  datatype Made = Made(node: Option<NodeId>, state: State, drawn: bool)

  function CreateIn(s: State, d: NodeId, name: Name, kind: Kind, mode: nat, id: NodeId, memfd: bool): Made {
    if !IsDir(s, d) || name in s.inodes[d].entries then Made(None, s, false)
    else if !memfd then Made(None, s, true)
    else
      var parent := s.inodes[d].(entries := s.inodes[d].entries[name := id]);
      var node := Inode(kind, Some(d), mode % 4096, 1, map[], true);
      Made(Some(id), s.(inodes := s.inodes[d := parent][id := node]), true)
  }

  lemma CreateInBySteps(s: State, d: NodeId, name: Name, kind: Kind, mode: nat, id: NodeId)
    requires IsDir(s, d) && name !in s.inodes[d].entries && !Known(s, id)
    ensures var s1 := Put(s, id, Inode(kind, Some(d), mode % 4096, 1, map[], true));
            CreateIn(s, d, name, kind, mode, id, true).state
              == Put(s1, d, s1.inodes[d].(entries := s1.inodes[d].entries[name := id]))
  {
  }

  function CreateAt(s: State, path: Parts, kind: Kind, mode: nat, id: NodeId, memfd: bool): Made {
    if FileName(path).None? then Made(None, s, false)
    else
      match Lookup(s, Names(Init(path)))
      case None => Made(None, s, false)
      case Some(d) => CreateIn(s, d, FileName(path).value, kind, mode, id, memfd)
  }

  function Put(s: State, id: NodeId, x: Inode): State {
    s.(inodes := s.inodes[id := x])
  }

  function Dropped(x: Inode): Inode {
    x.(parent := None, links := 0, mapped := false)
  }

  function RemoveAt(s: State, path: Parts, kind: Kind): (bool, State) {
    if FileName(path).None? then (false, s)
    else
      match Lookup(s, Names(Init(path)))
      case None => (false, s)
      case Some(d) => RemoveFrom(s, d, FileName(path).value, kind)
  }

  function RemoveFrom(s: State, d: NodeId, name: Name, kind: Kind): (bool, State) {
    match Child(s, d, name)
    case None => (false, s)
    case Some(id) =>
      if s.inodes[id].kind != kind || (kind.Dir? && s.inodes[id].entries != map[]) then (false, s)
      else (true, Unlinked(s, d, name, id))
  }

  function Unlinked(s: State, d: NodeId, name: Name, id: NodeId): State
    requires Known(s, d) && Known(s, id)
  {
    Put(Put(s, d, s.inodes[d].(entries := s.inodes[d].entries - {name})), id, Dropped(s.inodes[id]))
  }

  predicate CanReplace(s: State, source: NodeId, target: NodeId)
    requires Known(s, source) && Known(s, target)
  {
    && s.inodes[source].kind == s.inodes[target].kind
    && (IsDir(s, target) ==> s.inodes[target].entries == map[])
  }

  // The entry `o` of `od` becomes the entry `n` of `nd`; `target` is what `n` named before.
  function Relink(s: State, od: NodeId, o: Name, nd: NodeId, n: Name, id: NodeId, target: Option<NodeId>): State {
    s.(inodes := map x | x in s.inodes :: Relinked(s.inodes[x], x, od, o, nd, n, id, target))
  }

  function Relinked(x: Inode, xid: NodeId, od: NodeId, o: Name, nd: NodeId, n: Name, id: NodeId,
                    target: Option<NodeId>): Inode
  {
    var es := if xid == od then x.entries - {o} else x.entries;
    var x := x.(entries := if xid == nd then es[n := id] else es,
                parent := if xid == id then Some(nd) else x.parent);
    if target == Some(xid) then Dropped(x) else x
  }

  // The order in which a rename within one directory makes its updates.
  lemma RelinkWithin(s: State, d: NodeId, o: Name, n: Name, id: NodeId, target: Option<NodeId>)
    requires Known(s, d) && Known(s, id) && ParentOf(s, id) == Some(d)
    requires target.Some? ==> Known(s, target.value) && target.value != id
    ensures var s1 := if target.Some? then Put(s, target.value, Dropped(s.inodes[target.value])) else s;
            var s2 := Put(s1, d, s1.inodes[d].(entries := s1.inodes[d].entries - {o}));
            var s3 := Put(s2, d, s2.inodes[d].(entries := s2.inodes[d].entries[n := id]));
            s3 == Relink(s, d, o, d, n, id, target)
  {
  }

  // And across two directories.
  lemma RelinkAcross(s: State, od: NodeId, o: Name, nd: NodeId, n: Name, id: NodeId, target: Option<NodeId>)
    requires Known(s, od) && Known(s, nd) && Known(s, id) && od != nd
    requires target.Some? ==> Known(s, target.value) && target.value != id
    ensures var s1 := Put(s, od, s.inodes[od].(entries := s.inodes[od].entries - {o}));
            var s2 := Put(s1, nd, s1.inodes[nd].(entries := s1.inodes[nd].entries[n := id]));
            var s3 := if target.Some? then Put(s2, target.value, Dropped(s2.inodes[target.value])) else s2;
            Put(s3, id, s3.inodes[id].(parent := Some(nd))) == Relink(s, od, o, nd, n, id, target)
  {
  }

  // `blocked` is the outcome of the component-wise `starts_with` test.
  function RenameNames(s: State, o: seq<Name>, n: seq<Name>, blocked: bool): (bool, State)
    requires o != [] && n != []
  {
    var od, nd := Lookup(s, Init(o)), Lookup(s, Init(n));
    if od.None? || nd.None? || !IsDir(s, od.value) || !IsDir(s, nd.value) then (false, s)
    else RenameBetween(s, od.value, Last(o), nd.value, Last(n), blocked)
  }

  function RenameBetween(s: State, od: NodeId, o: Name, nd: NodeId, n: Name, blocked: bool): (bool, State) {
    var id, target := Child(s, od, o), Child(s, nd, n);
    if id.None? || (IsDir(s, id.value) && blocked) then (false, s)
    else if target == id then (true, s)
    else if target.Some? && !CanReplace(s, id.value, target.value) then (false, s)
    else (true, Relink(s, od, o, nd, n, id.value, target))
  }

  function RenameAt(s: State, o: Parts, n: Parts): (bool, State) {
    if o == [] || n == [] then (false, s)
    else if o == n then (true, s)
    else if FileName(o).None? || FileName(n).None? then (false, s)
    else RenameNames(s, Names(o), Names(n), o <= n)
  }

  lemma RenameAtByParents(s: State, o: Parts, n: Parts)
    requires o != n && FileName(o).Some? && FileName(n).Some?
    ensures var od, nd := Lookup(s, Names(Init(o))), Lookup(s, Names(Init(n)));
            RenameAt(s, o, n) == (
              if od.None? || nd.None? || !IsDir(s, od.value) || !IsDir(s, nd.value) then (false, s)
              else RenameBetween(s, od.value, FileName(o).value, nd.value, FileName(n).value, o <= n))
  {
    assert Init(Names(o)) == Names(Init(o)) && Init(Names(n)) == Names(Init(n));
  }

  function ChmodAt(s: State, path: Parts, mode: nat): (bool, State) {
    match Lookup(s, Names(path))
    case None => (false, s)
    case Some(id) => (true, Put(s, id, s.inodes[id].(mode := mode % 4096)))
  }

  // ----- opening

  datatype Flags = Flags(creat: bool, excl: bool, directory: bool, otherWrite: bool)
  datatype Opened = Opened(fd: int, node: Option<NodeId>, state: State, drawn: bool)

  // The node an open is about; `made` is what creating would do.
  function Found(s: State, existing: Option<NodeId>, made: Made, flags: Flags): Made {
    if existing.Some? then Made(if flags.creat && flags.excl then None else existing, s, false)
    else if flags.creat then made
    else Made(None, s, false)
  }

  // `backing` is the descriptor the kernel gives for the node's backing file.
  function OpenResolved(s: State, existing: Option<NodeId>, made: Made, flags: Flags, backing: int): Opened {
    var m := Found(s, existing, made, flags);
    if m.node.None? || (flags.directory && !IsDir(m.state, m.node.value)) then Opened(-1, None, m.state, m.drawn)
    else Opened(backing, if backing < 0 then None else m.node, m.state, m.drawn)
  }

  function OpenAt(s: State, path: Parts, flags: Flags, mode: nat, id: NodeId, memfd: bool, backing: int): Opened {
    OpenResolved(s, Lookup(s, Names(path)), CreateAt(s, path, File, mode, id, memfd), flags, backing)
  }

  lemma OpenWithoutCreating(s: State, path: Parts, flags: Flags, mode: nat, id: NodeId, memfd: bool, backing: int)
    requires !flags.creat
    ensures OpenAt(s, path, flags, mode, id, memfd, backing) == OpenAt(s, path, flags, mode, 0, false, backing)
    ensures OpenAt(s, path, flags, mode, id, memfd, backing).state == s
  {
  }

  // ----- walks after an edit

  ghost predicate AtEdge(s: State, u: NodeId, a: seq<Name>, x: NodeId, m: Name) {
    a != [] && Walk(s, u, Init(a)) == Some(x) && m == Last(a)
  }

  // The two states have the same edges, but perhaps at the paths `a` and `b` from `u`.
  ghost predicate SameEdgesBut(s: State, s': State, u: NodeId, a: seq<Name>, b: seq<Name>) {
    forall x, m :: Child(s', x, m) == Child(s, x, m) || AtEdge(s, u, a, x, m) || AtEdge(s, u, b, x, m)
  }

  lemma EdgeOnWalk(s: State, u: NodeId, a: seq<Name>, t: NodeId, q: seq<Name>, k: nat)
    requires Tree(s) && IsTop(s, u) && IsTop(s, t) && k < |q| && Walk(s, t, q[..k]).Some?
    requires AtEdge(s, u, a, Walk(s, t, q[..k]).value, q[k])
    ensures t == u && a <= q
  {
    AddressUnique(s, t, q[..k], u, Init(a));
    assert a == Init(a) + [Last(a)] == q[..k + 1];
  }

  lemma WalkOffEdges(s: State, s': State, u: NodeId, a: seq<Name>, b: seq<Name>, t: NodeId, q: seq<Name>)
    requires Tree(s) && IsTop(s, u) && IsTop(s, t) && Known(s', t)
    requires SameEdgesBut(s, s', u, a, b)
    requires t == u ==> !(a <= q) && !(b <= q)
    ensures Walk(s', t, q) == Walk(s, t, q)
  {
    forall k | 0 <= k < |q| && Walk(s, t, q[..k]).Some?
      ensures Child(s, Walk(s, t, q[..k]).value, q[k]) == Child(s', Walk(s, t, q[..k]).value, q[k])
    {
      var x := Walk(s, t, q[..k]).value;
      if AtEdge(s, u, a, x, q[k]) {
        EdgeOnWalk(s, u, a, t, q, k);
      } else if AtEdge(s, u, b, x, q[k]) {
        EdgeOnWalk(s, u, b, t, q, k);
      }
    }
    WalkAgree(s, s', t, q);
  }

  // A walk along `a` and on, in the edited state, once the part before the edge is unaffected.
  lemma WalkThroughEdge(s: State, s': State, u: NodeId, a: seq<Name>, b: seq<Name>, q: seq<Name>)
    requires Tree(s) && IsTop(s, u) && Known(s', u) && a != [] && a <= q && Walk(s, u, Init(a)).Some?
    requires SameEdgesBut(s, s', u, a, b)
    requires !(b <= Init(a))
    ensures Walk(s', u, q)
         == (match Child(s', Walk(s, u, Init(a)).value, Last(a))
             case None => None
             case Some(c) => Walk(s', c, q[|a|..]))
  {
    assert !(a <= Init(a));
    WalkOffEdges(s, s', u, a, b, u, Init(a));
    WalkLast(s', u, a);
    assert q == a + q[|a|..];
    WalkConcat(s', u, a, q[|a|..]);
  }

  // ----- creation

  lemma CreatedEdges(s: State, u: NodeId, dir: seq<Name>, name: Name, kind: Kind, mode: nat, id: NodeId)
    requires Tree(s) && IsTop(s, u) && Walk(s, u, dir).Some? && !Known(s, id)
    requires CreateIn(s, Walk(s, u, dir).value, name, kind, mode, id, true).node.Some?
    ensures var s' := CreateIn(s, Walk(s, u, dir).value, name, kind, mode, id, true).state;
            SameEdgesBut(s, s', u, dir + [name], dir + [name])
  {
    var d := Walk(s, u, dir).value;
    var s' := CreateIn(s, d, name, kind, mode, id, true).state;
    var a := dir + [name];
    assert Init(a) == dir && Last(a) == name;
    forall x, m | !AtEdge(s, u, a, x, m)
      ensures Child(s', x, m) == Child(s, x, m)
    {
      if IsDir(s, x) {
        ChildFacts(s, x, m);
      }
    }
  }

  // Creating adds one path and changes no other, from every starting place.
  lemma CreateWalk(s: State, u: NodeId, dir: seq<Name>, name: Name, kind: Kind, mode: nat, id: NodeId,
                   t: NodeId, q: seq<Name>)
    requires Tree(s) && IsTop(s, u) && Walk(s, u, dir).Some? && !Known(s, id) && IsTop(s, t)
    requires CreateIn(s, Walk(s, u, dir).value, name, kind, mode, id, true).node.Some?
    ensures Walk(CreateIn(s, Walk(s, u, dir).value, name, kind, mode, id, true).state, t, q)
         == if t == u && q == dir + [name] then Some(id) else Walk(s, t, q)
  {
    var d := Walk(s, u, dir).value;
    var s' := CreateIn(s, d, name, kind, mode, id, true).state;
    var a := dir + [name];
    CreatedEdges(s, u, dir, name, kind, mode, id);
    if t == u && a <= q {
      assert Init(a) == dir && Last(a) == name;
      WalkThroughEdge(s, s', u, a, a, q);
      WalkFromNew(s, d, name, kind, mode, id, q[|a|..]);
      NothingAtFreeName(s, u, dir, name, q);
      assert a == q <==> q[|a|..] == [];
    } else {
      WalkOffEdges(s, s', u, a, a, t, q);
    }
  }

  lemma WalkFromNew(s: State, d: NodeId, name: Name, kind: Kind, mode: nat, id: NodeId, rest: seq<Name>)
    requires !Known(s, id) && CreateIn(s, d, name, kind, mode, id, true).node.Some?
    ensures var s' := CreateIn(s, d, name, kind, mode, id, true).state;
            Child(s', d, name) == Some(id) && Walk(s', id, rest) == if rest == [] then Some(id) else None
  {
    var s' := CreateIn(s, d, name, kind, mode, id, true).state;
    assert rest != [] ==> Child(s', id, rest[0]).None?;
  }

  lemma NothingAtFreeName(s: State, u: NodeId, dir: seq<Name>, name: Name, q: seq<Name>)
    requires Tree(s) && Walk(s, u, dir).Some? && dir + [name] <= q
    requires IsDir(s, Walk(s, u, dir).value) && name !in s.inodes[Walk(s, u, dir).value].entries
    ensures Walk(s, u, q).None?
  {
    WalkSnoc(s, u, dir, name);
    if Walk(s, u, q).Some? {
      WalkPrefix(s, u, dir + [name], q);
    }
  }

  lemma CreateKeepsAddresses(s: State, d: NodeId, name: Name, kind: Kind, mode: nat, id: NodeId, x: NodeId)
    requires Tree(s) && !Known(s, id) && CreateIn(s, d, name, kind, mode, id, true).node.Some?
    requires Known(s, x) || x == id
    ensures HasAddress(CreateIn(s, d, name, kind, mode, id, true).state, x)
  {
    var s' := CreateIn(s, d, name, kind, mode, id, true).state;
    assert HasAddress(s, d);
    var u, dir :| IsTop(s, u) && Walk(s, u, dir) == Some(d);
    assert IsTop(s', u);
    if x == id {
      CreateWalk(s, u, dir, name, kind, mode, id, u, dir + [name]);
    } else {
      assert HasAddress(s, x);
      var t, q :| IsTop(s, t) && Walk(s, t, q) == Some(x);
      CreateWalk(s, u, dir, name, kind, mode, id, t, q);
      WalkSnoc(s, u, dir, name);
      ChildFacts(s, d, name);
      assert IsTop(s', t) && Walk(s', t, q) == Some(x);
    }
  }

  lemma CreateKeepsTree(s: State, d: NodeId, name: Name, kind: Kind, mode: nat, id: NodeId, memfd: bool)
    requires Tree(s) && !Known(s, id)
    ensures Tree(CreateIn(s, d, name, kind, mode, id, memfd).state)
  {
    var made := CreateIn(s, d, name, kind, mode, id, memfd);
    if made.node.Some? {
      var s' := made.state;
      forall x: NodeId | Known(s', x)
        ensures LifeOk(s'.inodes[x]) && EntriesOk(s', x) && HasAddress(s', x)
      {
        if x != id {
          assert EntriesOk(s, x);
        }
        CreateKeepsAddresses(s, d, name, kind, mode, id, x);
      }
      TreeFromParts(s');
    }
  }

  // ----- removal

  ghost predicate Removable(s: State, p: seq<Name>, d: NodeId, id: NodeId) {
    && p != [] && Lookup(s, p) == Some(id) && Lookup(s, Init(p)) == Some(d)
    && s.inodes[id].entries == map[]
  }

  lemma UnlinkedEdges(s: State, p: seq<Name>, d: NodeId, id: NodeId)
    requires Tree(s) && Removable(s, p, d, id)
    ensures SameEdgesBut(s, Unlinked(s, d, Last(p), id), s.root, p, p)
    ensures d != id && id != s.root && ParentOf(s, id) == Some(d)
  {
    var s' := Unlinked(s, d, Last(p), id);
    WalkLast(s, s.root, p);
    ChildFacts(s, d, Last(p));
    forall x, m | !AtEdge(s, s.root, p, x, m)
      ensures Child(s', x, m) == Child(s, x, m)
    {
      if IsDir(s, x) {
        ChildFacts(s, x, m);
        SameChild(s, x, m, d, Last(p));
      }
    }
  }

  lemma UnlinkedWalk(s: State, p: seq<Name>, d: NodeId, id: NodeId, t: NodeId, q: seq<Name>)
    requires Tree(s) && Removable(s, p, d, id) && IsTop(s, t)
    ensures Walk(Unlinked(s, d, Last(p), id), t, q) == if t == s.root && p <= q then None else Walk(s, t, q)
  {
    var s' := Unlinked(s, d, Last(p), id);
    UnlinkedEdges(s, p, d, id);
    if t == s.root && p <= q {
      WalkThroughEdge(s, s', s.root, p, p, q);
    } else {
      WalkOffEdges(s, s', s.root, p, p, t, q);
    }
  }

  lemma UnlinkedKeepsEntries(s: State, p: seq<Name>, d: NodeId, id: NodeId, x: NodeId)
    requires Tree(s) && Removable(s, p, d, id) && Known(s, x)
    ensures EntriesOk(Unlinked(s, d, Last(p), id), x)
  {
    forall m | m in Unlinked(s, d, Last(p), id).inodes[x].entries {
      UnlinkedEntry(s, p, d, id, x, m);
    }
    assert EntriesOk(s, x);
  }

  // What an entry left by a removal names is not the removed node.
  lemma UnlinkedEntry(s: State, p: seq<Name>, d: NodeId, id: NodeId, x: NodeId, m: Name)
    requires Tree(s) && Removable(s, p, d, id) && Known(s, x)
    requires m in Unlinked(s, d, Last(p), id).inodes[x].entries
    ensures var s' := Unlinked(s, d, Last(p), id);
            var y := s'.inodes[x].entries[m];
      && m in s.inodes[x].entries && s.inodes[x].entries[m] == y
      && Mapped(s', y) && y != s.root && ParentOf(s', y) == Some(x)
  {
    WalkLast(s, s.root, p);
    assert EntriesOk(s, x);
    SameChild(s, x, m, d, Last(p));
  }

  lemma UnlinkedKeepsAddresses(s: State, p: seq<Name>, d: NodeId, id: NodeId, x: NodeId)
    requires Tree(s) && Removable(s, p, d, id) && Known(s, x)
    ensures HasAddress(Unlinked(s, d, Last(p), id), x)
  {
    var s' := Unlinked(s, d, Last(p), id);
    assert HasAddress(s, x);
    var t, q :| IsTop(s, t) && Walk(s, t, q) == Some(x);
    if t == s.root && p <= q {
      OnlyNodeUnderEmpty(s, p, id, q);
      assert IsTop(s', x) && Walk(s', x, []) == Some(x);
    } else {
      UnlinkedWalk(s, p, d, id, t, q);
      assert IsTop(s', t) && Walk(s', t, q) == Some(x);
    }
  }

  lemma UnlinkedKeepsTree(s: State, p: seq<Name>, d: NodeId, id: NodeId)
    requires Tree(s) && Removable(s, p, d, id)
    ensures Tree(Unlinked(s, d, Last(p), id))
  {
    var s' := Unlinked(s, d, Last(p), id);
    UnlinkedEdges(s, p, d, id);
    forall x: NodeId | Known(s', x)
      ensures LifeOk(s'.inodes[x]) && EntriesOk(s', x) && HasAddress(s', x)
    {
      UnlinkedKeepsEntries(s, p, d, id, x);
      UnlinkedKeepsAddresses(s, p, d, id, x);
    }
    TreeFromParts(s');
  }

  // Below a node without entries nothing resolves.
  lemma OnlyNodeUnderEmpty(s: State, p: seq<Name>, id: NodeId, q: seq<Name>)
    requires Lookup(s, p) == Some(id) && s.inodes[id].entries == map[]
    requires p <= q && Lookup(s, q).Some?
    ensures q == p
  {
    assert forall n :: Child(s, id, n).None?;
    WalkPrefix(s, s.root, p, q);
  }

  lemma RemoveIsUnlinked(s: State, path: Parts, kind: Kind)
    requires Tree(s) && RemoveAt(s, path, kind).0
    ensures var p := Names(path);
            p != [] && Lookup(s, p).Some? && Lookup(s, Init(p)).Some? &&
            Removable(s, p, Lookup(s, Init(p)).value, Lookup(s, p).value) &&
            RemoveAt(s, path, kind).1 == Unlinked(s, Lookup(s, Init(p)).value, Last(p), Lookup(s, p).value)
  {
    var p := Names(path);
    assert Init(p) == Names(Init(path));
    WalkLast(s, s.root, p);
    assert EntriesOk(s, Lookup(s, p).value);
  }

  // When a removal succeeds, for all absolute paths: the path ends in a name, what it resolves to is of the
  // wanted kind, and a directory has no entries. A failure changes nothing.
  lemma RemoveSucceedsExactlyWhen(s: State, path: Parts, kind: Kind)
    requires Tree(s)
    ensures RemoveAt(s, path, kind).0 <==>
      && path != [] && Last(path).Normal? && Lookup(s, Names(path)).Some?
      && IsDir(s, Lookup(s, Names(path)).value) == kind.Dir?
      && (kind.Dir? ==> s.inodes[Lookup(s, Names(path)).value].entries == map[])
    ensures !RemoveAt(s, path, kind).0 ==> RemoveAt(s, path, kind).1 == s
  {
    if path != [] && Last(path).Normal? {
      assert Init(Names(path)) == Names(Init(path)) && Last(Names(path)) == Last(path).name;
      WalkLast(s, s.root, Names(path));
    }
  }

  lemma RemoveKeepsTree(s: State, path: Parts, kind: Kind)
    requires Tree(s)
    ensures Tree(RemoveAt(s, path, kind).1)
  {
    if RemoveAt(s, path, kind).0 {
      RemoveIsUnlinked(s, path, kind);
      var p := Names(path);
      UnlinkedKeepsTree(s, p, Lookup(s, Init(p)).value, Lookup(s, p).value);
    }
  }

  // ----- mode changes

  lemma ChmodKeepsWalks(s: State, path: Parts, mode: nat, d: NodeId, q: seq<Name>)
    requires Tree(s)
    ensures Walk(ChmodAt(s, path, mode).1, d, q) == Walk(s, d, q)
  {
    WalkAgree(s, ChmodAt(s, path, mode).1, d, q);
  }

  lemma ChmodKeepsTree(s: State, path: Parts, mode: nat)
    requires Tree(s)
    ensures Tree(ChmodAt(s, path, mode).1)
  {
    var s' := ChmodAt(s, path, mode).1;
    forall x: NodeId | Known(s', x)
      ensures LifeOk(s'.inodes[x]) && EntriesOk(s', x) && HasAddress(s', x)
    {
      ChmodKeepsNode(s, path, mode, x);
    }
    TreeFromParts(s');
  }

  lemma ChmodKeepsNode(s: State, path: Parts, mode: nat, x: NodeId)
    requires Tree(s) && Known(s, x)
    ensures var s' := ChmodAt(s, path, mode).1;
            Known(s', x) && LifeOk(s'.inodes[x]) && EntriesOk(s', x) && HasAddress(s', x)
  {
    var s' := ChmodAt(s, path, mode).1;
    assert EntriesOk(s, x);
    assert HasAddress(s, x);
    var t, q :| IsTop(s, t) && Walk(s, t, q) == Some(x);
    ChmodKeepsWalks(s, path, mode, t, q);
    assert IsTop(s', t) && Walk(s', t, q) == Some(x);
  }
}
