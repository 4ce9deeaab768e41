/**
 The value of a memory file system at one instant: every node ever allocated, whether or not the
 id map still names it, and the tree invariant over all of them.
 */
module Namespace {
  import opened Wrappers
  import opened Paths

  type NodeId = nat
  datatype Kind = File | Dir

  // `mapped` says that the id-to-node map holds this node.
  datatype Inode = Inode(kind: Kind, parent: Option<NodeId>, mode: nat, links: nat,
                         entries: map<Name, NodeId>, mapped: bool)
  datatype State = State(root: NodeId, inodes: map<NodeId, Inode>)

  predicate Known(s: State, id: NodeId) {
    id in s.inodes
  }

  predicate Mapped(s: State, id: NodeId) {
    Known(s, id) && s.inodes[id].mapped
  }

  predicate IsDir(s: State, id: NodeId) {
    Known(s, id) && s.inodes[id].kind.Dir?
  }

  function ParentOf(s: State, id: NodeId): Option<NodeId> {
    if Known(s, id) then s.inodes[id].parent else None
  }

  function Child(s: State, d: NodeId, n: Name): (c: Option<NodeId>)
    ensures c.Some? ==> Mapped(s, c.value)
  {
    if IsDir(s, d) && n in s.inodes[d].entries && Mapped(s, s.inodes[d].entries[n])
    then Some(s.inodes[d].entries[n])
    else None
  }

  // Walk down from any node, mapped or not.
  function Walk(s: State, d: NodeId, p: seq<Name>): (r: Option<NodeId>)
    ensures r.Some? ==> Known(s, d) && Known(s, r.value)
    decreases |p|
  {
    if !Known(s, d) then None
    else if p == [] then Some(d)
    else
      match Child(s, d, p[0])
      case None => None
      case Some(c) => Walk(s, c, p[1..])
  }

  function Lookup(s: State, p: seq<Name>): Option<NodeId> {
    Walk(s, s.root, p)
  }

  // ----- the invariant

  // The places a walk can start from: the root, and nodes dropped from the id map.
  predicate IsTop(s: State, id: NodeId) {
    Known(s, id) && (id == s.root || !Mapped(s, id))
  }

  ghost predicate HasAddress(s: State, id: NodeId) {
    exists t, p :: IsTop(s, t) && Walk(s, t, p) == Some(id)
  }

  ghost predicate EntriesOk(s: State, d: NodeId)
    requires Known(s, d)
  {
    var es := s.inodes[d].entries;
    && (s.inodes[d].kind.File? ==> es == map[])
    && (forall n :: n in es ==> Mapped(s, es[n]) && es[n] != s.root && ParentOf(s, es[n]) == Some(d))
    && (forall m, n :: m in es && n in es && es[m] == es[n] ==> m == n)
  }

  predicate LifeOk(x: Inode) {
    && (x.mapped <==> x.parent.Some?)
    && x.links == (if x.mapped then 1 else 0)
  }

  ghost predicate Tree(s: State) {
    && IsDir(s, s.root) && Mapped(s, s.root) && ParentOf(s, s.root) == Some(s.root)
    && (forall id {:trigger s.inodes[id]} :: Known(s, id) ==> LifeOk(s.inodes[id]))
    && (forall id {:trigger EntriesOk(s, id)} :: Known(s, id) ==> EntriesOk(s, id))
    && (forall id {:trigger HasAddress(s, id)} :: Known(s, id) ==> HasAddress(s, id))
  }

  lemma TreeFromParts(s: State)
    requires IsDir(s, s.root) && Mapped(s, s.root) && ParentOf(s, s.root) == Some(s.root)
    requires forall x: NodeId :: Known(s, x) ==> LifeOk(s.inodes[x]) && EntriesOk(s, x) && HasAddress(s, x)
    ensures Tree(s)
  {
  }

  function Initial(root: NodeId): State {
    State(root, map[root := Inode(Dir, Some(root), 0x1ED, 1, map[], true)])
  }

  lemma InitialIsTree(root: NodeId)
    ensures Tree(Initial(root))
    ensures forall p :: Lookup(Initial(root), p) == if p == [] then Some(root) else None
  {
    var s := Initial(root);
    assert IsTop(s, root) && Walk(s, root, []) == Some(root);
  }

  // ----- walks

  lemma {:induction false} WalkConcat(s: State, d: NodeId, p: seq<Name>, q: seq<Name>)
    ensures Walk(s, d, p + q) == (match Walk(s, d, p) case None => None case Some(x) => Walk(s, x, q))
    decreases |p|
  {
    if p == [] {
      assert p + q == q;
    } else {
      assert (p + q)[1..] == p[1..] + q;
      if Child(s, d, p[0]).Some? {
        WalkConcat(s, Child(s, d, p[0]).value, p[1..], q);
      }
    }
  }

  lemma WalkSnoc(s: State, d: NodeId, p: seq<Name>, n: Name)
    ensures Walk(s, d, p + [n]) == (match Walk(s, d, p) case None => None case Some(x) => Child(s, x, n))
  {
    WalkConcat(s, d, p, [n]);
    if Walk(s, d, p).Some? {
      var x := Walk(s, d, p).value;
      if Child(s, x, n).Some? {
        assert [n][1..] == [];
      }
    }
  }

  lemma WalkLast(s: State, d: NodeId, p: seq<Name>)
    requires p != []
    ensures Walk(s, d, p)
         == (match Walk(s, d, Init(p)) case None => None case Some(x) => Child(s, x, Last(p)))
  {
    assert p == Init(p) + [Last(p)];
    WalkSnoc(s, d, Init(p), Last(p));
  }

  // A walk only depends on the edges it crosses.
  lemma {:induction false} WalkAgree(s: State, s': State, d: NodeId, p: seq<Name>)
    requires Known(s, d) <==> Known(s', d)
    requires forall k :: 0 <= k < |p| && Walk(s, d, p[..k]).Some? ==>
               Child(s, Walk(s, d, p[..k]).value, p[k]) == Child(s', Walk(s, d, p[..k]).value, p[k])
    ensures Walk(s', d, p) == Walk(s, d, p)
    decreases |p|
  {
    if p != [] {
      var q := Init(p);
      forall k | 0 <= k < |q| && Walk(s, d, q[..k]).Some?
        ensures Child(s, Walk(s, d, q[..k]).value, q[k]) == Child(s', Walk(s, d, q[..k]).value, q[k])
      {
        assert q[..k] == p[..k];
      }
      WalkAgree(s, s', d, q);
      WalkLast(s, d, p);
      WalkLast(s', d, p);
      assert q == p[..|p| - 1];
    }
  }

  // Every prefix of a successful walk succeeds.
  lemma WalkPrefix(s: State, d: NodeId, p: seq<Name>, q: seq<Name>)
    requires p <= q && Walk(s, d, q).Some?
    ensures Walk(s, d, p).Some?
    ensures Walk(s, Walk(s, d, p).value, q[|p|..]) == Walk(s, d, q)
    ensures p < q ==> IsDir(s, Walk(s, d, p).value)
  {
    assert q == p + q[|p|..];
    WalkConcat(s, d, p, q[|p|..]);
  }

  // ----- consequences of the invariant

  lemma ChildFacts(s: State, d: NodeId, n: Name)
    requires Tree(s) && IsDir(s, d)
    ensures n in s.inodes[d].entries <==> Child(s, d, n).Some?
    ensures Child(s, d, n).Some? ==>
              var c := Child(s, d, n).value;
              s.inodes[d].entries[n] == c && c != s.root && ParentOf(s, c) == Some(d) && !IsTop(s, c)
  {
    assert EntriesOk(s, d);
  }

  lemma SameChild(s: State, d: NodeId, m: Name, e: NodeId, n: Name)
    requires Tree(s)
    ensures Child(s, d, m).Some? && Child(s, d, m) == Child(s, e, n) ==> d == e && m == n
  {
    if Child(s, d, m).Some? && Child(s, d, m) == Child(s, e, n) {
      ChildFacts(s, d, m);
      ChildFacts(s, e, n);
      assert EntriesOk(s, d);
    }
  }

  // No node has two addresses: resolution is injective, from all starting places at once.
  lemma {:induction false} AddressUnique(s: State, t: NodeId, p: seq<Name>, u: NodeId, q: seq<Name>)
    requires Tree(s) && IsTop(s, t) && IsTop(s, u)
    requires Walk(s, t, p).Some? && Walk(s, t, p) == Walk(s, u, q)
    ensures t == u && p == q
    decreases |p| + |q|
  {
    if p != [] {
      WalkLast(s, t, p);
      ChildFacts(s, Walk(s, t, Init(p)).value, Last(p));
    }
    if q != [] {
      WalkLast(s, u, q);
      ChildFacts(s, Walk(s, u, Init(q)).value, Last(q));
    }
    if p != [] && q != [] {
      SameChild(s, Walk(s, t, Init(p)).value, Last(p), Walk(s, u, Init(q)).value, Last(q));
      AddressUnique(s, t, Init(p), u, Init(q));
      assert p == Init(p) + [Last(p)] && q == Init(q) + [Last(q)];
    }
  }

  lemma LookupInjective(s: State, p: seq<Name>, q: seq<Name>)
    requires Tree(s) && Lookup(s, p).Some? && Lookup(s, p) == Lookup(s, q)
    ensures p == q
  {
    AddressUnique(s, s.root, p, s.root, q);
  }

  // Each mapped node other than the root is named by exactly one entry, in its parent.
  lemma NamedExactlyOnce(s: State, id: NodeId) returns (d: NodeId, n: Name)
    requires Tree(s) && Mapped(s, id) && id != s.root
    ensures ParentOf(s, id) == Some(d) && Child(s, d, n) == Some(id)
    ensures forall e, m :: Child(s, e, m) == Some(id) ==> e == d && m == n
  {
    assert HasAddress(s, id);
    var t, p :| IsTop(s, t) && Walk(s, t, p) == Some(id);
    WalkLast(s, t, p);
    d, n := Walk(s, t, Init(p)).value, Last(p);
    ChildFacts(s, d, n);
    forall e, m | Child(s, e, m) == Some(id)
      ensures e == d && m == n
    {
      SameChild(s, e, m, d, n);
    }
  }

  // The k-th parent, by parent pointers.
  function Up(s: State, id: NodeId, k: nat): Option<NodeId> {
    if k == 0 then Some(id)
    else
      match Up(s, id, k - 1)
      case None => None
      case Some(x) => ParentOf(s, x)
  }

  // Parent pointers retrace the walk, one edge at a time.
  lemma {:induction false} UpRetracesWalk(s: State, t: NodeId, p: seq<Name>, k: nat)
    requires Tree(s) && IsTop(s, t) && Walk(s, t, p).Some? && k <= |p|
    ensures Up(s, Walk(s, t, p).value, k) == Walk(s, t, p[..|p| - k])
    ensures Walk(s, t, p[..|p| - k]).Some?
    decreases k
  {
    WalkPrefix(s, t, p[..|p| - k], p);
    if k == 0 {
      assert p[..|p|] == p;
    } else {
      UpRetracesWalk(s, t, p, k - 1);
      var q := p[..|p| - (k - 1)];
      WalkLast(s, t, q);
      assert Init(q) == p[..|p| - k];
      ChildFacts(s, Walk(s, t, Init(q)).value, Last(q));
    }
  }

  // The parent relation is acyclic: from every node it climbs, without meeting that node again,
  // to the root or to a removed node.
  lemma ParentsClimbToATop(s: State, id: NodeId) returns (t: NodeId, depth: nat)
    requires Tree(s) && Known(s, id)
    ensures IsTop(s, t) && Up(s, id, depth) == Some(t)
    ensures forall k :: 0 < k <= depth ==> Up(s, id, k).Some? && Up(s, id, k) != Some(id)
    ensures forall k :: 0 <= k < depth ==> Up(s, id, k).Some? && !IsTop(s, Up(s, id, k).value)
  {
    assert HasAddress(s, id);
    var p;
    t, p :| IsTop(s, t) && Walk(s, t, p) == Some(id);
    depth := |p|;
    UpRetracesWalk(s, t, p, depth);
    assert p[..0] == [];
    forall k | 0 < k <= depth
      ensures Up(s, id, k).Some? && Up(s, id, k) != Some(id)
    {
      UpRetracesWalk(s, t, p, k);
      if Up(s, id, k) == Some(id) {
        AddressUnique(s, t, p, t, p[..|p| - k]);
      }
    }
    forall k | 0 <= k < depth
      ensures Up(s, id, k).Some? && !IsTop(s, Up(s, id, k).value)
    {
      UpRetracesWalk(s, t, p, k);
      var x := Up(s, id, k).value;
      if IsTop(s, x) {
        AddressUnique(s, t, p[..|p| - k], x, []);
      }
    }
  }

  // The lexical guard is the true ancestor test.
  lemma LexicalGuardIsAncestorTest(s: State, o: seq<Name>, n: seq<Name>)
    requires Tree(s) && Lookup(s, o).Some? && Lookup(s, n).Some?
    ensures o <= n <==> exists k: nat :: Up(s, Lookup(s, n).value, k) == Lookup(s, o)
  {
    var x := Lookup(s, n).value;
    if o <= n {
      UpRetracesWalk(s, s.root, n, |n| - |o|);
      assert n[..|o|] == o;
    }
    if exists k: nat :: Up(s, x, k) == Lookup(s, o) {
      var k: nat :| Up(s, x, k) == Lookup(s, o);
      if k <= |n| {
        UpRetracesWalk(s, s.root, n, k);
        LookupInjective(s, o, n[..|n| - k]);
      } else {
        UpRetracesWalk(s, s.root, n, |n|);
        assert n[..0] == [];
        RootIsItsOwnAncestor(s, x, |n|, k);
        LookupInjective(s, o, []);
      }
    }
  }

  lemma {:induction false} RootIsItsOwnAncestor(s: State, id: NodeId, j: nat, k: nat)
    requires Tree(s) && j <= k && Up(s, id, j) == Some(s.root)
    ensures Up(s, id, k) == Some(s.root)
    decreases k
  {
    if j < k {
      RootIsItsOwnAncestor(s, id, j, k - 1);
    }
  }
}
