/** Reported link counts: what one count means, and what all of them add up to. */
module Links {
  import opened Wrappers
  import opened Paths
  import opened Namespace
  import opened Runs

  function SubdirNames(s: State, d: NodeId): set<Name>
    requires Known(s, d)
  {
    set n | n in s.inodes[d].entries && Mapped(s, s.inodes[d].entries[n]) && IsDir(s, s.inodes[d].entries[n])
  }

  // The st_nlink that stat reports.
  function LinkCount(s: State, id: NodeId): nat
    requires Known(s, id)
  {
    if s.inodes[id].links == 0 then 0
    else if s.inodes[id].kind.File? then 1
    else 2 + |SubdirNames(s, id)|
  }

  // Directories, other than the root, whose parent pointer is in `ds`.
  ghost function DirsUnder(s: State, ds: set<NodeId>): set<NodeId> {
    set c | c in s.inodes && IsDir(s, c) && c != s.root && ParentOf(s, c).Some? && ParentOf(s, c).value in ds
  }

  lemma {:induction false} InjectionKeepsSize<A, B>(a: set<A>, b: set<B>, f: map<A, B>)
    requires a <= f.Keys
    requires forall x :: x in a ==> f[x] in b
    requires forall x, y :: x in a && y in a && f[x] == f[y] ==> x == y
    requires forall z :: z in b ==> exists x :: x in a && f[x] == z
    ensures |a| == |b|
    decreases |b|
  {
    if b == {} {
      assert a == {};
    } else {
      var z :| z in b;
      var x :| x in a && f[x] == z;
      forall w | w in b - {z}
        ensures exists y :: y in a - {x} && f[y] == w
      {
        var y :| y in a && f[y] == w;
        assert y in a - {x};
      }
      InjectionKeepsSize(a - {x}, b - {z}, f);
    }
  }

  // A mapped directory's count is two and one for each directory whose parent pointer is it.
  lemma LinkCountCountsSubdirectories(s: State, d: NodeId)
    requires Tree(s) && Mapped(s, d) && IsDir(s, d)
    ensures LinkCount(s, d) == 2 + |DirsUnder(s, {d})|
  {
    var es := s.inodes[d].entries;
    assert EntriesOk(s, d);
    forall c | c in DirsUnder(s, {d})
      ensures exists n :: n in SubdirNames(s, d) && es[n] == c
    {
      var e, n := NamedExactlyOnce(s, c);
    }
    InjectionKeepsSize(SubdirNames(s, d), DirsUnder(s, {d}), es);
  }

  // What is reported for any node: nothing for a dropped one, 1 for a file, and for a directory two and its
  // subdirectories.
  lemma LinkCountIsExact(s: State, id: NodeId)
    requires Tree(s) && Known(s, id)
    ensures LinkCount(s, id) == if !Mapped(s, id) then 0 else if !IsDir(s, id) then 1 else 2 + |DirsUnder(s, {id})|
  {
    assert LifeOk(s.inodes[id]);
    if Mapped(s, id) && IsDir(s, id) {
      LinkCountCountsSubdirectories(s, id);
    }
  }

  ghost function Extra(s: State, ds: set<NodeId>): int
    requires forall d :: d in ds ==> Known(s, d)
    decreases |ds|
  {
    if ds == {} then 0
    else
      var d :| d in ds;
      LinkCount(s, d) - 2 + Extra(s, ds - {d})
  }

  lemma {:induction false} ExtraCountsDirectories(s: State, ds: set<NodeId>)
    requires Tree(s)
    requires forall d :: d in ds ==> Known(s, d)
    requires forall d :: d in ds ==> Mapped(s, d) && IsDir(s, d)
    ensures Extra(s, ds) == |DirsUnder(s, ds)|
    decreases |ds|
  {
    if ds == {} {
      assert DirsUnder(s, ds) == {};
    } else {
      var d :| d in ds && Extra(s, ds) == LinkCount(s, d) - 2 + Extra(s, ds - {d});
      ExtraCountsDirectories(s, ds - {d});
      LinkCountCountsSubdirectories(s, d);
      assert DirsUnder(s, ds) == DirsUnder(s, {d}) + DirsUnder(s, ds - {d});
      assert DirsUnder(s, {d}) !! DirsUnder(s, ds - {d});
    }
  }

  ghost function LinkedDirs(s: State): set<NodeId> {
    set d | d in s.inodes && IsDir(s, d) && Linked(s, d)
  }

  lemma LinkedIsMapped(s: State, id: NodeId)
    requires Tree(s) && Linked(s, id)
    ensures Mapped(s, id)
  {
    var p :| Lookup(s, p) == Some(id);
    if p != [] {
      WalkLast(s, s.root, p);
    }
  }

  // Link counts are conserved: over the directories reachable from the root, each subdirectory
  // is counted once and only the root is counted by nobody.
  lemma LinkCountsAreConserved(s: State)
    requires Tree(s)
    ensures forall d :: d in LinkedDirs(s) ==> Known(s, d)
    ensures Extra(s, LinkedDirs(s)) == |LinkedDirs(s)| - 1
  {
    var ds := LinkedDirs(s);
    assert Lookup(s, []) == Some(s.root);
    forall d | d in ds
      ensures Mapped(s, d)
    {
      LinkedIsMapped(s, d);
    }
    ExtraCountsDirectories(s, ds);
    forall c: NodeId | c in s.inodes && IsDir(s, c) && c != s.root
      ensures c in DirsUnder(s, ds) <==> c in ds
    {
      ChildOfLinked(s, c);
    }
    assert DirsUnder(s, ds) == ds - {s.root};
  }

  lemma ChildOfLinked(s: State, c: NodeId)
    requires Tree(s) && IsDir(s, c) && c != s.root
    ensures Linked(s, c) <==> ParentOf(s, c).Some? && IsDir(s, ParentOf(s, c).value) && Linked(s, ParentOf(s, c).value)
  {
    if Mapped(s, c) {
      var d, n := NamedExactlyOnce(s, c);
      if Linked(s, d) {
        var p :| Lookup(s, p) == Some(d);
        WalkSnoc(s, s.root, p, n);
        assert Lookup(s, p + [n]) == Some(c);
      }
    }
    if Linked(s, c) {
      LinkedIsMapped(s, c);
      var p :| Lookup(s, p) == Some(c);
      WalkLast(s, s.root, p);
      ChildFacts(s, Lookup(s, Init(p)).value, Last(p));
    }
  }
}
