/** Resolution relative to an opened node, by entries and parent pointers, against path resolution. */
module Handles {
  import opened Wrappers
  import opened Paths
  import opened Namespace
  import opened Operations

  function RelStep(s: State, d: NodeId, c: Component): (r: Option<NodeId>)
    ensures r.Some? ==> Known(s, r.value)
  {
    match c
    case CurDir => if Known(s, d) then Some(d) else None
    case Normal(n) => Child(s, d, n)
    case ParentDir =>
      if ParentOf(s, d).Some? && Mapped(s, ParentOf(s, d).value) then ParentOf(s, d) else None
  }

  function RelWalk(s: State, d: NodeId, rel: Parts): (r: Option<NodeId>)
    ensures r.Some? ==> Known(s, r.value)
    decreases |rel|
  {
    if rel == [] then (if Known(s, d) then Some(d) else None)
    else
      match RelStep(s, d, rel[0])
      case None => None
      case Some(x) => RelWalk(s, x, rel[1..])
  }

  function CreateFrom(s: State, start: NodeId, rel: Parts, kind: Kind, mode: nat, id: NodeId, memfd: bool): Made {
    if FileName(rel).None? then Made(None, s, false)
    else
      match RelWalk(s, start, Init(rel))
      case None => Made(None, s, false)
      case Some(d) => CreateIn(s, d, FileName(rel).value, kind, mode, id, memfd)
  }

  function OpenFrom(s: State, start: NodeId, rel: Parts, flags: Flags, mode: nat, id: NodeId, memfd: bool,
                    backing: int): Opened
  {
    OpenResolved(s, RelWalk(s, start, rel), CreateFrom(s, start, rel, File, mode, id, memfd), flags, backing)
  }

  // Where `..` leads from any node: to the directory that names it, if that has not been removed. The root
  // is its own parent, and from a removed node there is no way up.
  lemma ParentStepIsExact(s: State, e: NodeId, n: Name, d: NodeId)
    requires Tree(s) && Known(s, d)
    ensures Child(s, e, n) == Some(d) ==> RelStep(s, d, ParentDir) == if Mapped(s, e) then Some(e) else None
    ensures RelStep(s, s.root, ParentDir) == Some(s.root)
    ensures !Mapped(s, d) ==> RelStep(s, d, ParentDir) == None
  {
    if Child(s, e, n) == Some(d) {
      ChildFacts(s, e, n);
    }
    assert LifeOk(s.inodes[d]);
  }

  // Creating by any relative path from any node, removed directories included: the last name is made in
  // the directory the rest leads to, exactly when there is one, the name is free and the backing file can
  // be made; nothing else changes.
  lemma CreateFromIsExact(s: State, start: NodeId, rel: Parts, kind: Kind, mode: nat, id: NodeId, memfd: bool)
    requires Tree(s) && !Known(s, id)
    ensures var made := CreateFrom(s, start, rel, kind, mode, id, memfd);
      && (made.node.Some? <==>
            && rel != [] && Last(rel).Normal? && RelWalk(s, start, Init(rel)).Some?
            && IsDir(s, RelWalk(s, start, Init(rel)).value)
            && Child(s, RelWalk(s, start, Init(rel)).value, Last(rel).name).None? && memfd)
      && (made.node.None? ==> made.state == s)
      && (made.node.Some? ==>
            && made.node == Some(id)
            && AddsChild(s, made.state, RelWalk(s, start, Init(rel)).value, Last(rel).name, id, kind, mode % 4096))
  {
    if rel != [] && Last(rel).Normal? && RelWalk(s, start, Init(rel)).Some? {
      var d := RelWalk(s, start, Init(rel)).value;
      if IsDir(s, d) {
        ChildFacts(s, d, Last(rel).name);
        if Child(s, d, Last(rel).name).None? && memfd {
          CreationAddsChild(s, d, Last(rel).name, kind, mode, id);
        }
      }
    }
  }

  // The directory gains one entry for a new node, and no other node or entry changes.
  ghost predicate AddsChild(s: State, s': State, d: NodeId, name: Name, id: NodeId, kind: Kind, mode: nat) {
    && Known(s', id) && s'.inodes[id].kind == kind && s'.inodes[id].mode == mode && ParentOf(s', id) == Some(d)
    && Child(s', d, name) == Some(id)
    && (forall x, n :: x != d || n != name ==> Child(s', x, n) == Child(s, x, n))
    && (forall x: NodeId :: Known(s, x) ==>
          && Known(s', x) && s'.inodes[x].kind == s.inodes[x].kind && s'.inodes[x].mode == s.inodes[x].mode
          && s'.inodes[x].parent == s.inodes[x].parent)
    && (forall x: NodeId :: Known(s', x) ==> Known(s, x) || x == id)
  }

  lemma CreationAddsChild(s: State, d: NodeId, name: Name, kind: Kind, mode: nat, id: NodeId)
    requires Tree(s) && !Known(s, id) && IsDir(s, d) && name !in s.inodes[d].entries
    ensures AddsChild(s, CreateIn(s, d, name, kind, mode, id, true).state, d, name, id, kind, mode % 4096)
  {
    var s' := CreateIn(s, d, name, kind, mode, id, true).state;
    forall x, n | x != d || n != name
      ensures Child(s', x, n) == Child(s, x, n)
    {
      if IsDir(s, x) {
        ChildFacts(s, x, n);
      }
    }
  }

  // Opening by any relative path from any node: what the path leads to is opened unless the flags refuse
  // it, and a file is made only where the path leads nowhere and the create flag is given.
  lemma OpenFromIsExact(s: State, start: NodeId, rel: Parts, flags: Flags, mode: nat, id: NodeId, memfd: bool,
                        backing: int)
    requires Tree(s) && !Known(s, id)
    ensures var o := OpenFrom(s, start, rel, flags, mode, id, memfd, backing);
            var there, made := RelWalk(s, start, rel), CreateFrom(s, start, rel, File, mode, id, memfd);
      && (o.node.Some? <==>
            && backing >= 0
            && (if there.Some? then !(flags.creat && flags.excl) && (flags.directory ==> IsDir(s, there.value))
                else flags.creat && !flags.directory && made.node.Some?))
      && (o.node.Some? ==> o.fd == backing && o.node == if there.Some? then there else Some(id))
      && (o.node.None? ==> o.fd < 0)
      && o.state == if there.None? && flags.creat then made.state else s
  {
    CreateFromIsExact(s, start, rel, File, mode, id, memfd);
  }

  // ----- agreement with paths

  lemma RelStepIsPathStep(s: State, p: seq<Name>, c: Component)
    requires Tree(s) && Lookup(s, p).Some?
    ensures var d := Lookup(s, p).value;
      && (RelStep(s, d, c).Some? ==> Lookup(s, Push(p, c)) == RelStep(s, d, c))
      && (Lookup(s, Push(p, c)).Some? ==> RelStep(s, d, c).Some?)
      && (!c.Normal? ==> RelStep(s, d, c).Some?)
  {
    match c {
      case CurDir =>
      case Normal(n) => WalkSnoc(s, s.root, p, n);
      case ParentDir =>
        if p != [] {
          WalkLast(s, s.root, p);
          ChildFacts(s, Lookup(s, Init(p)).value, Last(p));
          DirectoryPathIsMapped(s, Init(p));
        }
    }
  }

  lemma DirectoryPathIsMapped(s: State, p: seq<Name>)
    requires Tree(s) && Lookup(s, p).Some?
    ensures Mapped(s, Lookup(s, p).value)
  {
    if p != [] {
      WalkLast(s, s.root, p);
    }
  }

  // A relative walk succeeds exactly when each of its prefixes, joined and normalised, resolves;
  // it then ends where the whole joined path does.
  lemma {:induction false} RelWalkAgreesWithPaths(s: State, p: seq<Name>, rel: Parts)
    requires Tree(s) && Lookup(s, p).Some?
    ensures var r := RelWalk(s, Lookup(s, p).value, rel);
      && (r.Some? ==> Lookup(s, NormFrom(p, rel)) == r)
      && (r.Some? <==> forall k :: 0 <= k <= |rel| ==> Lookup(s, NormFrom(p, rel[..k])).Some?)
    decreases |rel|
  {
    assert rel[..0] == [] && rel[..|rel|] == rel;
    if rel != [] {
      var d := Lookup(s, p).value;
      RelStepIsPathStep(s, p, rel[0]);
      forall k | 1 <= k <= |rel|
        ensures NormFrom(p, rel[..k]) == NormFrom(Push(p, rel[0]), rel[1..][..k - 1])
      {
        assert rel[..k][1..] == rel[1..][..k - 1];
      }
      assert NormFrom(p, rel[..1]) == Push(p, rel[0]) by {
        assert rel[..1][1..] == [];
      }
      if RelStep(s, d, rel[0]).Some? {
        RelWalkAgreesWithPaths(s, Push(p, rel[0]), rel[1..]);
        forall k | 0 <= k <= |rel[1..]|
          ensures Lookup(s, NormFrom(Push(p, rel[0]), rel[1..][..k])) == Lookup(s, NormFrom(p, rel[..k + 1]))
        {
          assert rel[..k + 1][1..] == rel[1..][..k];
        }
      }
    }
  }

  predicate NoNames(rel: Parts) {
    forall i :: 0 <= i < |rel| ==> !rel[i].Normal?
  }

  lemma {:induction false} UpsNeverFail(s: State, p: seq<Name>, ups: Parts)
    requires Tree(s) && Lookup(s, p).Some? && NoNames(ups)
    ensures RelWalk(s, Lookup(s, p).value, ups).Some?
    decreases |ups|
  {
    if ups != [] {
      RelStepIsPathStep(s, p, ups[0]);
      UpsNeverFail(s, Push(p, ups[0]), ups[1..]);
    }
  }

  lemma {:induction false} RelWalkConcat(s: State, d: NodeId, a: Parts, b: Parts)
    ensures RelWalk(s, d, a + b) == (match RelWalk(s, d, a) case None => None case Some(x) => RelWalk(s, x, b))
    decreases |a|
  {
    if a == [] {
      assert a + b == b;
      if !Known(s, d) && b != [] {
        assert RelStep(s, d, b[0]).None?;
      }
    } else {
      assert (a + b)[1..] == a[1..] + b;
      if RelStep(s, d, a[0]).Some? {
        RelWalkConcat(s, RelStep(s, d, a[0]).value, a[1..], b);
      }
    }
  }

  lemma {:induction false} RelWalkNames(s: State, d: NodeId, names: seq<Name>)
    ensures RelWalk(s, d, Abs(names)) == Walk(s, d, names)
    decreases |names|
  {
    if names != [] {
      assert Abs(names)[1..] == Abs(names[1..]);
      if Child(s, d, names[0]).Some? {
        RelWalkNames(s, Child(s, d, names[0]).value, names[1..]);
      }
    }
  }

  // With every `..` before every name the two resolutions are equal, failures included.
  lemma UpsThenNamesIsExact(s: State, p: seq<Name>, ups: Parts, names: seq<Name>)
    requires Tree(s) && Lookup(s, p).Some? && NoNames(ups)
    ensures RelWalk(s, Lookup(s, p).value, ups + Abs(names)) == Lookup(s, NormFrom(p, ups + Abs(names)))
    ensures NormFrom(p, ups + Abs(names)) == NormFrom(p, ups) + names
  {
    var d := Lookup(s, p).value;
    UpsNeverFail(s, p, ups);
    RelWalkAgreesWithPaths(s, p, ups);
    RelWalkConcat(s, d, ups, Abs(names));
    RelWalkNames(s, RelWalk(s, d, ups).value, names);
    NormFromConcat(p, ups, Abs(names));
    NormFromNames(NormFrom(p, ups), names);
    WalkConcat(s, s.root, NormFrom(p, ups), names);
  }

  lemma NamesBelow(p: seq<Name>, ups: Parts, names: seq<Name>)
    requires names != []
    ensures FileName(ups + Abs(names)) == Some(Last(names))
    ensures Init(ups + Abs(names)) == ups + Abs(Init(names))
    ensures FileName(Abs(p + names)) == Some(Last(names))
    ensures Names(Init(Abs(p + names))) == p + Init(names)
  {
    assert Init(Abs(p + names)) == Abs(p + Init(names));
    NamesOfAbs(p + Init(names));
  }

  // ----- when a stale path still leads to the same place

  function CountUps(rel: Parts): nat {
    if rel == [] then 0 else (if rel[0].ParentDir? then 1 else 0) + CountUps(rel[1..])
  }

  // A path without its last `k` names.
  function Above(p: seq<Name>, k: nat): seq<Name> {
    if k >= |p| then [] else p[..|p| - k]
  }

  lemma {:induction false} DotsGoAbove(p: seq<Name>, ups: Parts)
    requires NoNames(ups)
    ensures NormFrom(p, ups) == Above(p, CountUps(ups))
    decreases |ups|
  {
    if ups != [] {
      DotsGoAbove(Push(p, ups[0]), ups[1..]);
    }
  }

  // Two base paths come to the same for dots and then names exactly when they agree above the dots.
  lemma StaleBaseAgreesExactlyWhen(tracked: seq<Name>, p: seq<Name>, ups: Parts, names: seq<Name>)
    requires NoNames(ups)
    ensures NormFrom(tracked, ups + Abs(names)) == NormFrom(p, ups + Abs(names)) <==>
              Above(tracked, CountUps(ups)) == Above(p, CountUps(ups))
  {
    NormFromConcat(tracked, ups, Abs(names));
    NormFromConcat(p, ups, Abs(names));
    NormFromNames(NormFrom(tracked, ups), names);
    NormFromNames(NormFrom(p, ups), names);
    DotsGoAbove(tracked, ups);
    DotsGoAbove(p, ups);
    SameTail(Above(tracked, CountUps(ups)), Above(p, CountUps(ups)), names);
  }

  lemma SameTail<T>(a: seq<T>, b: seq<T>, c: seq<T>)
    ensures a + c == b + c <==> a == b
  {
    if a + c == b + c {
      assert |a + c| == |a| + |c| && |b + c| == |b| + |c|;
      assert a == (a + c)[..|a|] && b == (b + c)[..|b|];
    }
  }

  // Creating through an opened directory acts at the directory's present path; for a path of dots alone
  // both refuse.
  lemma CreateFromActsAtCurrentPath(s: State, p: seq<Name>, ups: Parts, names: seq<Name>,
                                    kind: Kind, mode: nat, id: NodeId, memfd: bool)
    requires Tree(s) && Lookup(s, p).Some? && NoNames(ups)
    ensures CreateFrom(s, Lookup(s, p).value, ups + Abs(names), kind, mode, id, memfd)
         == CreateAt(s, Abs(NormFrom(p, ups + Abs(names))), kind, mode, id, memfd)
  {
    UpsThenNamesIsExact(s, p, ups, names);
    if names == [] {
      assert ups + Abs(names) == ups;
      UpsNeverFail(s, p, ups);
      ExistingPathIsNotCreated(s, NormFrom(p, ups), kind, mode, id, memfd);
    } else {
      UpsThenNamesIsExact(s, p, ups, Init(names));
      NamesBelow(NormFrom(p, ups), ups, names);
    }
  }

  lemma ExistingPathIsNotCreated(s: State, p: seq<Name>, kind: Kind, mode: nat, id: NodeId, memfd: bool)
    requires Tree(s) && Lookup(s, p).Some?
    ensures CreateAt(s, Abs(p), kind, mode, id, memfd) == Made(None, s, false)
  {
    if p != [] {
      assert Init(Abs(p)) == Abs(Init(p)) && FileName(Abs(p)) == Some(Last(p));
      NamesOfAbs(Init(p));
      WalkLast(s, s.root, p);
      ChildFacts(s, Lookup(s, Init(p)).value, Last(p));
    }
  }

  // So does opening, creating or not; a path of dots alone opens the directory it names.
  lemma OpenFromActsAtCurrentPath(s: State, p: seq<Name>, ups: Parts, names: seq<Name>,
                                  flags: Flags, mode: nat, id: NodeId, memfd: bool, backing: int)
    requires Tree(s) && Lookup(s, p).Some? && NoNames(ups)
    ensures OpenFrom(s, Lookup(s, p).value, ups + Abs(names), flags, mode, id, memfd, backing)
         == OpenAt(s, Abs(NormFrom(p, ups + Abs(names))), flags, mode, id, memfd, backing)
  {
    UpsThenNamesIsExact(s, p, ups, names);
    NamesOfAbs(NormFrom(p, ups + Abs(names)));
    CreateFromActsAtCurrentPath(s, p, ups, names, File, mode, id, memfd);
  }

  // The order matters: in an empty file system `x/..` resolves as a path but not from the root handle.
  lemma NamesThenUpsDiffer(root: NodeId, n: Name)
    ensures var s := Initial(root);
      && RelWalk(s, root, [Normal(n), ParentDir]) == None
      && Lookup(s, NormFrom([], [Normal(n), ParentDir])) == Some(root)
  {
    assert [Normal(n), ParentDir][1..] == [ParentDir];
    assert NormFrom([], [Normal(n), ParentDir]) == NormFrom([n], [ParentDir]) == NormFrom([], []);
  }
}
