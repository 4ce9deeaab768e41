/** Directory listings in the byte order of an ordered map. */
module Listing {
  import opened Wrappers
  import opened Paths
  import opened Namespace

  datatype DirEntry = DirEntry(name: Name, kind: Kind, ino: Option<nat>)

  // Byte-wise lexicographic order.
  predicate Less(a: Name, b: Name)
    decreases |a|
  {
    b != [] && (a == [] || a[0] < b[0] || (a[0] == b[0] && Less(a[1..], b[1..])))
  }

  lemma {:induction false} LessIsStrictTotalOrder(a: Name, b: Name, c: Name)
    ensures !Less(a, a)
    ensures Less(a, b) || a == b || Less(b, a)
    ensures Less(a, b) ==> !Less(b, a)
    ensures Less(a, b) && Less(b, c) ==> Less(a, c)
    decreases |a|
  {
    if a != [] && b != [] {
      LessIsStrictTotalOrder(a[1..], b[1..], if c == [] then [] else c[1..]);
      assert a[0] == b[0] && a[1..] == b[1..] ==> a == [a[0]] + a[1..] == b;
    } else if a != [] {
      LessIsStrictTotalOrder(a[1..], [], []);
    }
  }

  // One name comes before another when it is a proper prefix, or smaller in the first byte that differs.
  lemma {:induction false} LessIsLexicographic(a: Name, b: Name)
    ensures Less(a, b) <==> a < b || exists i :: 0 <= i < |a| && i < |b| && a[..i] == b[..i] && a[i] < b[i]
    decreases |a|
  {
    if a != [] && b != [] && a[0] == b[0] {
      LessIsLexicographic(a[1..], b[1..]);
      TailsDiffer(a, b);
      assert a < b <==> a[1..] < b[1..];
    } else if a != [] && b != [] && a[0] < b[0] {
      assert a[..0] == b[..0];
    }
  }

  lemma TailsDiffer(a: Name, b: Name)
    requires a != [] && b != [] && a[0] == b[0]
    ensures (exists i :: 0 <= i < |a| && i < |b| && a[..i] == b[..i] && a[i] < b[i])
       <==> exists i :: 0 <= i < |a[1..]| && i < |b[1..]| && a[1..][..i] == b[1..][..i] && a[1..][i] < b[1..][i]
  {
    if i :| 0 <= i < |a| && i < |b| && a[..i] == b[..i] && a[i] < b[i] {
      assert a[1..][..i - 1] == a[..i][1..] && b[1..][..i - 1] == b[..i][1..];
      assert a[1..][i - 1] < b[1..][i - 1];
    }
    if i :| 0 <= i < |a[1..]| && i < |b[1..]| && a[1..][..i] == b[1..][..i] && a[1..][i] < b[1..][i] {
      assert a[..i + 1] == [a[0]] + a[1..][..i] && b[..i + 1] == [b[0]] + b[1..][..i];
      assert a[i + 1] < b[i + 1];
    }
  }

  predicate IsLeast(n: Name, ns: set<Name>) {
    n in ns && forall m :: m in ns && m != n ==> Less(n, m)
  }

  lemma {:induction false} LeastExists(ns: set<Name>)
    requires ns != {}
    ensures exists n :: IsLeast(n, ns)
    decreases |ns|
  {
    var x :| x in ns;
    var rest := ns - {x};
    if rest == {} {
      assert ns == {x};
      assert IsLeast(x, ns);
    } else {
      LeastExists(rest);
      var y :| IsLeast(y, rest);
      LessIsStrictTotalOrder(x, y, y);
      forall m | m in ns {
        LessIsStrictTotalOrder(x, y, m);
      }
      assert IsLeast(if Less(x, y) then x else y, ns);
    }
  }

  lemma LeastIsUnique(m: Name, n: Name, ns: set<Name>)
    requires IsLeast(m, ns) && IsLeast(n, ns)
    ensures m == n
  {
    LessIsStrictTotalOrder(m, n, m);
  }

  ghost function Sorted(ns: set<Name>): (r: seq<Name>)
    ensures |r| == |ns|
    decreases |ns|
  {
    if ns == {} then []
    else
      LeastExists(ns);
      var n :| IsLeast(n, ns);
      [n] + Sorted(ns - {n})
  }

  lemma SortedStep(ns: set<Name>, n: Name)
    requires IsLeast(n, ns)
    ensures Sorted(ns) == [n] + Sorted(ns - {n})
  {
    LeastExists(ns);
    var m :| IsLeast(m, ns) && Sorted(ns) == [m] + Sorted(ns - {m});
    LeastIsUnique(m, n, ns);
  }

  method NextKey(rest: set<Name>) returns (n: Name)
    requires rest != {}
    ensures n in rest && Sorted(rest) == [n] + Sorted(rest - {n})
  {
    LeastExists(rest);
    n :| n in rest && IsLeast(n, rest);
    SortedStep(rest, n);
  }

  lemma ConcatAssociates<T>(a: seq<T>, b: seq<T>, c: seq<T>)
    ensures a + b + c == a + (b + c)
  {
  }

  // Iterating an ordered map yields its keys in ascending order.
  method OrderedKeys(ns: set<Name>) returns (r: seq<Name>)
    ensures r == Sorted(ns)
  {
    var rest := ns;
    r := [];
    while rest != {}
      invariant r + Sorted(rest) == Sorted(ns)
      decreases |rest|
    {
      var n := NextKey(rest);
      ConcatAssociates(r, [n], Sorted(rest - {n}));
      r, rest := r + [n], rest - {n};
    }
  }

  ghost predicate Ascending(r: seq<Name>) {
    forall i, j :: 0 <= i < j < |r| ==> Less(r[i], r[j])
  }

  lemma AscendingStep(n: Name, r: seq<Name>)
    requires Ascending(r) && forall m :: m in r ==> Less(n, m)
    ensures Ascending([n] + r)
  {
    forall i, j | 0 <= i < j < |[n] + r|
      ensures Less(([n] + r)[i], ([n] + r)[j])
    {
      assert ([n] + r)[j] == r[j - 1] && r[j - 1] in r;
    }
  }

  // The listing has each name exactly once, in strictly ascending order.
  lemma {:induction false} SortedIsAscendingAndComplete(ns: set<Name>)
    ensures Ascending(Sorted(ns))
    ensures forall n :: n in Sorted(ns) <==> n in ns
    decreases |ns|
  {
    if ns != {} {
      LeastExists(ns);
      var n :| IsLeast(n, ns);
      SortedStep(ns, n);
      SortedIsAscendingAndComplete(ns - {n});
      AscendingStep(n, Sorted(ns - {n}));
      assert ns == {n} + (ns - {n});
    }
  }

  // The names that come before one.
  function Before(ns: set<Name>, c: Name): set<Name> {
    set m | m in ns && Less(m, c)
  }

  // A name's place in the order is the number of names before it.
  lemma {:induction false} SortedRank(ns: set<Name>, c: Name)
    requires c in ns
    ensures |Before(ns, c)| < |ns| && Sorted(ns)[|Before(ns, c)|] == c
    decreases |ns|
  {
    LeastExists(ns);
    var n :| IsLeast(n, ns);
    SortedStep(ns, n);
    BeforeLeast(ns, n, c);
    if c != n {
      SortedRank(ns - {n}, c);
    }
  }

  lemma BeforeLeast(ns: set<Name>, n: Name, c: Name)
    requires IsLeast(n, ns) && c in ns
    ensures |Before(ns, c)| == if c == n then 0 else 1 + |Before(ns - {n}, c)|
  {
    if c == n {
      forall m | m in ns
        ensures !Less(m, c)
      {
        LessIsStrictTotalOrder(m, c, m);
      }
      assert Before(ns, c) == {};
    } else {
      assert Before(ns, c) == {n} + Before(ns - {n}, c);
    }
  }

  lemma SortedIsDistinct(ns: set<Name>, i: nat, j: nat)
    requires i < |Sorted(ns)| && j < |Sorted(ns)| && Sorted(ns)[i] == Sorted(ns)[j]
    ensures i == j
  {
    SortedIsAscendingAndComplete(ns);
    LessIsStrictTotalOrder(Sorted(ns)[i], Sorted(ns)[j], Sorted(ns)[i]);
  }

  ghost function EntryOf(s: State, d: NodeId, n: Name): DirEntry
    requires Known(s, d) && n in s.inodes[d].entries && Known(s, s.inodes[d].entries[n])
  {
    DirEntry(n, s.inodes[s.inodes[d].entries[n]].kind, Some(s.inodes[d].entries[n]))
  }

  ghost predicate Listable(s: State, d: NodeId) {
    Known(s, d) && forall n :: n in s.inodes[d].entries ==> Known(s, s.inodes[d].entries[n])
  }

  ghost function Entries(s: State, d: NodeId, names: seq<Name>): (r: seq<DirEntry>)
    requires Known(s, d)
    requires forall n :: n in names ==> n in s.inodes[d].entries && Known(s, s.inodes[d].entries[n])
    ensures |r| == |names| && forall i :: 0 <= i < |r| ==> r[i] == EntryOf(s, d, names[i])
  {
    seq(|names|, i requires 0 <= i < |names| => assert names[i] in names; EntryOf(s, d, names[i]))
  }

  // What reading the directory `d` returns.
  ghost function ListingOf(s: State, d: NodeId): (r: seq<DirEntry>)
    requires Listable(s, d)
    ensures |r| == |s.inodes[d].entries|
  {
    SortedIsAscendingAndComplete(s.inodes[d].entries.Keys);
    Entries(s, d, Sorted(s.inodes[d].entries.Keys))
  }

  lemma TreeIsListable(s: State, d: NodeId)
    requires Tree(s) && Known(s, d)
    ensures Listable(s, d)
  {
    assert EntriesOk(s, d);
  }

  // Every child once, in ascending name order, with the kind and inode that lookup finds.
  lemma ListingIsExact(s: State, d: NodeId)
    requires Tree(s) && IsDir(s, d)
    ensures Listable(s, d)
    ensures var es := ListingOf(s, d);
      && (forall i, j :: 0 <= i < j < |es| ==> Less(es[i].name, es[j].name))
      && (forall n :: Child(s, d, n).Some? <==> exists i :: 0 <= i < |es| && es[i].name == n)
      && (forall i :: 0 <= i < |es| ==>
            && Child(s, d, es[i].name).Some?
            && es[i].ino == Child(s, d, es[i].name)
            && es[i].kind == s.inodes[Child(s, d, es[i].name).value].kind)
  {
    TreeIsListable(s, d);
    var ns := s.inodes[d].entries.Keys;
    SortedIsAscendingAndComplete(ns);
    var es := ListingOf(s, d);
    forall n
      ensures Child(s, d, n).Some? <==> exists i :: 0 <= i < |es| && es[i].name == n
    {
      ListsName(s, d, n);
    }
    forall i | 0 <= i < |es|
      ensures Child(s, d, es[i].name).Some? && es[i].ino == Child(s, d, es[i].name)
           && es[i].kind == s.inodes[Child(s, d, es[i].name).value].kind
    {
      ListsChild(s, d, i);
    }
  }

  lemma ListsName(s: State, d: NodeId, n: Name)
    requires Tree(s) && IsDir(s, d) && Listable(s, d)
    ensures var es := ListingOf(s, d);
            Child(s, d, n).Some? <==> exists i :: 0 <= i < |es| && es[i].name == n
  {
    var ns, es := s.inodes[d].entries.Keys, ListingOf(s, d);
    SortedIsAscendingAndComplete(ns);
    ChildFacts(s, d, n);
    if n in ns {
      var i :| 0 <= i < |Sorted(ns)| && Sorted(ns)[i] == n;
      assert es[i].name == n;
    }
  }

  lemma ListsChild(s: State, d: NodeId, i: nat)
    requires Tree(s) && IsDir(s, d) && Listable(s, d) && i < |ListingOf(s, d)|
    ensures var e := ListingOf(s, d)[i];
            var c := Child(s, d, e.name);
            c.Some? && e.ino == c && e.kind == s.inodes[c.value].kind
  {
    var ns := s.inodes[d].entries.Keys;
    SortedIsAscendingAndComplete(ns);
    assert ListingOf(s, d)[i].name == Sorted(ns)[i] && Sorted(ns)[i] in Sorted(ns);
    ChildFacts(s, d, ListingOf(s, d)[i].name);
  }

  // A listing is known by its entries, one for each name in order.
  lemma ListingByEntries(s: State, d: NodeId, es: seq<DirEntry>)
    requires Listable(s, d) && |es| == |Sorted(s.inodes[d].entries.Keys)|
    requires var names := Sorted(s.inodes[d].entries.Keys);
             forall i :: 0 <= i < |es| ==>
               names[i] in s.inodes[d].entries && Known(s, s.inodes[d].entries[names[i]])
               && es[i] == EntryOf(s, d, names[i])
    ensures es == ListingOf(s, d)
  {
    SortedIsAscendingAndComplete(s.inodes[d].entries.Keys);
  }
}
