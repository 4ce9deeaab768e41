/** Mount dispatch: which file system a normal virtual path belongs to, and under which path there. */
module Mounts {
  import opened Paths

  // The length of the longest mounted prefix no longer than `k`; 0 stands for the root file system,
  // since a mount at `/` itself is never consulted.
  function LongestMount<F>(mounts: map<Parts, F>, p: seq<Name>, k: nat): (m: nat)
    requires k <= |p|
    ensures m <= k
  {
    if k == 0 then 0
    else if Abs(p[..k]) in mounts then k
    else LongestMount(mounts, p, k - 1)
  }

  lemma {:induction false} LongestMountIsLongest<F>(mounts: map<Parts, F>, p: seq<Name>, k: nat, j: nat)
    requires k <= |p| && 1 <= j <= k
    ensures Abs(p[..j]) in mounts ==> j <= LongestMount(mounts, p, k)
    decreases k
  {
    if Abs(p[..k]) !in mounts && j < k {
      LongestMountIsLongest(mounts, p, k - 1, j);
    }
  }

  lemma {:induction false} LongestMountIsMounted<F>(mounts: map<Parts, F>, p: seq<Name>, k: nat)
    requires k <= |p|
    ensures LongestMount(mounts, p, k) > 0 ==> Abs(p[..LongestMount(mounts, p, k)]) in mounts
    decreases k
  {
    if k > 0 && Abs(p[..k]) !in mounts {
      LongestMountIsMounted(mounts, p, k - 1);
    }
  }

  function Dispatch<F>(root: F, mounts: map<Parts, F>, p: seq<Name>): (F, seq<Name>) {
    var m := LongestMount(mounts, p, |p|);
    LongestMountIsMounted(mounts, p, |p|);
    if m == 0 then (root, p) else (mounts[Abs(p[..m])], p[m..])
  }

  // Try the path, then each of its ancestors, longest first.
  method AbsolutePathToFs<F>(root: F, mounts: map<Parts, F>, p: seq<Name>) returns (fs: F, subpath: seq<Name>)
    ensures fs == Dispatch(root, mounts, p).0 && subpath == Dispatch(root, mounts, p).1
  {
    var k := |p|;
    while k > 0
      invariant 0 <= k <= |p| && LongestMount(mounts, p, k) == LongestMount(mounts, p, |p|)
    {
      if Abs(p[..k]) in mounts {
        return mounts[Abs(p[..k])], p[k..];
      }
      k := k - 1;
    }
    return root, p;
  }

  // Dispatch picks the longest mounted prefix, and the mount point and the rest rebuild the path.
  lemma DispatchIsExact<F>(root: F, mounts: map<Parts, F>, p: seq<Name>) returns (m: nat)
    ensures m <= |p| && Dispatch(root, mounts, p).1 == p[m..] && p[..m] + Dispatch(root, mounts, p).1 == p
    ensures Dispatch(root, mounts, p).0 == if m == 0 || Abs(p[..m]) !in mounts then root else mounts[Abs(p[..m])]
    ensures m > 0 ==> Abs(p[..m]) in mounts
    ensures forall j :: m < j <= |p| ==> Abs(p[..j]) !in mounts
  {
    m := LongestMount(mounts, p, |p|);
    LongestMountIsMounted(mounts, p, |p|);
    forall j | m < j <= |p|
      ensures Abs(p[..j]) !in mounts
    {
      LongestMountIsLongest(mounts, p, |p|, j);
    }
  }

  // Each mounted file system is its own object: no two mount points share one, and none is the root.
  ghost predicate SeparateSystems<F>(root: F, mounts: map<Parts, F>) {
    && (forall a :: a in mounts ==> mounts[a] != root)
    && (forall a, b :: a in mounts && b in mounts && mounts[a] == mounts[b] ==> a == b)
  }

  // So no two virtual paths are one path of one file system.
  lemma DispatchIsInjective<F>(root: F, mounts: map<Parts, F>, p: seq<Name>, q: seq<Name>)
    requires SeparateSystems(root, mounts)
    requires Dispatch(root, mounts, p) == Dispatch(root, mounts, q)
    ensures p == q
  {
    var m := DispatchIsExact(root, mounts, p);
    var n := DispatchIsExact(root, mounts, q);
    if m > 0 && n > 0 {
      NamesOfAbs(p[..m]);
      NamesOfAbs(q[..n]);
    }
    assert p == p[..m] + p[m..] && q == q[..n] + q[n..];
    assert p[..0] == q[..0];
  }
}
