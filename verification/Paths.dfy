/**
 Paths as the standard library's `components()` presents them: the leading `/` is implicit in an
 absolute path, `.` survives only at the head of a relative one, and `..` is kept as a component.
 */
module Paths {
  import opened Wrappers

  type Byte = x: int | 0 <= x < 256
  type Name = seq<Byte>
  datatype Component = CurDir | ParentDir | Normal(name: Name)
  type Parts = seq<Component>

  // A path argument of the public interface, absolute or relative.
  datatype Path = Path(absolute: bool, parts: Parts)

  function Init<T>(p: seq<T>): (r: seq<T>)
    requires p != []
    ensures |r| == |p| - 1
  {
    p[..|p| - 1]
  }

  function Last<T>(p: seq<T>): T
    requires p != []
  {
    p[|p| - 1]
  }

  function FileName(p: Parts): Option<Name> {
    if p != [] && Last(p).Normal? then Some(Last(p).name) else None
  }

  // The names of a path, skipping every other component, as `resolve` does.
  function Names(p: Parts): seq<Name> {
    if p == [] then []
    else if Last(p).Normal? then Names(Init(p)) + [Last(p).name]
    else Names(Init(p))
  }

  predicate IsNormal(p: Parts) {
    forall i :: 0 <= i < |p| ==> p[i].Normal?
  }

  function Abs(names: seq<Name>): (p: Parts)
    ensures |p| == |names| && IsNormal(p)
  {
    seq(|names|, i requires 0 <= i < |names| => Normal(names[i]))
  }

  lemma {:induction false} NamesOfNormal(p: Parts)
    requires IsNormal(p)
    ensures |Names(p)| == |p|
    ensures forall i :: 0 <= i < |p| ==> p[i] == Normal(Names(p)[i])
    ensures Abs(Names(p)) == p
  {
    if p != [] {
      NamesOfNormal(Init(p));
    }
  }

  lemma NamesOfAbs(names: seq<Name>)
    ensures Names(Abs(names)) == names
  {
    NamesOfNormal(Abs(names));
  }

  // On normal paths the component-wise `starts_with` is the prefix test on names.
  lemma StartsWithOnNames(p: Parts, q: Parts)
    requires IsNormal(p) && IsNormal(q)
    ensures p <= q <==> Names(p) <= Names(q)
    ensures p == q <==> Names(p) == Names(q)
  {
    NamesOfNormal(p);
    NamesOfNormal(q);
    if Names(p) <= Names(q) {
      forall i | 0 <= i < |p|
        ensures p[i] == q[i]
      {
        assert Names(p)[i] == Names(q)[i];
      }
    }
    if p <= q {
      forall i | 0 <= i < |p|
        ensures Names(p)[i] == Names(q)[i]
      {
        assert p[i] == q[i];
      }
    }
  }

  // ----- lexical normalisation

  function Push(base: seq<Name>, c: Component): seq<Name> {
    match c
    case CurDir => base
    case ParentDir => if base == [] then [] else Init(base)
    case Normal(n) => base + [n]
  }

  // The normal form of `base` joined with `p`.
  function NormFrom(base: seq<Name>, p: Parts): seq<Name>
    decreases |p|
  {
    if p == [] then base else NormFrom(Push(base, p[0]), p[1..])
  }

  method NormalizeAbsolute(p: Parts) returns (normalized: seq<Name>)
    ensures normalized == NormFrom([], p)
  {
    normalized := [];
    for i := 0 to |p|
      invariant NormFrom(normalized, p[i..]) == NormFrom([], p)
    {
      assert p[i..][1..] == p[i + 1..];
      match p[i] {
        case CurDir =>
        case ParentDir =>
          if normalized != [] {
            normalized := normalized[..|normalized| - 1];
          }
        case Normal(part) => normalized := normalized + [part];
      }
    }
    assert p[|p|..] == [];
  }

  lemma {:induction false} NormFromConcat(base: seq<Name>, p: Parts, q: Parts)
    ensures NormFrom(base, p + q) == NormFrom(NormFrom(base, p), q)
    decreases |p|
  {
    if p == [] {
      assert p + q == q;
    } else {
      assert (p + q)[1..] == p[1..] + q;
      NormFromConcat(Push(base, p[0]), p[1..], q);
    }
  }

  lemma {:induction false} NormFromNames(base: seq<Name>, names: seq<Name>)
    ensures NormFrom(base, Abs(names)) == base + names
    decreases |names|
  {
    if names == [] {
      assert base + names == base;
    } else {
      assert Abs(names)[1..] == Abs(names[1..]);
      NormFromNames(base + [names[0]], names[1..]);
      assert base + [names[0]] + names[1..] == base + names;
    }
  }

  // Normalising a second time, or joining first, changes nothing.
  lemma NormaliseIdempotentAndJoins(a: Parts, b: Parts)
    ensures NormFrom([], Abs(NormFrom([], a))) == NormFrom([], a)
    ensures NormFrom([], Abs(NormFrom([], a)) + b) == NormFrom([], a + b)
  {
    NormFromNames([], NormFrom([], a));
    assert [] + NormFrom([], a) == NormFrom([], a);
    NormFromConcat([], Abs(NormFrom([], a)), b);
    NormFromConcat([], a, b);
  }
}
