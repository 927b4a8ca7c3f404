/**
 * The three list shapes the builders are made of: boolean-mask filtering of a
 * frame (`df[df[col] == v]`), first-match lookup (`df.loc[mask].values[0]`)
 * and per-row mapping (`.tolist()`, `.apply`, a list comprehension).
 */
module Seqs {

  /** The elements of `s` that satisfy `p`, in their original order. */
  function Keep<T(!new)>(s: seq<T>, p: T -> bool): (r: seq<T>)
    ensures |r| <= |s|
    ensures forall x :: x in r <==> x in s && p(x)
  {
    if s == [] then [] else (if p(s[0]) then [s[0]] else []) + Keep(s[1..], p)
  }

  /** Filtering commutes with concatenation: nothing is reordered across the cut. */
  lemma {:induction false} KeepAppend<T(!new)>(a: seq<T>, b: seq<T>, p: T -> bool)
    ensures Keep(a + b, p) == Keep(a, p) + Keep(b, p)
  {
    if a == [] {
      assert a + b == b;
    } else {
      assert (a + b)[1..] == a[1..] + b;
      KeepAppend(a[1..], b, p);
    }
  }

  /** Filtering neither drops nor duplicates a kept element: each keeps its multiplicity. */
  lemma {:induction false} KeepMultiplicity<T(!new)>(s: seq<T>, p: T -> bool, x: T)
    ensures multiset(Keep(s, p))[x] == if p(x) then multiset(s)[x] else 0
  {
    if s != [] {
      assert s == [s[0]] + s[1..];
      KeepMultiplicity(s[1..], p, x);
    }
  }

  /** A filter that rejects everything yields nothing. */
  lemma KeepNone<T(!new)>(s: seq<T>, p: T -> bool)
    requires forall x :: x in s ==> !p(x)
    ensures Keep(s, p) == []
  {
    if Keep(s, p) != [] {
      assert Keep(s, p)[0] in Keep(s, p);
    }
  }

  /** The index of the first element satisfying `p`, or `|s|` when there is none. */
  function FindFirst<T>(s: seq<T>, p: T -> bool): (i: nat)
    ensures i <= |s|
    ensures i < |s| ==> p(s[i])
    ensures forall j :: 0 <= j < i ==> !p(s[j])
  {
    if s == [] then 0 else if p(s[0]) then 0 else 1 + FindFirst(s[1..], p)
  }

  /** `f` applied to each element, in order. */
  function Map<A, B>(s: seq<A>, f: A -> B): (r: seq<B>)
    ensures |r| == |s|
    ensures forall i :: 0 <= i < |s| ==> r[i] == f(s[i])
  {
    if s == [] then [] else Map(s[..|s| - 1], f) + [f(s[|s| - 1])]
  }

  lemma ConcatAssociative<T>(a: seq<T>, b: seq<T>, c: seq<T>)
    ensures (a + b) + c == a + (b + c)
  {
  }

  lemma PrefixSnoc<T>(s: seq<T>, k: nat)
    requires k < |s|
    ensures s[..k + 1] == s[..k] + [s[k]]
  {
  }

  /** The middle part of a three-way concatenation can be cut back out. */
  lemma ConcatSlice<T>(a: seq<T>, b: seq<T>, c: seq<T>)
    ensures |a + b + c| == |a| + |b| + |c|
    ensures (a + b + c)[|a|..|a| + |b|] == b
  {
  }

  /** Mapping one more element of a prefix appends its image. */
  lemma MapSnoc<A, B>(s: seq<A>, j: nat, f: A -> B)
    requires j < |s|
    ensures Map(s[..j + 1], f) == Map(s[..j], f) + [f(s[j])]
  {
    assert s[..j + 1][..j] == s[..j];
  }

  lemma MapAppend<A, B>(a: seq<A>, b: seq<A>, f: A -> B)
    ensures Map(a + b, f) == Map(a, f) + Map(b, f)
  {
  }

  /** The parts of the elements of `s`, concatenated in order. */
  function ConcatMap<A, B>(s: seq<A>, part: A -> seq<B>): seq<B> {
    if s == [] then [] else ConcatMap(s[..|s| - 1], part) + part(s[|s| - 1])
  }

  lemma ConcatMapSnoc<A, B>(s: seq<A>, part: A -> seq<B>, i: nat)
    requires i < |s|
    ensures ConcatMap(s[..i + 1], part) == ConcatMap(s[..i], part) + part(s[i])
  {
    assert s[..i + 1][..i] == s[..i];
  }

  lemma {:induction false} ConcatMapAppend<A, B>(a: seq<A>, b: seq<A>, part: A -> seq<B>)
    ensures ConcatMap(a + b, part) == ConcatMap(a, part) + ConcatMap(b, part)
    decreases |b|
  {
    if b != [] {
      var init := b[..|b| - 1];
      assert (a + b)[..|a + b| - 1] == a + init;
      assert (a + b)[|a + b| - 1] == b[|b| - 1];
      ConcatMapAppend(a, init, part);
    } else {
      assert a + b == a;
    }
  }

  /** The part of `s[i]` sits right after the parts of the elements before it. */
  lemma ConcatMapAt<A, B>(s: seq<A>, part: A -> seq<B>, i: nat, x: seq<B>)
    requires i < |s| && part(s[i]) == x
    ensures |ConcatMap(s[..i], part)| + |x| <= |ConcatMap(s, part)|
    ensures ConcatMap(s, part)[|ConcatMap(s[..i], part)|..|ConcatMap(s[..i], part)| + |x|] == x
  {
    var before, after := s[..i], s[i + 1..];
    assert s == before + [s[i]] + after;
    ConcatMapAppend(before + [s[i]], after, part);
    ConcatMapAppend(before, [s[i]], part);
    assert [s[i]][..0] == [];
    ConcatSlice(ConcatMap(before, part), x, ConcatMap(after, part));
  }
}
