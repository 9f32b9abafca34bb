/**
 * GA crossover: the child is the first `k` actions of the first parent
 * followed by every action of the second parent that does not occur among
 * those `k` (exact structural match of stock index, size and position).
 */
module Crossover {
  import opened Types

  /** The elements of `s` outside `excl`, in order and with their multiplicities. */
  function Without(s: seq<Action>, excl: set<Action>): (r: seq<Action>)
    ensures |r| <= |s|
    ensures Subseq(r, s)
    ensures forall a :: a in r <==> a in s && a !in excl
    ensures forall a :: a in excl ==> multiset(r)[a] == 0
    ensures forall a :: a !in excl ==> multiset(r)[a] == multiset(s)[a]
  {
    if s == [] then []
    else
      assert s == [s[0]] + s[1..];
      var t := Without(s[1..], excl);
      if s[0] in excl then t
      else
        assert ([s[0]] + t)[1..] == t;
        [s[0]] + t
  }

  /** `_crossover` with the split point `k` drawn in `[0, |p1| - 1]`. */
  function Cross(p1: Solution, p2: Solution, k: nat): (child: Solution)
    requires k < |p1|
    ensures k <= |child| <= k + |p2|
    ensures child[..k] == p1[..k]
    ensures Subseq(child[k..], p2)
    ensures forall a :: a in child[k..] <==> a in p2 && a !in p1[..k]
    ensures forall a :: a !in p1[..k] ==> multiset(child[k..])[a] == multiset(p2)[a]
  {
    var prefix := p1[..k];
    var kept := set a | a in prefix;
    var child := prefix + Without(p2, kept);
    assert child[k..] == Without(p2, kept);
    child
  }

  /** Every action of a child comes from one of its parents. */
  lemma CrossFromParents(p1: Solution, p2: Solution, k: nat)
    requires k < |p1|
    ensures forall a :: a in Cross(p1, p2, k) ==> a in p1 || a in p2
  {
    var c := Cross(p1, p2, k);
    assert c == c[..k] + c[k..];
    forall a | a in c ensures a in p1 || a in p2 {
      if a in c[..k] {
        assert a in p1[..k];
      }
    }
  }

  /** A child is empty only when the split is 0 and the second parent is empty. */
  lemma CrossNonEmpty(p1: Solution, p2: Solution, k: nat)
    requires k < |p1|
    ensures Cross(p1, p2, k) == [] <==> k == 0 && p2 == []
  {
    var c := Cross(p1, p2, k);
    if k == 0 && p2 != [] {
      assert p2[0] in c[0..];
    }
    if k > 0 {
      assert |c[..k]| == k;
    }
  }

  /** With split 0 the child is exactly the second parent. */
  lemma CrossAtZero(p1: Solution, p2: Solution)
    requires |p1| > 0
    ensures Cross(p1, p2, 0) == p2
  {
    var c := Cross(p1, p2, 0);
    assert p1[..0] == [];
    assert c == c[0..];
    assert forall a :: multiset(c)[a] == multiset(p2)[a];
    assert multiset(c) == multiset(p2);
    SubseqSameMultiset(c, p2);
  }

  /** A subsequence with the same multiset as its source is the source itself. */
  lemma {:induction false} SubseqSameMultiset(a: seq<Action>, b: seq<Action>)
    requires Subseq(a, b) && multiset(a) == multiset(b)
    ensures a == b
    decreases |b|
  {
    if a == [] {
      assert |multiset(b)| == 0;
    } else {
      assert b != [];
      if a[0] == b[0] && Subseq(a[1..], b[1..]) {
        assert a == [a[0]] + a[1..] && b == [b[0]] + b[1..];
        assert multiset(a) == multiset{a[0]} + multiset(a[1..]);
        assert multiset(b) == multiset{a[0]} + multiset(b[1..]);
        forall x ensures multiset(a[1..])[x] == multiset(b[1..])[x] {
          assert multiset(a)[x] == multiset{a[0]}[x] + multiset(a[1..])[x];
          assert multiset(b)[x] == multiset{a[0]}[x] + multiset(b[1..])[x];
        }
        assert multiset(a[1..]) == multiset(b[1..]);
        SubseqSameMultiset(a[1..], b[1..]);
      } else {
        SubseqShorter(a, b[1..]);
        assert false;
      }
    }
  }

  lemma {:induction false} SubseqShorter(a: seq<Action>, b: seq<Action>)
    requires Subseq(a, b)
    ensures |a| <= |b|
    decreases |b|
  {
    if a != [] {
      if a[0] == b[0] && Subseq(a[1..], b[1..]) {
        SubseqShorter(a[1..], b[1..]);
      } else {
        SubseqShorter(a, b[1..]);
      }
    }
  }
}
