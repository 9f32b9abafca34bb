/**
 * The product pre-sort of the GA and greedy policies: Python's stable
 * `sorted(..., reverse=True)` on a key, here a lexicographic pair.
 * The GA sorts on (area, quantity), the greedy policy on area alone.
 */
module ProductOrder {
  import opened Types

  /** A sort key compared lexicographically. */
  datatype Key = Key(primary: int, secondary: int)

  /** Which key a policy sorts its products on. */
  datatype Order =
    | ByAreaThenQuantity  // the GA policies
    | ByArea              // the greedy policy

  function KeyOf(o: Order, p: Product): Key
  {
    match o
    case ByAreaThenQuantity => Key(Area(p.size), p.quantity)
    case ByArea => Key(Area(p.size), 0)
  }

  predicate AtLeast(a: Key, b: Key)
  {
    a.primary > b.primary || (a.primary == b.primary && a.secondary >= b.secondary)
  }

  /** Keys never increase along `s`. */
  predicate Descending(o: Order, s: seq<Product>)
  {
    forall i, j :: 0 <= i < j < |s| ==> AtLeast(KeyOf(o, s[i]), KeyOf(o, s[j]))
  }

  /** The elements of `s` whose key is `k`, in their order in `s`. */
  function WithKey(o: Order, s: seq<Product>, k: Key): seq<Product>
  {
    if s == [] then []
    else (if KeyOf(o, s[0]) == k then [s[0]] else []) + WithKey(o, s[1..], k)
  }

  /** Along a sequence sorted by descending area, areas never increase. */
  lemma DescendingArea(s: seq<Product>, i: nat, j: nat)
    requires Descending(ByArea, s) && i <= j < |s|
    ensures Area(s[j].size) <= Area(s[i].size)
  {
    if i < j {
      assert AtLeast(KeyOf(ByArea, s[i]), KeyOf(ByArea, s[j]));
    }
  }

  /** A product whose key bounds every key of a descending tail can head it. */
  lemma DescendingCons(o: Order, h: Product, t: seq<Product>)
    requires Descending(o, t)
    requires forall e :: e in t ==> AtLeast(KeyOf(o, h), KeyOf(o, e))
    ensures Descending(o, [h] + t)
  {
    var r := [h] + t;
    forall i, j | 0 <= i < j < |r| ensures AtLeast(KeyOf(o, r[i]), KeyOf(o, r[j])) {
      assert r[j] == t[j - 1];
      if i > 0 {
        assert r[i] == t[i - 1];
      }
    }
  }

  /** The head of a descending sequence bounds its tail, which is itself descending. */
  lemma HeadBoundsTail(o: Order, s: seq<Product>)
    requires Descending(o, s) && s != []
    ensures Descending(o, s[1..])
    ensures forall e :: e in s[1..] ==> AtLeast(KeyOf(o, s[0]), KeyOf(o, e))
  {
    forall e | e in s[1..] ensures AtLeast(KeyOf(o, s[0]), KeyOf(o, e)) {
      var j :| 0 <= j < |s[1..]| && s[1..][j] == e;
      assert s[j + 1] == e;
    }
  }

  /** A key at least the head's bounds the whole of a descending sequence. */
  lemma AboveHead(o: Order, x: Product, s: seq<Product>)
    requires Descending(o, s) && s != [] && AtLeast(KeyOf(o, x), KeyOf(o, s[0]))
    ensures forall e :: e in s ==> AtLeast(KeyOf(o, x), KeyOf(o, e))
  {
    forall e | e in s ensures AtLeast(KeyOf(o, x), KeyOf(o, e)) {
      var j :| 0 <= j < |s| && s[j] == e;
      if j > 0 {
        assert AtLeast(KeyOf(o, s[0]), KeyOf(o, s[j]));
      }
    }
  }

  /** Puts `x` after the elements with a strictly larger key and before the rest. */
  function Insert(o: Order, x: Product, s: seq<Product>): (r: seq<Product>)
    requires Descending(o, s)
    ensures multiset(r) == multiset(s) + multiset{x}
    ensures forall e :: e in r <==> e in s || e == x
    ensures Descending(o, r)
  {
    if s == [] then [x]
    else if !AtLeast(KeyOf(o, x), KeyOf(o, s[0])) then
      HeadBoundsTail(o, s);
      var t := Insert(o, x, s[1..]);
      DescendingCons(o, s[0], t);
      assert s == [s[0]] + s[1..];
      [s[0]] + t
    else
      AboveHead(o, x, s);
      DescendingCons(o, x, s);
      [x] + s
  }

  /** Stable sort into non-increasing key order. */
  function SortDesc(o: Order, s: seq<Product>): (r: seq<Product>)
    ensures multiset(r) == multiset(s)
    ensures Descending(o, r)
  {
    if s == [] then []
    else
      assert s == [s[0]] + s[1..];
      Insert(o, s[0], SortDesc(o, s[1..]))
  }

  /** The sorted sequence has the same elements, with the same multiplicities. */
  lemma SortDescLength(o: Order, s: seq<Product>)
    ensures |SortDesc(o, s)| == |s|
    ensures forall p :: p in SortDesc(o, s) <==> p in s
  {
    var r := SortDesc(o, s);
    assert |multiset(r)| == |multiset(s)|;
    forall p ensures p in r <==> p in s {
      assert p in r <==> p in multiset(r);
    }
  }

  lemma WithKeyCons(o: Order, h: Product, t: seq<Product>, k: Key)
    ensures WithKey(o, [h] + t, k) == (if KeyOf(o, h) == k then [h] else []) + WithKey(o, t, k)
  {
    assert ([h] + t)[1..] == t;
  }

  lemma {:induction false} InsertWithKey(o: Order, x: Product, s: seq<Product>, k: Key)
    requires Descending(o, s)
    ensures WithKey(o, Insert(o, x, s), k)
            == (if KeyOf(o, x) == k then [x] else []) + WithKey(o, s, k)
  {
    if s == [] {
      WithKeyCons(o, x, [], k);
    } else if !AtLeast(KeyOf(o, x), KeyOf(o, s[0])) {
      HeadBoundsTail(o, s);
      InsertWithKey(o, x, s[1..], k);
      WithKeyCons(o, s[0], Insert(o, x, s[1..]), k);
      WithKeyCons(o, s[0], s[1..], k);
      assert s == [s[0]] + s[1..];
    } else {
      WithKeyCons(o, x, s, k);
    }
  }

  /**
   * Stability: for every key, the products carrying that key appear in the
   * sorted sequence in exactly their original order.
   */
  lemma {:induction false} SortDescStable(o: Order, s: seq<Product>, k: Key)
    ensures WithKey(o, SortDesc(o, s), k) == WithKey(o, s, k)
  {
    if s != [] {
      SortDescStable(o, s[1..], k);
      InsertWithKey(o, s[0], SortDesc(o, s[1..]), k);
    }
  }
}
