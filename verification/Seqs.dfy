/** Sequences up to order: what survives when the elements arrive in another order. */
module Seqs {
  function Map<A, B>(f: A -> B, items: seq<A>): (mapped: seq<B>)
    ensures |mapped| == |items|
  {
    seq(|items|, i requires 0 <= i < |items| => f(items[i]))
  }

  function Filter<T>(keep: T -> bool, items: seq<T>): seq<T>
  {
    if items == [] then []
    else
      var last := items[|items| - 1];
      Filter(keep, items[..|items| - 1]) + if keep(last) then [last] else []
  }

  lemma {:induction false} FilterCount<T>(keep: T -> bool, items: seq<T>, x: T)
    ensures multiset(Filter(keep, items))[x] == if keep(x) then multiset(items)[x] else 0
  {
    if items != [] {
      assert items == items[..|items| - 1] + [items[|items| - 1]];
      FilterCount(keep, items[..|items| - 1], x);
    }
  }

  lemma {:induction false} FilterSame<T>(keep: T -> bool, kept: T -> bool, items: seq<T>)
    requires forall x <- items :: keep(x) == kept(x)
    ensures Filter(keep, items) == Filter(kept, items)
  {
    if items != [] {
      var front, last := items[..|items| - 1], items[|items| - 1];
      assert forall x <- front :: x in items;
      assert last in items;
      FilterSame(keep, kept, front);
    }
  }

  lemma {:induction false} FilterKeeps<T>(keep: T -> bool, items: seq<T>)
    ensures forall x <- Filter(keep, items) :: x in items && keep(x)
  {
    if items != [] {
      var front := items[..|items| - 1];
      FilterKeeps(keep, front);
      assert forall x <- front :: x in items;
    }
  }

  lemma FilterSnoc<T>(keep: T -> bool, items: seq<T>, x: T)
    ensures Filter(keep, items + [x]) == Filter(keep, items) + if keep(x) then [x] else []
  {
    assert (items + [x])[..|items|] == items;
  }

  lemma MapSame<A, B>(f: A -> B, g: A -> B, items: seq<A>)
    requires forall x <- items :: f(x) == g(x)
    ensures Map(f, items) == Map(g, items)
  {
    assert forall i :: 0 <= i < |items| ==> items[i] in items;
  }

  lemma MapConcat<A, B>(f: A -> B, a: seq<A>, b: seq<A>)
    ensures Map(f, a + b) == Map(f, a) + Map(f, b)
  {
  }

  function Flatten<T>(parts: seq<seq<T>>): seq<T>
  {
    if parts == [] then [] else parts[0] + Flatten(parts[1..])
  }

  lemma {:induction false} FlattenConcat<T>(a: seq<seq<T>>, b: seq<seq<T>>)
    ensures Flatten(a + b) == Flatten(a) + Flatten(b)
  {
    if a == [] {
      assert a + b == b;
    } else {
      FlattenConcat(a[1..], b);
      assert (a + b)[1..] == a[1..] + b;
      Associate(a[0], Flatten(a[1..]), Flatten(b));
    }
  }

  lemma Associate<T>(a: seq<T>, b: seq<T>, c: seq<T>)
    ensures a + (b + c) == (a + b) + c
  {
  }

  lemma MapCons<A, B>(f: A -> B, x: A, rest: seq<A>)
    ensures Map(f, [x] + rest) == [f(x)] + Map(f, rest)
  {
  }

  lemma FlattenMapCons<A, T>(f: A -> seq<T>, x: A, rest: seq<A>)
    ensures Flatten(Map(f, [x] + rest)) == f(x) + Flatten(Map(f, rest))
  {
    assert Map(f, [x] + rest) == [f(x)] + Map(f, rest);
  }

  lemma FlattenMapSnoc<A, T>(f: A -> seq<T>, items: seq<A>, x: A)
    ensures Flatten(Map(f, items + [x])) == Flatten(Map(f, items)) + f(x)
  {
    assert Map(f, items + [x]) == Map(f, items) + [f(x)];
    FlattenConcat(Map(f, items), [f(x)]);
    assert Flatten([f(x)]) == f(x) + Flatten<T>([]) == f(x);
  }

  /** f(0) + ... + f(k - 1). */
  function Sum(f: nat -> nat, k: nat): nat
  {
    if k == 0 then 0 else Sum(f, k - 1) + f(k - 1)
  }

  /** Two sums whose terms differ in one place at most. */
  lemma {:induction false} SumDiffers(f: nat -> nat, g: nat -> nat, k: nat, place: nat, more: nat)
    requires forall i: nat :: i < k ==> g(i) == f(i) + if i == place then more else 0
    ensures Sum(g, k) == Sum(f, k) + if place < k then more else 0
  {
    if k > 0 {
      SumDiffers(f, g, k - 1, place, more);
    }
  }

  /** The place of an element in a permutation. */
  lemma Find<T>(items: seq<T>, x: T) returns (k: nat)
    requires x in multiset(items)
    ensures k < |items| && items[k] == x
    ensures items == items[..k] + [x] + items[k + 1..]
    ensures multiset(items[..k] + items[k + 1..]) == multiset(items) - multiset{x}
  {
    k :| 0 <= k < |items| && items[k] == x;
    assert items == items[..k] + [x] + items[k + 1..];
  }

  lemma MapAround<A, B>(f: A -> B, front: seq<A>, x: A, back: seq<A>)
    ensures multiset(Map(f, front + [x] + back)) == multiset(Map(f, front + back)) + multiset{f(x)}
  {
    assert Map(f, front + [x] + back) == Map(f, front) + [f(x)] + Map(f, back);
    assert Map(f, front + back) == Map(f, front) + Map(f, back);
  }

  lemma {:induction false} MapPermutation<A, B>(f: A -> B, a: seq<A>, b: seq<A>)
    requires multiset(a) == multiset(b)
    ensures multiset(Map(f, a)) == multiset(Map(f, b))
    decreases |a|
  {
    if a == [] {
      assert |multiset(b)| == 0;
    } else {
      assert a == [] + [a[0]] + a[1..];
      assert a[0] in multiset(a);
      var k := Find(b, a[0]);
      assert multiset(a[1..]) == multiset(a) - multiset{a[0]};
      MapPermutation(f, a[1..], b[..k] + b[k + 1..]);
      MapAround(f, [], a[0], a[1..]);
      assert [] + a[1..] == a[1..];
      MapAround(f, b[..k], a[0], b[k + 1..]);
    }
  }

  lemma FlattenAround<T>(front: seq<seq<T>>, x: seq<T>, back: seq<seq<T>>)
    ensures multiset(Flatten(front + [x] + back)) == multiset(Flatten(front + back)) + multiset(x)
  {
    FlattenConcat(front + [x], back);
    FlattenConcat(front, [x]);
    FlattenConcat(front, back);
    assert Flatten([x]) == x + Flatten<T>([]) == x;
  }

  lemma {:induction false} FlattenPermutation<T>(a: seq<seq<T>>, b: seq<seq<T>>)
    requires multiset(a) == multiset(b)
    ensures multiset(Flatten(a)) == multiset(Flatten(b))
    decreases |a|
  {
    if a == [] {
      assert |multiset(b)| == 0;
    } else {
      assert a == [] + [a[0]] + a[1..];
      assert a[0] in multiset(a);
      var k := Find(b, a[0]);
      assert multiset(a[1..]) == multiset(a) - multiset{a[0]};
      FlattenPermutation(a[1..], b[..k] + b[k + 1..]);
      FlattenAround([], a[0], a[1..]);
      assert [] + a[1..] == a[1..];
      FlattenAround(b[..k], a[0], b[k + 1..]);
    }
  }
}
