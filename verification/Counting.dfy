/** Counts and sums over the elements of a sequence, which do not depend on their order. */
module Counting {

  function CountIf<T(!new)>(s: seq<T>, p: T -> bool): (n: nat)
    ensures n <= |s|
  {
    if s == [] then 0 else CountIf(s[..|s| - 1], p) + if p(s[|s| - 1]) then 1 else 0
  }

  function SumOf<T(!new)>(s: seq<T>, f: T -> real): real {
    if s == [] then 0.0 else SumOf(s[..|s| - 1], f) + f(s[|s| - 1])
  }

  lemma OneMore<T(!new)>(s: seq<T>, x: T, p: T -> bool, f: T -> real)
    ensures CountIf(s + [x], p) == CountIf(s, p) + if p(x) then 1 else 0
    ensures SumOf(s + [x], f) == SumOf(s, f) + f(x)
  {
    assert (s + [x])[..|s|] == s;
  }

  lemma {:induction false} Joined<T(!new)>(s: seq<T>, t: seq<T>, p: T -> bool, f: T -> real)
    ensures CountIf(s + t, p) == CountIf(s, p) + CountIf(t, p)
    ensures SumOf(s + t, f) == SumOf(s, f) + SumOf(t, f)
  {
    if t == [] {
      assert s + t == s;
    } else {
      var last := |t| - 1;
      Joined(s, t[..last], p, f);
      OneMore(s + t[..last], t[last], p, f);
      assert s + t == (s + t[..last]) + [t[last]];
    }
  }

  // The same elements in another order.
  ghost predicate Permuted<T(!new)>(a: seq<T>, b: seq<T>) {
    multiset(a) == multiset(b)
  }

  lemma Around<T(!new)>(front: seq<T>, x: T, back: seq<T>, p: T -> bool, f: T -> real)
    ensures CountIf(front + [x] + back, p) == CountIf(front + back, p) + if p(x) then 1 else 0
    ensures SumOf(front + [x] + back, f) == SumOf(front + back, f) + f(x)
  {
    Joined(front + [x], back, p, f);
    OneMore(front, x, p, f);
    Joined(front, back, p, f);
  }

  // Where the element x of one order is in the other one.
  lemma Match<T(!new)>(a: seq<T>, b: seq<T>, x: T) returns (front: seq<T>, back: seq<T>)
    requires Permuted(a + [x], b)
    ensures b == front + [x] + back && Permuted(a, front + back)
  {
    assert x in multiset(b);
    var j :| 0 <= j < |b| && b[j] == x;
    front, back := b[..j], b[j + 1..];
    assert b == front + [x] + back;
    assert multiset(b) == multiset(front + back) + multiset{x};
    assert multiset(a + [x]) == multiset(a) + multiset{x};
    CancelOne(multiset(a), multiset(front + back), x);
  }

  lemma CancelOne<T(!new)>(m: multiset<T>, n: multiset<T>, x: T)
    requires m + multiset{x} == n + multiset{x}
    ensures m == n
  {
    assert m == (m + multiset{x}) - multiset{x};
    assert n == (n + multiset{x}) - multiset{x};
  }

  /** Counting and summing give the same for every order of the elements. */
  lemma {:induction false} PermutedAgree<T(!new)>(a: seq<T>, b: seq<T>, p: T -> bool, f: T -> real)
    requires Permuted(a, b)
    ensures |a| == |b|
    ensures CountIf(a, p) == CountIf(b, p)
    ensures SumOf(a, f) == SumOf(b, f)
  {
    if a == [] {
      assert |multiset(b)| == 0;
    } else {
      var last := |a| - 1;
      assert a == a[..last] + [a[last]];
      var front, back := Match(a[..last], b, a[last]);
      PermutedAgree(a[..last], front + back, p, f);
      Around(front, a[last], back, p, f);
    }
  }

  lemma PermutedMembers<T(!new)>(a: seq<T>, b: seq<T>, x: T)
    requires Permuted(a, b)
    ensures x in a <==> x in b
  {
    assert x in a <==> x in multiset(a);
    assert x in b <==> x in multiset(b);
  }

  lemma {:induction false} SameOnAll<T(!new)>(s: seq<T>, p: T -> bool, q: T -> bool)
    requires forall x | x in s :: p(x) == q(x)
    ensures CountIf(s, p) == CountIf(s, q)
  {
    if s != [] {
      assert forall x | x in s[..|s| - 1] :: x in s;
      SameOnAll(s[..|s| - 1], p, q);
    }
  }

  lemma {:induction false} CountsNone<T(!new)>(s: seq<T>, p: T -> bool)
    ensures CountIf(s, p) == 0 <==> forall x | x in s :: !p(x)
    ensures CountIf(s, p) == |s| <==> forall x | x in s :: p(x)
  {
    if s != [] {
      var last := |s| - 1;
      CountsNone(s[..last], p);
      assert forall x :: x in s <==> x in s[..last] || x == s[last];
    }
  }

  // What each element yields, put together in order.
  function Collect<T(!new), U(!new)>(s: seq<T>, f: T -> seq<U>): seq<U> {
    if s == [] then [] else Collect(s[..|s| - 1], f) + f(s[|s| - 1])
  }

  lemma {:induction false} CollectJoined<T(!new), U(!new)>(s: seq<T>, t: seq<T>, f: T -> seq<U>)
    ensures Collect(s + t, f) == Collect(s, f) + Collect(t, f)
  {
    if t == [] {
      assert s + t == s;
    } else {
      var last := |t| - 1;
      CollectJoined(s, t[..last], f);
      assert (s + t)[..|s| + last] == s + t[..last];
    }
  }

  lemma CollectAround<T(!new), U(!new)>(front: seq<T>, x: T, back: seq<T>, f: T -> seq<U>)
    ensures multiset(Collect(front + [x] + back, f)) == multiset(Collect(front + back, f)) + multiset(f(x))
  {
    CollectJoined(front + [x], back, f);
    CollectJoined(front, [x], f);
    CollectJoined(front, back, f);
    CollectOne(x, f);
    TakeMiddle(Collect(front, f), f(x), Collect(back, f));
  }

  lemma CollectOne<T(!new), U(!new)>(x: T, f: T -> seq<U>)
    ensures Collect([x], f) == f(x)
  {
    assert [x][..0] == [];
  }

  lemma TakeMiddle<U>(a: seq<U>, b: seq<U>, c: seq<U>)
    ensures multiset(a + b + c) == multiset(a + c) + multiset(b)
  {
  }

  /** What is collected from the elements in another order is the same, in another order. */
  lemma {:induction false} CollectPermutes<T(!new), U(!new)>(a: seq<T>, b: seq<T>, f: T -> seq<U>)
    requires Permuted(a, b)
    ensures Permuted(Collect(a, f), Collect(b, f))
  {
    if a == [] {
      assert |multiset(b)| == 0;
    } else {
      var last := |a| - 1;
      assert a == a[..last] + [a[last]];
      var front, back := Match(a[..last], b, a[last]);
      CollectPermutes(a[..last], front + back, f);
      CollectAround(front, a[last], back, f);
    }
  }

  lemma SubsetSize<T>(a: set<T>, b: set<T>)
    requires a <= b
    ensures |a| <= |b|
    ensures a != b ==> |a| < |b|
  {
    assert b == a + (b - a);
    assert a != b ==> b - a != {};
  }

  // The positions where it holds.
  ghost function Where<T(!new)>(s: seq<T>, p: T -> bool): set<int> {
    set i | 0 <= i < |s| && p(s[i])
  }

  lemma WhereOneMore<T(!new)>(s: seq<T>, x: T, p: T -> bool)
    ensures Where(s + [x], p) == Where(s, p) + if p(x) then {|s|} else {}
  {
    forall i ensures i in Where(s + [x], p) <==> i in Where(s, p) || (p(x) && i == |s|) {
      assert 0 <= i < |s| ==> (s + [x])[i] == s[i];
    }
  }

  /** A count is the number of the positions where it holds. */
  lemma {:induction false} CountIsASet<T(!new)>(s: seq<T>, p: T -> bool)
    ensures CountIf(s, p) == |Where(s, p)|
  {
    if s != [] {
      var last := |s| - 1;
      CountIsASet(s[..last], p);
      WhereOneMore(s[..last], s[last], p);
      assert s == s[..last] + [s[last]];
    }
  }
}
