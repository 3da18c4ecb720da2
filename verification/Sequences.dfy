/** Facts about finite sequences that the queues of the kernel share. */
module Sequences {

  ghost predicate NoDuplicates<T>(s: seq<T>) {
    forall i, j :: 0 <= i < j < |s| ==> s[i] != s[j]
  }

  lemma NoDuplicatesEnds<T>(s: seq<T>, x: T)
    requires NoDuplicates(s) && x !in s
    ensures NoDuplicates([x] + s) && NoDuplicates(s + [x])
  {
  }

  lemma NoDuplicatesParts<T>(a: seq<T>, b: seq<T>)
    requires NoDuplicates(a + b)
    ensures NoDuplicates(a) && NoDuplicates(b) && forall x :: x in a ==> x !in b
  {
    var s := a + b;
    assert forall i :: 0 <= i < |a| ==> s[i] == a[i];
    assert forall j :: 0 <= j < |b| ==> s[|a| + j] == b[j];
  }

  /** s without position k, described position by position. */
  ghost predicate IsDrop<T>(s: seq<T>, k: nat, r: seq<T>) {
    && k < |s| && |r| == |s| - 1
    && (forall i :: 0 <= i < k ==> r[i] == s[i])
    && (forall i :: k <= i < |r| ==> r[i] == s[i + 1])
  }

  lemma DropAt<T>(s: seq<T>, k: nat) returns (r: seq<T>)
    requires k < |s|
    ensures IsDrop(s, k, r) && (NoDuplicates(s) ==> NoDuplicates(r))
    ensures forall x :: x in r ==> x in s
  {
    r := s[..k] + s[k + 1..];
  }

  lemma DropIsConcat<T>(s: seq<T>, k: nat, r: seq<T>)
    requires IsDrop(s, k, r)
    ensures r == s[..k] + s[k + 1..]
  {
  }

  /** Moves the head of a queue to its end. */
  function Rotate<T>(s: seq<T>): (r: seq<T>)
    requires s != []
  {
    s[1..] + [s[0]]
  }

  function RotateBy<T>(s: seq<T>, k: nat): (r: seq<T>)
    requires s != []
    ensures |r| == |s|
  {
    if k == 0 then s else Rotate(RotateBy(s, k - 1))
  }

  /** Up to a full turn, k rotations cut the queue at k and swap the two parts. */
  lemma {:induction false} RotateByCut<T>(s: seq<T>, k: nat)
    requires s != [] && k <= |s|
    ensures RotateBy(s, k) == s[k..] + s[..k]
  {
    if k > 0 {
      RotateByCut(s, k - 1);
      assert s[k - 1..][1..] == s[k..];
      assert s[..k] == s[..k - 1] + [s[k - 1]];
    }
  }

  lemma {:induction false} RotateByMultiset<T>(s: seq<T>, k: nat)
    requires s != []
    ensures multiset(RotateBy(s, k)) == multiset(s)
  {
    if k > 0 {
      RotateByMultiset(s, k - 1);
      var r := RotateBy(s, k - 1);
      assert r == [r[0]] + r[1..];
    }
  }

  /** The queue without the first `limit` occurrences of `v`. */
  function RemoveUpTo<T(==)>(s: seq<T>, v: T, limit: int): (r: seq<T>)
    ensures |s| - |r| <= if limit > 0 then limit else 0
    ensures |r| <= |s|
  {
    if s == [] || limit <= 0 then s
    else if s[0] == v then RemoveUpTo(s[1..], v, limit - 1)
    else [s[0]] + RemoveUpTo(s[1..], v, limit)
  }

  function RemoveFirst<T(==)>(s: seq<T>, v: T): (r: seq<T>) {
    RemoveUpTo(s, v, 1)
  }

  lemma {:induction false} RemoveFirstAbsent<T>(s: seq<T>, v: T, limit: int)
    requires v !in s
    ensures RemoveUpTo(s, v, limit) == s
  {
    if s != [] && limit > 0 {
      RemoveFirstAbsent(s[1..], v, limit);
    }
  }

  /** The general shape of a removal that finds its value. */
  lemma {:induction false} RemoveFirstAt<T>(s: seq<T>, v: T, k: nat)
    requires k < |s| && s[k] == v && v !in s[..k]
    ensures RemoveFirst(s, v) == s[..k] + s[k + 1..]
  {
    if k > 0 {
      assert s[0] in s[..k];
      assert v !in s[1..][..k - 1] by {
        assert forall x :: x in s[1..][..k - 1] ==> x in s[..k];
      }
      RemoveFirstAt(s[1..], v, k - 1);
      assert RemoveFirst(s, v) == [s[0]] + (s[1..][..k - 1] + s[1..][k..]);
      assert [s[0]] + s[1..][..k - 1] == s[..k] && s[1..][k..] == s[k + 1..];
    } else {
      assert RemoveUpTo(s[1..], v, 0) == s[1..];
    }
  }

  /** A removal of up to n + 1 occurrences takes the first one and then up to n of the others. */
  lemma {:induction false} RemoveUpToOneByOne<T>(s: seq<T>, v: T, n: nat)
    ensures RemoveUpTo(s, v, n + 1) == RemoveUpTo(RemoveFirst(s, v), v, n)
    ensures RemoveUpTo(s, v, 0) == s
  {
    if s != [] {
      if s[0] == v {
        assert RemoveUpTo(s[1..], v, 0) == s[1..];
      } else {
        RemoveUpToOneByOne(s[1..], v, n);
        var r := RemoveFirst(s, v);
        assert r == [s[0]] + RemoveFirst(s[1..], v) && r[1..] == RemoveFirst(s[1..], v);
        assert n == 0 ==> RemoveUpTo(r, v, n) == r && RemoveUpTo(r[1..], v, n) == r[1..];
      }
    }
  }

  lemma {:induction false} RemoveFirstConcat<T>(a: seq<T>, b: seq<T>, v: T)
    ensures v in a ==> RemoveFirst(a + b, v) == RemoveFirst(a, v) + b
    ensures v !in a ==> RemoveFirst(a + b, v) == a + RemoveFirst(b, v)
  {
    if a == [] {
      assert a + b == b;
    } else {
      assert (a + b)[1..] == a[1..] + b;
      RemoveFirstConcat(a[1..], b, v);
      assert (a + b)[0] == a[0];
      if a[0] == v {
        assert RemoveUpTo(a[1..] + b, v, 0) == a[1..] + b && RemoveUpTo(a[1..], v, 0) == a[1..];
      } else {
        assert v in a <==> v in a[1..];
        assert RemoveFirst(a + b, v) == [a[0]] + RemoveFirst(a[1..] + b, v);
        if v !in a {
          assert [a[0]] + (a[1..] + RemoveFirst(b, v)) == a + RemoveFirst(b, v);
        }
      }
    }
  }

  lemma RemoveUpToDone<T>(c: seq<T>, k: nat, v: T, limit: int)
    requires k <= |c| && (k == |c| || limit <= 0)
    ensures c[..k] + RemoveUpTo(c[k..], v, limit) == c
  {
  }

  lemma {:induction false} RemoveFirstLength<T>(s: seq<T>, v: T)
    ensures |RemoveFirst(s, v)| == |s| - if v in s then 1 else 0
  {
    if s != [] && s[0] == v {
      assert RemoveUpTo(s[1..], v, 0) == s[1..];
    } else if s != [] {
      RemoveFirstLength(s[1..], v);
    }
  }

  lemma SubtractOther<T>(m: multiset<T>, x: T, v: T)
    requires x != v
    ensures multiset{x} + (m - multiset{v}) == multiset{x} + m - multiset{v}
  {
  }

  /** One turn of the deletion loop, standing at position k. */
  lemma RemoveUpToStep<T>(c: seq<T>, k: nat, v: T, limit: int)
    requires k < |c| && limit > 0
    ensures c[k] == v ==> RemoveUpTo(c[k..], v, limit) == RemoveUpTo((c[..k] + c[k + 1..])[k..], v, limit - 1)
    ensures c[k] != v ==> c[..k] + RemoveUpTo(c[k..], v, limit) == c[..k + 1] + RemoveUpTo(c[k + 1..], v, limit)
  {
    assert c[k..][1..] == c[k + 1..];
    assert (c[..k] + c[k + 1..])[k..] == c[k + 1..];
    assert c[..k + 1] == c[..k] + [c[k]];
  }

  /** Removing a present value drops exactly one copy of it and nothing else. */
  lemma {:induction false} RemoveFirstMultiset<T>(s: seq<T>, v: T)
    ensures multiset(RemoveFirst(s, v)) == multiset(s) - multiset{v}
  {
    if s != [] {
      assert s == [s[0]] + s[1..];
      if s[0] == v {
        assert RemoveUpTo(s[1..], v, 0) == s[1..];
      } else {
        RemoveFirstMultiset(s[1..], v);
        SubtractOther(multiset(s[1..]), s[0], v);
        assert multiset([s[0]] + RemoveFirst(s[1..], v)) == multiset{s[0]} + (multiset(s[1..]) - multiset{v});
      }
    }
  }

  lemma RemoveFirstNoDuplicates<T>(s: seq<T>, v: T)
    requires NoDuplicates(s)
    ensures NoDuplicates(RemoveFirst(s, v))
    ensures forall x :: x in RemoveFirst(s, v) <==> x in s && x != v
  {
    if v in s {
      var k :| 0 <= k < |s| && s[k] == v;
      RemoveFirstAt(s, v, k);
      forall x | x in s && x != v
        ensures x in RemoveFirst(s, v)
      {
        var i :| 0 <= i < |s| && s[i] == x;
        if i < k { assert x == s[..k][i]; } else { assert x == s[k + 1..][i - k - 1]; }
      }
    } else {
      RemoveFirstAbsent(s, v, 1);
    }
  }

  /** The position of the first occurrence. */
  function IndexOf<T(==)>(s: seq<T>, v: T): (i: nat)
    requires v in s
    ensures i < |s| && s[i] == v
  {
    if s[0] == v then 0 else 1 + IndexOf(s[1..], v)
  }

  lemma {:induction false} IndexOfConcat<T>(a: seq<T>, b: seq<T>, v: T)
    requires v in a + b
    ensures v in a ==> IndexOf(a + b, v) == IndexOf(a, v)
    ensures v !in a ==> v in b && IndexOf(a + b, v) == |a| + IndexOf(b, v)
  {
    if a == [] {
      assert a + b == b;
    } else if a[0] != v {
      assert (a + b)[1..] == a[1..] + b;
      IndexOfConcat(a[1..], b, v);
    }
  }

  function Sum(s: seq<int>): int
    decreases s
  {
    if s == [] then 0 else s[0] + Sum(s[1..])
  }

  lemma {:induction false} SumConcat(a: seq<int>, b: seq<int>)
    ensures Sum(a + b) == Sum(a) + Sum(b)
    decreases a
  {
    if a == [] {
      assert a + b == b;
    } else {
      assert (a + b)[1..] == a[1..] + b;
      SumConcat(a[1..], b);
    }
  }

  /** Changing one addend changes the sum by as much. */
  lemma {:induction false} SumUpdate(s: seq<int>, i: nat, x: int)
    requires i < |s|
    ensures Sum(s[i := x]) == Sum(s) - s[i] + x
    decreases s
  {
    if i > 0 {
      assert s[i := x][1..] == s[1..][i - 1 := x];
      SumUpdate(s[1..], i - 1, x);
    } else {
      assert s[i := x][1..] == s[1..];
    }
  }

  lemma {:induction false} SumNonNegative(s: seq<int>)
    requires forall x :: x in s ==> x >= 0
    ensures Sum(s) >= 0
    ensures forall i :: 0 <= i < |s| ==> s[i] <= Sum(s)
    decreases s
  {
    if s != [] {
      assert s[0] in s && forall x :: x in s[1..] ==> x in s;
      SumNonNegative(s[1..]);
      assert forall i :: 0 < i < |s| ==> s[i] == s[1..][i - 1];
    }
  }

  lemma {:induction false} SumAtMost(a: seq<int>, b: seq<int>)
    requires |a| == |b| && forall j :: 0 <= j < |a| ==> a[j] <= b[j]
    ensures Sum(a) <= Sum(b)
    decreases a
  {
    if a != [] {
      SumAtMost(a[1..], b[1..]);
    }
  }
}
