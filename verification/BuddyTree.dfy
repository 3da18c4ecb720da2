/**
 The implicit binary tree behind Kernel/memoryManager.c: node 0 is the whole memory, the children of
 node i are 2i + 1 and 2i + 2, and a node of depth d covers 2^(maxOrder - d) pages.
 */
module BuddyTree {

  function Pow2(n: nat): (p: nat)
    ensures p >= 1
  {
    if n == 0 then 1 else 2 * Pow2(n - 1)
  }

  lemma {:induction false} Pow2Monotone(a: nat, b: nat)
    requires a <= b
    ensures Pow2(a) <= Pow2(b)
  {
    if a < b { Pow2Monotone(a, b - 1); }
  }

  function Left(i: nat): nat { 2 * i + 1 }
  function Right(i: nat): nat { 2 * i + 2 }

  function Parent(i: nat): (p: nat)
    requires i > 0
    ensures p < i && (i == Left(p) || i == Right(p))
  {
    (i + 1) / 2 - 1
  }

  function Buddy(i: nat): (b: nat)
    requires i > 0
  {
    if i % 2 == 1 then i + 1 else i - 1
  }

  lemma BuddyIsSibling(i: nat)
    requires i > 0
    ensures Buddy(i) > 0 && Parent(Buddy(i)) == Parent(i) && Buddy(i) != i
    ensures i == Left(Parent(i)) <==> Buddy(i) == Right(Parent(i))
    ensures i == Right(Parent(i)) <==> Buddy(i) == Left(Parent(i))
  {
  }

  function Depth(i: nat): nat {
    if i == 0 then 0 else 1 + Depth(Parent(i))
  }

  lemma DepthOfChildren(i: nat)
    ensures Depth(Left(i)) == Depth(Right(i)) == Depth(i) + 1
    ensures Parent(Left(i)) == Parent(Right(i)) == i
  {
    assert Parent(Left(i)) == i && Parent(Right(i)) == i;
  }

  /** How many nodes a tree has whose pages lie at depth m. */
  function Nodes(m: nat): nat {
    Pow2(m + 1) - 1
  }

  lemma {:induction false} DepthBounds(i: nat)
    ensures Pow2(Depth(i)) <= i + 1 < Pow2(Depth(i) + 1)
  {
    if i > 0 {
      DepthBounds(Parent(i));
    }
  }

  /** The array holds exactly the nodes down to the pages. */
  lemma InTree(i: nat, m: nat)
    ensures i < Nodes(m) <==> Depth(i) <= m
  {
    DepthBounds(i);
    if Depth(i) <= m {
      Pow2Monotone(Depth(i) + 1, m + 1);
    } else {
      Pow2Monotone(m + 1, Depth(i));
    }
  }

  /** The ancestor k levels up. */
  function Up(i: nat, k: nat): (a: nat)
    requires k <= Depth(i)
    ensures a <= i && (k > 0 ==> a < i) && Depth(a) == Depth(i) - k
  {
    if k == 0 then i else Up(Parent(i), k - 1)
  }

  lemma {:induction false} UpStep(i: nat, k: nat)
    requires k < Depth(i)
    ensures Up(i, k) > 0 && Parent(Up(i, k)) == Up(i, k + 1)
  {
    if k > 0 { UpStep(Parent(i), k - 1); }
  }

  // ------------------------------------------------------------- pages

  /** How many pages a node of depth d covers. */
  function Size(m: nat, d: nat): nat
    requires d <= m
  {
    Pow2(m - d)
  }

  /** The first page of a node. */
  function Start(m: nat, i: nat): nat
    requires Depth(i) <= m
  {
    if i == 0 then 0
    else Start(m, Parent(i)) + if i == Right(Parent(i)) then Size(m, Depth(i)) else 0
  }

  predicate Covers(m: nat, i: nat, page: int)
    requires Depth(i) <= m
  {
    Start(m, i) <= page < Start(m, i) + Size(m, Depth(i))
  }

  lemma StartStep(m: nat, i: nat)
    requires i > 0 && Depth(i) <= m
    ensures Depth(i) == Depth(Parent(i)) + 1
    ensures Start(m, i) == Start(m, Parent(i)) + if i == Right(Parent(i)) then Size(m, Depth(i)) else 0
  {
  }

  lemma RootStarts(m: nat)
    ensures Depth(0) == 0 && Start(m, 0) == 0
  {
  }

  /** calculateOffset reads the first page off the index. */
  lemma {:induction false} StartFromIndex(m: nat, i: nat)
    requires Depth(i) <= m
    ensures Pow2(Depth(i)) <= i + 1
    ensures (i + 1 - Pow2(Depth(i))) * Size(m, Depth(i)) == Start(m, i)
  {
    hide Pow2, Size, Depth, Start, Parent;
    DepthBounds(i);
    if i > 0 {
      var p := Parent(i);
      StartStep(m, i);
      StartFromIndex(m, p);
      SizeStep(m, Depth(p));
      PowStep(Depth(p));
      Distribute(p + 1 - Pow2(Depth(p)), Size(m, Depth(i)));
    } else {
      RootStarts(m);
      PowZero();
    }
  }

  lemma PowZero()
    ensures Pow2(0) == 1
  {
  }

  lemma PowStep(d: nat)
    ensures Pow2(d + 1) == 2 * Pow2(d)
  {
  }

  lemma SizeStep(m: nat, d: nat)
    requires d < m
    ensures Size(m, d) == 2 * Size(m, d + 1)
  {
    PowStep(m - d - 1);
  }

  lemma WholeSize(m: nat)
    ensures Size(m, 0) == Pow2(m) && Size(m, m) == 1
  {
    PowZero();
  }

  lemma Distribute(x: int, s: int)
    ensures (2 * x) * s == x * (2 * s)
    ensures (2 * x + 1) * s == x * (2 * s) + s
  {
  }

  lemma {:induction false} InRange(m: nat, i: nat)
    requires Depth(i) <= m
    ensures Start(m, i) + Size(m, Depth(i)) <= Pow2(m)
  {
    hide Pow2, Size, Depth, Start, Parent;
    if i > 0 {
      StartStep(m, i);
      InRange(m, Parent(i));
      SizeStep(m, Depth(Parent(i)));
    } else {
      RootStarts(m);
      WholeSize(m);
    }
  }

  /** A page of a node is a page of its parent, on the side where the node is. */
  lemma CoversParent(m: nat, i: nat, page: int)
    requires 0 < Depth(i) <= m && Covers(m, i, page)
    ensures Covers(m, Parent(i), page)
    ensures i == Left(Parent(i)) <==> page < Start(m, Parent(i)) + Size(m, Depth(i))
  {
  }

  lemma {:induction false} CoversUp(m: nat, i: nat, k: nat, page: int)
    requires k <= Depth(i) <= m && Covers(m, i, page)
    ensures Covers(m, Up(i, k), page)
  {
    if k > 0 {
      CoversParent(m, i, page);
      CoversUp(m, Parent(i), k - 1, page);
    }
  }

  /** Nodes of one depth share no page. */
  lemma {:induction false} SameDepthDisjoint(m: nat, a: nat, b: nat, page: int)
    requires Depth(a) == Depth(b) <= m && Covers(m, a, page) && Covers(m, b, page)
    ensures a == b
  {
    if a > 0 {
      CoversParent(m, a, page);
      CoversParent(m, b, page);
      SameDepthDisjoint(m, Parent(a), Parent(b), page);
    }
  }

  /** Two nodes that share a page lie one above the other. */
  lemma Laminar(m: nat, a: nat, b: nat, page: int)
    requires Depth(a) <= Depth(b) <= m && Covers(m, a, page) && Covers(m, b, page)
    ensures Up(b, Depth(b) - Depth(a)) == a
  {
    var k := Depth(b) - Depth(a);
    CoversUp(m, b, k, page);
    SameDepthDisjoint(m, a, Up(b, k), page);
  }
}
