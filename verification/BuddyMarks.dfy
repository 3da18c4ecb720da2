/** What the search, markUsedNodes and freeMemory of Kernel/memoryManager.c do to the marks of the tree. */
module BuddyMarks {
  import opened Options
  import opened BuddyTree

  datatype Mark = Free | Used | Split

  // -------------------------------------------------------------- the marks

  predicate IsPage(p: seq<Mark>, i: nat) {
    Left(i) >= |p|
  }

  /** The array of a memory of 2^m pages. */
  ghost predicate Tree(p: seq<Mark>, m: nat) {
    |p| == Nodes(m)
  }

  lemma TreeNode(p: seq<Mark>, m: nat, i: nat)
    requires Tree(p, m)
    ensures i < |p| <==> Depth(i) <= m
    ensures i < |p| ==> (IsPage(p, i) <==> Depth(i) == m)
    ensures i < |p| && !IsPage(p, i) ==> Right(i) < |p|
  {
    InTree(i, m);
    InTree(Left(i), m);
    InTree(Right(i), m);
    DepthOfChildren(i);
  }

  /**
   What a mark says about the two nodes below it. A used node is either one block, with free nodes
   below, or two used halves. `strict` adds that a split node has something in use below it.
   */
  ghost predicate NodeOk(p: seq<Mark>, i: nat, strict: bool)
    requires i < |p|
  {
    if IsPage(p, i) then p[i] != Split
    else
      && Right(i) < |p|
      && var l, r := p[Left(i)], p[Right(i)];
      match p[i]
      case Free => l == Free && r == Free
      case Used => (l == Free && r == Free) || (l == Used && r == Used)
      case Split => !(l == Used && r == Used) && (strict ==> !(l == Free && r == Free))
  }

  ghost predicate Marked(p: seq<Mark>, m: nat, strict: bool) {
    Tree(p, m) && forall i: nat :: i < |p| ==> NodeOk(p, i, strict)
  }

  /** A node that is handed out as one block. */
  predicate Live(p: seq<Mark>, i: nat) {
    i < |p| && p[i] == Used && (IsPage(p, i) || p[Left(i)] != Used)
  }

  /** No node above i is used. */
  predicate Open(p: seq<Mark>, i: nat)
    requires i < |p|
  {
    i == 0 || (p[Parent(i)] != Used && Open(p, Parent(i)))
  }

  /** A block of the wanted size that may be handed out. */
  predicate Available(p: seq<Mark>, d: nat, n: nat) {
    n < |p| && Depth(n) == d && p[n] == Free && Open(p, n)
  }

  // ---------------------------------------------------- the search, simply

  function OrElse(a: Option<nat>, b: Option<nat>): Option<nat> {
    if a.Some? then a else b
  }

  /** The first free node `levels` below i, left to right, skipping what is used. */
  function Find(p: seq<Mark>, i: nat, levels: nat): Option<nat>
    requires i < |p|
    decreases levels
  {
    if p[i] == Used then None
    else if levels == 0 then (if p[i] == Free then Some(i) else None)
    else if Right(i) >= |p| then None
    else OrElse(Find(p, Left(i), levels - 1), Find(p, Right(i), levels - 1))
  }

  /** From n one climbs k levels to i, meeting only nodes that are not used. */
  predicate Climb(p: seq<Mark>, n: nat, k: nat, i: nat)
    requires n < |p|
  {
    if k == 0 then n == i
    else n > 0 && p[Parent(n)] != Used && Climb(p, Parent(n), k - 1, i)
  }

  lemma {:induction false} ClimbSplit(p: seq<Mark>, n: nat, k: nat, i: nat)
    requires n < |p|
    ensures Climb(p, n, k + 1, i) <==>
              i < |p| && p[i] != Used && (Climb(p, n, k, Left(i)) || Climb(p, n, k, Right(i)))
  {
    DepthOfChildren(i);
    if k > 0 && n > 0 {
      ClimbSplit(p, Parent(n), k - 1, i);
    }
  }

  lemma {:induction false} ClimbOrder(p: seq<Mark>, a: nat, b: nat, k: nat, i: nat, j: nat)
    requires a < |p| && b < |p| && Climb(p, a, k, i) && Climb(p, b, k, j) && i < j
    ensures a < b
  {
    if k > 0 { ClimbOrder(p, Parent(a), Parent(b), k - 1, i, j); }
  }

  lemma {:induction false} ClimbToRoot(p: seq<Mark>, n: nat, k: nat)
    requires n < |p|
    ensures Climb(p, n, k, 0) <==> Depth(n) == k && Open(p, n)
  {
    if k > 0 && n > 0 { ClimbToRoot(p, Parent(n), k - 1); }
  }

  lemma ClimbNowhere(p: seq<Mark>, i: nat)
    requires i < |p|
    ensures forall n: nat :: n < |p| ==> (Climb(p, n, 0, i) <==> n == i)
  {
  }

  /** The search below i finds the leftmost free node that can be reached, if there is one. */
  lemma {:induction false} FindIsLeftmost(p: seq<Mark>, m: nat, i: nat, levels: nat)
    requires Tree(p, m) && Depth(i) + levels <= m && i < |p|
    ensures var r := Find(p, i, levels);
            && (r.Some? ==> r.value < |p| && p[r.value] == Free && Climb(p, r.value, levels, i))
            && (forall n: nat :: n < |p| && p[n] == Free && Climb(p, n, levels, i) ==> r.Some? && r.value <= n)
    decreases levels
  {
    hide Tree, Depth, Climb, Open;
    if levels == 0 {
      ClimbNowhere(p, i);
    } else {
      TreeNode(p, m, i);
      DepthOfChildren(i);
      assert Right(i) < |p| by { TreeNode(p, m, Right(i)); }
      FindIsLeftmost(p, m, Left(i), levels - 1);
      FindIsLeftmost(p, m, Right(i), levels - 1);
      var r := Find(p, i, levels);
      if r.Some? { ClimbSplit(p, r.value, levels - 1, i); }
      forall n: nat | n < |p| && p[n] == Free && Climb(p, n, levels, i)
        ensures r.Some? && r.value <= n
      {
        ClimbSplit(p, n, levels - 1, i);
        var l := Find(p, Left(i), levels - 1);
        if l.Some? && Climb(p, n, levels - 1, Right(i)) {
          ClimbOrder(p, l.value, n, levels - 1, Left(i), Right(i));
        }
      }
    }
  }

  /** The search returns the available block of the lowest address, and fails only when there is none. */
  lemma FindIsLowest(p: seq<Mark>, m: nat, d: nat)
    requires Tree(p, m) && d <= m
    ensures 0 < |p|
    ensures var r := Find(p, 0, d);
            && (r.Some? ==> Available(p, d, r.value))
            && (forall n :: Available(p, d, n) ==> r.Some? && r.value <= n)
  {
    TreeNode(p, m, 0);
    FindIsLeftmost(p, m, 0, d);
    var r := Find(p, 0, d);
    if r.Some? { ClimbToRoot(p, r.value, d); }
    forall n | Available(p, d, n)
      ensures r.Some? && r.value <= n
    {
      ClimbToRoot(p, n, d);
    }
  }

  // ------------------------------------------------------- handing out

  function SplitUp(p: seq<Mark>, i: nat): (q: seq<Mark>)
    requires i < |p|
    ensures |q| == |p|
    decreases i
  {
    if i == 0 then p else SplitUp(p[Parent(i) := Split], Parent(i))
  }

  /** markUsedNodes: used halves make a used whole, everything above is split. */
  function MarkUp(p: seq<Mark>, i: nat): (q: seq<Mark>)
    requires i < |p| && |p| % 2 == 1
    ensures |q| == |p|
    decreases i
  {
    if i > 0 && p[Buddy(i)] == Used then MarkUp(p[Parent(i) := Used], Parent(i)) else SplitUp(p, i)
  }

  function Allocated(p: seq<Mark>, n: nat): (q: seq<Mark>)
    requires n < |p| && |p| % 2 == 1
    ensures |q| == |p|
  {
    MarkUp(p[n := Used], n)
  }

  lemma OddTree(p: seq<Mark>, m: nat)
    requires Tree(p, m)
    ensures |p| % 2 == 1
  {
  }

  /** Every node but the parent of i agrees with what is below it. */
  ghost predicate MarkedBut(p: seq<Mark>, m: nat, strict: bool, i: nat) {
    Tree(p, m) && forall j: nat :: j < |p| && (i > 0 ==> j != Parent(i)) ==> NodeOk(p, j, strict)
  }

  /** Only a node and its parent can tell that the node was marked anew. */
  lemma RemarkFrame(p: seq<Mark>, k: nat, v: Mark, j: nat, strict: bool)
    requires k < |p| && j < |p| && j != k && (k > 0 ==> j != Parent(k))
    ensures NodeOk(p[k := v], j, strict) == NodeOk(p, j, strict)
    ensures Live(p[k := v], j) == Live(p, j)
  {
    hide Depth, Parent;
    DepthOfChildren(j);
    assert Left(j) != k && Right(j) != k;
  }

  /** Marking the parent of i right moves the one doubtful node a level up. */
  lemma RepairStep(p: seq<Mark>, m: nat, strict: bool, i: nat, v: Mark)
    requires 0 < i < |p| && MarkedBut(p, m, strict, i) && Open(p, i)
    requires Buddy(i) < |p|
    requires (v == Used && p[i] == Used && p[Buddy(i)] == Used)
          || (v == Split && p[i] != Free && !(p[i] == Used && p[Buddy(i)] == Used))
    ensures var q := p[Parent(i) := v];
            && MarkedBut(q, m, strict, Parent(i)) && Open(q, Parent(i))
            && forall x :: Live(q, x) <==> Live(p, x)
  {
    hide Depth, Open, NodeOk, Live, Buddy;
    BuddyIsSibling(i);
    OpenParent(p, i);
    RepairedNode(p, i, v, strict);
    OpenFrame(p, p[Parent(i) := v], Parent(i));
    RestAfterRepair(p, m, strict, Parent(i), v);
  }

  lemma RestAfterRepair(p: seq<Mark>, m: nat, strict: bool, k: nat, v: Mark)
    requires k < |p| && Tree(p, m) && forall j: nat :: j < |p| && j != k ==> NodeOk(p, j, strict)
    requires k > 0 ==> p[Parent(k)] != Used
    ensures var q := p[k := v];
            && (NodeOk(q, k, strict) && !Live(q, k) && !Live(p, k) ==> forall x :: Live(q, x) <==> Live(p, x))
            && (NodeOk(q, k, strict) ==> MarkedBut(q, m, strict, k))
  {
    hide Depth, Open, NodeOk, Live, Parent;
    var q := p[k := v];
    forall j: nat | j < |p| && j != k && (k > 0 ==> j != Parent(k))
      ensures NodeOk(q, j, strict) && (Live(q, j) <==> Live(p, j))
    {
      RemarkFrame(p, k, v, j, strict);
      assert NodeOk(p, j, strict);
    }
    if k > 0 { NotLive(p, q, Parent(k)); }
    forall x: nat | x >= |p|
      ensures !Live(q, x) && !Live(p, x)
    {
      OutsideNotLive(p, x);
      OutsideNotLive(q, x);
    }
  }

  lemma RepairedNode(p: seq<Mark>, i: nat, v: Mark, strict: bool)
    requires 0 < i < |p| && Buddy(i) < |p| && p[Parent(i)] != Used
    requires (v == Used && p[i] == Used && p[Buddy(i)] == Used)
          || (v == Split && p[i] != Free && !(p[i] == Used && p[Buddy(i)] == Used))
    ensures var q := p[Parent(i) := v];
            NodeOk(q, Parent(i), strict) && !Live(q, Parent(i)) && !Live(p, Parent(i))
  {
    BuddyIsSibling(i);
  }

  lemma OpenParent(p: seq<Mark>, i: nat)
    requires 0 < i < |p| && Open(p, i)
    ensures p[Parent(i)] != Used && Open(p, Parent(i))
    ensures Parent(i) > 0 ==> p[Parent(Parent(i))] != Used
  {
  }

  lemma {:induction false} OpenFrame(p: seq<Mark>, q: seq<Mark>, k: nat)
    requires k < |p| && |p| == |q| && Open(p, k) && forall j: nat :: j < k ==> p[j] == q[j]
    ensures Open(q, k)
  {
    if k > 0 { OpenFrame(p, q, Parent(k)); }
  }

  lemma NotLive(p: seq<Mark>, q: seq<Mark>, x: nat)
    requires x < |p| == |q| && p[x] != Used && q[x] == p[x]
    ensures !Live(p, x) && !Live(q, x)
  {
  }

  lemma OutsideNotLive(p: seq<Mark>, x: nat)
    requires x >= |p|
    ensures !Live(p, x)
  {
  }

  lemma {:induction false} SplitUpKeeps(p: seq<Mark>, m: nat, strict: bool, i: nat)
    requires i < |p| && MarkedBut(p, m, strict, i) && Open(p, i) && p[i] != Free
    requires i > 0 ==> Buddy(i) < |p| && !(p[i] == Used && p[Buddy(i)] == Used)
    ensures Marked(SplitUp(p, i), m, strict)
    ensures forall x :: Live(SplitUp(p, i), x) <==> Live(p, x)
    decreases i
  {
    hide Depth, Open, NodeOk, Live;
    if i > 0 {
      var k := Parent(i);
      RepairStep(p, m, strict, i, Split);
      BuddyInTree(p, m, k);
      SplitUpKeeps(p[k := Split], m, strict, k);
    }
  }

  lemma BuddyInTree(p: seq<Mark>, m: nat, i: nat)
    requires Tree(p, m) && i < |p|
    ensures |p| % 2 == 1 && (i > 0 ==> Buddy(i) < |p|)
  {
    OddTree(p, m);
  }

  lemma {:induction false} MarkUpKeeps(p: seq<Mark>, m: nat, strict: bool, i: nat)
    requires i < |p| && |p| % 2 == 1 && MarkedBut(p, m, strict, i) && Open(p, i) && p[i] == Used
    ensures Marked(MarkUp(p, i), m, strict)
    ensures forall x :: Live(MarkUp(p, i), x) <==> Live(p, x)
    decreases i
  {
    hide Depth, Open, NodeOk, Live;
    BuddyInTree(p, m, i);
    if i > 0 && p[Buddy(i)] == Used {
      RepairStep(p, m, strict, i, Used);
      MarkUpKeeps(p[Parent(i) := Used], m, strict, Parent(i));
    } else {
      SplitUpKeeps(p, m, strict, i);
    }
  }

  /** Handing out an available block adds exactly that block to what is live. */
  lemma AllocatedKeeps(p: seq<Mark>, m: nat, strict: bool, n: nat)
    requires Marked(p, m, strict) && n < |p| && p[n] == Free && Open(p, n)
    ensures |p| % 2 == 1 && Marked(Allocated(p, n), m, strict)
    ensures !Live(p, n)
    ensures forall x :: Live(Allocated(p, n), x) <==> Live(p, x) || x == n
  {
    hide Nodes, Depth, Open, MarkUp, Parent, NodeOk, Live;
    OddTree(p, m);
    var q := p[n := Used];
    HandedNode(p, n, strict);
    OpenFrame(p, q, n);
    if n > 0 {
      OpenParent(p, n);
      NotLive(p, q, Parent(n));
    }
    forall j: nat | j < |p| && j != n && (n > 0 ==> j != Parent(n))
      ensures NodeOk(q, j, strict) && (Live(q, j) <==> Live(p, j))
    {
      RemarkFrame(p, n, Used, j, strict);
      assert NodeOk(p, j, strict);
    }
    forall x: nat ensures Live(q, x) <==> Live(p, x) || x == n {
      if x >= |p| { OutsideNotLive(p, x); OutsideNotLive(q, x); }
    }
    MarkUpKeeps(q, m, strict, n);
  }

  lemma HandedNode(p: seq<Mark>, n: nat, strict: bool)
    requires n < |p| && p[n] == Free && NodeOk(p, n, strict)
    ensures NodeOk(p[n := Used], n, strict) && Live(p[n := Used], n) && !Live(p, n)
  {
  }

  // ------------------------------------------------------- taking back

  function FreeAt(p: seq<Mark>, i: nat): (q: seq<Mark>)
    requires i < |p|
    ensures |q| == |p|
  {
    if p[i] == Used then p[i := Free] else p
  }

  /**
   freeMemory's walk down to a page: `branch` pages lie in front of node i, which covers `span`.
   The flag is what it returns: true when it stopped at a node with two free halves.
   */
  function FreeWalk(p: seq<Mark>, i: nat, branch: nat, span: nat, page: nat): (r: (seq<Mark>, bool))
    ensures |r.0| == |p|
    decreases |p| - i
  {
    if i >= |p| then (p, false)
    else
      var q := FreeAt(p, i);
      if p[i] == Used && Left(i) < |p| && Right(i) < |p| && q[Left(i)] == Free && q[Right(i)] == Free then (q, true)
      else
        var half := span / 2;
        if page < branch + half then FreeWalk(q, Left(i), branch, half, page)
        else FreeWalk(q, Right(i), branch + half, half, page)
  }

  /** Every used node from the one k levels above x down to x becomes free. */
  function Cleared(p: seq<Mark>, x: nat, k: nat): (q: seq<Mark>)
    requires x < |p| && k <= Depth(x)
    ensures |q| == |p|
    decreases k
  {
    if k == 0 then FreeAt(p, x) else Cleared(FreeAt(p, Up(x, k)), x, k - 1)
  }

  lemma {:induction false} InUseUp(p: seq<Mark>, m: nat, strict: bool, x: nat, k: nat)
    requires Marked(p, m, strict) && x < |p| && p[x] != Free && k <= Depth(x)
    ensures p[Up(x, k)] != Free
    decreases k
  {
    if k > 0 {
      hide Depth, Parent, Nodes;
      InUseUp(p, m, strict, x, k - 1);
      var c := Up(x, k - 1);
      UpStep(x, k - 1);
      ParentInUse(p, c, strict);
    }
  }

  lemma ParentInUse(p: seq<Mark>, c: nat, strict: bool)
    requires 0 < c < |p| && p[c] != Free && NodeOk(p, Parent(c), strict)
    ensures p[Parent(c)] != Free && !IsPage(p, Parent(c))
    ensures p[c] == Split ==> p[Parent(c)] == Split
  {
    hide Depth;
  }

  lemma LiveAbove(p: seq<Mark>, x: nat, strict: bool)
    requires Live(p, x) && NodeOk(p, x, strict)
    ensures p[x] == Used && (IsPage(p, x) || (Right(x) < |p| && p[Left(x)] == Free && p[Right(x)] == Free))
  {
  }

  lemma {:induction false} FreeWalkFollowsPath(p: seq<Mark>, m: nat, x: nat, k: nat, page: nat)
    requires Tree(p, m) && x < |p| && Depth(x) <= m && k <= Depth(x) && Covers(m, x, page)
    requires forall j: nat :: j <= k ==> p[Up(x, j)] != Free
    requires p[x] == Used && (IsPage(p, x) || (Right(x) < |p| && p[Left(x)] == Free && p[Right(x)] == Free))
    ensures var i := Up(x, k);
            FreeWalk(p, i, Start(m, i), Size(m, Depth(i)), page) == (Cleared(p, x, k), !IsPage(p, x))
    decreases k
  {
    hide Depth, Parent, Nodes, Start, Size, Tree, Up, FreeWalk, Cleared, FreeAt, Covers;
    var i := Up(x, k);
    if k == 0 {
      UpHere(x);
      assert Size(m, Depth(x)) == 1 || !IsPage(p, x) by {
        TreeNode(p, m, x);
        WholeSize(m);
      }
      WalkEnds(p, x, Start(m, x), Size(m, Depth(x)), page, m);
    } else {
      var c := Up(x, k - 1);
      UpStep(x, k - 1);
      var q := FreeAt(p, i);
      forall j: nat | j <= k - 1
        ensures q[Up(x, j)] != Free
      {
        UpBelow(x, j, k);
        AtOnly(p, i, Up(x, j));
      }
      UpBelow(x, 0, k);
      UpHere(x);
      TreeSize(p, q, m);
      ChildrenKeep(p, x, i);
      FreeWalkFollowsPath(q, m, x, k - 1, page);
      CoversUp(m, x, k - 1, page);
      StartStep(m, c);
      SizeStep(m, Depth(i));
      CoversParent(m, c, page);
      CoversBounds(m, c, page);
      WalkGoesOn(p, i, c, Start(m, i), Size(m, Depth(i)), page);
      assert Cleared(p, x, k) == Cleared(q, x, k - 1) by { ClearedStep(p, x, k); }
    }
  }

  lemma CoversBounds(m: nat, i: nat, page: nat)
    requires Depth(i) <= m && Covers(m, i, page)
    ensures Start(m, i) <= page < Start(m, i) + Size(m, Depth(i))
  {
  }

  lemma ClearedStep(p: seq<Mark>, x: nat, k: nat)
    requires x < |p| && 0 < k <= Depth(x)
    ensures Cleared(p, x, k) == Cleared(FreeAt(p, Up(x, k)), x, k - 1)
  {
  }

  lemma AtOnly(p: seq<Mark>, i: nat, j: nat)
    requires i < |p| && j < |p| && i != j
    ensures FreeAt(p, i)[j] == p[j]
  {
  }

  /** At the block itself the walk stops with success, or runs off the bottom of the tree. */
  lemma WalkEnds(p: seq<Mark>, x: nat, branch: nat, span: nat, page: nat, m: nat)
    requires x < |p| && p[x] == Used && Tree(p, m)
    requires IsPage(p, x) || (Right(x) < |p| && p[Left(x)] == Free && p[Right(x)] == Free)
    ensures FreeWalk(p, x, branch, span, page) == (Cleared(p, x, 0), !IsPage(p, x))
  {
    if IsPage(p, x) {
      var q, half := FreeAt(p, x), span / 2;
      assert FreeWalk(q, Left(x), branch, half, page) == (q, false);
      assert FreeWalk(q, Right(x), branch + half, half, page) == (q, false);
    }
  }

  /** Above the block the walk meets a child in use and goes on to the side of the page. */
  lemma WalkGoesOn(p: seq<Mark>, i: nat, c: nat, branch: nat, span: nat, page: nat)
    requires i < c < |p| && p[c] != Free && (c == Left(i) || c == Right(i))
    requires c == Left(i) <==> page < branch + span / 2
    ensures var q, half := FreeAt(p, i), span / 2;
            FreeWalk(p, i, branch, span, page) ==
            FreeWalk(q, c, if c == Left(i) then branch else branch + half, half, page)
  {
  }

  lemma UpHere(x: nat)
    ensures Up(x, 0) == x
  {
  }

  lemma {:induction false} UpBelow(x: nat, j: nat, k: nat)
    requires j < k <= Depth(x)
    ensures Up(x, k) < Up(x, j)
  {
    if j > 0 { UpBelow(Parent(x), j - 1, k - 1); }
  }

  lemma TreeSize(p: seq<Mark>, q: seq<Mark>, m: nat)
    requires Tree(p, m) && |p| == |q|
    ensures Tree(q, m)
  {
  }

  /** Freeing a node above x does not touch the nodes below x. */
  lemma ChildrenKeep(p: seq<Mark>, x: nat, i: nat)
    requires i < x < |p|
    ensures FreeAt(p, i)[x] == p[x]
    ensures Left(x) < |p| ==> FreeAt(p, i)[Left(x)] == p[Left(x)]
    ensures Right(x) < |p| ==> FreeAt(p, i)[Right(x)] == p[Right(x)]
  {
  }

  /** freeMemory with a page number below 2^m. */
  function Freed(p: seq<Mark>, m: nat, page: nat): (r: (seq<Mark>, bool))
    ensures |r.0| == |p|
  {
    FreeWalk(p, 0, 0, Pow2(m), page)
  }

  /**
   Whatever block holds the page, freeMemory finds it: it frees that block and every used node above
   it, and it reports success unless the block is a single page.
   */
  lemma FreedIsExact(p: seq<Mark>, m: nat, strict: bool, x: nat, page: nat)
    requires Marked(p, m, strict) && Live(p, x) && Depth(x) <= m && Covers(m, x, page)
    ensures Freed(p, m, page) == (Cleared(p, x, Depth(x)), !IsPage(p, x))
  {
    hide Nodes, Start, Size, Up, FreeWalk, Cleared, FreeAt, Covers, NodeOk, Depth;
    assert NodeOk(p, x, strict);
    LiveAbove(p, x, strict);
    forall j: nat | j <= Depth(x)
      ensures p[Up(x, j)] != Free
    {
      InUseUp(p, m, strict, x, j);
    }
    FreeWalkFollowsPath(p, m, x, Depth(x), page);
    RootStarts(m);
    WholeSize(m);
    TopIsRoot(x);
  }

  lemma TopIsRoot(x: nat)
    ensures Up(x, Depth(x)) == 0
  {
    var t := Up(x, Depth(x));
    assert Depth(t) == 0;
  }

  /** The half beside a block that is in use, when the whole is not used, makes the whole a split node. */
  lemma {:induction false} SplitAllTheWay(p: seq<Mark>, m: nat, strict: bool, x: nat, k: nat)
    requires Marked(p, m, strict) && 0 < x < |p| && p[x] != Free && p[Parent(x)] != Used
    requires 0 < k <= Depth(x)
    ensures p[Up(x, k)] == Split
    decreases k
  {
    hide Depth, Parent, Nodes, Up, NodeOk;
    UpStep(x, k - 1);
    UpHere(x);
    if k == 1 {
      assert NodeOk(p, Parent(x), strict);
      ParentInUse(p, x, strict);
    } else {
      SplitAllTheWay(p, m, strict, x, k - 1);
      var c := Up(x, k - 1);
      assert NodeOk(p, Parent(c), strict);
      ParentInUse(p, c, strict);
    }
  }

  lemma {:induction false} ClearedOnlyBlock(p: seq<Mark>, x: nat, k: nat)
    requires x < |p| && p[x] == Used && k <= Depth(x)
    requires forall j: nat :: 0 < j <= k ==> p[Up(x, j)] != Used
    ensures Cleared(p, x, k) == p[x := Free]
    decreases k
  {
    hide Depth, Up;
    if k > 0 {
      assert FreeAt(p, Up(x, k)) == p;
      ClearedOnlyBlock(p, x, k - 1);
    }
  }

  /**
   Freeing a block whose parent is not used gives back exactly that block: no other mark changes, the
   other live blocks stay live, and the tree stays well marked.
   */
  lemma FreedKeeps(p: seq<Mark>, m: nat, x: nat, page: nat)
    requires Marked(p, m, false) && Live(p, x) && Depth(x) <= m && Covers(m, x, page)
    requires x > 0 ==> p[Parent(x)] != Used
    ensures Freed(p, m, page).0 == p[x := Free]
    ensures Marked(Freed(p, m, page).0, m, false)
    ensures forall y :: Live(Freed(p, m, page).0, y) <==> Live(p, y) && y != x
  {
    hide Nodes, Start, Size, Up, FreeWalk, Cleared, FreeAt, Covers, NodeOk, Live, Depth, Freed;
    FreedIsExact(p, m, false, x, page);
    LiveInTree(p, x);
    assert NodeOk(p, x, false);
    LiveAbove(p, x, false);
    forall j: nat | 0 < j <= Depth(x)
      ensures p[Up(x, j)] != Used
    {
      DepthPositive(x);
      SplitAllTheWay(p, m, false, x, j);
    }
    ClearedOnlyBlock(p, x, Depth(x));
    var q := p[x := Free];
    GivenBackNode(p, x);
    if x > 0 {
      UpStepOne(x);
      SplitAllTheWay(p, m, false, x, 1);
      assert NodeOk(p, Parent(x), false);
      SplitParentKeeps(p, x);
    }
    forall j: nat | j < |p| && j != x && (x > 0 ==> j != Parent(x))
      ensures NodeOk(q, j, false) && (Live(q, j) <==> Live(p, j))
    {
      RemarkFrame(p, x, Free, j, false);
      assert NodeOk(p, j, false);
    }
    forall y: nat
      ensures Live(q, y) <==> Live(p, y) && y != x
    {
      if y >= |p| { OutsideNotLive(p, y); OutsideNotLive(q, y); }
    }
  }

  lemma DepthPositive(x: nat)
    ensures Depth(x) > 0 <==> x > 0
  {
  }

  lemma UpStepOne(x: nat)
    requires x > 0
    ensures Depth(x) >= 1 && Up(x, 1) == Parent(x)
  {
    assert Up(x, 1) == Up(Parent(x), 0);
  }

  lemma LiveInTree(p: seq<Mark>, x: nat)
    requires Live(p, x)
    ensures x < |p| && p[x] == Used
  {
  }

  lemma GivenBackNode(p: seq<Mark>, x: nat)
    requires x < |p| && Live(p, x) && NodeOk(p, x, false)
    ensures NodeOk(p[x := Free], x, false) && !Live(p[x := Free], x)
  {
    hide Depth;
  }

  lemma SplitParentKeeps(p: seq<Mark>, x: nat)
    requires 0 < x < |p| && p[Parent(x)] == Split && NodeOk(p, Parent(x), false)
    ensures NodeOk(p[x := Free], Parent(x), false)
    ensures !Live(p[x := Free], Parent(x)) && !Live(p, Parent(x))
  {
    hide Depth;
  }

  lemma {:induction false} ClearedOffPath(p: seq<Mark>, x: nat, k: nat, n: nat)
    requires x < |p| && k <= Depth(x) && n < |p|
    requires forall j: nat :: j <= k ==> n != Up(x, j)
    ensures Cleared(p, x, k)[n] == p[n]
    decreases k
  {
    hide Depth, Up;
    if k > 0 {
      ClearedOffPath(FreeAt(p, Up(x, k)), x, k - 1, n);
    } else {
      UpHere(x);
    }
  }

  lemma {:induction false} ClearedOnPath(p: seq<Mark>, x: nat, k: nat, j: nat)
    requires x < |p| && j <= k <= Depth(x) && p[Up(x, j)] == Used
    ensures Cleared(p, x, k)[Up(x, j)] == Free
    decreases k
  {
    hide Depth, Up;
    if k == 0 {
      UpHere(x);
    } else if j < k {
      UpBelow(x, j, k);
      ClearedOnPath(FreeAt(p, Up(x, k)), x, k - 1, j);
    } else {
      forall i: nat | i <= k - 1
        ensures Up(x, k) != Up(x, i)
      {
        UpBelow(x, i, k);
      }
      ClearedOffPath(FreeAt(p, Up(x, k)), x, k - 1, Up(x, k));
    }
  }

  /**
   freeMemory keeps the tree well marked exactly when the parent of the block is not used. Otherwise
   the parent becomes free while the other half is still handed out.
   */
  lemma FreedIsSafeIff(p: seq<Mark>, m: nat, x: nat, page: nat)
    requires Marked(p, m, false) && Live(p, x) && Depth(x) <= m && Covers(m, x, page)
    ensures Marked(Freed(p, m, page).0, m, false) <==> (x > 0 ==> p[Parent(x)] != Used)
  {
    hide Nodes, Start, Size, Up, FreeWalk, Cleared, FreeAt, Covers, Live, Depth, Freed, NodeOk;
    LiveInTree(p, x);
    if x > 0 && p[Parent(x)] == Used {
      var q := Freed(p, m, page).0;
      FreedIsExact(p, m, false, x, page);
      UpStepOne(x);
      ClearedOnPath(p, x, Depth(x), 1);
      BuddyIsSibling(x);
      BuddyInTree(p, m, x);
      assert NodeOk(p, Parent(x), false);
      UsedHalves(p, x);
      forall j: nat | j <= Depth(x)
        ensures Buddy(x) != Up(x, j)
      {
        UpHere(x);
        if j > 0 { UpBelow(x, 0, j); BuddyOffPath(x, j); }
      }
      ClearedOffPath(p, x, Depth(x), Buddy(x));
      NotOkAnyMore(q, x);
    } else {
      FreedKeeps(p, m, x, page);
    }
  }

  lemma UsedHalves(p: seq<Mark>, x: nat)
    requires 0 < x < |p| && Buddy(x) < |p| && p[x] == Used && p[Parent(x)] == Used && NodeOk(p, Parent(x), false)
    ensures p[Buddy(x)] == Used
  {
    hide Depth;
    BuddyIsSibling(x);
  }

  lemma BuddyOffPath(x: nat, j: nat)
    requires 0 < x && 0 < j <= Depth(x)
    ensures Buddy(x) != Up(x, j)
  {
    UpStepOne(x);
    if j > 1 { UpBelow(x, 1, j); }
    BuddyIsSibling(x);
    assert Buddy(x) > Parent(x);
  }

  lemma NotOkAnyMore(q: seq<Mark>, x: nat)
    requires 0 < x < |q| && Buddy(x) < |q| && q[Parent(x)] == Free && q[Buddy(x)] == Used
    ensures !NodeOk(q, Parent(x), false)
  {
    hide Depth;
    BuddyIsSibling(x);
  }
}
