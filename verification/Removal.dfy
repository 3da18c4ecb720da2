/** Kernel/fileSystem.c, removeFile: which files are gone when an open file stops it half way. */
module Removal {
  import opened Namespace
  import opened Sequences

  /** Two files of one directory, the first one by name. */
  ghost predicate Siblings(t: Tree, a: int, b: int) {
    && a in t.nodes && b in t.nodes && a != ROOT && b != ROOT
    && t.nodes[a].parent == t.nodes[b].parent && Less(t.nodes[a].name, t.nodes[b].name)
  }

  /** Where the ways to y and z part, the way to y goes on under the earlier name. */
  ghost predicate Earlier(t: Tree, y: int, z: int)
    requires Linked(t) && y in t.nodes && z in t.nodes
  {
    exists a, b :: Siblings(t, a, b) && Under(t, y, a) && Under(t, z, b)
  }

  ghost predicate EarlierThanOpen(t: Tree, x: int, live: set<int>, y: int)
    requires Linked(t) && y in t.nodes
  {
    forall z :: z in live && z in t.nodes && Under(t, z, x) ==> Earlier(t, y, z)
  }

  // ------------------------------------------------------------ the order of the files

  lemma {:induction false} BelowOneOf(t: Tree, a: int, b: int, y: int)
    requires Inv(t) && a in t.nodes && b in t.nodes && a != ROOT && b != ROOT && a != b
    requires t.nodes[a].parent == t.nodes[b].parent && y in t.nodes && Under(t, y, a)
    ensures !Under(t, y, b)
    decreases y
  {
    hide SortedList, Valid;
    assert UnderItsParent(t, a) && UnderItsParent(t, b);
    if Under(t, y, b) {
      if y != a && y != b {
        assert UnderItsParent(t, y);
        BelowOneOf(t, a, b, t.nodes[y].parent);
      } else {
        AncestorsStay(t, t.nodes[a].parent, if y == a then b else a);
        assert false;
      }
    }
  }

  lemma {:induction false} WaysUpMeet(t: Tree, y: int, a: int, b: int)
    requires Linked(t) && y in t.nodes && Under(t, y, a) && Under(t, y, b)
    ensures a in t.nodes && b in t.nodes && (Under(t, a, b) || Under(t, b, a))
    decreases y
  {
    AncestorsStay(t, y, a);
    AncestorsStay(t, y, b);
    if y != a && y != b {
      assert UnderItsParent(t, y);
      WaysUpMeet(t, t.nodes[y].parent, a, b);
    }
  }

  lemma NamesDiffer(t: Tree, a: int, b: int)
    requires Inv(t) && Siblings(t, a, b)
    ensures a != b && !Siblings(t, b, a) && UnderItsParent(t, a) && UnderItsParent(t, b)
  {
    hide SortedList;
    assert UnderItsParent(t, a) && UnderItsParent(t, b);
    CompareIsOrder(t.nodes[a].name, t.nodes[b].name);
    CompareIsOrder(t.nodes[b].name, t.nodes[a].name);
  }

  /** A file is not earlier than what it is below, nor than what is below it. */
  lemma NotEarlierInside(t: Tree, y: int, z: int)
    requires Inv(t) && y in t.nodes && z in t.nodes && (Under(t, y, z) || Under(t, z, y))
    ensures !Earlier(t, y, z)
  {
    hide Inv, Less, Under;
    TreeIsLinked(t);
    if Earlier(t, y, z) {
      var a, b :| Siblings(t, a, b) && Under(t, y, a) && Under(t, z, b);
      NamesDiffer(t, a, b);
      if Under(t, y, z) {
        UnderTwice(t, y, z, b);
        BelowOneOf(t, a, b, y);
      } else {
        UnderTwice(t, z, y, a);
        BelowOneOf(t, a, b, z);
      }
    }
  }

  lemma TreeIsLinked(t: Tree)
    requires Inv(t)
    ensures Linked(t)
  {
  }

  lemma SiblingIsUnder(t: Tree, a: int, b: int, c: int)
    requires Inv(t) && Linked(t) && (Siblings(t, a, b) || Siblings(t, b, a))
    requires a != c && Under(t, a, c)
    ensures Under(t, b, c)
  {
    hide SortedList, Less, Valid;
    assert UnderItsParent(t, a) && UnderItsParent(t, b);
    var d := t.nodes[a].parent;
    assert Under(t, d, c);
    assert Under(t, b, d);
    AncestorsStay(t, d, c);
    UnderTwice(t, b, d, c);
  }

  lemma NotBothEarlier(t: Tree, y: int, z: int)
    requires Inv(t) && y in t.nodes && z in t.nodes && Earlier(t, y, z)
    ensures !Earlier(t, z, y)
  {
    hide Inv, Less, Under, Siblings;
    TreeIsLinked(t);
    var a, b :| Siblings(t, a, b) && Under(t, y, a) && Under(t, z, b);
    if Earlier(t, z, y) {
      var c, d :| Siblings(t, c, d) && Under(t, z, c) && Under(t, y, d);
      Parted(t, a, b, c, d, y, z);
    }
  }

  lemma Parted(t: Tree, a: int, b: int, c: int, d: int, y: int, z: int)
    requires Inv(t) && y in t.nodes && z in t.nodes && Siblings(t, a, b) && Siblings(t, c, d)
    requires Under(t, y, a) && Under(t, z, b) && Under(t, z, c)
    ensures !Under(t, y, d)
  {
    hide Inv, Less, Under;
    TreeIsLinked(t);
    NamesDiffer(t, a, b);
    NamesDiffer(t, c, d);
    if Under(t, y, d) { WaysUpMeet(t, y, a, d); }
    if !Under(t, y, d) {
    } else if a == d {
      if b != c { BelowOneOf(t, b, c, z); }
    } else if Under(t, a, d) {
      SiblingIsUnder(t, a, b, d);
      UnderTwice(t, z, b, d);
      BelowOneOf(t, c, d, z);
    } else {
      SiblingIsUnder(t, d, c, a);
      UnderTwice(t, z, c, a);
      BelowOneOf(t, a, b, z);
    }
  }

  // ------------------------------------------------------------ what is removed

  lemma {:induction false} UnderAChild(t: Tree, y: int, x: int)
    requires Inv(t) && y in t.nodes && x in t.nodes
    ensures Under(t, y, x) <==> y == x || exists k :: k in t.nodes[x].children && Under(t, y, k)
    decreases y
  {
    hide SortedList, Valid;
    if y != x && y != ROOT {
      assert UnderItsParent(t, y);
      UnderAChild(t, t.nodes[y].parent, x);
      if Under(t, y, x) {
        if t.nodes[y].parent == x {
          assert Under(t, y, y);
        } else {
          var k :| k in t.nodes[x].children && Under(t, t.nodes[y].parent, k);
          assert Under(t, y, k);
        }
      }
    }
    if k :| k in t.nodes[x].children && Under(t, y, k) {
      TreeIsListed(t, x);
      assert ChildOf(t, k, x);
      ChildIsUnder(t, k, x);
      UnderTwice(t, y, k, x);
    }
  }

  /** Below one of these files. */
  ghost predicate BelowSome(t: Tree, kids: seq<int>, y: int)
    requires Linked(t) && y in t.nodes
  {
    exists k :: k in kids && Under(t, y, k)
  }

  ghost predicate EarlierThanAll(t: Tree, kids: seq<int>, live: set<int>, y: int)
    requires Linked(t) && y in t.nodes
  {
    forall z :: z in live && z in t.nodes && BelowSome(t, kids, z) ==> Earlier(t, y, z)
  }

  ghost predicate InOrder(t: Tree, kids: seq<int>) {
    forall i, j :: 0 <= i < j < |kids| ==> Siblings(t, kids[i], kids[j])
  }

  lemma ChildrenInOrder(t: Tree, x: int)
    requires Inv(t) && x in t.nodes
    ensures InOrder(t, t.nodes[x].children)
  {
    hide Less, Valid;
    TreeIsListed(t, x);
    var q := t.nodes[x].children;
    forall i, j | 0 <= i < j < |q|
      ensures Siblings(t, q[i], q[j])
    {
      SortedPair(t, x, i, j);
      assert ChildOf(t, q[i], x) && ChildOf(t, q[j], x);
    }
  }

  /**
   removeFile removes exactly those files of the directory that come before every open one in it: all
   of them if none is open.
   */
  lemma {:induction false} RemovedIff(t: Tree, x: int, live: set<int>, y: int)
    requires Inv(t) && x in t.nodes && x != ROOT && y in t.nodes
    ensures y !in Removed(t, x, live).0.nodes <==> Under(t, y, x) && EarlierThanOpen(t, x, live, y)
    decreases t.next - x, 1, 0
  {
    hide Inv, Under, Earlier, InOrder, BelowSome, Removed;
    TreeIsLinked(t);
    RemoveFileIff(t, x, live, x);
    RemovedFacts(t, x, live);
    if !Removed(t, x, live).1 {
      if x in live {
        RemovedOpen(t, x, live);
        if Under(t, y, x) { NotEarlierInside(t, y, x); }
      } else {
        var kids := t.nodes[x].children;
        ChildrenInOrder(t, x);
        RemovedStops(t, x, live);
        RemovedAllIff(t, kids, x, live, y);
        FromTheChildren(t, x, live, y);
      }
    }
  }

  lemma RemovedOpen(t: Tree, x: int, live: set<int>)
    requires Inv(t) && x in t.nodes && x != ROOT && x in live
    ensures Removed(t, x, live) == (t, false)
  {
    hide Inv;
  }

  lemma RemovedStops(t: Tree, x: int, live: set<int>)
    requires Inv(t) && x in t.nodes && x != ROOT && x !in live && !Removed(t, x, live).1
    ensures Clearable(t, t.nodes[x].children, x) && Removed(t, x, live).0 == RemovedAll(t, t.nodes[x].children, x, live).0
  {
    hide Inv, RemovedAll;
    RemovedFacts(t, x, live);
  }

  lemma FromTheChildren(t: Tree, x: int, live: set<int>, y: int)
    requires Inv(t) && x in t.nodes && x != ROOT && x !in live && y in t.nodes && Linked(t)
    requires exists z :: z in live && z in t.nodes && Under(t, z, x)
    ensures var kids := t.nodes[x].children;
            BelowSome(t, kids, y) && EarlierThanAll(t, kids, live, y) <==> Under(t, y, x) && EarlierThanOpen(t, x, live, y)
  {
    hide Inv, Under, Earlier;
    UnderAChild(t, y, x);
    forall z | z in live && z in t.nodes
      ensures Under(t, z, x) <==> BelowSome(t, t.nodes[x].children, z)
    {
      UnderAChild(t, z, x);
    }
    if y == x {
      var z :| z in live && z in t.nodes && Under(t, z, x);
      NotEarlierInside(t, x, z);
      if BelowSome(t, t.nodes[x].children, x) {
        assert BelowSome(t, t.nodes[x].children, z);
      }
    }
  }

  lemma {:induction false} RemovedAllIff(t: Tree, kids: seq<int>, d: int, live: set<int>, y: int)
    requires Clearable(t, kids, d) && Linked(t) && InOrder(t, kids) && y in t.nodes
    ensures y !in RemovedAll(t, kids, d, live).0.nodes <==> BelowSome(t, kids, y) && EarlierThanAll(t, kids, live, y)
    decreases t.next - d, 0, |kids|
  {
    hide Inv, Under, InOrder, Removed, RemovedAll, EarlierThanAll, BelowSome, EarlierThanOpen, Clearable, Pruned;
    if kids == [] {
      NothingToRemove(t, d, live, y);
    } else {
      AfterFirst(t, kids, d, live);
      RemovedAllUnfolds(t, kids, d, live);
      var (t1, done) := Removed(t, kids[0], live);
      RemovedIff(t, kids[0], live, y);
      if !done {
        StopsAtFirst(t, kids, live, y);
      } else {
        if y in t1.nodes { RemovedAllIff(t1, kids[1..], d, live, y); }
        GoesOnBehind(t, t1, kids, live, y);
      }
    }
  }

  /** How the loop stands when it is through with the first file. */
  lemma AfterFirst(t: Tree, kids: seq<int>, d: int, live: set<int>)
    requires Clearable(t, kids, d) && Linked(t) && InOrder(t, kids) && kids != []
    ensures kids[0] in t.nodes && kids[0] != ROOT && Inv(t) && d < kids[0] < t.next
    ensures var (t1, done) := Removed(t, kids[0], live);
            && Linked(t1) && Pruned(t, t1) && t1.next == t.next
            && (done <==> forall z :: z in live && z in t.nodes ==> !Under(t, z, kids[0]))
            && (done ==> forall z :: z in t1.nodes <==> z in t.nodes && !Under(t, z, kids[0]))
            && (done ==> Clearable(t1, kids[1..], d) && InOrder(t1, kids[1..]))
  {
    hide Under, Removed, RemovedAll, Linked, SortedList, InOrder;
    RemovedAllFacts(t, kids, d);
    RemovedAllUnfolds(t, kids, d, live);
    RemoveFileIff(t, kids[0], live, d);
    var (t1, done) := Removed(t, kids[0], live);
    if done { RestInOrder(t, t1, kids); }
  }

  lemma NothingToRemove(t: Tree, d: int, live: set<int>, y: int)
    requires Clearable(t, [], d) && Linked(t) && y in t.nodes
    ensures RemovedAll(t, [], d, live).0 == t && !BelowSome(t, [], y)
  {
    hide Inv;
  }

  lemma RemovedAllUnfolds(t: Tree, kids: seq<int>, d: int, live: set<int>)
    requires Clearable(t, kids, d) && kids != []
    ensures kids[0] in t.nodes && kids[0] != ROOT
    ensures var (t1, done) := Removed(t, kids[0], live);
            && Pruned(t, t1)
            && (!done ==> RemovedAll(t, kids, d, live).0 == t1)
            && (done ==> Clearable(t1, kids[1..], d) && RemovedAll(t, kids, d, live).0 == RemovedAll(t1, kids[1..], d, live).0)
            && RemovedAll(t, kids, d, live).0.nodes.Keys <= t1.nodes.Keys
  {
    hide Linked, SortedList, Under, NoDuplicates, Removed;
    RemovedAllFacts(t, kids, d);
    var (t1, done) := Removed(t, kids[0], live);
    RestStays(t, t1, kids, d);
  }

  /** An open file below the first one stops the loop: it is not behind any file below the others. */
  lemma StopsAtFirst(t: Tree, kids: seq<int>, live: set<int>, y: int)
    requires Inv(t) && Linked(t) && kids != [] && InOrder(t, kids) && y in t.nodes
    requires exists z :: z in live && z in t.nodes && Under(t, z, kids[0])
    ensures Under(t, y, kids[0]) && EarlierThanOpen(t, kids[0], live, y) <==>
              BelowSome(t, kids, y) && EarlierThanAll(t, kids, live, y)
  {
    hide Inv, Under, Less;
    var z :| z in live && z in t.nodes && Under(t, z, kids[0]);
    assert kids[0] in kids;
    assert BelowSome(t, kids, z);
    if BelowSome(t, kids, y) && EarlierThanAll(t, kids, live, y) {
      var k :| k in kids && Under(t, y, k);
      if k != kids[0] {
        assert Siblings(t, kids[0], k);
        assert Earlier(t, z, y);
        NotBothEarlier(t, z, y);
      }
    }
    if Under(t, y, kids[0]) {
      forall u, k | u in live && u in t.nodes && k in kids && k != kids[0] && Under(t, u, k)
        ensures Earlier(t, y, u)
      {
        assert Siblings(t, kids[0], k);
      }
    }
  }

  lemma RestInOrder(t: Tree, t1: Tree, kids: seq<int>)
    requires kids != [] && InOrder(t, kids) && Pruned(t, t1) && forall k :: k in kids[1..] ==> k in t1.nodes
    ensures InOrder(t1, kids[1..])
  {
    hide Inv, Less;
    var rest := kids[1..];
    forall i, j | 0 <= i < j < |rest|
      ensures Siblings(t1, rest[i], rest[j])
    {
      assert Siblings(t, kids[i + 1], kids[j + 1]);
      assert SameFiles(t, t1, rest[i]) && SameFiles(t, t1, rest[j]);
    }
  }

  /** What is left of the tree keeps its order. */
  lemma EarlierStays(t: Tree, t1: Tree, y: int, z: int)
    requires Inv(t) && Pruned(t, t1) && y in t1.nodes && z in t1.nodes
    ensures Linked(t) && Linked(t1) && y in t.nodes && z in t.nodes
    ensures Earlier(t1, y, z) <==> Earlier(t, y, z)
  {
    hide Inv, Under, Less;
    TreeIsLinked(t);
    TreeIsLinked(t1);
    if Earlier(t, y, z) {
      var a, b :| Siblings(t, a, b) && Under(t, y, a) && Under(t, z, b);
      UnderStays(t, t1, y, a);
      UnderStays(t, t1, z, b);
      AncestorsStay(t1, y, a);
      AncestorsStay(t1, z, b);
      assert SameFiles(t, t1, a) && SameFiles(t, t1, b);
      assert Siblings(t1, a, b);
    }
    if Earlier(t1, y, z) {
      var a, b :| Siblings(t1, a, b) && Under(t1, y, a) && Under(t1, z, b);
      UnderStays(t, t1, y, a);
      UnderStays(t, t1, z, b);
      assert SameFiles(t, t1, a) && SameFiles(t, t1, b);
      assert Siblings(t, a, b);
    }
  }

  /** With nothing open below the first file the loop goes on: the rest decides about the rest. */
  lemma GoesOnBehind(t: Tree, t1: Tree, kids: seq<int>, live: set<int>, y: int)
    requires Inv(t) && Linked(t) && Pruned(t, t1) && Linked(t1) && kids != [] && InOrder(t, kids) && y in t.nodes
    requires forall z :: z in live && z in t.nodes ==> !Under(t, z, kids[0])
    requires forall z :: z in t1.nodes <==> z in t.nodes && !Under(t, z, kids[0])
    ensures BelowSome(t, kids, y) && EarlierThanAll(t, kids, live, y) <==>
              y !in t1.nodes || (BelowSome(t1, kids[1..], y) && EarlierThanAll(t1, kids[1..], live, y))
  {
    hide Inv, Under, Earlier;
    assert kids[0] in kids;
    forall z | z in t1.nodes
      ensures BelowSome(t, kids, z) <==> BelowSome(t1, kids[1..], z)
    {
      BelowRest(t, t1, kids, z);
    }
    if y in t1.nodes {
      forall z | z in live && z in t.nodes
        ensures Earlier(t1, y, z) <==> Earlier(t, y, z)
      {
        EarlierStays(t, t1, y, z);
      }
    } else {
      forall z | z in live && z in t.nodes && BelowSome(t, kids, z)
        ensures Earlier(t, y, z)
      {
        BehindFirst(t, kids, y, z);
      }
    }
  }

  lemma BelowRest(t: Tree, t1: Tree, kids: seq<int>, z: int)
    requires Inv(t) && Linked(t) && Pruned(t, t1) && Linked(t1) && kids != [] && z in t1.nodes && z in t.nodes
    requires !Under(t, z, kids[0])
    ensures BelowSome(t, kids, z) <==> BelowSome(t1, kids[1..], z)
  {
    hide Inv, Under;
    assert forall k :: k in kids <==> k == kids[0] || k in kids[1..];
    forall k
      ensures Under(t1, z, k) == Under(t, z, k)
    {
      UnderStays(t, t1, z, k);
    }
  }

  lemma BehindFirst(t: Tree, kids: seq<int>, y: int, z: int)
    requires Linked(t) && kids != [] && InOrder(t, kids) && y in t.nodes && z in t.nodes
    requires Under(t, y, kids[0]) && !Under(t, z, kids[0]) && BelowSome(t, kids, z)
    ensures Earlier(t, y, z)
  {
    hide Linked, Under, Less;
    var k :| k in kids && Under(t, z, k);
    assert Siblings(t, kids[0], k);
  }
}
