/**
 Kernel/fileSystem.c, the directory tree: sorted sibling lists, path resolution that can create the last
 component, removal of whole directories, and the path of a directory.
 */
module Namespace {
  import opened Options
  import opened Sequences

  /** A C string without its terminator; the characters are those of a signed char. */
  type Text = seq<int>

  const MAX_NAME_LENGTH := 64
  const MAX_PATH_LENGTH := 256
  const SLASH := 47
  const DOT := 46

  datatype Kind = Directory | RegularFile | Buffer | SemaphoreFile | MutexFile | Executable

  /** file_t; the siblings of a directory are its `children`, in the order of the list. */
  datatype Node = Node(name: Text, parent: int, kind: Kind, children: seq<int>)

  const ROOT := 0

  /** Every file of the tree by its number; the next file to be made gets number `next`. */
  datatype Tree = Tree(nodes: map<int, Node>, next: int)

  // ------------------------------------------------------------------- strcmp

  function At(s: Text, i: nat): int {
    if i < |s| then s[i] else 0
  }

  /** strcmp of Kernel/stdlib.c from position i on; it stops at the terminator of the first string. */
  function Compare(a: Text, b: Text, i: nat): int
    requires i <= |a|
    decreases |a| - i
  {
    if At(a, i) != At(b, i) then (if At(a, i) < At(b, i) then -1 else 1)
    else if i == |a| then 0
    else Compare(a, b, i + 1)
  }

  predicate Strings(s: Text) {
    forall i :: 0 <= i < |s| ==> s[i] != 0
  }

  /** The order of two strings is decided where they first differ. */
  lemma {:induction false} CompareAt(a: Text, b: Text, i: nat, k: nat)
    requires Strings(a) && Strings(b) && i <= k <= |a| && i <= |b|
    requires forall j :: i <= j < k ==> At(a, j) == At(b, j)
    requires At(a, k) != At(b, k) || (k == |a| == |b|)
    ensures Compare(a, b, i) == if At(a, k) == At(b, k) then 0 else if At(a, k) < At(b, k) then -1 else 1
    decreases k - i
  {
    if i < k {
      assert At(a, i) == At(b, i);
      CompareAt(a, b, i + 1, k);
    }
  }

  /** Where two strings first differ, or their common end. */
  function Split(a: Text, b: Text): (k: nat)
    requires Strings(a) && Strings(b)
    ensures k <= |a| && k <= |b|
    ensures forall j :: 0 <= j < k ==> At(a, j) == At(b, j)
    ensures At(a, k) != At(b, k) || (k == |a| == |b| && a == b)
    decreases |a|
  {
    SplitFrom(a, b, 0)
  }

  function SplitFrom(a: Text, b: Text, i: nat): (k: nat)
    requires Strings(a) && Strings(b) && i <= |a| && i <= |b|
    requires forall j :: 0 <= j < i ==> At(a, j) == At(b, j)
    ensures i <= k <= |a| && k <= |b|
    ensures forall j :: 0 <= j < k ==> At(a, j) == At(b, j)
    ensures At(a, k) != At(b, k) || (k == |a| == |b| && a == b)
    decreases |a| - i
  {
    if At(a, i) != At(b, i) then i
    else if i == |a| then
      assert i == |b|;
      assert forall j :: 0 <= j < i ==> At(a, j) == a[j] && At(b, j) == b[j];
      i
    else SplitFrom(a, b, i + 1)
  }

  predicate Less(a: Text, b: Text) {
    Compare(a, b, 0) < 0
  }

  /** strcmp is a strict total order on strings. */
  lemma CompareIsOrder(a: Text, b: Text)
    requires Strings(a) && Strings(b)
    ensures Compare(a, b, 0) == 0 <==> a == b
    ensures Less(a, b) <==> Compare(b, a, 0) > 0
    ensures Less(a, b) <==> At(a, Split(a, b)) < At(b, Split(a, b))
  {
    var k := Split(a, b);
    CompareAt(a, b, 0, k);
    CompareAt(b, a, 0, k);
  }

  lemma LessIsTransitive(a: Text, b: Text, c: Text)
    requires Strings(a) && Strings(b) && Strings(c) && Less(a, b) && Less(b, c)
    ensures Less(a, c)
  {
    CompareIsOrder(a, b);
    CompareIsOrder(b, c);
    var i, j := Split(a, b), Split(b, c);
    var k := if i < j then i else j;
    assert forall m :: 0 <= m < k ==> At(a, m) == At(b, m) && At(b, m) == At(c, m);
    assert At(a, k) < At(c, k);
    CompareAt(a, c, 0, k);
  }

  // ----------------------------------------------------------------- the tree

  /** What a stored name may be. */
  predicate Valid(name: Text) {
    && 0 < |name| < MAX_NAME_LENGTH && Strings(name) && SLASH !in name
    && name != [DOT] && name != [DOT, DOT]
  }

  ghost predicate Linked(t: Tree) {
    && ROOT in t.nodes && t.nodes[ROOT].kind == Directory && t.nodes[ROOT].parent == ROOT
    && (forall x :: x in t.nodes ==> ROOT <= x < t.next)
    && (forall x :: x in t.nodes && x != ROOT ==> UnderItsParent(t, x))
    && (forall d, i :: d in t.nodes && 0 <= i < |t.nodes[d].children| ==> ChildOf(t, t.nodes[d].children[i], d))
    && (forall d :: d in t.nodes && t.nodes[d].kind != Directory ==> t.nodes[d].children == [])
  }

  /** A file that is not the root is in the list of its parent, which was made before it. */
  ghost predicate UnderItsParent(t: Tree, x: int)
    requires x in t.nodes
  {
    var d := t.nodes[x].parent;
    ROOT <= d < x && d in t.nodes && t.nodes[d].kind == Directory && x in t.nodes[d].children && Valid(t.nodes[x].name)
  }

  ghost predicate ChildOf(t: Tree, c: int, d: int) {
    c in t.nodes && c != ROOT && t.nodes[c].parent == d
  }

  /** The list of a directory is strictly sorted by name. */
  ghost predicate SortedList(t: Tree, d: int)
    requires d in t.nodes
  {
    var q := t.nodes[d].children;
    forall i, j :: 0 <= i < j < |q| ==> q[i] in t.nodes && q[j] in t.nodes && Less(t.nodes[q[i]].name, t.nodes[q[j]].name)
  }

  ghost predicate Inv(t: Tree) {
    Linked(t) && forall d :: d in t.nodes ==> SortedList(t, d)
  }

  // ---------------------------------------------------------- a name in a directory

  /** The position of the first sibling, from i on, that is not before the name. */
  function Slot(t: Tree, q: seq<int>, name: Text, i: nat): (k: nat)
    requires i <= |q| && forall j :: 0 <= j < |q| ==> q[j] in t.nodes
    ensures i <= k <= |q|
    ensures forall j :: i <= j < k ==> q[j] in t.nodes && Less(t.nodes[q[j]].name, name)
    ensures k < |q| ==> q[k] in t.nodes && !Less(t.nodes[q[k]].name, name)
    decreases |q| - i
  {
    if i < |q| && Less(t.nodes[q[i]].name, name) then Slot(t, q, name, i + 1) else i
  }

  predicate Listed(t: Tree, d: int) {
    d in t.nodes && var q := t.nodes[d].children; forall i :: 0 <= i < |q| ==> q[i] in t.nodes
  }

  /** The child that the search of the sibling list ends at, if it has the name. */
  function Lookup(t: Tree, d: int, name: Text): Option<int>
    requires Listed(t, d)
  {
    var q := t.nodes[d].children;
    var k := Slot(t, q, name, 0);
    if k < |q| && Compare(t.nodes[q[k]].name, name, 0) == 0 then Some(q[k]) else None
  }

  lemma TreeIsListed(t: Tree, d: int)
    requires Linked(t) && d in t.nodes
    ensures Listed(t, d)
    ensures forall c :: c in t.nodes[d].children ==> c != ROOT && t.nodes[c].parent == d && Valid(t.nodes[c].name)
    ensures var q := t.nodes[d].children;
            forall i :: 0 <= i < |q| ==> q[i] in t.nodes && t.nodes[q[i]].parent == d && Valid(t.nodes[q[i]].name)
  {
    var q := t.nodes[d].children;
    forall i | 0 <= i < |q|
      ensures q[i] in t.nodes && t.nodes[q[i]].parent == d && Valid(t.nodes[q[i]].name)
    {
      assert ChildOf(t, q[i], d);
      assert UnderItsParent(t, q[i]);
    }
    forall c | c in t.nodes[d].children
      ensures c in t.nodes && c != ROOT && t.nodes[c].parent == d && Valid(t.nodes[c].name)
    {
      var i :| 0 <= i < |t.nodes[d].children| && t.nodes[d].children[i] == c;
      assert ChildOf(t, t.nodes[d].children[i], d);
      assert UnderItsParent(t, c);
    }
  }

  /** The search finds a child with the name exactly if there is one. */
  lemma LookupFinds(t: Tree, d: int, name: Text)
    requires Inv(t) && d in t.nodes && Strings(name)
    ensures Listed(t, d)
    ensures forall c :: Lookup(t, d, name) == Some(c) <==> c in t.nodes[d].children && t.nodes[c].name == name
  {
    TreeIsListed(t, d);
    var q := t.nodes[d].children;
    var k := Slot(t, q, name, 0);
    assert SortedList(t, d);
    forall i | 0 <= i < |q|
      ensures t.nodes[q[i]].name == name ==> i == k
      ensures Valid(t.nodes[q[i]].name)
    {
      assert q[i] in q;
      CompareIsOrder(t.nodes[q[i]].name, name);
      if i > k {
        assert Less(t.nodes[q[k]].name, t.nodes[q[i]].name);
      }
    }
    if k < |q| {
      CompareIsOrder(t.nodes[q[k]].name, name);
    }
  }

  lemma LookupIs(t: Tree, d: int, name: Text, c: int)
    requires Inv(t) && d in t.nodes && Strings(name)
    ensures Listed(t, d)
    ensures Lookup(t, d, name) == Some(c) <==> c in t.nodes[d].children && c in t.nodes && t.nodes[c].name == name
  {
    hide Linked, SortedList, Lookup;
    LookupFinds(t, d, name);
    TreeIsListed(t, d);
  }

  // ------------------------------------------------------------ path resolution

  /** How many characters the first component of a path has, counted as far as a name may reach. */
  function Span(path: Text, i: nat): (k: nat)
    requires i <= |path| && i <= MAX_NAME_LENGTH
    ensures i <= k <= |path| && k <= MAX_NAME_LENGTH
    ensures forall j :: i <= j < k ==> path[j] != SLASH
    ensures k < |path| && k < MAX_NAME_LENGTH ==> path[k] == SLASH
    decreases |path| - i
  {
    if i < |path| && path[i] != SLASH && i < MAX_NAME_LENGTH then Span(path, i + 1) else i
  }

  /** Where a component leads to: the directory itself, its parent, or a child. */
  function Target(t: Tree, d: int, name: Text): Option<int>
    requires Listed(t, d)
  {
    if name == [DOT] then Some(d)
    else if name == [DOT, DOT] then Some(if d == ROOT then ROOT else t.nodes[d].parent)
    else Lookup(t, d, name)
  }

  /** A path leads to a file, or to a directory that lacks the last component, or nowhere. */
  datatype Outcome = Found(file: int) | Missing(dir: int, name: Text) | Nowhere

  /** makeFileR without its last act: where the path leads from directory d, after `length` characters. */
  function Walk(t: Tree, path: Text, d: int, length: int): Outcome
    requires Linked(t) && d in t.nodes
    decreases |path|
  {
    TreeIsListed(t, d);
    var i := Span(path, 0);
    if i >= MAX_NAME_LENGTH || length + i > MAX_PATH_LENGTH then Nowhere
    else if i == 0 then (if path == [] then Found(d) else Nowhere)
    else
      var name := path[..i];
      var target := Target(t, d, name);
      if i == |path| then (if target.Some? then Found(target.value) else Missing(d, name))
      else if target.Some? && target.value in t.nodes && t.nodes[target.value].kind == Directory then
        Walk(t, path[i + 1..], target.value, length + i + 1)
      else Nowhere
  }

  /** Where a path leads from the current directory, or from the root if it begins with a slash. */
  function Resolve(t: Tree, path: Text, cwd: int): Outcome
    requires Linked(t) && cwd in t.nodes
  {
    if path != [] && path[0] == SLASH then Walk(t, path[1..], ROOT, 0) else Walk(t, path, cwd, 0)
  }

  function GetFile(t: Tree, path: Text, cwd: int): Option<int>
    requires Linked(t) && cwd in t.nodes
  {
    match Resolve(t, path, cwd)
    case Found(x) => Some(x)
    case _ => None
  }

  /** Links a new file into the list of directory d, before the first sibling that is not before it. */
  function Insert(t: Tree, d: int, name: Text, kind: Kind): Tree
    requires Listed(t, d)
  {
    var node := t.nodes[d];
    var k := Slot(t, node.children, name, 0);
    var q := node.children[..k] + [t.next] + node.children[k..];
    Tree(t.nodes[d := node.(children := q)][t.next := Node(name, d, kind, [])], t.next + 1)
  }

  function Made(t: Tree, path: Text, cwd: int, kind: Kind): (Tree, Option<int>)
    requires Linked(t) && cwd in t.nodes
  {
    match Resolve(t, path, cwd)
    case Found(x) => (t, Some(x))
    case Missing(d, name) =>
      WalkStaysInside(t, path, cwd);
      (Insert(t, d, name, kind), Some(t.next))
    case Nowhere => (t, None)
  }

  lemma WalkStaysInside(t: Tree, path: Text, cwd: int)
    requires Linked(t) && cwd in t.nodes
    ensures match Resolve(t, path, cwd)
            case Found(x) => x in t.nodes
            case Missing(d, name) => Listed(t, d) && (t.nodes[cwd].kind == Directory ==> t.nodes[d].kind == Directory)
            case Nowhere => true
  {
    if path != [] && path[0] == SLASH { WalkStays(t, path[1..], ROOT, 0); } else { WalkStays(t, path, cwd, 0); }
  }

  lemma WalkUnfolds(t: Tree, path: Text, d: int, length: int)
    requires Linked(t) && d in t.nodes
    ensures Listed(t, d)
    ensures var i := Span(path, 0);
            var target := Target(t, d, path[..i]);
            Walk(t, path, d, length) ==
            if i >= MAX_NAME_LENGTH || length + i > MAX_PATH_LENGTH then Nowhere
            else if i == 0 then (if path == [] then Found(d) else Nowhere)
            else if i == |path| then (if target.Some? then Found(target.value) else Missing(d, path[..i]))
            else if target.Some? && target.value in t.nodes && t.nodes[target.value].kind == Directory then
              Walk(t, path[i + 1..], target.value, length + i + 1)
            else Nowhere
  {
    hide Linked, Target;
    TreeIsListed(t, d);
  }

  lemma {:induction false} WalkStays(t: Tree, path: Text, d: int, length: int)
    requires Linked(t) && d in t.nodes
    ensures match Walk(t, path, d, length)
            case Found(x) => x in t.nodes
            case Missing(e, name) =>
              && Listed(t, e) && (t.nodes[d].kind == Directory ==> t.nodes[e].kind == Directory)
              && 0 < |name| < MAX_NAME_LENGTH && SLASH !in name && name != [DOT] && name != [DOT, DOT]
              && (Strings(path) ==> Strings(name)) && Lookup(t, e, name) == None
            case Nowhere => true
    decreases |path|
  {
    hide Linked, Walk, Target, Lookup, Listed;
    WalkUnfolds(t, path, d, length);
    TargetStays(t, d, path);
    NoTarget(t, d, path);
    var i := Span(path, 0);
    if 0 < i < |path| && i < MAX_NAME_LENGTH && length + i <= MAX_PATH_LENGTH {
      var target := Target(t, d, path[..i]);
      if target.Some? && t.nodes[target.value].kind == Directory {
        WalkStays(t, path[i + 1..], target.value, length + i + 1);
      }
    }
  }

  /** A component that leads nowhere is a name that the directory does not have. */
  lemma NoTarget(t: Tree, d: int, path: Text)
    requires Linked(t) && d in t.nodes
    ensures Listed(t, d)
    ensures var name := path[..Span(path, 0)];
            Target(t, d, name) == None ==>
              && SLASH !in name && name != [DOT] && name != [DOT, DOT] && (Strings(path) ==> Strings(name))
              && Lookup(t, d, name) == None
  {
    hide Linked, Lookup;
    TreeIsListed(t, d);
  }

  lemma TargetStays(t: Tree, d: int, path: Text)
    requires Linked(t) && d in t.nodes
    ensures Listed(t, d)
    ensures var target := Target(t, d, path[..Span(path, 0)]); target.Some? ==> target.value in t.nodes
  {
    TreeIsListed(t, d);
    if d != ROOT { assert UnderItsParent(t, d); }
  }

  // --------------------------------------------------------------- making a file

  /** A directory can take a new file of that name. */
  ghost predicate Free(t: Tree, d: int, name: Text) {
    Inv(t) && Listed(t, d) && t.nodes[d].kind == Directory && Valid(name) && Lookup(t, d, name) == None
  }

  /** The list with the new file in its place: whose names are before it and after it. */
  lemma InsertSplits(t: Tree, d: int, name: Text)
    requires Free(t, d, name)
    ensures var q := t.nodes[d].children;
            var k := Slot(t, q, name, 0);
            && (forall i :: 0 <= i < k ==> Less(t.nodes[q[i]].name, name))
            && (forall i :: k <= i < |q| ==> Less(name, t.nodes[q[i]].name))
  {
    var q := t.nodes[d].children;
    var k := Slot(t, q, name, 0);
    TreeIsListed(t, d);
    assert SortedList(t, d);
    forall i | k <= i < |q|
      ensures Less(name, t.nodes[q[i]].name)
    {
      assert q[k] in q && q[i] in q;
      CompareIsOrder(t.nodes[q[k]].name, name);
      CompareIsOrder(name, t.nodes[q[k]].name);
      if i > k { LessIsTransitive(name, t.nodes[q[k]].name, t.nodes[q[i]].name); }
    }
  }

  lemma FreeNumber(t: Tree, d: int, name: Text)
    requires Free(t, d, name)
    ensures t.next !in t.nodes && t.next > ROOT && d in t.nodes && Listed(t, d)
  {
    hide Slot;
  }

  lemma InsertedMembers(q: seq<int>, k: nat, x: int)
    requires k <= |q|
    ensures forall c :: c in q[..k] + [x] + q[k..] <==> c in q || c == x
  {
    assert q == q[..k] + q[k..];
  }

  lemma InsertMembers(t: Tree, d: int, name: Text, kind: Kind)
    requires Free(t, d, name)
    ensures var t' := Insert(t, d, name, kind);
            && t.next !in t.nodes && t.next in t'.nodes
            && t'.nodes[t.next] == Node(name, d, kind, [])
            && |t'.nodes[d].children| == |t.nodes[d].children| + 1
            && (forall c :: c in t'.nodes[d].children <==> c in t.nodes[d].children || c == t.next)
            && (forall x :: x in t.nodes ==> x in t'.nodes && t'.nodes[x] == t.nodes[x].(children := t'.nodes[x].children))
            && (forall x :: x in t.nodes && x != d ==> t'.nodes[x] == t.nodes[x])
            && (forall x :: x in t'.nodes ==> x in t.nodes || x == t.next)
  {
    hide Compare, Valid, Less, Linked, Free, Slot;
    FreeNumber(t, d, name);
    var q := t.nodes[d].children;
    InsertedMembers(q, Slot(t, q, name, 0), t.next);
  }

  lemma InsertKeepsOrder(t: Tree, d: int, name: Text, kind: Kind)
    requires Free(t, d, name)
    ensures forall e :: e in Insert(t, d, name, kind).nodes ==> SortedList(Insert(t, d, name, kind), e)
  {
    hide Compare, Valid, Linked, Less, Insert;
    InsertMembers(t, d, name, kind);
    var t' := Insert(t, d, name, kind);
    forall e | e in t'.nodes
      ensures SortedList(t', e)
    {
      if e == d {
        InsertSortsIn(t, d, name, kind);
      } else if e in t.nodes {
        TreeIsListed(t, e);
        SameListSorted(t, t', e);
      }
    }
  }

  lemma SameListSorted(t: Tree, t': Tree, e: int)
    requires e in t.nodes && e in t'.nodes && SortedList(t, e) && t'.nodes[e].children == t.nodes[e].children
    requires var q := t.nodes[e].children;
             forall i :: 0 <= i < |q| ==> q[i] in t.nodes && q[i] in t'.nodes && t'.nodes[q[i]].name == t.nodes[q[i]].name
    ensures SortedList(t', e)
  {
    hide Less;
    var q := t'.nodes[e].children;
    forall i, j | 0 <= i < j < |q|
      ensures q[i] in t'.nodes && q[j] in t'.nodes && Less(t'.nodes[q[i]].name, t'.nodes[q[j]].name)
    {
      SortedPair(t, e, i, j);
    }
  }

  lemma InsertSortsIn(t: Tree, d: int, name: Text, kind: Kind)
    requires Free(t, d, name) && d in Insert(t, d, name, kind).nodes
    ensures SortedList(Insert(t, d, name, kind), d)
  {
    hide Compare, Valid, Linked, Less, Slot;
    FreeNumber(t, d, name);
    InsertSplits(t, d, name);
    var t', q := Insert(t, d, name, kind), t.nodes[d].children;
    var k, q' := Slot(t, q, name, 0), t'.nodes[d].children;
    assert SortedList(t, d);
    forall i | 0 <= i < |q'|
      ensures q'[i] in t'.nodes
      ensures i != k ==> q'[i] == q[if i < k then i else i - 1] && t'.nodes[q'[i]].name == t.nodes[q'[i]].name
      ensures q'[k] == t.next && t'.nodes[q'[k]].name == name
    {
      assert i != k ==> q[if i < k then i else i - 1] in q;
    }
  }

  lemma InsertKeepsLinks(t: Tree, d: int, name: Text, kind: Kind)
    requires Free(t, d, name)
    ensures Linked(Insert(t, d, name, kind))
  {
    hide Compare, Valid, Less, Insert, SortedList, Slot;
    InsertMembers(t, d, name, kind);
    var t' := Insert(t, d, name, kind);
    InsertNext(t, d, name, kind);
    forall x | x in t'.nodes && x != ROOT
      ensures UnderItsParent(t', x)
    {
      if x in t.nodes { assert UnderItsParent(t, x); }
    }
    forall e, i | e in t'.nodes && 0 <= i < |t'.nodes[e].children|
      ensures ChildOf(t', t'.nodes[e].children[i], e)
    {
      assert t'.nodes[e].children[i] in t'.nodes[e].children;
      if e in t.nodes { TreeIsListed(t, e); }
    }
  }

  lemma InsertNext(t: Tree, d: int, name: Text, kind: Kind)
    requires Listed(t, d)
    ensures Insert(t, d, name, kind).next == t.next + 1
  {
  }

  /** Where components lead after a file was made: where they led before, or to the new file. */
  lemma TargetAfterInsert(t: Tree, d: int, name: Text, kind: Kind, e: int, n: Text)
    requires Free(t, d, name) && e in t.nodes && Strings(n)
    ensures Linked(Insert(t, d, name, kind)) && Listed(t, e) && Listed(Insert(t, d, name, kind), e)
    ensures Target(Insert(t, d, name, kind), e, n) == if e == d && n == name then Some(t.next) else Target(t, e, n)
    ensures Target(t, d, name) == None
  {
    hide Compare, Slot, Linked, SortedList;
    var t' := Insert(t, d, name, kind);
    InsertKeepsOrder(t, d, name, kind);
    InsertKeepsLinks(t, d, name, kind);
    TreeIsListed(t, e);
    TreeIsListed(t', e);
    InsertMembers(t, d, name, kind);
    LookupIs(t', e, n, t.next);
    if Lookup(t', e, n).Some? {
      LookupIs(t', e, n, Lookup(t', e, n).value);
      LookupIs(t, e, n, Lookup(t', e, n).value);
    }
    if Lookup(t, e, n).Some? {
      LookupIs(t', e, n, Lookup(t, e, n).value);
      LookupIs(t, e, n, Lookup(t, e, n).value);
    }
    ParentIsKept(t, d, name, kind, e);
  }

  lemma ParentIsKept(t: Tree, d: int, name: Text, kind: Kind, e: int)
    requires Free(t, d, name) && e in t.nodes
    ensures Insert(t, d, name, kind).nodes[e].parent == t.nodes[e].parent && t.next != ROOT
    ensures d != t.next && e != t.next
  {
    hide Compare, Valid, Less, Slot;
  }

  /** What every path that led somewhere leads to after a file was made. */
  lemma {:induction false} WalkAfterInsert(t: Tree, d: int, name: Text, kind: Kind, path: Text, e: int, length: int)
    requires Free(t, d, name) && e in t.nodes && Strings(path)
    ensures var t' := Insert(t, d, name, kind);
            && Linked(t') && e in t'.nodes
            && match Walk(t, path, e, length)
               case Found(x) => Walk(t', path, e, length) == Found(x)
               case Missing(f, n) =>
                 Walk(t', path, e, length) == if f == d && n == name then Found(t.next) else Missing(f, n)
               case Nowhere => true
    decreases |path|
  {
    hide Insert, Linked, Target, Free, Listed;
    FreeIsLinked(t, d, name, kind, e);
    var i, t' := Span(path, 0), Insert(t, d, name, kind);
    TargetAfterInsert(t, d, name, kind, e, path[..i]);
    TargetStays(t, e, path);
    InsertMembers(t, d, name, kind);
    if 0 < i < |path| && i < MAX_NAME_LENGTH && length + i <= MAX_PATH_LENGTH {
      assert Strings(path[i + 1..]);
      var target := Target(t, e, path[..i]);
      if target.Some? && t.nodes[target.value].kind == Directory {
        WalkAfterInsert(t, d, name, kind, path[i + 1..], target.value, length + i + 1);
      }
    }
  }

  lemma FreeIsLinked(t: Tree, d: int, name: Text, kind: Kind, e: int)
    requires Free(t, d, name) && e in t.nodes
    ensures Linked(t) && Linked(Insert(t, d, name, kind)) && d in t.nodes && Listed(t, d)
    ensures e in Insert(t, d, name, kind).nodes
  {
    InsertKeepsLinks(t, d, name, kind);
  }

  /** Everything that is known of a file but its list of children. */
  ghost predicate SameFiles(t: Tree, t': Tree, x: int) {
    x in t.nodes && x in t'.nodes && t'.nodes[x] == t.nodes[x].(children := t'.nodes[x].children)
  }

  /**
   makeFile makes at most one file; then the path leads to the file it returned, every path that led to
   a file leads to the same one, and the tree keeps its shape.
   */
  lemma MakeFileThenGetFile(t: Tree, path: Text, cwd: int, kind: Kind)
    requires Inv(t) && cwd in t.nodes && t.nodes[cwd].kind == Directory && Strings(path)
    ensures var (t', made) := Made(t, path, cwd, kind);
            && Inv(t') && cwd in t'.nodes
            && (made.Some? ==> made.value in t'.nodes && GetFile(t', path, cwd) == made)
            && (made == None ==> t' == t && GetFile(t, path, cwd) == None)
            && (forall x :: x in t.nodes ==> SameFiles(t, t', x))
            && (forall x :: x in t'.nodes && x !in t.nodes ==>
                  made == Some(x) && x == t.next && t'.nodes[x].kind == kind && t'.nodes[x].children == [])
            && t.next <= t'.next
            && (forall p, c ::
                  Strings(p) && c in t.nodes && GetFile(t, p, c).Some? ==> GetFile(t', p, c) == GetFile(t, p, c))
  {
    hide Insert, Linked, GetFile, Strings;
    MakeFileCases(t, path, cwd, kind);
    var (t', made) := Made(t, path, cwd, kind);
    var r := Resolve(t, path, cwd);
    if r.Missing? {
      forall p, c | Strings(p) && c in t.nodes && GetFile(t, p, c).Some?
        ensures GetFile(t', p, c) == GetFile(t, p, c)
      {
        OtherPathsStay(t, r.dir, r.name, kind, p, c);
      }
    }
  }

  lemma MakeFileCases(t: Tree, path: Text, cwd: int, kind: Kind)
    requires Inv(t) && cwd in t.nodes && t.nodes[cwd].kind == Directory && Strings(path)
    ensures Resolve(t, path, cwd).Missing? ==> Free(t, Resolve(t, path, cwd).dir, Resolve(t, path, cwd).name)
    ensures var (t', made) := Made(t, path, cwd, kind);
            && Inv(t') && cwd in t'.nodes
            && (made.Some? ==> made.value in t'.nodes && GetFile(t', path, cwd) == made)
            && (made == None ==> t' == t && GetFile(t, path, cwd) == None)
            && (forall x :: x in t.nodes ==> SameFiles(t, t', x))
            && (forall x :: x in t'.nodes && x !in t.nodes ==>
                  made == Some(x) && x == t.next && t'.nodes[x].kind == kind && t'.nodes[x].children == [])
            && t.next <= t'.next
  {
    hide Insert, Linked;
    ResolveParts(t, path, cwd);
    match Resolve(t, path, cwd)
    case Found(x) => WalkStaysInside(t, path, cwd);
    case Missing(d, name) =>
      InsertMembers(t, d, name, kind);
      InsertKeepsOrder(t, d, name, kind);
      InsertKeepsLinks(t, d, name, kind);
      InsertNext(t, d, name, kind);
      OtherPathsStay(t, d, name, kind, path, cwd);
    case Nowhere =>
  }

  lemma ResolveParts(t: Tree, path: Text, cwd: int)
    requires Inv(t) && cwd in t.nodes && t.nodes[cwd].kind == Directory && Strings(path)
    ensures Resolve(t, path, cwd).Missing? ==> Free(t, Resolve(t, path, cwd).dir, Resolve(t, path, cwd).name)
  {
    hide Walk;
    if path != [] && path[0] == SLASH { WalkStays(t, path[1..], ROOT, 0); } else { WalkStays(t, path, cwd, 0); }
  }

  /** Making a file redirects no path: what led to a file leads there still. */
  lemma OtherPathsStay(t: Tree, d: int, name: Text, kind: Kind, path: Text, cwd: int)
    requires Free(t, d, name) && cwd in t.nodes && Strings(path)
    ensures var t' := Insert(t, d, name, kind);
            && Linked(t) && Linked(t') && cwd in t'.nodes
            && (GetFile(t, path, cwd).Some? ==> GetFile(t', path, cwd) == GetFile(t, path, cwd))
            && (Resolve(t, path, cwd) == Missing(d, name) ==> GetFile(t', path, cwd) == Some(t.next))
  {
    hide Insert, Linked, Walk, Free;
    FreeIsLinked(t, d, name, kind, cwd);
    if path != [] && path[0] == SLASH {
      FreeIsLinked(t, d, name, kind, ROOT) by { RootIsThere(t); }
      WalkAfterInsert(t, d, name, kind, path[1..], ROOT, 0);
    } else {
      WalkAfterInsert(t, d, name, kind, path, cwd, 0);
    }
  }

  lemma RootIsThere(t: Tree)
    requires Linked(t)
    ensures ROOT in t.nodes
  {
  }

  // ------------------------------------------------------------ paths back to files

  /** The path of a file from the root; the root itself has the empty one. */
  function PathOf(t: Tree, x: int): Text
    requires Linked(t) && x in t.nodes
    decreases x
  {
    if x == ROOT then []
    else
      assert UnderItsParent(t, x);
      PathOf(t, t.nodes[x].parent) + [SLASH] + t.nodes[x].name
  }

  /** What getCWDPath writes. */
  function CwdPath(t: Tree, x: int): Text
    requires Linked(t) && x in t.nodes
  {
    if x == ROOT then [SLASH] else PathOf(t, x)
  }

  lemma PathStarts(t: Tree, x: int)
    requires Linked(t) && x in t.nodes && x != ROOT
    ensures var d := t.nodes[x].parent;
            && d in t.nodes && ROOT <= d < x && t.nodes[d].kind == Directory && Valid(t.nodes[x].name)
            && PathOf(t, x) == PathOf(t, d) + [SLASH] + t.nodes[x].name && PathOf(t, x)[0] == SLASH
    decreases x
  {
    hide Valid;
    assert UnderItsParent(t, x);
    if t.nodes[x].parent != ROOT { PathStarts(t, t.nodes[x].parent); }
  }

  /** One component: from the parent of x, its name leads to x. */
  lemma NameLeadsToChild(t: Tree, x: int, rest: Text, length: int)
    requires Inv(t) && x in t.nodes && x != ROOT && (rest == [] || rest[0] == SLASH)
    ensures var d, name := t.nodes[x].parent, t.nodes[x].name;
            && d in t.nodes
            && Walk(t, name + rest, d, length) ==
               if length + |name| > MAX_PATH_LENGTH then Nowhere
               else if rest == [] then Found(x)
               else if t.nodes[x].kind == Directory then Walk(t, rest[1..], x, length + |name| + 1)
               else Nowhere
  {
    hide Linked, SortedList, Slot;
    PathStarts(t, x);
    var d, name := t.nodes[x].parent, t.nodes[x].name;
    ChildIsListed(t, x);
    LookupFinds(t, d, name);
    SpanIs(name, rest, 0);
    assert (name + rest)[..|name|] == name;
    assert rest != [] ==> (name + rest)[|name| + 1..] == rest[1..];
  }

  lemma ChildIsListed(t: Tree, x: int)
    requires Linked(t) && x in t.nodes && x != ROOT
    ensures t.nodes[x].parent in t.nodes && x in t.nodes[t.nodes[x].parent].children
  {
    assert UnderItsParent(t, x);
  }

  lemma {:induction false} SpanIs(name: Text, rest: Text, i: nat)
    requires Valid(name) && (rest == [] || rest[0] == SLASH) && i <= |name|
    ensures Span(name + rest, i) == |name|
    decreases |name| - i
  {
    var p := name + rest;
    if i < |name| {
      assert p[i] == name[i] && name[i] in name;
      SpanIs(name, rest, i + 1);
    }
  }

  /** From the root, the path of x leads to x, or fails for its length. */
  lemma {:induction false} PathLeadsDown(t: Tree, x: int, rest: Text)
    requires Inv(t) && x in t.nodes && x != ROOT && (rest == [] || rest[0] == SLASH)
    ensures PathOf(t, x) != [] && ROOT in t.nodes
    ensures var p := PathOf(t, x)[1..];
            Walk(t, p + rest, ROOT, 0) ==
            if |p| > MAX_PATH_LENGTH then Nowhere
            else if rest == [] then Found(x)
            else if t.nodes[x].kind == Directory then Walk(t, rest[1..], x, |p| + 1)
            else Nowhere
    decreases x
  {
    hide Linked, SortedList, Walk, PathOf;
    PathStarts(t, x);
    RootIsThere(t);
    var d, name := t.nodes[x].parent, t.nodes[x].name;
    var p := PathOf(t, x)[1..];
    if d == ROOT {
      RootPath(t);
      assert p == name;
      NameLeadsToChild(t, x, rest, 0);
    } else {
      var more := [SLASH] + (name + rest);
      PathLeadsDown(t, d, more);
      assert more[1..] == name + rest;
      assert p + rest == PathOf(t, d)[1..] + more;
      NameLeadsToChild(t, x, rest, |PathOf(t, d)[1..]| + 1);
    }
  }

  lemma RootPath(t: Tree)
    requires Linked(t)
    ensures ROOT in t.nodes && PathOf(t, ROOT) == []
  {
  }

  /** getFile of the path that getCWDPath prints is the directory itself, exactly if the path is not too long. */
  lemma PathLeadsBackIff(t: Tree, x: int, cwd: int)
    requires Inv(t) && x in t.nodes && cwd in t.nodes
    ensures GetFile(t, CwdPath(t, x), cwd) == Some(x) <==> |CwdPath(t, x)| - 1 <= MAX_PATH_LENGTH
  {
    hide Linked, SortedList, PathOf;
    RootPath(t);
    if x != ROOT {
      hide Walk;
      PathLeadsDown(t, x, []);
      PathStarts(t, x);
      assert PathOf(t, x)[1..] + [] == PathOf(t, x)[1..];
    }
  }

  /** A name that the empty directory d does not have is made in it. */
  lemma MadeInEmpty(t: Tree, d: int, name: Text) returns (t': Tree)
    requires Inv(t) && d in t.nodes && t.nodes[d].kind == Directory && t.nodes[d].children == [] && Valid(name)
    ensures Made(t, name, d, Directory) == (t', Some(t.next)) && Inv(t')
    ensures t.next in t'.nodes && t'.nodes[t.next] == Node(name, d, Directory, [])
    ensures d in t'.nodes && PathOf(t', t.next) == PathOf(t, d) + [SLASH] + name
  {
    hide Linked, SortedList, Slot, PathOf, Insert;
    LookupFinds(t, d, name);
    SpanIs(name, [], 0);
    assert name + [] == name && name[..|name|] == name && name[0] in name;
    WalkStaysInside(t, name, d);
    assert Lookup(t, d, name) == None;
    assert Resolve(t, name, d) == Missing(d, name);
    t' := Insert(t, d, name, Directory);
    InsertMembers(t, d, name, Directory);
    InsertKeepsOrder(t, d, name, Directory);
    InsertKeepsLinks(t, d, name, Directory);
    FreeNumber(t, d, name);
    PathIsKept(t, t', d);
    PathStarts(t', t.next);
  }

  /** A process makes a directory of that name and goes into it, k times. */
  ghost predicate Nests(t: Tree, d: int, name: Text, k: nat, t': Tree, x: int)
    decreases k
  {
    if k == 0 then t' == t && x == d
    else
      && Linked(t) && d in t.nodes
      && var (u, made) := Made(t, name, d, Directory);
         made.Some? && Nests(u, made.value, name, k - 1, t', x)
  }

  lemma {:induction false} NestedPath(t: Tree, d: int, name: Text, k: nat) returns (t': Tree, x: int)
    requires Inv(t) && d in t.nodes && t.nodes[d].kind == Directory && t.nodes[d].children == [] && Valid(name)
    ensures Nests(t, d, name, k, t', x) && Inv(t') && x in t'.nodes && t'.nodes[x].kind == Directory
    ensures |PathOf(t', x)| == |PathOf(t, d)| + k * (|name| + 1)
    decreases k
  {
    hide Linked, SortedList, PathOf, Made, Valid;
    if k == 0 {
      t', x := t, d;
    } else {
      var u := MadeInEmpty(t, d, name);
      t', x := NestedPath(u, t.next, name, k - 1);
      assert k * (|name| + 1) == (k - 1) * (|name| + 1) + |name| + 1;
    }
  }

  /**
   Five directories with names of 63 characters, one in the other: getFile rejects the path that getCWDPath
   prints in the innermost one.
   */
  lemma DeepDirectoryIsNotFound(t: Tree, name: Text, cwd: int) returns (t': Tree, x: int)
    requires t == Tree(map[ROOT := Node([114, 111, 111, 116], ROOT, Directory, [])], 1) && name == seq(63, _ => 97)
    ensures Inv(t) && Nests(t, ROOT, name, 5, t', x) && Inv(t') && x in t'.nodes && t'.nodes[x].kind == Directory
    ensures |CwdPath(t', x)| == 320
    ensures cwd in t'.nodes ==> GetFile(t', CwdPath(t', x), cwd) != Some(x)
  {
    hide Linked, SortedList, PathOf, Nests, GetFile;
    RootAlone(t);
    t', x := NestedPath(t, ROOT, name, 5);
    RootPath(t);
    RootPath(t');
    if cwd in t'.nodes { PathLeadsBackIff(t', x, cwd); }
  }

  lemma RootAlone(t: Tree)
    requires t == Tree(map[ROOT := Node([114, 111, 111, 116], ROOT, Directory, [])], 1)
    ensures Inv(t)
  {
  }

  // ------------------------------------------------------------------- removing

  /** Whether y is x or lies somewhere below it. */
  predicate Under(t: Tree, y: int, x: int)
    requires Linked(t) && y in t.nodes
    decreases y
  {
    if y == x then true
    else if y == ROOT then false
    else
      assert UnderItsParent(t, y);
      Under(t, t.nodes[y].parent, x)
  }

  /** t' is t without some of its files; what is left is a tree, and every file left is what it was. */
  ghost predicate Pruned(t: Tree, t': Tree) {
    && Inv(t') && t'.next == t.next && t'.nodes.Keys <= t.nodes.Keys
    && forall y :: y in t'.nodes ==> SameFiles(t, t', y)
  }

  lemma PrunedTwice(a: Tree, b: Tree, c: Tree)
    requires Pruned(a, b) && Pruned(b, c)
    ensures Pruned(a, c)
  {
    hide Inv;
    forall y | y in c.nodes
      ensures SameFiles(a, c, y)
    {
      assert SameFiles(b, c, y) && SameFiles(a, b, y);
    }
  }

  /** Where a file lies does not depend on the files that were removed. */
  lemma {:induction false} UnderStays(t: Tree, t': Tree, y: int, x: int)
    requires Inv(t) && Pruned(t, t') && y in t'.nodes
    ensures y in t.nodes && Under(t', y, x) == Under(t, y, x)
    decreases y
  {
    hide SortedList;
    assert SameFiles(t, t', y);
    if y != x && y != ROOT {
      assert UnderItsParent(t', y) && UnderItsParent(t, y);
      UnderStays(t, t', t'.nodes[y].parent, x);
    }
  }

  /** With a file, every directory above it is there. */
  lemma {:induction false} AncestorsStay(t: Tree, y: int, x: int)
    requires Linked(t) && y in t.nodes && Under(t, y, x)
    ensures x in t.nodes && x <= y
    decreases y
  {
    if y != x {
      assert UnderItsParent(t, y);
      AncestorsStay(t, t.nodes[y].parent, x);
    }
  }

  /** removeFileR and the release of the file. */
  function Detach(t: Tree, x: int): Tree
    requires x in t.nodes && t.nodes[x].parent in t.nodes
  {
    var d := t.nodes[x].parent;
    var node := t.nodes[d];
    t.(nodes := t.nodes[d := node.(children := RemoveFirst(node.children, x))] - {x})
  }

  /** A file with nothing below it can be taken out. */
  lemma DetachPrunes(t: Tree, x: int)
    requires Inv(t) && x in t.nodes && x != ROOT && t.nodes[x].children == []
    ensures t.nodes[x].parent in t.nodes && Pruned(t, Detach(t, x))
    ensures Detach(t, x).nodes.Keys == t.nodes.Keys - {x}
  {
    hide Less, Valid, RemoveFirst;
    assert UnderItsParent(t, x);
    var d, t' := t.nodes[x].parent, Detach(t, x);
    ListIsDistinct(t, d);
    RemoveFirstNoDuplicates(t.nodes[d].children, x);
    DetachKeepsLinks(t, x);
    DetachKeepsOrder(t, x);
    forall y | y in t'.nodes
      ensures SameFiles(t, t', y)
    {
    }
  }

  lemma SortedPair(t: Tree, d: int, i: nat, j: nat)
    requires d in t.nodes && SortedList(t, d) && i < j < |t.nodes[d].children|
    ensures var q := t.nodes[d].children;
            q[i] in t.nodes && q[j] in t.nodes && Less(t.nodes[q[i]].name, t.nodes[q[j]].name)
  {
    hide Less;
  }

  lemma ListIsDistinct(t: Tree, d: int)
    requires Inv(t) && d in t.nodes
    ensures NoDuplicates(t.nodes[d].children) && Listed(t, d)
  {
    hide Linked, Less;
    TreeIsListed(t, d);
    var q := t.nodes[d].children;
    assert SortedList(t, d);
    forall i, j | 0 <= i < j < |q|
      ensures q[i] != q[j]
    {
      SortedPair(t, d, i, j);
      CompareIsOrder(t.nodes[q[i]].name, t.nodes[q[i]].name);
    }
  }

  lemma DetachMembers(t: Tree, x: int)
    requires Inv(t) && x in t.nodes && x != ROOT && t.nodes[x].parent in t.nodes
    ensures var t', d := Detach(t, x), t.nodes[x].parent;
            && t'.next == t.next && t'.nodes.Keys == t.nodes.Keys - {x} && d != x
            && (forall y :: y in t'.nodes && y != d ==> t'.nodes[y] == t.nodes[y])
            && (d in t'.nodes ==> t'.nodes[d] == t.nodes[d].(children := t'.nodes[d].children))
            && (d in t'.nodes ==> forall c :: c in t'.nodes[d].children <==> c in t.nodes[d].children && c != x)
  {
    hide Less, Valid, RemoveFirst, SortedList, NoDuplicates;
    assert UnderItsParent(t, x);
    ListIsDistinct(t, t.nodes[x].parent);
    RemoveFirstNoDuplicates(t.nodes[t.nodes[x].parent].children, x);
  }

  lemma DetachKeepsLinks(t: Tree, x: int)
    requires Inv(t) && x in t.nodes && x != ROOT && t.nodes[x].children == [] && t.nodes[x].parent in t.nodes
    ensures Linked(Detach(t, x))
  {
    hide Less, Valid, SortedList, Detach;
    var t' := Detach(t, x);
    DetachMembers(t, x);
    forall y | y in t'.nodes && y != ROOT
      ensures UnderItsParent(t', y)
    {
      assert UnderItsParent(t, y);
      assert t.nodes[y].parent != x;
    }
    forall e, i | e in t'.nodes && 0 <= i < |t'.nodes[e].children|
      ensures ChildOf(t', t'.nodes[e].children[i], e)
    {
      assert t'.nodes[e].children[i] in t'.nodes[e].children;
      TreeIsListed(t, e);
    }
  }

  lemma DetachKeepsOrder(t: Tree, x: int)
    requires Inv(t) && x in t.nodes && x != ROOT && t.nodes[x].children == [] && t.nodes[x].parent in t.nodes
    ensures forall e :: e in Detach(t, x).nodes ==> SortedList(Detach(t, x), e)
  {
    hide Less, Valid, RemoveFirst, Linked, SortedList;
    var d, t' := t.nodes[x].parent, Detach(t, x);
    forall e | e in t'.nodes
      ensures SortedList(t', e)
    {
      assert SortedList(t, e);
      if e == d { DetachSortsOut(t, x); } else { OtherListStays(t, x, e); }
    }
  }

  lemma DetachSortsOut(t: Tree, x: int)
    requires Inv(t) && x in t.nodes && x != ROOT && t.nodes[x].parent in t.nodes && t.nodes[x].parent in Detach(t, x).nodes
    ensures SortedList(Detach(t, x), t.nodes[x].parent)
  {
    hide Less, Valid, RemoveFirst, Linked;
    var d, t' := t.nodes[x].parent, Detach(t, x);
    var q := t.nodes[d].children;
    ChildIsListed(t, x);
    ListIsDistinct(t, d);
    assert SortedList(t, d);
    var k :| 0 <= k < |q| && q[k] == x;
    RemoveFirstAt(q, x, k);
    var q' := q[..k] + q[k + 1..];
    assert t'.nodes[d].children == q';
    forall i | 0 <= i < |q'|
      ensures q'[i] == q[if i < k then i else i + 1] && q'[i] in t'.nodes && t'.nodes[q'[i]].name == t.nodes[q'[i]].name
    {
      assert q[if i < k then i else i + 1] in q;
    }
  }

  lemma OtherListStays(t: Tree, x: int, e: int)
    requires Inv(t) && x in t.nodes && x != ROOT && t.nodes[x].parent in t.nodes
    requires e in Detach(t, x).nodes && e != t.nodes[x].parent
    ensures SortedList(Detach(t, x), e)
  {
    hide Less, Valid, RemoveFirst, Linked;
    TreeIsListed(t, e);
    assert SortedList(t, e);
    assert x !in t.nodes[e].children;
    assert forall c :: c in t.nodes[e].children ==> c in t.nodes && c != x;
  }

  /** What the loop of removeFile needs of the files that it has still to remove. */
  ghost predicate Clearable(t: Tree, kids: seq<int>, d: int) {
    Inv(t) && d in t.nodes && NoDuplicates(kids) && forall k :: k in kids ==> ChildOf(t, k, d)
  }

  /**
   removeFile: a directory is emptied first, file by file; an open file stops it, and what was removed
   before that stays removed.
   */
  function Removed(t: Tree, x: int, live: set<int>): (r: (Tree, bool))
    requires Inv(t) && x in t.nodes && x != ROOT
    ensures Pruned(t, r.0)
    ensures r.1 ==> x !in r.0.nodes
    ensures !r.1 ==> exists y :: y in live && y in t.nodes && Under(t, y, x)
    ensures forall y :: y in t.nodes && y !in r.0.nodes ==> y !in live && Under(t, y, x)
    decreases t.next - x, 1, 0
  {
    hide Linked, SortedList, Pruned, Under, Detach, Listed, NoDuplicates;
    RemovedFacts(t, x, live);
    if x in live then (t, false)
    else
      var (t1, done) := RemovedAll(t, t.nodes[x].children, x, live);
      EmptiedFacts(t, t1, x, live, done);
      if done then (Detach(t1, x), true) else (t1, false)
  }

  /** The loop of removeFile over the files of directory d. */
  function RemovedAll(t: Tree, kids: seq<int>, d: int, live: set<int>): (r: (Tree, bool))
    requires Clearable(t, kids, d)
    ensures Pruned(t, r.0)
    ensures r.1 ==> forall k :: k in kids ==> k !in r.0.nodes
    ensures !r.1 ==> exists y, k :: k in kids && y in live && y in t.nodes && Under(t, y, k)
    ensures forall y :: y in t.nodes && y !in r.0.nodes ==> y !in live && exists k :: k in kids && Under(t, y, k)
    decreases t.next - d, 0, |kids|
  {
    hide Linked, SortedList, Pruned, Under, NoDuplicates;
    RemovedAllFacts(t, kids, d);
    if kids == [] then (t, true)
    else
      var (t1, done) := Removed(t, kids[0], live);
      RestStays(t, t1, kids, d);
      if !done then (t1, false)
      else
        var r := RemovedAll(t1, kids[1..], d, live);
        RestFacts(t, t1, r.0, kids, d, live, r.1);
        r
  }

  lemma PrunedSelf(t: Tree)
    requires Inv(t)
    ensures Pruned(t, t)
  {
    hide Inv;
  }

  lemma {:induction false} UnderTwice(t: Tree, y: int, k: int, x: int)
    requires Linked(t) && y in t.nodes && Under(t, y, k) && k in t.nodes && Under(t, k, x)
    ensures Under(t, y, x)
    decreases y
  {
    if y != k {
      assert UnderItsParent(t, y);
      UnderTwice(t, t.nodes[y].parent, k, x);
      AncestorsStay(t, t.nodes[y].parent, x);
      if y == x { assert false; }
    }
  }

  /** A child lies under its directory, and after it in number. */
  lemma ChildIsUnder(t: Tree, c: int, d: int)
    requires Linked(t) && ChildOf(t, c, d)
    ensures d in t.nodes && Under(t, c, d) && d < c < t.next
  {
    hide Valid;
    assert UnderItsParent(t, c);
    assert Under(t, d, d);
  }

  lemma RemovedFacts(t: Tree, x: int, live: set<int>)
    requires Inv(t) && x in t.nodes && x != ROOT
    ensures Linked(t) && Under(t, x, x) && x < t.next && Pruned(t, t)
    ensures NoDuplicates(t.nodes[x].children) && forall k :: k in t.nodes[x].children ==> ChildOf(t, k, x)
  {
    PrunedSelf(t);
    ListIsDistinct(t, x);
    TreeIsListed(t, x);
  }

  /** A directory whose files were all removed is still there and has nothing below it. */
  lemma EmptiedIsEmpty(t: Tree, t1: Tree, x: int)
    requires Inv(t) && x in t.nodes && x != ROOT && Pruned(t, t1)
    requires forall k :: k in t.nodes[x].children ==> k !in t1.nodes
    requires x in t1.nodes
    ensures t1.nodes[x].children == []
  {
    hide SortedList, Valid;
    if t1.nodes[x].children != [] {
      TreeIsListed(t1, x);
      var c := t1.nodes[x].children[0];
      assert SameFiles(t, t1, c);
      ChildIsListed(t, c);
    }
  }

  lemma BelowStays(t: Tree, t1: Tree, kids: seq<int>, d: int)
    requires Inv(t) && d in t.nodes && forall k :: k in kids ==> ChildOf(t, k, d)
    requires forall y :: y in t.nodes && y !in t1.nodes ==> exists k :: k in kids && Under(t, y, k)
    ensures d in t1.nodes
    ensures forall y, k :: y in t.nodes && k in kids && Under(t, y, k) ==> Under(t, y, d)
  {
    hide Linked;
    if d !in t1.nodes {
      var k :| k in kids && Under(t, d, k);
      ChildIsUnder(t, k, d);
      AncestorsStay(t, d, k);
    }
    forall y, k | y in t.nodes && k in kids && Under(t, y, k)
      ensures Under(t, y, d)
    {
      ChildIsUnder(t, k, d);
      UnderTwice(t, y, k, d);
    }
  }

  lemma EmptiedFacts(t: Tree, t1: Tree, x: int, live: set<int>, done: bool)
    requires Inv(t) && x in t.nodes && x != ROOT && x !in live && Pruned(t, t1)
    requires done ==> forall k :: k in t.nodes[x].children ==> k !in t1.nodes
    requires !done ==> exists y, k :: k in t.nodes[x].children && y in live && y in t.nodes && Under(t, y, k)
    requires forall y :: y in t.nodes && y !in t1.nodes ==>
                           y !in live && exists k :: k in t.nodes[x].children && Under(t, y, k)
    ensures x in t1.nodes && t1.nodes[x].parent in t1.nodes
    ensures done ==> Pruned(t, Detach(t1, x)) && x !in Detach(t1, x).nodes
    ensures done ==> forall y :: y in t.nodes && y !in Detach(t1, x).nodes ==> y !in live && Under(t, y, x)
    ensures !done ==> exists y :: y in live && y in t.nodes && Under(t, y, x)
    ensures forall y :: y in t.nodes && y !in t1.nodes ==> y !in live && Under(t, y, x)
  {
    hide Linked, Detach, Under, SortedList;
    RemovedFacts(t, x, live);
    BelowStays(t, t1, t.nodes[x].children, x);
    ChildIsListed(t1, x);
    if done {
      EmptiedIsEmpty(t, t1, x);
      DetachPrunes(t1, x);
      PrunedTwice(t, t1, Detach(t1, x));
    }
  }

  lemma RemovedAllFacts(t: Tree, kids: seq<int>, d: int)
    requires Inv(t) && d in t.nodes && forall k :: k in kids ==> ChildOf(t, k, d)
    ensures Linked(t) && Pruned(t, t)
    ensures kids != [] ==> kids[0] in t.nodes && kids[0] != ROOT && d < kids[0] < t.next
  {
    PrunedSelf(t);
    if kids != [] {
      assert kids[0] in kids;
      ChildIsUnder(t, kids[0], d);
    }
  }

  /** The removal of one file leaves its siblings. */
  lemma RestStays(t: Tree, t1: Tree, kids: seq<int>, d: int)
    requires Inv(t) && d in t.nodes && kids != [] && NoDuplicates(kids) && forall k :: k in kids ==> ChildOf(t, k, d)
    requires Pruned(t, t1) && forall y :: y in t.nodes && y !in t1.nodes ==> Under(t, y, kids[0])
    ensures Inv(t1) && t1.next == t.next && d in t1.nodes
    ensures NoDuplicates(kids[1..]) && forall k :: k in kids[1..] ==> ChildOf(t1, k, d)
  {
    hide Linked, SortedList;
    assert kids[0] in kids;
    ChildIsUnder(t, kids[0], d);
    if d !in t1.nodes { AncestorsStay(t, d, kids[0]); }
    forall i | 0 <= i < |kids[1..]|
      ensures ChildOf(t1, kids[1..][i], d)
    {
      var k := kids[1..][i];
      assert k == kids[i + 1] && k in kids;
      if k !in t1.nodes {
        assert Under(t, k, kids[0]) && k != kids[0];
        AncestorsStay(t, d, kids[0]);
      }
      assert SameFiles(t, t1, k);
    }
  }

  lemma RestFacts(t: Tree, t1: Tree, t2: Tree, kids: seq<int>, d: int, live: set<int>, done: bool)
    requires Inv(t) && d in t.nodes && kids != [] && Pruned(t, t1) && Pruned(t1, t2) && kids[0] !in t1.nodes
    requires forall y :: y in t.nodes && y !in t1.nodes ==> y !in live && Under(t, y, kids[0])
    requires done ==> forall k :: k in kids[1..] ==> k !in t2.nodes
    requires !done ==> exists y, k :: k in kids[1..] && y in live && y in t1.nodes && Under(t1, y, k)
    requires forall y :: y in t1.nodes && y !in t2.nodes ==> y !in live && exists k :: k in kids[1..] && Under(t1, y, k)
    ensures Pruned(t, t2)
    ensures done ==> forall k :: k in kids ==> k !in t2.nodes
    ensures !done ==> exists y, k :: k in kids && y in live && y in t.nodes && Under(t, y, k)
    ensures forall y :: y in t.nodes && y !in t2.nodes ==> y !in live && exists k :: k in kids && Under(t, y, k)
  {
    hide Linked, SortedList, Under;
    assert forall k :: k in kids <==> k == kids[0] || k in kids[1..];
    PrunedTwice(t, t1, t2);
    if !done {
      var y, k :| k in kids[1..] && y in live && y in t1.nodes && Under(t1, y, k);
      UnderStays(t, t1, y, k);
    }
    forall y | y in t.nodes && y !in t2.nodes
      ensures y !in live && exists k :: k in kids && Under(t, y, k)
    {
      if y in t1.nodes {
        var k :| k in kids[1..] && Under(t1, y, k);
        UnderStays(t, t1, y, k);
      }
    }
  }

  /**
   removeFile succeeds exactly if no file below its target, the target included, is open; then exactly
   those files are gone. Whether it succeeds or not, every open file is still there, with all the
   directories above it, and its path still leads to it.
   */
  lemma RemoveFileIff(t: Tree, x: int, live: set<int>, cwd: int)
    requires Inv(t) && x in t.nodes && x != ROOT
    ensures var (t', done) := Removed(t, x, live);
            && Inv(t')
            && (done <==> forall y :: y in live && y in t.nodes ==> !Under(t, y, x))
            && (done ==> forall y :: y in t'.nodes <==> y in t.nodes && !Under(t, y, x))
            && (forall y :: y in live && y in t.nodes ==> y in t'.nodes && PathOf(t', y) == PathOf(t, y))
            && (forall y :: y in t'.nodes ==> SameFiles(t, t', y))
  {
    hide Linked, SortedList, Under, PathOf, Removed;
    var (t', done) := Removed(t, x, live);
    forall y | y in t'.nodes
      ensures SameFiles(t, t', y) && PathOf(t', y) == PathOf(t, y)
      ensures done ==> !Under(t, y, x)
    {
      PathStays(t, t', y);
      UnderStays(t, t', y, x);
      if done && Under(t', y, x) { AncestorsStay(t', y, x); }
    }
    if done {
      forall y | y in live && y in t.nodes
        ensures !Under(t, y, x)
      {
        assert y in t'.nodes;
      }
    }
  }

  /** A file keeps its path as long as no file changes but for its list of children. */
  lemma {:induction false} PathIsKept(t: Tree, t': Tree, y: int)
    requires Linked(t) && Linked(t') && y in t.nodes && forall x :: x in t.nodes ==> SameFiles(t, t', x)
    ensures y in t'.nodes && PathOf(t', y) == PathOf(t, y)
    decreases y
  {
    assert SameFiles(t, t', y);
    if y != ROOT {
      assert UnderItsParent(t', y) && UnderItsParent(t, y);
      PathIsKept(t, t', t.nodes[y].parent);
    }
  }

  /** Numbers may be skipped. */
  lemma NextMayGrow(t: Tree)
    requires Inv(t)
    ensures Inv(t.(next := t.next + 1)) && forall x :: x in t.nodes ==> SameFiles(t, t.(next := t.next + 1), x)
  {
    hide Less, Valid;
    var t' := t.(next := t.next + 1);
    forall x | x in t.nodes
      ensures SortedList(t', x)
      ensures x != ROOT ==> UnderItsParent(t', x)
      ensures forall i :: 0 <= i < |t.nodes[x].children| ==> ChildOf(t', t.nodes[x].children[i], x)
    {
      assert SortedList(t, x);
      assert x != ROOT ==> UnderItsParent(t, x);
      assert forall i :: 0 <= i < |t.nodes[x].children| ==> ChildOf(t, t.nodes[x].children[i], x);
    }
  }

  lemma {:induction false} PathStays(t: Tree, t': Tree, y: int)
    requires Inv(t) && Pruned(t, t') && y in t'.nodes
    ensures y in t.nodes && PathOf(t', y) == PathOf(t, y)
    decreases y
  {
    hide SortedList;
    assert SameFiles(t, t', y);
    if y != ROOT {
      assert UnderItsParent(t', y) && UnderItsParent(t, y);
      PathStays(t, t', t'.nodes[y].parent);
    }
  }

  // ------------------------------------------------------------------ the tree in place

  class FileTree {
    var nodes: map<int, Node>
    var next: int

    function State(): Tree
      reads this
    {
      Tree(nodes, next)
    }

    /** The root alone, as init_fileSystem begins. */
    constructor ()
      ensures Inv(State()) && nodes.Keys == {ROOT}
    {
      nodes := map[ROOT := Node([114, 111, 111, 116], ROOT, Directory, [])];
      next := 1;
    }

    /** The part of makeFileR that looks one component up; k is where its file belongs in the list. */
    method Search(d: int, name: Text) returns (target: Option<int>, k: nat)
      requires Listed(State(), d)
      ensures target == Target(State(), d, name)
      ensures k <= |nodes[d].children|
      ensures target == None ==> k == Slot(State(), nodes[d].children, name, 0)
    {
      hide Slot, Less, Compare, Target;
      TargetIs(State(), d, name);
      k := 0;
      if name == [DOT] {
        return Some(d), k;
      }
      if name == [DOT, DOT] {
        return Some(if d == ROOT then ROOT else nodes[d].parent), k;
      }
      var q := nodes[d].children;
      while k < |q| && Less(nodes[q[k]].name, name)
        invariant k <= |q| && Slot(State(), q, name, k) == Slot(State(), q, name, 0)
        modifies {}
      {
        SlotUnfolds(State(), q, name, k);
        k := k + 1;
      }
      SlotUnfolds(State(), q, name, k);
      target := if k < |q| && Compare(nodes[q[k]].name, name, 0) == 0 then Some(q[k]) else None;
    }

    /** makeFileR; with getFile set it only looks. */
    method MakeFileR(path: Text, d: int, kind: Kind, getFile: bool, length: int) returns (file: Option<int>)
      requires Inv(State()) && d in nodes
      modifies this
      ensures (State(), file) == Finished(old(State()), Walk(old(State()), path, d, length), kind, getFile)
      decreases |path|
    {
      hide Linked, SortedList, Walk, Target, Insert, Compare, Lookup, Slot, Span, Less;
      ghost var t := State();
      WalkUnfolds(t, path, d, length);
      TreeIsListed(t, d);
      var i := 0;
      SpanUnfolds(path, 0);
      while i < |path| && path[i] != SLASH && i < MAX_NAME_LENGTH
        invariant 0 <= i <= |path| && i <= MAX_NAME_LENGTH && Span(path, i) == Span(path, 0)
        modifies {}
      {
        SpanUnfolds(path, i);
        i := i + 1;
      }
      SpanUnfolds(path, i);
      if i >= MAX_NAME_LENGTH || length + i > MAX_PATH_LENGTH {
        return None;
      }
      if i == 0 {
        return if path == [] then Some(d) else None;
      }
      var name := path[..i];
      var target, k := Search(d, name);
      TargetStays(t, d, path);
      if i == |path| {
        if target.Some? || getFile {
          return target;
        }
        InsertIs(t, d, name, kind, k);
        var node := nodes[d];
        nodes := nodes[d := node.(children := node.children[..k] + [next] + node.children[k..])]
                      [next := Node(name, d, kind, [])];
        next := next + 1;
        return Some(next - 1);
      }
      if target.None? || nodes[target.value].kind != Directory {
        return None;
      }
      file := MakeFileR(path[i + 1..], target.value, kind, getFile, length + i + 1);
    }

    /** makeFile, by a process in directory cwd. */
    method MakeFile(path: Text, cwd: int, kind: Kind) returns (file: Option<int>)
      requires Inv(State()) && cwd in nodes
      modifies this
      ensures (State(), file) == Made(old(State()), path, cwd, kind)
    {
      WalkStaysInside(State(), path, cwd);
      if path != [] && path[0] == SLASH {
        file := MakeFileR(path[1..], ROOT, kind, false, 0);
      } else {
        file := MakeFileR(path, cwd, kind, false, 0);
      }
    }

    /** getFile: the same search, which makes nothing. */
    method GetFileByPath(path: Text, cwd: int) returns (file: Option<int>)
      requires Inv(State()) && cwd in nodes
      modifies this
      ensures State() == old(State()) && file == GetFile(State(), path, cwd)
    {
      hide Linked, SortedList, Walk;
      RootIsThere(State());
      if path != [] && path[0] == SLASH {
        file := MakeFileR(path[1..], ROOT, Directory, true, 0);
      } else {
        file := MakeFileR(path, cwd, Directory, true, 0);
      }
    }

    /** removeFile; live holds the files that isFileOpened finds. */
    method RemoveFile(x: int, live: set<int>) returns (done: bool)
      requires Inv(State()) && x in nodes && x != ROOT
      modifies this
      ensures (State(), done) == Removed(old(State()), x, live)
      decreases next - x
    {
      hide Inv, Pruned, Under, Detach, NoDuplicates, RemovedAll, RemoveFirst, Removed, ChildOf, Clearable, Linked;
      ghost var t := State();
      RemovedFacts(t, x, live);
      RemovedUnfolds(t, x, live);
      if x in live {
        return false;
      }
      if nodes[x].kind == Directory {
        var kids := nodes[x].children;
        var j := 0;
        assert kids[0..] == kids;
        while j < |kids|
          invariant 0 <= j <= |kids| && Clearable(State(), kids[j..], x) && next == t.next
          invariant RemovedAll(State(), kids[j..], x, live) == RemovedAll(t, kids, x, live)
        {
          ClearableIsInv(State(), kids[j..], x);
          RemovedAllUnfolds(State(), kids[j..], x, live);
          assert kids[j..][1..] == kids[j + 1..];
          var ok := RemoveFile(kids[j], live);
          if !ok {
            return false;
          }
          j := j + 1;
        }
        RemovedAllUnfolds(State(), [], x, live);
        assert kids[j..] == [];
      } else {
        FilesHaveNoChildren(t, x);
        RemovedAllUnfolds(t, [], x, live);
      }
      EmptiedUnfolds(t, State(), x, live);
      TakeOut(x);
      return true;
    }

    /** removeFileR on the list of the parent, and the release of the file. */
    method TakeOut(x: int)
      requires x in nodes && nodes[x].parent in nodes
      modifies this
      ensures State() == Detach(old(State()), x)
    {
      hide RemoveFirst;
      var d := nodes[x].parent;
      nodes := nodes[d := nodes[d].(children := RemoveFirst(nodes[d].children, x))] - {x};
    }

    /** getCWDPath for directory x; the array of directories on the way holds half as many as a name has characters. */
    method GetCwdPath(x: int) returns (path: Text)
      requires Inv(State()) && x in nodes && Depth(State(), x) <= MAX_NAME_LENGTH / 2
      ensures path == CwdPath(State(), x)
    {
      hide Linked, SortedList, PathOf, Depth;
      var dirs := new int[MAX_NAME_LENGTH / 2];
      var current, dirCount := x, 0;
      RootPath(State());
      while current != ROOT
        invariant current in nodes && 0 <= dirCount <= dirs.Length
        invariant dirCount + Depth(State(), current) == Depth(State(), x)
        invariant forall k :: 0 <= k < dirCount ==> dirs[k] in nodes && dirs[k] != ROOT
        invariant forall k :: 0 <= k < dirCount - 1 ==> nodes[dirs[k]].parent == dirs[k + 1]
        invariant dirCount > 0 ==> dirs[0] == x && nodes[dirs[dirCount - 1]].parent == current
        invariant dirCount == 0 ==> current == x
        decreases Depth(State(), current)
      {
        DepthSteps(State(), current);
        dirs[dirCount] := current;
        dirCount := dirCount + 1;
        current := nodes[current].parent;
      }
      path := [SLASH];
      ghost var all := dirCount;
      while dirCount > 0
        invariant 0 <= dirCount <= all <= dirs.Length
        invariant forall k :: 0 <= k < all ==> dirs[k] in nodes && dirs[k] != ROOT
        invariant forall k :: 0 <= k < all - 1 ==> nodes[dirs[k]].parent == dirs[k + 1]
        invariant all > 0 ==> dirs[0] == x && nodes[dirs[all - 1]].parent == ROOT
        invariant dirCount == all ==> path == [SLASH]
        invariant dirCount < all ==> path == PathOf(State(), dirs[dirCount]) + if dirCount > 0 then [SLASH] else []
      {
        dirCount := dirCount - 1;
        PathStarts(State(), dirs[dirCount]);
        path := path + nodes[dirs[dirCount]].name;
        if dirCount > 0 {
          path := path + [SLASH];
        }
      }
    }
  }

  /** How many directories lie on the way from the root to x. */
  function Depth(t: Tree, x: int): (n: nat)
    requires Linked(t) && x in t.nodes
    decreases x
  {
    if x == ROOT then 0
    else
      assert UnderItsParent(t, x);
      1 + Depth(t, t.nodes[x].parent)
  }

  lemma DepthSteps(t: Tree, x: int)
    requires Linked(t) && x in t.nodes && x != ROOT
    ensures t.nodes[x].parent in t.nodes && Depth(t, x) == 1 + Depth(t, t.nodes[x].parent)
  {
    assert UnderItsParent(t, x);
  }

  lemma RemovedUnfolds(t: Tree, x: int, live: set<int>)
    requires Inv(t) && x in t.nodes && x != ROOT
    ensures Clearable(t, t.nodes[x].children, x)
    ensures var (t1, done) := RemovedAll(t, t.nodes[x].children, x, live);
            && (x in live ==> Removed(t, x, live) == (t, false))
            && (x !in live && !done ==> Removed(t, x, live) == (t1, false))
            && (x !in live && done ==>
                  && x in t1.nodes && t1.nodes[x].parent in t1.nodes
                  && Removed(t, x, live) == (Detach(t1, x), true))
  {
    hide Linked, SortedList, Pruned, Under, Detach, NoDuplicates, RemovedAll;
    RemovedFacts(t, x, live);
    if x !in live {
      var (t1, done) := RemovedAll(t, t.nodes[x].children, x, live);
      EmptiedFacts(t, t1, x, live, done);
    }
  }

  lemma EmptiedUnfolds(t: Tree, t1: Tree, x: int, live: set<int>)
    requires Inv(t) && x in t.nodes && x != ROOT && x !in live && Clearable(t, t.nodes[x].children, x)
    requires RemovedAll(t, t.nodes[x].children, x, live) == (t1, true)
    ensures x in t1.nodes && t1.nodes[x].parent in t1.nodes
  {
    hide Linked, SortedList, Pruned, Under, NoDuplicates, RemovedAll, RemoveFirst;
    EmptiedFacts(t, t1, x, live, true);
  }

  lemma RemovedAllUnfolds(t: Tree, kids: seq<int>, d: int, live: set<int>)
    requires Clearable(t, kids, d)
    ensures kids == [] ==> RemovedAll(t, kids, d, live) == (t, true)
    ensures kids != [] ==>
              && d < kids[0] && kids[0] in t.nodes && kids[0] != ROOT
              && var (t1, done) := Removed(t, kids[0], live);
                 && t1.next == t.next && Clearable(t1, kids[1..], d)
                 && RemovedAll(t, kids, d, live) == if done then RemovedAll(t1, kids[1..], d, live) else (t1, false)
  {
    hide Linked, SortedList, Pruned, Under, NoDuplicates, Removed;
    RemovedAllFacts(t, kids, d);
    if kids != [] {
      var (t1, done) := Removed(t, kids[0], live);
      RestStays(t, t1, kids, d);
    }
  }

  lemma ClearableIsInv(t: Tree, kids: seq<int>, d: int)
    requires Clearable(t, kids, d)
    ensures Inv(t) && d in t.nodes
  {
  }

  lemma FilesHaveNoChildren(t: Tree, x: int)
    requires Inv(t) && x in t.nodes && t.nodes[x].kind != Directory
    ensures t.nodes[x].children == []
  {
  }

  /** What makeFileR makes of where the path leads. */
  function Finished(t: Tree, r: Outcome, kind: Kind, getFile: bool): (Tree, Option<int>) {
    match r
    case Found(x) => (t, Some(x))
    case Missing(d, name) => if getFile || !Listed(t, d) then (t, None) else (Insert(t, d, name, kind), Some(t.next))
    case Nowhere => (t, None)
  }

  lemma TargetIs(t: Tree, d: int, name: Text)
    requires Listed(t, d)
    ensures var q := t.nodes[d].children;
            var k := Slot(t, q, name, 0);
            Target(t, d, name) ==
            if name == [DOT] then Some(d)
            else if name == [DOT, DOT] then Some(if d == ROOT then ROOT else t.nodes[d].parent)
            else if k < |q| && Compare(t.nodes[q[k]].name, name, 0) == 0 then Some(q[k])
            else None
  {
  }

  lemma SpanUnfolds(path: Text, i: nat)
    requires i <= |path| && i <= MAX_NAME_LENGTH
    ensures Span(path, i) == if i < |path| && path[i] != SLASH && i < MAX_NAME_LENGTH then Span(path, i + 1) else i
  {
  }

  lemma SlotUnfolds(t: Tree, q: seq<int>, name: Text, i: nat)
    requires i <= |q| && forall j :: 0 <= j < |q| ==> q[j] in t.nodes
    ensures Slot(t, q, name, i) == if i < |q| && Less(t.nodes[q[i]].name, name) then Slot(t, q, name, i + 1) else i
  {
  }

  lemma InsertIs(t: Tree, d: int, name: Text, kind: Kind, k: nat)
    requires Listed(t, d) && k == Slot(t, t.nodes[d].children, name, 0)
    ensures var node := t.nodes[d];
            Insert(t, d, name, kind) ==
            Tree(t.nodes[d := node.(children := node.children[..k] + [t.next] + node.children[k..])]
                        [t.next := Node(name, d, kind, [])], t.next + 1)
  {
  }
}