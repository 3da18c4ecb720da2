/** Kernel/fileSystem.c, path resolution: what makeFile and getFile mean, said about the components of a path. */
module Paths {
  import opened Options
  import opened Namespace

  /** The parts of a path between its slashes; there is always one, and it may be empty. */
  function Components(path: Text): (names: seq<Text>)
    ensures |names| > 0
  {
    if path == [] then [[]]
    else
      var names := Components(path[1..]);
      if path[0] == SLASH then [[]] + names else [[path[0]] + names[0]] + names[1..]
  }

  function Front(names: seq<Text>): seq<Text>
    requires |names| > 0
  {
    names[..|names| - 1]
  }

  function Last(names: seq<Text>): Text
    requires |names| > 0
  {
    names[|names| - 1]
  }

  /** One component: `.` is the directory, `..` its parent, any other one the file of that name in it. */
  ghost predicate Step(t: Tree, d: int, name: Text, x: int) {
    && d in t.nodes && x in t.nodes
    && if name == [DOT] then x == d
       else if name == [DOT, DOT] then x == t.nodes[d].parent
       else x != ROOT && t.nodes[x].parent == d && t.nodes[x].name == name
  }

  /** One component after the other, each leading to a directory. */
  ghost predicate Goes(t: Tree, d: int, names: seq<Text>, x: int)
    decreases names
  {
    if names == [] then x == d
    else exists e :: Step(t, d, names[0], e) && t.nodes[e].kind == Directory && Goes(t, e, names[1..], x)
  }

  /** All components but the last go from directory to directory; an empty last one adds nothing. */
  ghost predicate Leads(t: Tree, d: int, names: seq<Text>, x: int)
    requires |names| > 0
  {
    exists e :: Goes(t, d, Front(names), e) && Ends(t, e, Last(names), x)
  }

  ghost predicate Ends(t: Tree, e: int, name: Text, x: int) {
    if name == [] then x == e else Step(t, e, name, x)
  }

  /** Where a path starts, and what of it is to be followed from there. */
  function From(path: Text, cwd: int): int {
    if path != [] && path[0] == SLASH then ROOT else cwd
  }

  function Rest(path: Text): Text {
    if path != [] && path[0] == SLASH then path[1..] else path
  }

  // ---------------------------------------------------------- the components of a path

  lemma {:induction false} FirstComponent(path: Text, k: nat)
    requires k <= |path| && (forall j :: 0 <= j < k ==> path[j] != SLASH)
    ensures path[..k] <= Components(path)[0]
    ensures k == |path| ==> Components(path) == [path]
    ensures k < |path| && path[k] == SLASH ==> Components(path) == [path[..k]] + Components(path[k + 1..])
  {
    if k > 0 {
      var rest := path[1..];
      assert forall j :: 0 <= j < k - 1 ==> rest[j] == path[j + 1];
      FirstComponent(rest, k - 1);
      assert path[..k] == [path[0]] + rest[..k - 1];
      assert path == [path[0]] + rest;
      if k < |path| { assert rest[k - 1 + 1..] == path[k + 1..]; }
    } else if path != [] && path[0] == SLASH {
      assert path[..0] == [];
    }
  }

  lemma TargetIsStep(t: Tree, d: int, name: Text, x: int)
    requires Inv(t) && d in t.nodes && Strings(name)
    ensures Listed(t, d)
    ensures Target(t, d, name) == Some(x) <==> Step(t, d, name, x)
  {
    hide Linked, SortedList, Lookup;
    LookupIs(t, d, name, x);
    RootIsItsParent(t, d);
    if x in t.nodes && x != ROOT { ChildIsListed(t, x); }
    TreeIsListed(t, d);
  }

  lemma RootIsItsParent(t: Tree, d: int)
    requires Linked(t) && d in t.nodes
    ensures t.nodes[d].parent in t.nodes && (d == ROOT ==> t.nodes[d].parent == ROOT)
  {
    if d != ROOT { assert UnderItsParent(t, d); }
  }

  /** A component leads somewhere only if it is not empty and short enough. */
  lemma StepIsShort(t: Tree, d: int, name: Text, x: int)
    requires Inv(t) && Step(t, d, name, x)
    ensures 0 < |name| < MAX_NAME_LENGTH
  {
    if x != ROOT { assert UnderItsParent(t, x); }
  }

  lemma StepStarts(t: Tree, d: int, name: Text, x: int)
    requires Step(t, d, name, x)
    ensures d in t.nodes && x in t.nodes
  {
  }

  /** The first of several components. */
  lemma LeadsUnfolds(t: Tree, d: int, name: Text, names: seq<Text>, x: int)
    requires |names| > 0
    ensures Leads(t, d, [name] + names, x) <==>
              exists e :: Step(t, d, name, e) && t.nodes[e].kind == Directory && Leads(t, e, names, x)
  {
    hide Ends;
    var all := [name] + names;
    assert Front(all) == [name] + Front(names) && Last(all) == Last(names) && Front(all)[1..] == Front(names);
    if Leads(t, d, all, x) {
      var e :| Goes(t, d, Front(all), e) && Ends(t, e, Last(all), x);
      var f :| Step(t, d, name, f) && t.nodes[f].kind == Directory && Goes(t, f, Front(names), e);
      assert Leads(t, f, names, x);
    }
    if f :| Step(t, d, name, f) && t.nodes[f].kind == Directory && Leads(t, f, names, x) {
      var e :| Goes(t, f, Front(names), e) && Ends(t, e, Last(names), x);
      assert Goes(t, d, Front(all), e);
    }
  }

  lemma LeadsLast(t: Tree, d: int, name: Text, x: int)
    ensures Leads(t, d, [name], x) <==> Ends(t, d, name, x)
  {
    assert Front([name]) == [];
    assert Goes(t, d, Front([name]), d);
  }

  /** A path leads to a file exactly if it is short enough and its components do. */
  lemma {:induction false} WalkLeads(t: Tree, path: Text, d: int, length: int, x: int)
    requires Inv(t) && d in t.nodes && Strings(path)
    ensures Walk(t, path, d, length) == Found(x) <==>
              length + |path| <= MAX_PATH_LENGTH && Leads(t, d, Components(path), x)
    decreases |path|
  {
    hide Linked, SortedList, Walk, Target, Leads, Components, Step;
    WalkUnfolds(t, path, d, length);
    var i := Span(path, 0);
    var name := path[..i];
    FirstComponent(path, i);
    TargetIsStep(t, d, name, x);
    if i >= MAX_NAME_LENGTH {
      LongComponent(t, path, d, i, x);
    } else if i == |path| {
      LeadsLast(t, d, path, x);
      assert path[..i] == path;
    } else {
      var rest := path[i + 1..];
      LeadsUnfolds(t, d, name, Components(rest), x);
      var target := Target(t, d, name);
      if target.Some? {
        TargetIsStep(t, d, name, target.value);
        StepStarts(t, d, name, target.value);
        if i > 0 { WalkLeads(t, rest, target.value, length + i + 1, x); }
      }
      OnlyTarget(t, d, name, target);
    }
  }

  lemma OnlyTarget(t: Tree, d: int, name: Text, target: Option<int>)
    requires Inv(t) && d in t.nodes && Strings(name) && Listed(t, d) && target == Target(t, d, name)
    ensures forall e :: Step(t, d, name, e) ==> target == Some(e) && name != []
  {
    hide Linked, SortedList, Target, Step;
    forall e | Step(t, d, name, e)
      ensures target == Some(e) && name != []
    {
      TargetIsStep(t, d, name, e);
      StepIsShort(t, d, name, e);
    }
  }

  lemma LongComponent(t: Tree, path: Text, d: int, i: nat, x: int)
    requires Inv(t) && d in t.nodes && Strings(path) && MAX_NAME_LENGTH <= i <= |path| && path[..i] <= Components(path)[0]
    ensures !Leads(t, d, Components(path), x)
  {
    hide Linked, SortedList, Step, Components;
    var names := Components(path);
    assert |names[0]| >= i;
    if |names| == 1 {
      assert names == [names[0]];
      LeadsLast(t, d, names[0], x);
      if Step(t, d, names[0], x) { StepIsShort(t, d, names[0], x); }
    } else {
      assert names == [names[0]] + names[1..];
      LeadsUnfolds(t, d, names[0], names[1..], x);
      if e :| Step(t, d, names[0], e) { StepIsShort(t, d, names[0], e); }
    }
  }

  // ------------------------------------------------------------ getFile and makeFile

  /**
   getFile: the components of the path lead from the root, or from the current directory if the path does
   not begin with a slash, to the file, and what is behind that slash is not longer than the limit.
   */
  lemma GetFileIff(t: Tree, path: Text, cwd: int, x: int)
    requires Inv(t) && cwd in t.nodes && Strings(path)
    ensures GetFile(t, path, cwd) == Some(x) <==>
              |Rest(path)| <= MAX_PATH_LENGTH && Leads(t, From(path, cwd), Components(Rest(path)), x)
  {
    hide Linked, SortedList, Walk, Leads, Components;
    RootPath(t);
    assert Strings(Rest(path));
    WalkLeads(t, Rest(path), From(path, cwd), 0, x);
  }

  /** Nothing is there yet, but the components lead to a directory that can take a file of the last name. */
  ghost predicate LeadsToNew(t: Tree, d: int, names: seq<Text>, e: int)
    requires |names| > 0
  {
    && Goes(t, d, Front(names), e) && 0 < |Last(names)| < MAX_NAME_LENGTH
    && forall x :: !Step(t, e, Last(names), x)
  }

  lemma LeadsToNewUnfolds(t: Tree, d: int, name: Text, names: seq<Text>, x: int)
    requires |names| > 0
    ensures LeadsToNew(t, d, [name] + names, x) <==>
              exists e :: Step(t, d, name, e) && t.nodes[e].kind == Directory && LeadsToNew(t, e, names, x)
  {
    var all := [name] + names;
    assert Front(all) == [name] + Front(names) && Last(all) == Last(names) && Front(all)[1..] == Front(names);
    if LeadsToNew(t, d, all, x) {
      var f :| Step(t, d, name, f) && t.nodes[f].kind == Directory && Goes(t, f, Front(names), x);
      assert LeadsToNew(t, f, names, x);
    }
  }

  lemma LeadsToNewLast(t: Tree, d: int, name: Text, e: int)
    ensures LeadsToNew(t, d, [name], e) <==> e == d && 0 < |name| < MAX_NAME_LENGTH && forall x :: !Step(t, d, name, x)
  {
    hide Step;
    assert Front([name]) == [];
  }

  /** A path lacks its last component exactly if it is short enough and the others lead to a directory. */
  lemma {:induction false} WalkLeadsToNew(t: Tree, path: Text, d: int, length: int, e: int)
    requires Inv(t) && d in t.nodes && Strings(path)
    ensures (exists name :: Walk(t, path, d, length) == Missing(e, name)) <==>
              length + |path| <= MAX_PATH_LENGTH && LeadsToNew(t, d, Components(path), e)
    ensures Walk(t, path, d, length).Missing? ==> Walk(t, path, d, length).name == Last(Components(path))
    decreases |path|
  {
    hide Linked, SortedList, Walk, Target, LeadsToNew, Components, Step;
    WalkUnfolds(t, path, d, length);
    var i := Span(path, 0);
    var name := path[..i];
    FirstComponent(path, i);
    var target := Target(t, d, name);
    OnlyTarget(t, d, name, target);
    if target.Some? {
      TargetIsStep(t, d, name, target.value);
      StepStarts(t, d, name, target.value);
    }
    if i >= MAX_NAME_LENGTH {
      LongComponentIsNotNew(t, path, d, i, e);
    } else if i == |path| {
      LeadsToNewLast(t, d, path, e);
      assert path[..i] == path;
    } else {
      var rest := path[i + 1..];
      LeadsToNewUnfolds(t, d, name, Components(rest), e);
      assert Last([name] + Components(rest)) == Last(Components(rest));
      if i > 0 && target.Some? { WalkLeadsToNew(t, rest, target.value, length + i + 1, e); }
    }
  }

  lemma LongComponentIsNotNew(t: Tree, path: Text, d: int, i: nat, e: int)
    requires Inv(t) && d in t.nodes && Strings(path) && MAX_NAME_LENGTH <= i <= |path| && path[..i] <= Components(path)[0]
    ensures !LeadsToNew(t, d, Components(path), e)
  {
    hide Linked, SortedList, Step, LeadsToNew, Components;
    var names := Components(path);
    assert |names[0]| >= i;
    if |names| == 1 {
      assert names == [names[0]];
      LeadsToNewLast(t, d, names[0], e);
    } else {
      assert names == [names[0]] + names[1..];
      LeadsToNewUnfolds(t, d, names[0], names[1..], e);
      if f :| Step(t, d, names[0], f) { StepIsShort(t, d, names[0], f); }
    }
  }

  /**
   makeFile: a file that the components lead to is returned; otherwise, if all of them but the last lead
   to a directory, the last one names a new file in it; and otherwise nothing is made.
   */
  lemma MakeFileIff(t: Tree, path: Text, cwd: int, kind: Kind)
    requires Inv(t) && cwd in t.nodes && t.nodes[cwd].kind == Directory && Strings(path)
    ensures var from, names, fits := From(path, cwd), Components(Rest(path)), |Rest(path)| <= MAX_PATH_LENGTH;
            var (t', made) := Made(t, path, cwd, kind);
            && (forall x :: fits && Leads(t, from, names, x) ==> t' == t && made == Some(x))
            && (forall e :: fits && LeadsToNew(t, from, names, e) ==>
                  made == Some(t.next) && t.next in t'.nodes && t'.nodes[t.next] == Node(Last(names), e, kind, []))
            && (made == None <==> !fits || forall x :: !Leads(t, from, names, x) && !LeadsToNew(t, from, names, x))
            && (made == None ==> t' == t)
  {
    hide Linked, SortedList, Walk, Leads, LeadsToNew, Components, Insert;
    RootPath(t);
    ResolveParts(t, path, cwd);
    var from, rest := From(path, cwd), Rest(path);
    assert Strings(rest);
    forall x
      ensures Walk(t, rest, from, 0) == Found(x) <==> |rest| <= MAX_PATH_LENGTH && Leads(t, from, Components(rest), x)
    {
      WalkLeads(t, rest, from, 0, x);
    }
    forall e
      ensures (exists name :: Walk(t, rest, from, 0) == Missing(e, name)) <==>
                |rest| <= MAX_PATH_LENGTH && LeadsToNew(t, from, Components(rest), e)
      ensures Walk(t, rest, from, 0).Missing? ==> Walk(t, rest, from, 0).name == Last(Components(rest))
    {
      WalkLeadsToNew(t, rest, from, 0, e);
    }
    match Walk(t, rest, from, 0)
    case Missing(e, name) =>
      assert exists n :: Walk(t, rest, from, 0) == Missing(e, n);
      assert LeadsToNew(t, from, Components(rest), e);
      InsertMembers(t, e, name, kind);
    case Found(x) => assert Leads(t, from, Components(rest), x);
    case Nowhere =>
  }

  // ------------------------------------------------------------ relative paths

  /** Where a path leads does not depend on what is in front of it, as long as it is short enough. */
  lemma {:induction false} WalkBehind(t: Tree, path: Text, d: int, length: int, length': int)
    requires Linked(t) && d in t.nodes && length + |path| <= MAX_PATH_LENGTH && length' + |path| <= MAX_PATH_LENGTH
    ensures Walk(t, path, d, length) == Walk(t, path, d, length')
    decreases |path|
  {
    hide Linked, Walk, Target;
    WalkUnfolds(t, path, d, length);
    WalkUnfolds(t, path, d, length');
    var i := Span(path, 0);
    if i < |path| {
      var target := Target(t, d, path[..i]);
      if target.Some? && target.value in t.nodes {
        WalkBehind(t, path[i + 1..], target.value, length + i + 1, length' + i + 1);
      }
    }
  }

  /**
   A path that does not begin with a slash means what it means behind the path of the current directory:
   for getFile and for makeFile, in any directory and from any other one.
   */
  lemma RelativePath(t: Tree, path: Text, cwd: int, c: int, kind: Kind)
    requires Inv(t) && cwd in t.nodes && c in t.nodes && t.nodes[cwd].kind == Directory
    requires path != [] && path[0] != SLASH && |PathOf(t, cwd)| + |path| <= MAX_PATH_LENGTH
    ensures var full := PathOf(t, cwd) + [SLASH] + path;
            && GetFile(t, path, cwd) == GetFile(t, full, c)
            && Made(t, path, cwd, kind) == Made(t, full, c, kind)
  {
    hide Linked, SortedList, Walk, PathOf, Insert;
    RootPath(t);
    var full, rest := PathOf(t, cwd) + [SLASH] + path, [SLASH] + path;
    assert rest[1..] == path;
    if cwd == ROOT {
      assert full == rest;
    } else {
      PathStarts(t, cwd);
      PathLeadsDown(t, cwd, rest);
      var p := PathOf(t, cwd)[1..];
      assert full[1..] == p + rest;
      WalkBehind(t, path, cwd, 0, |p| + 1);
    }
  }
}
