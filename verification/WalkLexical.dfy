/** When a walk (lib/fs/walkfs.go) is in lexical order: it takes the names of a directory as it finds
    them, so exactly when every directory it enters lists them in that order. */
module WalkLexical {
  import opened Paths
  import opened WalkFs
  import opened WalkTree
  import opened WalkOrder
  import Sorting

  ghost predicate Ascending(names: seq<string>) {
    forall i, j :: 0 <= i < j < |names| ==> Sorting.LexLe(names[i], names[j])
  }

  /** Two places in the same directory. */
  predicate Siblings(x: seq<string>, y: seq<string>) {
    |x| == |y| && x != [] && x[..|x| - 1] == y[..|y| - 1]
  }

  predicate NamedInOrder(x: seq<string>, y: seq<string>) {
    Siblings(x, y) ==> Sorting.LexLe(x[|x| - 1], y[|y| - 1])
  }

  /** The calls for entries of the same directory come in the order of their names. */
  ghost predicate SiblingsAscend(s: seq<Mark>) {
    forall j, k :: 0 <= j < k < |s| ==> NamedInOrder(s[j].at, s[k].at)
  }

  // ---------------------------------------------------------------- trees in order

  ghost predicate SortedTree(t: Tree) { t.Entry? ==> Ascending(Names(t.kids)) && SortedTrees(t.kids) }

  ghost predicate SortedTrees(kids: Kids) {
    match kids case NoKids => true case Kid(_, head, tail) => SortedTree(head) && SortedTrees(tail)
  }

  /** Names of a directory after a first one. */
  ghost predicate NoneBefore(name: string, names: seq<string>) {
    forall n :: n in names ==> Sorting.LexLe(name, n)
  }

  lemma AscendingCons(name: string, names: seq<string>)
    ensures Ascending([name] + names) <==> NoneBefore(name, names) && Ascending(names)
  {
    var all := [name] + names;
    if Ascending(all) {
      forall n | n in names ensures Sorting.LexLe(name, n) {
        var i :| 0 <= i < |names| && names[i] == n;
        assert all[0] == name && all[i + 1] == n;
      }
      forall i, j | 0 <= i < j < |names| ensures Sorting.LexLe(names[i], names[j]) {
        assert all[i + 1] == names[i] && all[j + 1] == names[j];
      }
    }
  }

  ghost predicate AllInOrder(a: seq<Mark>, b: seq<Mark>) {
    forall j, k :: 0 <= j < |a| && 0 <= k < |b| ==> NamedInOrder(a[j].at, b[k].at)
  }

  lemma AscendJoins(a: seq<Mark>, b: seq<Mark>)
    ensures SiblingsAscend(a + b) <==> SiblingsAscend(a) && SiblingsAscend(b) && AllInOrder(a, b)
  {
    var s := a + b;
    if SiblingsAscend(s) {
      forall j, k | 0 <= j < k < |a| ensures NamedInOrder(a[j].at, a[k].at) { assert s[j] == a[j] && s[k] == a[k]; }
      forall j, k | 0 <= j < k < |b| ensures NamedInOrder(b[j].at, b[k].at) {
        assert s[|a| + j] == b[j] && s[|a| + k] == b[k];
      }
      forall j, k | 0 <= j < |a| && 0 <= k < |b| ensures NamedInOrder(a[j].at, b[k].at) {
        assert s[j] == a[j] && s[|a| + k] == b[k];
      }
    }
  }

  /** The marks of an entry itself do not matter. */
  lemma OwnMarksInOrder(own: seq<Mark>, below: seq<Mark>, at: seq<string>, names: seq<string>)
    requires (forall j :: 0 <= j < |own| ==> own[j].at == at) && BelowNamed(below, at, names)
    ensures SiblingsAscend(own + below) <==> SiblingsAscend(below)
  {
    AscendJoins(own, below);
    forall j, k | 0 <= j < |own| && 0 <= k < |own| ensures NamedInOrder(own[j].at, own[k].at) {
      if at != [] { Sorting.LexTotal(at[|at| - 1], at[|at| - 1]); }
    }
  }

  lemma {:induction false} HasMark(kids: Kids, at: seq<string>, name: string) returns (k: nat)
    requires PlacedAll(kids, at) && name in Names(kids)
    ensures k < |MarksAll(kids)| && MarksAll(kids)[k].at == at + [name]
  {
    if name == kids.name {
      k := 0;
    } else {
      var i := HasMark(kids.tail, at, name);
      k := |Marks(kids.head)| + i;
    }
  }

  lemma InOrderAcross(x: seq<string>, y: seq<string>, at: seq<string>, name: string)
    requires at + [name] <= x && at < y && y[|at|] != name
    ensures Siblings(x, y) ==> x == at + [name] && y == at + [y[|at|]]
  {
    BelowStep(at, name, x);
    if |x| == |y| && |x| > |at| + 1 {
      assert x[..|x| - 1][|at|] == name && y[..|y| - 1][|at|] == y[|at|];
    }
  }

  /** A first entry is in order with the later ones exactly if its name is. */
  lemma AcrossIff(head: Tree, tail: Kids, at: seq<string>, name: string)
    requires PlacedAll(Kid(name, head, tail), at)
    ensures AllInOrder(Marks(head), MarksAll(tail)) <==> NoneBefore(name, Names(tail))
  {
    var a, b := Marks(head), MarksAll(tail);
    MarksStayBelow(head, at + [name]);
    MarksAllStayBelow(tail, at);
    if AllInOrder(a, b) {
      forall n | n in Names(tail) ensures Sorting.LexLe(name, n) {
        var k := HasMark(tail, at, n);
        assert a[0].at == at + [name];
        assert NamedInOrder(a[0].at, b[k].at);
        assert (at + [name])[..|at|] == (at + [n])[..|at|] == at;
      }
    }
    if NoneBefore(name, Names(tail)) {
      forall j, k | 0 <= j < |a| && 0 <= k < |b| ensures NamedInOrder(a[j].at, b[k].at) {
        InOrderAcross(a[j].at, b[k].at, at, name);
      }
    }
  }

  lemma {:induction false} MarksAscendIff(t: Tree, at: seq<string>)
    requires Placed(t, at)
    ensures SiblingsAscend(Marks(t)) <==> SortedTree(t)
    decreases t, 0
  {
    if t.Entry? {
      MarksAllAscendIff(t.kids, at);
      MarksAllStayBelow(t.kids, at);
      var own := [Mark(at, t.info.isDir, true)] + if t.trouble.Some? then [Mark(at, t.info.isDir, false)] else [];
      OwnMarksInOrder(own, MarksAll(t.kids), at, Names(t.kids));
    }
  }

  lemma {:induction false} MarksAllAscendIff(kids: Kids, at: seq<string>)
    requires PlacedAll(kids, at)
    ensures SiblingsAscend(MarksAll(kids)) <==> Ascending(Names(kids)) && SortedTrees(kids)
    decreases kids, 1
  {
    if kids.Kid? {
      MarksAscendIff(kids.head, at + [kids.name]);
      MarksAllAscendIff(kids.tail, at);
      AscendJoins(Marks(kids.head), MarksAll(kids.tail));
      AcrossIff(kids.head, kids.tail, at, kids.name);
      AscendingCons(kids.name, Names(kids.tail));
    }
  }

  // ---------------------------------------------------------------- what directories list

  /** A directory that is entered lists its names in order. */
  ghost predicate ListsInOrder(w: World, at: seq<string>, info: Info, stack: seq<Info>) {
    Enters(w, at, info, stack) && w.dirNames(FromComps(at)).Got? ==> Ascending(w.dirNames(FromComps(at)).value)
  }

  /** ... at the end of a chain. */
  ghost predicate EndInOrder(w: World, at: seq<string>, info: Info, stack: seq<Info>, names: seq<string>)
    decreases |names|
  {
    if names == [] then ListsInOrder(w, at, info, stack)
    else match w.lstat(FromComps(at + [names[0]]))
      case Failed(_) => true
      case Got(below) => EndInOrder(w, at + [names[0]], below, Pushed(w, stack, info), names[1..])
  }

  ghost predicate AllEndsInOrder(w: World, at: seq<string>, info: Info, stack: seq<Info>) {
    forall names :: Chain(w, at, info, stack, names) ==> EndInOrder(w, at, info, stack, names)
  }

  ghost predicate KidsInOrder(w: World, at: seq<string>, names: seq<string>, stack: seq<Info>) {
    forall n :: n in names && w.lstat(FromComps(at + [n])).Got? ==>
      AllEndsInOrder(w, at + [n], w.lstat(FromComps(at + [n])).value, stack)
  }

  lemma ConsInOrder(w: World, at: seq<string>, info: Info, stack: seq<Info>, n: string, rest: seq<string>)
    requires Enters(w, at, info, stack) && w.dirNames(FromComps(at)).Got? && n in w.dirNames(FromComps(at)).value
    requires w.lstat(FromComps(at + [n])).Got?
    ensures var below := w.lstat(FromComps(at + [n])).value; var s := Pushed(w, stack, info);
            && (Chain(w, at, info, stack, [n] + rest) <==> Chain(w, at + [n], below, s, rest))
            && (EndInOrder(w, at, info, stack, [n] + rest) <==> EndInOrder(w, at + [n], below, s, rest))
  {
    assert ([n] + rest)[1..] == rest && ([n] + rest)[0] == n;
  }

  lemma AllEndsUnfold(w: World, at: seq<string>, info: Info, stack: seq<Info>, list: seq<string>)
    requires Enters(w, at, info, stack) && w.dirNames(FromComps(at)) == Got(list)
    ensures AllEndsInOrder(w, at, info, stack) <==> Ascending(list) && KidsInOrder(w, at, list, Pushed(w, stack, info))
  {
    var s := Pushed(w, stack, info);
    if AllEndsInOrder(w, at, info, stack) {
      assert Chain(w, at, info, stack, []) && EndInOrder(w, at, info, stack, []);
      forall n, rest | n in list && w.lstat(FromComps(at + [n])).Got?
                       && Chain(w, at + [n], w.lstat(FromComps(at + [n])).value, s, rest)
        ensures EndInOrder(w, at + [n], w.lstat(FromComps(at + [n])).value, s, rest)
      {
        ConsInOrder(w, at, info, stack, n, rest);
        assert Chain(w, at, info, stack, [n] + rest);
      }
    }
    if Ascending(list) && KidsInOrder(w, at, list, s) {
      forall names | Chain(w, at, info, stack, names)
        ensures EndInOrder(w, at, info, stack, names)
      {
        if names != [] { assert AllEndsInOrder(w, at + [names[0]], w.lstat(FromComps(at + [names[0]])).value, s); }
      }
    }
  }

  lemma AllEndsOfLeaf(w: World, at: seq<string>, info: Info, stack: seq<Info>)
    requires !(Enters(w, at, info, stack) && w.dirNames(FromComps(at)).Got?)
    ensures AllEndsInOrder(w, at, info, stack)
  {
  }

  lemma KidsOfPrefix(w: World, at: seq<string>, names: seq<string>, list: seq<string>, stack: seq<Info>)
    requires names <= list
    ensures Ascending(list) ==> Ascending(names)
    ensures KidsInOrder(w, at, list, stack) ==> KidsInOrder(w, at, names, stack)
  {
    forall n | n in names ensures n in list {
      var i :| 0 <= i < |names| && names[i] == n;
      assert list[i] == n;
    }
  }

  lemma KidsUnfold(w: World, at: seq<string>, name: string, names: seq<string>, stack: seq<Info>)
    ensures KidsInOrder(w, at, [name] + names, stack) <==>
            && KidsInOrder(w, at, names, stack)
            && (w.lstat(FromComps(at + [name])).Got? ==>
                AllEndsInOrder(w, at + [name], w.lstat(FromComps(at + [name])).value, stack))
  {
  }

  /** The tree of a walk is sorted if the directories list in order, and if it is complete only then. */
  lemma {:induction false} TreeSortedIff(w: World, t: Tree, at: seq<string>, stack: seq<Info>)
    requires t.Entry? && Placed(t, at) && Grown(w, t, stack)
    ensures AllEndsInOrder(w, at, t.info, stack) ==> SortedTree(t)
    ensures Complete(w, t, stack) && SortedTree(t) ==> AllEndsInOrder(w, at, t.info, stack)
    decreases t, 0
  {
    var s := Pushed(w, stack, t.info);
    TreesSortedIff(w, t.kids, at, s);
    if Enters(w, at, t.info, stack) && w.dirNames(FromComps(at)).Got? {
      var list := w.dirNames(FromComps(at)).value;
      AllEndsUnfold(w, at, t.info, stack, list);
      if t.kids.Kid? { KidsOfPrefix(w, at, Names(t.kids), list, s); }
    } else {
      AllEndsOfLeaf(w, at, t.info, stack);
    }
  }

  lemma {:induction false} TreesSortedIff(w: World, kids: Kids, at: seq<string>, stack: seq<Info>)
    requires PlacedAll(kids, at) && GrownAll(w, kids, stack)
    ensures KidsInOrder(w, at, Names(kids), stack) ==> SortedTrees(kids)
    ensures CompleteAll(w, kids, stack) && SortedTrees(kids) ==> KidsInOrder(w, at, Names(kids), stack)
    decreases kids, 1
  {
    if kids.Kid? {
      TreesSortedIff(w, kids.tail, at, stack);
      KidsUnfold(w, at, kids.name, Names(kids.tail), stack);
      if kids.head.Entry? { TreeSortedIff(w, kids.head, at + [kids.name], stack); }
    }
  }

  // ---------------------------------------------------------------- without a stack

  /** The directory at the end of a path, if it is entered, lists its names in order. */
  ghost predicate ListedInOrder(w: World, at: seq<string>, info: Info, names: seq<string>) {
    var place, there := at + names, InfoAt(w, at, info, names, |names|);
    && there.Got? && (there.value.isDir || place == [])
    && !(w.check && Passes(w, at, info, names, there.value.id)) && w.dirNames(FromComps(place)).Got?
    ==> Ascending(w.dirNames(FromComps(place)).value)
  }

  /** ... or on a stack it begins with. */
  ghost predicate ListedBelow(w: World, at: seq<string>, info: Info, stack: seq<Info>, names: seq<string>) {
    var place, there := at + names, InfoAt(w, at, info, names, |names|);
    && there.Got? && (there.value.isDir || place == [])
    && !(w.check && (OnStack(stack, there.value) || Passes(w, at, info, names, there.value.id)))
    && w.dirNames(FromComps(place)).Got?
    ==> Ascending(w.dirNames(FromComps(place)).value)
  }

  lemma {:induction false} EndIsListed(w: World, at: seq<string>, info: Info, stack: seq<Info>, names: seq<string>)
    requires Chain(w, at, info, stack, names)
    ensures EndInOrder(w, at, info, stack, names) <==> ListedBelow(w, at, info, stack, names)
    decreases |names|
  {
    if names == [] {
      assert at + names == at;
    } else {
      var there, rest := at + [names[0]], names[1..];
      var below := w.lstat(FromComps(there)).value;
      EndIsListed(w, there, below, Pushed(w, stack, info), rest);
      assert there + rest == at + names;
      Shifts(w, at, info, names, below, |rest|);
      assert names[..|names|] == names && rest[..|rest|] == rest;
      var last := InfoAt(w, at, info, names, |names|);
      if last.Got? {
        AvoidsUnfolds(w, at, info, names, below, last.value.id);
        OnStackPushed(stack, info, last.value);
      }
    }
  }

  /** A walk calls back for the entries of each directory in lexical order if every directory it can
      reach and enters lists its names in that order, and with a callback that never objects only then. */
  lemma WalkIsLexicalIff(w: World, at: seq<string>, info: Info, calls: seq<Call>)
      returns (more: seq<Call>, marks: seq<Mark>)
    requires Finite(w) && ListsNames(w) && (w.check ==> info.id in w.ids) && AllNames(at)
    ensures Marked(calls, Visit(w, FromComps(at), info, [], calls), more, marks)
    ensures var listed := forall names :: Reachable(w, at, info, names) ==> ListedInOrder(w, at, info, names);
            && (listed ==> SiblingsAscend(marks))
            && (NeverObjects(w) ==> (SiblingsAscend(marks) <==> listed))
  {
    var t := VisitLeavesTree(w, at, info, [], calls);
    more, marks := Flat(t), Marks(t);
    GrownNames(w, t, at, []);
    FlatIsMarked(t);
    MarksAscendIff(t, at);
    TreeSortedIff(w, t, at, []);
    forall names
      ensures Chain(w, at, info, [], names) <==> Reachable(w, at, info, names)
      ensures Reachable(w, at, info, names) ==>
              (EndInOrder(w, at, info, [], names) <==> ListedInOrder(w, at, info, names))
    {
      ChainIffReachable(w, at, info, [], names);
      if Reachable(w, at, info, names) { EndIsListed(w, at, info, [], names); }
    }
  }

  // ---------------------------------------------------------------- a directory out of order

  /** A directory that lists the files "b" and "a", in that order. */
  function Unsorted(): World {
    World(
      (p: string) =>
        if p == "." then Got(Info(0, true))
        else if p == "a" || p == "b" then Got(Info(1, false))
        else Failed(Failure(0)),
      (p: string) => if p == "." then Got(["b", "a"]) else Failed(Failure(0)),
      (_: seq<Call>) => Continue, true, {0, 1}, (_: string) => 0)
  }

  lemma UnsortedLists()
    ensures Finite(Unsorted()) && ListsNames(Unsorted()) && NeverObjects(Unsorted())
  {
    SplitOfName("a");
    SplitOfName("b");
    var names := ["b", "a"];
    assert IsName(names[0]) && IsName(names[1]) && names[0] != names[1];
  }

  lemma UnsortedRoot()
    ensures FromComps([]) == "." && Reachable(Unsorted(), [], Info(0, true), [])
            && !ListedInOrder(Unsorted(), [], Info(0, true), [])
  {
    var none: seq<string> := [];
    PathAt(none);
    assert none + none == none;
    var names := ["b", "a"];
    assert !Sorting.LexLe(names[0], names[1]);
  }

  /** Its walk is not in lexical order. */
  lemma UnsortedIsNotLexical() returns (more: seq<Call>, marks: seq<Mark>)
    ensures var w := Unsorted();
            && Finite(w) && ListsNames(w) && NeverObjects(w)
            && Marked([], Visit(w, ".", Info(0, true), [], []), more, marks)
            && !SiblingsAscend(marks)
  {
    UnsortedLists();
    UnsortedRoot();
    more, marks := WalkIsLexicalIff(Unsorted(), [], Info(0, true), []);
  }
}
