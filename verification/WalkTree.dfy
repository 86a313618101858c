/** A walk (lib/fs/walkfs.go) seen as a tree of the entries it visits: errors stop it, SkipDir skips, and
    entries come once each, in pre-order, whatever the callback does. */
module WalkTree {
  import opened Paths
  import opened Options
  import opened WalkFs

  /** What the walk finds at a place, given by its components below the root of the file system: an
      entry, perhaps with a second call for trouble, or something that cannot be looked at. */
  datatype Tree =
    | Entry(at: seq<string>, info: Info, trouble: Option<Problem>, kids: Kids)
    | Lost(at: seq<string>, problem: Problem)

  datatype Kids = NoKids | Kid(name: string, head: Tree, tail: Kids)

  function First(t: Tree): Call {
    match t
    case Entry(at, info, _, _) => Call(FromComps(at), Some(info), None)
    case Lost(at, e) => Call(FromComps(at), None, Some(e))
  }

  /** The calls of the callback, in order. */
  function Flat(t: Tree): seq<Call> {
    match t
    case Entry(at, info, trouble, kids) =>
      [First(t)] + (if trouble.Some? then [Call(FromComps(at), Some(info), trouble)] else []) + FlatAll(kids)
    case Lost(_, _) => [First(t)]
  }

  function FlatAll(kids: Kids): seq<Call> {
    match kids case NoKids => [] case Kid(_, head, tail) => Flat(head) + FlatAll(tail)
  }

  /** What the loop over a directory makes of the outcome of an entry: whether it ends there. */
  predicate Halts(t: Tree, out: Outcome) {
    match t case Entry(_, info, _, _) => out.Stop? || (out.SkipDir? && !info.isDir) case Lost(_, _) => out.Stop?
  }

  /** The outcome of a walk that leaves this tree. */
  function Out(w: World, t: Tree, calls: seq<Call>): Outcome {
    var o := w.fn(calls + [First(t)]);
    match t
    case Lost(_, _) => o
    case Entry(at, info, trouble, kids) =>
      if o != Continue then (if info.isDir && o == SkipDir then Continue else o)
      else if trouble.Some? then w.fn(calls + [First(t)] + [Call(FromComps(at), Some(info), trouble)])
      else OutAll(w, kids, calls + [First(t)])
  }

  function OutAll(w: World, kids: Kids, calls: seq<Call>): Outcome {
    match kids
    case NoKids => Continue
    case Kid(_, head, tail) =>
      var o := Out(w, head, calls);
      if Halts(head, o) then o else OutAll(w, tail, calls + Flat(head))
  }

  /** The tree is no larger than the outcomes of the calls allow. */
  predicate Obeys(w: World, t: Tree, calls: seq<Call>) {
    match t
    case Lost(_, _) => true
    case Entry(at, info, trouble, kids) =>
      && (trouble.Some? ==> kids.NoKids?)
      && (w.fn(calls + [First(t)]) != Continue ==> trouble.None? && kids.NoKids?)
      && (trouble.None? ==> ObeysAll(w, kids, calls + [First(t)]))
  }

  predicate ObeysAll(w: World, kids: Kids, calls: seq<Call>) {
    match kids
    case NoKids => true
    case Kid(_, head, tail) =>
      && Obeys(w, head, calls)
      && (if Halts(head, Out(w, head, calls)) then tail.NoKids? else ObeysAll(w, tail, calls + Flat(head)))
  }

  function Names(kids: Kids): seq<string> {
    match kids case NoKids => [] case Kid(name, _, tail) => [name] + Names(tail)
  }

  /** Every entry is where its name puts it, and no two of a directory share a name. */
  predicate Placed(t: Tree, at: seq<string>) {
    t.at == at && (t.Entry? ==> PlacedAll(t.kids, at))
  }

  predicate PlacedAll(kids: Kids, at: seq<string>) {
    match kids
    case NoKids => true
    case Kid(name, head, tail) => Placed(head, at + [name]) && name !in Names(tail) && PlacedAll(tail, at)
  }

  /** Whether an entry is entered: a directory not among its own ancestors. */
  predicate Enters(w: World, at: seq<string>, info: Info, stack: seq<Info>) {
    (info.isDir || at == []) && !(w.check && OnStack(stack, info))
  }

  /** What keeps a directory from being entered. */
  function Trouble(w: World, at: seq<string>, info: Info, stack: seq<Info>): Option<Problem> {
    if !info.isDir && at != [] then None
    else if w.check && OnStack(stack, info) then Some(InfiniteRecursion)
    else match w.dirNames(FromComps(at)) case Failed(e) => Some(e) case Got(_) => None
  }

  /** Entries are as the file system has them, those of a directory in the order it lists them. */
  predicate Grown(w: World, t: Tree, stack: seq<Info>) {
    match t
    case Lost(at, e) => w.lstat(FromComps(at)) == Failed(e)
    case Entry(at, info, trouble, kids) =>
      && (trouble.Some? ==> trouble == Trouble(w, at, info, stack))
      && (kids.Kid? ==>
          && Enters(w, at, info, stack) && w.dirNames(FromComps(at)).Got?
          && Names(kids) <= w.dirNames(FromComps(at)).value)
      && GrownAll(w, kids, Pushed(w, stack, info))
  }

  predicate GrownAll(w: World, kids: Kids, stack: seq<Info>) {
    match kids
    case NoKids => true
    case Kid(_, head, tail) =>
      && (head.Entry? ==> w.lstat(FromComps(head.at)) == Got(head.info))
      && Grown(w, head, stack) && GrownAll(w, tail, stack)
  }

  /** Nothing that could be entered was left out. */
  predicate Complete(w: World, t: Tree, stack: seq<Info>) {
    t.Entry? ==>
      && t.trouble == Trouble(w, t.at, t.info, stack)
      && (Enters(w, t.at, t.info, stack) && w.dirNames(FromComps(t.at)).Got? ==>
          Names(t.kids) == w.dirNames(FromComps(t.at)).value)
      && CompleteAll(w, t.kids, Pushed(w, stack, t.info))
  }

  predicate CompleteAll(w: World, kids: Kids, stack: seq<Info>) {
    match kids case NoKids => true case Kid(_, head, tail) => Complete(w, head, stack) && CompleteAll(w, tail, stack)
  }

  /** Nothing that could be entered was left out but for what the callback returned. */
  predicate Full(w: World, t: Tree, stack: seq<Info>, calls: seq<Call>) {
    t.Entry? && w.fn(calls + [First(t)]) == Continue ==>
      && t.trouble == Trouble(w, t.at, t.info, stack)
      && (Enters(w, t.at, t.info, stack) && w.dirNames(FromComps(t.at)).Got? ==>
          FullAll(w, t.kids, w.dirNames(FromComps(t.at)).value, Pushed(w, stack, t.info), calls + [First(t)]))
  }

  predicate FullAll(w: World, kids: Kids, names: seq<string>, stack: seq<Info>, calls: seq<Call>) {
    match kids
    case NoKids => names == []
    case Kid(name, head, tail) =>
      && names != [] && name == names[0] && Full(w, head, stack, calls)
      && (if Halts(head, Out(w, head, calls)) then tail.NoKids?
          else FullAll(w, tail, names[1..], stack, calls + Flat(head)))
  }

  /** A callback that never objects. */
  ghost predicate NeverObjects(w: World) { forall calls :: w.fn(calls) == Continue }

  // ---------------------------------------------------------------- every walk leaves a tree

  /** Directories list file names, none twice. */
  ghost predicate ListsNames(w: World) {
    forall p: string :: IsCanonical(p) && w.dirNames(p).Got? ==> NameList(w.dirNames(p).value)
  }

  predicate NameList(names: seq<string>) {
    AllNames(names) && forall i, j :: 0 <= i < j < |names| ==> names[i] != names[j]
  }

  lemma TailOfNames(names: seq<string>)
    requires NameList(names) && names != []
    ensures IsName(names[0]) && NameList(names[1..]) && names[0] !in names[1..]
  {
  }

  lemma ChildAt(at: seq<string>, name: string)
    requires AllNames(at) && IsName(name)
    ensures IsCanonical(FromComps(at)) && AllNames(at + [name]) && Child(FromComps(at), name) == FromComps(at + [name])
    ensures FromComps(at) == "." <==> at == []
    ensures Canonicalize(FromComps(at)) == Ok(FromComps(at))
  {
    PathAt(at);
    ChildAdds(FromComps(at), name);
    CompsOfFromComps(at + [name]);
    CompsInjective(Child(FromComps(at), name), FromComps(at + [name]));
  }

  lemma PathAt(at: seq<string>)
    requires AllNames(at)
    ensures IsCanonical(FromComps(at)) && Comps(FromComps(at)) == at
    ensures FromComps(at) == "." <==> at == []
    ensures Canonicalize(FromComps(at)) == Ok(FromComps(at))
  {
    CompsOfFromComps(at);
    CanonicalIffFixpoint(FromComps(at));
  }

  /** How a tree accounts for a walk. */
  ghost predicate Accounts(w: World, t: Tree, at: seq<string>, info: Info, stack: seq<Info>, calls: seq<Call>,
      r: Walked) {
    && t.Entry? && t.info == info && Placed(t, at) && Grown(w, t, stack) && Obeys(w, t, calls)
    && r == Walked(calls + Flat(t), Out(w, t, calls)) && Full(w, t, stack, calls)
    && (NeverObjects(w) ==> Complete(w, t, stack))
  }

  ghost predicate AccountsAll(w: World, kids: Kids, at: seq<string>, names: seq<string>, stack: seq<Info>,
      calls: seq<Call>, r: Walked) {
    && Names(kids) <= names && PlacedAll(kids, at) && GrownAll(w, kids, stack) && ObeysAll(w, kids, calls)
    && r == Walked(calls + FlatAll(kids), OutAll(w, kids, calls)) && FullAll(w, kids, names, stack, calls)
    && (NeverObjects(w) ==> Names(kids) == names && CompleteAll(w, kids, stack))
  }

  /** An entry that is not entered, or whose names cannot be read. */
  lemma LeafAccounts(w: World, at: seq<string>, info: Info, trouble: Option<Problem>, stack: seq<Info>,
      calls: seq<Call>)
    requires if w.fn(calls + [Call(FromComps(at), Some(info), None)]) != Continue then trouble.None?
             else
               && trouble == Trouble(w, at, info, stack)
               && !(Enters(w, at, info, stack) && w.dirNames(FromComps(at)).Got?)
    ensures var t := Entry(at, info, trouble, NoKids);
            Accounts(w, t, at, info, stack, calls, Walked(calls + Flat(t), Out(w, t, calls)))
  {
  }

  lemma NodeAccounts(w: World, at: seq<string>, info: Info, kids: Kids, names: seq<string>, stack: seq<Info>,
      calls: seq<Call>, r: Walked)
    requires var first := Call(FromComps(at), Some(info), None);
             && w.fn(calls + [first]) == Continue
             && AccountsAll(w, kids, at, names, Pushed(w, stack, info), calls + [first], r)
    requires Enters(w, at, info, stack) && w.dirNames(FromComps(at)) == Got(names)
    ensures Accounts(w, Entry(at, info, None, kids), at, info, stack, calls, r)
  {
    var t := Entry(at, info, None, kids);
    assert Flat(t) == [First(t)] + FlatAll(kids);
    assert calls + [First(t)] + FlatAll(kids) == calls + Flat(t);
  }

  lemma {:induction false} VisitLeavesTree(w: World, at: seq<string>, info: Info, stack: seq<Info>, calls: seq<Call>)
      returns (t: Tree)
    requires Finite(w) && ListsNames(w) && (w.check ==> info.id in w.ids) && AllNames(at)
    ensures Accounts(w, t, at, info, stack, calls, Visit(w, FromComps(at), info, stack, calls))
    decreases Measure(w, FromComps(at), stack), 2, 0
  {
    var p := FromComps(at);
    PathAt(at);
    var first := Call(p, Some(info), None);
    var o := w.fn(calls + [first]);
    if o != Continue || (!info.isDir && p != ".") {
      t := Entry(at, info, None, NoKids);
      assert Flat(t) == [first];
      LeafAccounts(w, at, info, None, stack, calls);
    } else if w.check && OnStack(stack, info) {
      t := Entry(at, info, Some(InfiniteRecursion), NoKids);
      LeafAccounts(w, at, info, t.trouble, stack, calls);
      assert calls + [first] + [Call(p, Some(info), t.trouble)] == calls + Flat(t);
    } else if w.dirNames(p).Failed? {
      t := Entry(at, info, Some(w.dirNames(p).problem), NoKids);
      LeafAccounts(w, at, info, t.trouble, stack, calls);
      assert calls + [first] + [Call(p, Some(info), t.trouble)] == calls + Flat(t);
    } else {
      var names := w.dirNames(p).value;
      if w.check { PushShrinks(w, stack, info); }
      var kids := VisitAllLeavesTrees(w, at, names, Pushed(w, stack, info), calls + [first]);
      t := Entry(at, info, None, kids);
      NodeAccounts(w, at, info, kids, names, stack, calls,
          VisitAll(w, p, names, Pushed(w, stack, info), calls + [first]));
    }
  }

  /** A tree for the first name of a directory. */
  ghost predicate HeadAccounts(w: World, head: Tree, here: seq<string>, stack: seq<Info>, calls: seq<Call>)
    requires Finite(w)
  {
    match w.lstat(FromComps(here))
    case Failed(e) => head == Lost(here, e)
    case Got(info) =>
      && (w.check ==> info.id in w.ids)
      && Accounts(w, head, here, info, stack, calls, Visit(w, FromComps(here), info, stack, calls))
  }

  /** The trees for the other names, if the loop gets that far. */
  ghost predicate TailAccounts(w: World, head: Tree, tail: Kids, at: seq<string>, rest: seq<string>, stack: seq<Info>,
      calls: seq<Call>, r: Walked) {
    if Halts(head, Out(w, head, calls)) then tail == NoKids && r == Walked(calls + Flat(head), Out(w, head, calls))
    else AccountsAll(w, tail, at, rest, stack, calls + Flat(head), r)
  }

  lemma HeadIs(w: World, head: Tree, here: seq<string>, stack: seq<Info>, calls: seq<Call>)
    requires Finite(w) && HeadAccounts(w, head, here, stack, calls)
    ensures Placed(head, here) && Grown(w, head, stack) && Obeys(w, head, calls) && Full(w, head, stack, calls)
    ensures head.Entry? ==> w.lstat(FromComps(head.at)) == Got(head.info)
    ensures NeverObjects(w) ==> Complete(w, head, stack) && !Halts(head, Out(w, head, calls))
  {
    if NeverObjects(w) { NilDoesNotHalt(w, head, calls); }
  }

  lemma KidAccounts(w: World, at: seq<string>, names: seq<string>, head: Tree, tail: Kids, stack: seq<Info>,
      calls: seq<Call>, r: Walked)
    requires names != [] && names[0] !in names[1..] && Placed(head, at + [names[0]]) && Grown(w, head, stack)
             && Obeys(w, head, calls)
    requires Full(w, head, stack, calls)
    requires head.Entry? ==> w.lstat(FromComps(head.at)) == Got(head.info)
    requires NeverObjects(w) ==> Complete(w, head, stack) && !Halts(head, Out(w, head, calls))
    requires TailAccounts(w, head, tail, at, names[1..], stack, calls, r)
    ensures AccountsAll(w, Kid(names[0], head, tail), at, names, stack, calls, r)
  {
    var kids := Kid(names[0], head, tail);
    assert calls + Flat(head) + FlatAll(tail) == calls + FlatAll(kids);
    if Halts(head, Out(w, head, calls)) { assert Flat(head) + [] == Flat(head); }
    assert [names[0]] + names[1..] == names;
  }

  lemma LoopUnfolds(w: World, at: seq<string>, names: seq<string>, head: Tree, stack: seq<Info>, calls: seq<Call>)
    requires Finite(w) && AllNames(at) && names != [] && IsName(names[0]) && IsCanonical(FromComps(at))
    requires !w.check ==>
             forall i :: 0 <= i < |names| ==> RankOf(w, Child(FromComps(at), names[i])) < w.rank(FromComps(at))
    requires HeadAccounts(w, head, at + [names[0]], stack, calls)
    ensures VisitAll(w, FromComps(at), names, stack, calls)
         == if Halts(head, Out(w, head, calls)) then Walked(calls + Flat(head), Out(w, head, calls))
            else VisitAll(w, FromComps(at), names[1..], stack, calls + Flat(head))
  {
    ChildAt(at, names[0]);
  }

  lemma {:induction false} VisitAllLeavesTrees(w: World, at: seq<string>, names: seq<string>, stack: seq<Info>,
      calls: seq<Call>) returns (kids: Kids)
    requires Finite(w) && ListsNames(w) && AllNames(at) && NameList(names) && IsCanonical(FromComps(at))
    requires !w.check ==>
             forall i :: 0 <= i < |names| ==> RankOf(w, Child(FromComps(at), names[i])) < w.rank(FromComps(at))
    ensures AccountsAll(w, kids, at, names, stack, calls, VisitAll(w, FromComps(at), names, stack, calls))
    decreases if w.check then |w.ids - StackIDs(stack)| else w.rank(FromComps(at)), if w.check then 3 else 1, |names|
  {
    if names == [] {
      kids := NoKids;
      assert calls + [] == calls;
    } else {
      TailOfNames(names);
      ChildAt(at, names[0]);
      var here := at + [names[0]];
      var head: Tree;
      if w.lstat(FromComps(here)).Failed? {
        head := Lost(here, w.lstat(FromComps(here)).problem);
      } else {
        head := VisitLeavesTree(w, here, w.lstat(FromComps(here)).value, stack, calls);
      }
      LoopUnfolds(w, at, names, head, stack, calls);
      var tail := NoKids;
      if !Halts(head, Out(w, head, calls)) {
        tail := VisitAllLeavesTrees(w, at, names[1..], stack, calls + Flat(head));
      }
      kids := Kid(names[0], head, tail);
      HeadIs(w, head, here, stack, calls);
      KidAccounts(w, at, names, head, tail, stack, calls, VisitAll(w, FromComps(at), names, stack, calls));
    }
  }

  lemma {:induction false} NilDoesNotHalt(w: World, t: Tree, calls: seq<Call>)
    requires NeverObjects(w)
    ensures Out(w, t, calls) == Continue
    decreases t, 0
  {
    if t.Entry? { NilDoesNotHaltAll(w, t.kids, calls + [First(t)]); }
  }

  lemma {:induction false} NilDoesNotHaltAll(w: World, kids: Kids, calls: seq<Call>)
    requires NeverObjects(w)
    ensures OutAll(w, kids, calls) == Continue
    decreases kids, 1
  {
    if kids.Kid? {
      NilDoesNotHalt(w, kids.head, calls);
      NilDoesNotHaltAll(w, kids.tail, calls + Flat(kids.head));
    }
  }
}
