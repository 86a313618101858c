/** What a walk (lib/fs/walkfs.go) does to its callback: an error is the last thing it hears, SkipDir
    keeps the rest of a directory from it, and it hears of every entry once, in pre-order; one that
    never objects hears of exactly the entries that can be reached without passing a directory twice. */
module WalkOrder {
  import opened Paths
  import opened Options
  import opened WalkFs
  import opened WalkTree

  /** A call without its problem: where, whether of a directory, and whether the regular one. */
  datatype Mark = Mark(at: seq<string>, isDir: bool, regular: bool)

  function MarkOf(c: Call): Mark {
    Mark(Comps(c.path), c.info.Some? && c.info.value.isDir, c.err.None?)
  }

  function Marks(t: Tree): seq<Mark> {
    match t
    case Entry(at, info, trouble, kids) =>
      [Mark(at, info.isDir, true)] + (if trouble.Some? then [Mark(at, info.isDir, false)] else []) + MarksAll(kids)
    case Lost(at, _) => [Mark(at, false, false)]
  }

  function MarksAll(kids: Kids): seq<Mark> {
    match kids case NoKids => [] case Kid(_, head, tail) => Marks(head) + MarksAll(tail)
  }

  ghost predicate MarkedAs(calls: seq<Call>, marks: seq<Mark>) {
    |calls| == |marks| && forall j :: 0 <= j < |calls| ==> MarkOf(calls[j]) == marks[j]
  }

  /** Names below a place are names. */
  predicate NamesOnly(t: Tree) { AllNames(t.at) && (t.Entry? ==> NamesOnlyAll(t.kids)) }

  predicate NamesOnlyAll(kids: Kids) {
    match kids case NoKids => true case Kid(_, head, tail) => NamesOnly(head) && NamesOnlyAll(tail)
  }

  lemma MarkedJoins(a: seq<Call>, b: seq<Call>, ma: seq<Mark>, mb: seq<Mark>)
    requires MarkedAs(a, ma) && MarkedAs(b, mb)
    ensures MarkedAs(a + b, ma + mb)
  {
  }

  lemma {:induction false} FlatIsMarked(t: Tree)
    requires NamesOnly(t)
    ensures MarkedAs(Flat(t), Marks(t))
    decreases t, 0
  {
    PathAt(t.at);
    if t.Entry? {
      FlatAllIsMarked(t.kids);
      var own := [First(t)] + if t.trouble.Some? then [Call(FromComps(t.at), Some(t.info), t.trouble)] else [];
      var marks := [Mark(t.at, t.info.isDir, true)] + if t.trouble.Some? then [Mark(t.at, t.info.isDir, false)] else [];
      assert MarkedAs(own, marks);
      MarkedJoins(own, FlatAll(t.kids), marks, MarksAll(t.kids));
    }
  }

  lemma {:induction false} FlatAllIsMarked(kids: Kids)
    requires NamesOnlyAll(kids)
    ensures MarkedAs(FlatAll(kids), MarksAll(kids))
    decreases kids, 1
  {
    if kids.Kid? {
      FlatIsMarked(kids.head);
      FlatAllIsMarked(kids.tail);
      MarkedJoins(Flat(kids.head), FlatAll(kids.tail), Marks(kids.head), MarksAll(kids.tail));
    }
  }

  // ---------------------------------------------------------------- where the marks are

  /** Marks at or below a place. */
  ghost predicate AtOrBelow(s: seq<Mark>, at: seq<string>) {
    forall j :: 0 <= j < |s| ==> at <= s[j].at
  }

  ghost predicate BelowNamed(s: seq<Mark>, at: seq<string>, names: seq<string>) {
    forall j :: 0 <= j < |s| ==> at < s[j].at && s[j].at[|at|] in names
  }

  lemma {:induction false} MarksStayBelow(t: Tree, at: seq<string>)
    requires Placed(t, at)
    ensures AtOrBelow(Marks(t), at)
    decreases t, 0
  {
    if t.Entry? { MarksAllStayBelow(t.kids, at); }
  }

  lemma {:induction false} MarksAllStayBelow(kids: Kids, at: seq<string>)
    requires PlacedAll(kids, at)
    ensures BelowNamed(MarksAll(kids), at, Names(kids))
    decreases kids, 1
  {
    if kids.Kid? {
      MarksStayBelow(kids.head, at + [kids.name]);
      MarksAllStayBelow(kids.tail, at);
      var h := Marks(kids.head);
      forall j | 0 <= j < |h| ensures at < h[j].at && h[j].at[|at|] == kids.name { BelowStep(at, kids.name, h[j].at); }
    }
  }

  lemma BelowStep(at: seq<string>, name: string, x: seq<string>)
    requires at + [name] <= x
    ensures at < x && x[|at|] == name
  {
    assert (at + [name])[|at|] == name;
    assert x[..|at|] == (at + [name])[..|at|] == at;
  }

  /** Places below different entries of a directory are not comparable. */
  lemma Apart(at: seq<string>, x: seq<string>, y: seq<string>)
    requires at < x && at < y && x[|at|] != y[|at|]
    ensures !(x <= y) && !(y <= x)
  {
  }

  // ---------------------------------------------------------------- pre-order

  /** No entry comes again or after what is below it, and what is below an entry follows it directly. */
  ghost predicate PreOrder(s: seq<Mark>) {
    && (forall j, k :: 0 <= j < k < |s| && s[j].regular && s[k].regular ==> !(s[k].at <= s[j].at))
    && (forall j, m, k :: 0 <= j < m < k < |s| && s[j].regular && s[j].at <= s[k].at ==> s[j].at <= s[m].at)
  }

  lemma PreOrderJoins(a: seq<Mark>, b: seq<Mark>, at: seq<string>, name: string, names: seq<string>)
    requires PreOrder(a) && PreOrder(b) && AtOrBelow(a, at + [name]) && BelowNamed(b, at, names) && name !in names
    ensures PreOrder(a + b)
  {
    var s := a + b;
    forall j, k | 0 <= j < |a| <= k < |s|
      ensures !(s[k].at <= s[j].at) && !(s[j].at <= s[k].at)
    {
      BelowStep(at, name, a[j].at);
      assert s[k] == b[k - |a|];
      Apart(at, s[j].at, s[k].at);
    }
    forall j, m, k | 0 <= j < m < k < |s| && s[j].regular && s[j].at <= s[k].at
      ensures s[j].at <= s[m].at
    {
      if j >= |a| { assert s[j] == b[j - |a|] && s[m] == b[m - |a|] && s[k] == b[k - |a|]; }
    }
    forall j, k | 0 <= j < k < |s| && s[j].regular && s[k].regular
      ensures !(s[k].at <= s[j].at)
    {
      if j >= |a| { assert s[j] == b[j - |a|] && s[k] == b[k - |a|]; }
    }
  }

  /** No regular mark at a place or above it. */
  ghost predicate NoneAbove(s: seq<Mark>, at: seq<string>) {
    forall k :: 0 <= k < |s| && s[k].regular ==> !(s[k].at <= at)
  }

  lemma PreOrderUnder(m: Mark, s: seq<Mark>)
    requires PreOrder(s) && (m.regular ==> AtOrBelow(s, m.at) && NoneAbove(s, m.at))
    ensures PreOrder([m] + s)
  {
    var r := [m] + s;
    forall j, k | 0 <= j < k < |r| && r[j].regular && r[k].regular
      ensures !(r[k].at <= r[j].at)
    {
      assert r[k] == s[k - 1];
      if j > 0 { assert r[j] == s[j - 1]; }
    }
    forall j, i, k | 0 <= j < i < k < |r| && r[j].regular && r[j].at <= r[k].at
      ensures r[j].at <= r[i].at
    {
      assert r[i] == s[i - 1] && r[k] == s[k - 1];
      if j > 0 { assert r[j] == s[j - 1]; }
    }
  }

  lemma NamedAreStrictlyBelow(s: seq<Mark>, at: seq<string>, names: seq<string>)
    requires BelowNamed(s, at, names)
    ensures AtOrBelow(s, at) && NoneAbove(s, at)
  {
  }

  /** An entry's own marks, before all that is below it. */
  lemma OwnMarksFirst(mark: Mark, trouble: bool, below: seq<Mark>)
    requires PreOrder(below) && AtOrBelow(below, mark.at) && NoneAbove(below, mark.at)
    ensures PreOrder([mark] + (if trouble then [mark.(regular := false)] else []) + below)
  {
    if trouble {
      var again := mark.(regular := false);
      PreOrderUnder(again, below);
      var rest := [again] + below;
      assert AtOrBelow(rest, mark.at) && NoneAbove(rest, mark.at);
      PreOrderUnder(mark, rest);
      assert [mark] + [again] + below == [mark] + rest;
    } else {
      PreOrderUnder(mark, below);
      assert [mark] + [] + below == [mark] + below;
    }
  }

  lemma {:induction false} MarksInPreOrder(t: Tree, at: seq<string>)
    requires Placed(t, at)
    ensures PreOrder(Marks(t))
    decreases t, 0
  {
    if t.Entry? {
      MarksAllInPreOrder(t.kids, at);
      MarksAllStayBelow(t.kids, at);
      NamedAreStrictlyBelow(MarksAll(t.kids), at, Names(t.kids));
      OwnMarksFirst(Mark(at, t.info.isDir, true), t.trouble.Some?, MarksAll(t.kids));
    }
  }

  lemma {:induction false} MarksAllInPreOrder(kids: Kids, at: seq<string>)
    requires PlacedAll(kids, at)
    ensures PreOrder(MarksAll(kids))
    decreases kids, 1
  {
    if kids.Kid? {
      MarksInPreOrder(kids.head, at + [kids.name]);
      MarksStayBelow(kids.head, at + [kids.name]);
      MarksAllInPreOrder(kids.tail, at);
      MarksAllStayBelow(kids.tail, at);
      PreOrderJoins(Marks(kids.head), MarksAll(kids.tail), at, kids.name, Names(kids.tail));
    }
  }

  // ---------------------------------------------------------------- stopping

  /** What the callback answers to the j-th of some more calls. */
  function Reply(w: World, calls: seq<Call>, more: seq<Call>, j: nat): Outcome
    requires j < |more|
  {
    w.fn(calls + more[..j + 1])
  }

  lemma ReplyJoins(w: World, calls: seq<Call>, a: seq<Call>, b: seq<Call>, j: nat)
    requires j < |a + b|
    ensures Reply(w, calls, a + b, j) == if j < |a| then Reply(w, calls, a, j) else Reply(w, calls + a, b, j - |a|)
  {
    if j < |a| {
      assert (a + b)[..j + 1] == a[..j + 1];
    } else {
      assert calls + (a + b)[..j + 1] == calls + a + b[..j - |a| + 1];
    }
  }

  lemma OneReply(w: World, calls: seq<Call>, c: Call)
    ensures Reply(w, calls, [c], 0) == w.fn(calls + [c])
  {
    assert [c][..1] == [c];
  }

  /** Where the callback returns an error other than SkipDir nothing follows, and that is the outcome. */
  ghost predicate StopsAtOnce(w: World, calls: seq<Call>, more: seq<Call>, out: Outcome) {
    forall j: nat :: j < |more| && Reply(w, calls, more, j).Stop? ==> j == |more| - 1 && out == Reply(w, calls, more, j)
  }

  lemma StopsJoin(w: World, calls: seq<Call>, a: seq<Call>, b: seq<Call>, o: Outcome, out: Outcome)
    requires StopsAtOnce(w, calls, a, o) && StopsAtOnce(w, calls + a, b, out)
    requires o.Stop? ==> b == [] && out == o
    ensures StopsAtOnce(w, calls, a + b, out)
  {
    forall j: nat | j < |a + b| && Reply(w, calls, a + b, j).Stop?
      ensures j == |a + b| - 1 && out == Reply(w, calls, a + b, j)
    {
      ReplyJoins(w, calls, a, b, j);
    }
  }

  lemma OneCallStops(w: World, calls: seq<Call>, c: Call, out: Outcome)
    requires w.fn(calls + [c]).Stop? ==> out == w.fn(calls + [c])
    ensures StopsAtOnce(w, calls, [c], out)
  {
    OneReply(w, calls, c);
  }

  lemma {:induction false} TreeStops(w: World, t: Tree, calls: seq<Call>)
    requires Obeys(w, t, calls)
    ensures StopsAtOnce(w, calls, Flat(t), Out(w, t, calls))
    decreases t, 0
  {
    var first, out := First(t), Out(w, t, calls);
    var o := w.fn(calls + [first]);
    if t.Entry? && o == Continue {
      OneCallStops(w, calls, first, o);
      if t.trouble.Some? {
        var second := Call(FromComps(t.at), Some(t.info), t.trouble);
        OneCallStops(w, calls + [first], second, out);
        StopsJoin(w, calls, [first], [second], o, out);
        assert Flat(t) == [first] + [second];
      } else {
        TreesStop(w, t.kids, calls + [first]);
        StopsJoin(w, calls, [first], FlatAll(t.kids), o, out);
        assert Flat(t) == [first] + FlatAll(t.kids);
      }
    } else {
      OneCallStops(w, calls, first, out);
      assert Flat(t) == [first];
    }
  }

  lemma {:induction false} TreesStop(w: World, kids: Kids, calls: seq<Call>)
    requires ObeysAll(w, kids, calls)
    ensures StopsAtOnce(w, calls, FlatAll(kids), OutAll(w, kids, calls))
    decreases kids, 1
  {
    if kids.Kid? {
      var o := Out(w, kids.head, calls);
      TreeStops(w, kids.head, calls);
      if Halts(kids.head, o) {
        assert Flat(kids.head) + [] == Flat(kids.head);
      } else {
        TreesStop(w, kids.tail, calls + Flat(kids.head));
        StopsJoin(w, calls, Flat(kids.head), FlatAll(kids.tail), o, OutAll(w, kids, calls));
      }
    }
  }

  // ---------------------------------------------------------------- skipping

  /** What SkipDir skips: the rest of a directory, for a file the rest of the one it is in. */
  function Scope(m: Mark): seq<string> {
    if m.isDir || m.at == [] then m.at else m.at[..|m.at| - 1]
  }

  /** Anything but a file. */
  predicate Spans(t: Tree) { t.Lost? || t.info.isDir || t.at == [] }

  predicate Skips(w: World, calls: seq<Call>, more: seq<Call>, marks: seq<Mark>, j: nat)
    requires j < |more| == |marks|
  {
    marks[j].regular && Reply(w, calls, more, j) == SkipDir
  }

  ghost predicate SkipsRest(w: World, calls: seq<Call>, more: seq<Call>, marks: seq<Mark>) {
    && |more| == |marks|
    && forall j, k :: 0 <= j < k < |more| && Skips(w, calls, more, marks, j) ==> !(Scope(marks[j]) <= marks[k].at)
  }

  /** What is skipped lies within a place. */
  ghost predicate SkipsWithin(w: World, calls: seq<Call>, more: seq<Call>, marks: seq<Mark>, at: seq<string>) {
    && |more| == |marks|
    && forall j :: 0 <= j < |more| && Skips(w, calls, more, marks, j) ==> at <= Scope(marks[j])
  }

  lemma SkipsOf(w: World, calls: seq<Call>, a: seq<Call>, b: seq<Call>, ma: seq<Mark>, mb: seq<Mark>, j: nat)
    requires |a| == |ma| && |b| == |mb| && j < |a + b|
    ensures Skips(w, calls, a + b, ma + mb, j) <==>
            if j < |a| then Skips(w, calls, a, ma, j) else Skips(w, calls + a, b, mb, j - |a|)
  {
    ReplyJoins(w, calls, a, b, j);
  }

  lemma SkipsWithinJoins(w: World, calls: seq<Call>, a: seq<Call>, b: seq<Call>, ma: seq<Mark>, mb: seq<Mark>,
      at: seq<string>)
    requires SkipsWithin(w, calls, a, ma, at) && SkipsWithin(w, calls + a, b, mb, at)
    ensures SkipsWithin(w, calls, a + b, ma + mb, at)
  {
    forall j | 0 <= j < |a + b| && Skips(w, calls, a + b, ma + mb, j)
      ensures at <= Scope((ma + mb)[j])
    {
      SkipsOf(w, calls, a, b, ma, mb, j);
    }
  }

  lemma SkipsRestJoins(w: World, calls: seq<Call>, a: seq<Call>, b: seq<Call>, ma: seq<Mark>, mb: seq<Mark>)
    requires SkipsRest(w, calls, a, ma) && SkipsRest(w, calls + a, b, mb)
    requires forall j, k :: 0 <= j < |a| && 0 <= k < |b| && Skips(w, calls, a, ma, j) ==> !(Scope(ma[j]) <= mb[k].at)
    ensures SkipsRest(w, calls, a + b, ma + mb)
  {
    forall j, k | 0 <= j < k < |a + b| && Skips(w, calls, a + b, ma + mb, j)
      ensures !(Scope((ma + mb)[j]) <= (ma + mb)[k].at)
    {
      SkipsOf(w, calls, a, b, ma, mb, j);
    }
  }

  lemma OneCallSkips(w: World, calls: seq<Call>, c: Call, m: Mark, at: seq<string>)
    ensures SkipsRest(w, calls, [c], [m])
    ensures (m.regular && w.fn(calls + [c]) == SkipDir ==> at <= Scope(m)) ==> SkipsWithin(w, calls, [c], [m], at)
  {
    OneReply(w, calls, c);
  }

  /** After a call that was answered with nil. */
  lemma SkipsAfter(w: World, calls: seq<Call>, c: Call, more: seq<Call>, m: Mark, marks: seq<Mark>, at: seq<string>)
    requires w.fn(calls + [c]) == Continue
    requires SkipsRest(w, calls + [c], more, marks) && SkipsWithin(w, calls + [c], more, marks, at)
    ensures SkipsRest(w, calls, [c] + more, [m] + marks) && SkipsWithin(w, calls, [c] + more, [m] + marks, at)
  {
    OneReply(w, calls, c);
    OneCallSkips(w, calls, c, m, at);
    SkipsRestJoins(w, calls, [c], more, [m], marks);
    SkipsWithinJoins(w, calls, [c], more, [m], marks, at);
  }

  lemma {:induction false} TreeSkips(w: World, t: Tree, at: seq<string>, stack: seq<Info>, calls: seq<Call>)
    requires Obeys(w, t, calls) && Placed(t, at) && Grown(w, t, stack)
    ensures SkipsRest(w, calls, Flat(t), Marks(t))
    ensures Spans(t) ==> SkipsWithin(w, calls, Flat(t), Marks(t), at)
    ensures !Spans(t) ==> |Flat(t)| == 1 && w.fn(calls + Flat(t)) == Out(w, t, calls)
    decreases t, 0
  {
    var first, mark := First(t), Marks(t)[0];
    if t.Entry? && t.kids.Kid? {
      TreesSkip(w, t.kids, at, Pushed(w, stack, t.info), calls + [first]);
      SkipsAfter(w, calls, first, FlatAll(t.kids), mark, MarksAll(t.kids), at);
      assert Flat(t) == [first] + FlatAll(t.kids) && Marks(t) == [mark] + MarksAll(t.kids);
    } else if t.Entry? && t.trouble.Some? {
      var second, again := Call(FromComps(at), Some(t.info), t.trouble), mark.(regular := false);
      OneCallSkips(w, calls + [first], second, again, at);
      SkipsAfter(w, calls, first, [second], mark, [again], at);
      assert Flat(t) == [first] + [second] && Marks(t) == [mark] + [again];
    } else {
      OneCallSkips(w, calls, first, mark, at);
      assert Flat(t) == [first] && Marks(t) == [mark];
    }
  }

  lemma HeadSkips(w: World, head: Tree, tail: Kids, at: seq<string>, name: string, calls: seq<Call>)
    requires |Flat(head)| == |Marks(head)|
    requires head.at == at + [name] && name !in Names(tail) && BelowNamed(MarksAll(tail), at, Names(tail))
    requires Spans(head) ==> SkipsWithin(w, calls, Flat(head), Marks(head), head.at)
    requires !Spans(head) ==> |Flat(head)| == 1 && w.fn(calls + Flat(head)) == Out(w, head, calls)
    requires !Halts(head, Out(w, head, calls))
    ensures SkipsWithin(w, calls, Flat(head), Marks(head), at)
    ensures var f, m, ts := Flat(head), Marks(head), MarksAll(tail);
            forall j, k :: 0 <= j < |f| && 0 <= k < |ts| && Skips(w, calls, f, m, j) ==>
              !(Scope(m[j]) <= ts[k].at)
  {
    var f, m, ts := Flat(head), Marks(head), MarksAll(tail);
    forall j | 0 <= j < |f| && Skips(w, calls, f, m, j)
      ensures at + [name] <= Scope(m[j])
    {
      assert f[..|f|] == f;
    }
    forall j, k | 0 <= j < |f| && 0 <= k < |ts| && Skips(w, calls, f, m, j)
      ensures !(Scope(m[j]) <= ts[k].at)
    {
      BelowStep(at, name, Scope(m[j]));
      Apart(at, Scope(m[j]), ts[k].at);
    }
    forall j | 0 <= j < |f| && Skips(w, calls, f, m, j) ensures at <= Scope(m[j]) { BelowStep(at, name, Scope(m[j])); }
  }

  lemma {:induction false} TreesSkip(w: World, kids: Kids, at: seq<string>, stack: seq<Info>, calls: seq<Call>)
    requires ObeysAll(w, kids, calls) && PlacedAll(kids, at) && GrownAll(w, kids, stack)
    ensures SkipsRest(w, calls, FlatAll(kids), MarksAll(kids))
            && SkipsWithin(w, calls, FlatAll(kids), MarksAll(kids), at)
    decreases kids, 1
  {
    if kids.Kid? {
      var head, tail := kids.head, kids.tail;
      TreeSkips(w, head, at + [kids.name], stack, calls);
      MarksAllStayBelow(tail, at);
      if Halts(head, Out(w, head, calls)) {
        HaltedSkips(w, head, at, kids.name, calls);
        assert Flat(head) + [] == Flat(head) && Marks(head) + [] == Marks(head);
      } else {
        TreesSkip(w, tail, at, stack, calls + Flat(head));
        HeadSkips(w, head, tail, at, kids.name, calls);
        SkipsRestJoins(w, calls, Flat(head), FlatAll(tail), Marks(head), MarksAll(tail));
        SkipsWithinJoins(w, calls, Flat(head), FlatAll(tail), Marks(head), MarksAll(tail), at);
      }
    }
  }

  lemma HaltedSkips(w: World, head: Tree, at: seq<string>, name: string, calls: seq<Call>)
    requires |Flat(head)| == |Marks(head)| && head.at == at + [name]
    requires Spans(head) ==> SkipsWithin(w, calls, Flat(head), Marks(head), head.at)
    requires !Spans(head) ==> |Flat(head)| == 1
    ensures SkipsWithin(w, calls, Flat(head), Marks(head), at)
  {
    var f, m := Flat(head), Marks(head);
    forall j | 0 <= j < |f| && Skips(w, calls, f, m, j)
      ensures at <= Scope(m[j])
    {
      if head.Entry? && !head.info.isDir {
        assert m[j].at == at + [name] && m[j].at[..|m[j].at| - 1] == at;
      } else {
        BelowStep(at, name, Scope(m[j]));
      }
    }
  }

  // ---------------------------------------------------------------- reachable entries

  /** A chain of names from an entry down through entries that are entered. */
  ghost predicate Chain(w: World, at: seq<string>, info: Info, stack: seq<Info>, names: seq<string>)
    decreases |names|
  {
    names == [] || (
      && Enters(w, at, info, stack)
      && w.dirNames(FromComps(at)).Got? && names[0] in w.dirNames(FromComps(at)).value
      && w.lstat(FromComps(at + [names[0]])).Got?
      && Chain(w, at + [names[0]], w.lstat(FromComps(at + [names[0]])).value, Pushed(w, stack, info), names[1..]))
  }

  /** Where the regular calls are. */
  function Places(s: seq<Mark>): set<seq<string>> {
    set j | 0 <= j < |s| && s[j].regular :: s[j].at
  }

  lemma PlacesJoin(a: seq<Mark>, b: seq<Mark>)
    ensures Places(a + b) == Places(a) + Places(b)
  {
    var s := a + b;
    forall x | x in Places(a) ensures x in Places(s) {
      var j :| 0 <= j < |a| && a[j].regular && a[j].at == x;
      assert s[j] == a[j];
    }
    forall x | x in Places(b) ensures x in Places(s) {
      var j :| 0 <= j < |b| && b[j].regular && b[j].at == x;
      assert s[|a| + j] == b[j];
    }
  }

  lemma OwnPlaces(t: Tree)
    ensures Places(Marks(t)) == if t.Entry? then {t.at} + Places(MarksAll(t.kids)) else {}
  {
    if t.Entry? {
      var own := [Mark(t.at, t.info.isDir, true)] + if t.trouble.Some? then [Mark(t.at, t.info.isDir, false)] else [];
      PlacesJoin(own, MarksAll(t.kids));
      assert own[0].at in Places(own);
    }
  }

  /** Every entry the callback hears of is at the end of a chain. */
  lemma {:induction false} VisitedIsChained(w: World, t: Tree, at: seq<string>, stack: seq<Info>, x: seq<string>)
    requires t.Entry? && Placed(t, at) && Grown(w, t, stack) && x in Places(Marks(t))
    ensures at <= x && Chain(w, at, t.info, stack, x[|at|..])
    decreases t, 0
  {
    OwnPlaces(t);
    if x != at {
      VisitedBelowIsChained(w, t.kids, at, Pushed(w, stack, t.info), x);
      assert x[|at|..][1..] == x[|at| + 1..];
      assert x[|at|..][0] == x[|at|];
    } else {
      assert x[|at|..] == [];
    }
  }

  lemma {:induction false} VisitedBelowIsChained(w: World, kids: Kids, at: seq<string>, stack: seq<Info>,
      x: seq<string>)
    requires PlacedAll(kids, at) && GrownAll(w, kids, stack) && x in Places(MarksAll(kids))
    ensures at < x && x[|at|] in Names(kids) && w.lstat(FromComps(at + [x[|at|]])).Got?
    ensures Chain(w, at + [x[|at|]], w.lstat(FromComps(at + [x[|at|]])).value, stack, x[|at| + 1..])
    decreases kids, 1
  {
    if kids.Kid? {
      PlacesJoin(Marks(kids.head), MarksAll(kids.tail));
      if x in Places(Marks(kids.head)) {
        OwnPlaces(kids.head);
        VisitedIsChained(w, kids.head, at + [kids.name], stack, x);
        BelowStep(at, kids.name, x);
      } else {
        VisitedBelowIsChained(w, kids.tail, at, stack, x);
      }
    }
  }

  /** A callback that never objects hears of the end of every chain. */
  lemma {:induction false} ChainedIsVisited(w: World, t: Tree, at: seq<string>, stack: seq<Info>, names: seq<string>)
    requires t.Entry? && Placed(t, at) && Grown(w, t, stack) && Complete(w, t, stack)
             && Chain(w, at, t.info, stack, names)
    ensures at + names in Places(Marks(t))
    decreases |names|, 0, t
  {
    OwnPlaces(t);
    if names == [] {
      assert at + names == at;
    } else {
      ChainedBelowIsVisited(w, t.kids, at, Pushed(w, stack, t.info), names);
    }
  }

  lemma {:induction false} ChainedBelowIsVisited(w: World, kids: Kids, at: seq<string>, stack: seq<Info>,
      names: seq<string>)
    requires PlacedAll(kids, at) && GrownAll(w, kids, stack) && CompleteAll(w, kids, stack)
    requires names != [] && names[0] in Names(kids) && w.lstat(FromComps(at + [names[0]])).Got?
    requires Chain(w, at + [names[0]], w.lstat(FromComps(at + [names[0]])).value, stack, names[1..])
    ensures at + names in Places(MarksAll(kids))
    decreases |names| - 1, 1, kids
  {
    PlacesJoin(Marks(kids.head), MarksAll(kids.tail));
    if names[0] == kids.name {
      ChainedIsVisited(w, kids.head, at + [kids.name], stack, names[1..]);
      assert at + [kids.name] + names[1..] == at + names;
    } else {
      ChainedBelowIsVisited(w, kids.tail, at, stack, names);
    }
  }

  // ---------------------------------------------------------------- chains without a stack

  /** The entry at the end of the first k names of a chain. */
  function InfoAt(w: World, at: seq<string>, info: Info, names: seq<string>, k: nat): Result<Info>
    requires k <= |names|
  {
    if k == 0 then Got(info) else w.lstat(FromComps(at + names[..k]))
  }

  predicate SameAs(r: Result<Info>, id: FileID) { r.Got? && r.value.id == id }

  /** The k-th name is one of a directory, or of the root. */
  predicate Leads(w: World, at: seq<string>, info: Info, names: seq<string>, k: nat)
    requires k < |names|
  {
    && InfoAt(w, at, info, names, k).Got? && InfoAt(w, at, info, names, k + 1).Got?
    && (InfoAt(w, at, info, names, k).value.isDir || at + names[..k] == [])
    && w.dirNames(FromComps(at + names[..k])).Got? && names[k] in w.dirNames(FromComps(at + names[..k])).value
  }

  ghost predicate AllLead(w: World, at: seq<string>, info: Info, names: seq<string>) {
    forall k: nat :: k < |names| ==> Leads(w, at, info, names, k)
  }

  /** None of the directories on the way has this identity. */
  ghost predicate Avoids(w: World, at: seq<string>, info: Info, names: seq<string>, id: FileID) {
    forall k: nat :: k < |names| ==> !SameAs(InfoAt(w, at, info, names, k), id)
  }

  ghost predicate AvoidsStack(w: World, at: seq<string>, info: Info, names: seq<string>, stack: seq<Info>) {
    forall i :: 0 <= i < |stack| ==> Avoids(w, at, info, names, stack[i].id)
  }

  /** No directory is passed twice. */
  ghost predicate NoRepeat(w: World, at: seq<string>, info: Info, names: seq<string>) {
    forall i: nat, k: nat :: i < k < |names| && InfoAt(w, at, info, names, i).Got? ==>
      !SameAs(InfoAt(w, at, info, names, k), InfoAt(w, at, info, names, i).value.id)
  }

  /** A path along which every name is listed by a directory, where recursion is checked none twice. */
  ghost predicate Reachable(w: World, at: seq<string>, info: Info, names: seq<string>) {
    AllLead(w, at, info, names) && (w.check ==> NoRepeat(w, at, info, names))
  }

  lemma Shifts(w: World, at: seq<string>, info: Info, names: seq<string>, below: Info, k: nat)
    requires k < |names| && w.lstat(FromComps(at + [names[0]])) == Got(below)
    ensures InfoAt(w, at, info, names, k + 1) == InfoAt(w, at + [names[0]], below, names[1..], k)
    ensures at + names[..k + 1] == at + [names[0]] + names[1..][..k]
  {
    assert names[..k + 1] == [names[0]] + names[1..][..k];
    assert at + ([names[0]] + names[1..][..k]) == at + [names[0]] + names[1..][..k];
    if k == 0 { assert names[..1] == [names[0]]; }
  }

  lemma LeadsShifts(w: World, at: seq<string>, info: Info, names: seq<string>, below: Info, k: nat)
    requires k + 1 < |names| && w.lstat(FromComps(at + [names[0]])) == Got(below)
    ensures Leads(w, at, info, names, k + 1) <==> Leads(w, at + [names[0]], below, names[1..], k)
  {
    Shifts(w, at, info, names, below, k);
    Shifts(w, at, info, names, below, k + 1);
  }

  lemma AllLeadUnfolds(w: World, at: seq<string>, info: Info, names: seq<string>, below: Info)
    requires names != [] && w.lstat(FromComps(at + [names[0]])) == Got(below)
    ensures AllLead(w, at, info, names) <==>
            Leads(w, at, info, names, 0) && AllLead(w, at + [names[0]], below, names[1..])
  {
    var there, rest := at + [names[0]], names[1..];
    forall k: nat | k < |rest|
      ensures Leads(w, at, info, names, k + 1) <==> Leads(w, there, below, rest, k)
    {
      LeadsShifts(w, at, info, names, below, k);
    }
    if Leads(w, at, info, names, 0) && AllLead(w, there, below, rest) {
      forall k: nat | k < |names| ensures Leads(w, at, info, names, k) {
        if k > 0 { assert Leads(w, there, below, rest, k - 1); }
      }
    }
    if AllLead(w, at, info, names) {
      forall k: nat | k < |rest| ensures Leads(w, there, below, rest, k) { assert Leads(w, at, info, names, k + 1); }
    }
  }

  lemma AvoidsUnfolds(w: World, at: seq<string>, info: Info, names: seq<string>, below: Info, id: FileID)
    requires names != [] && w.lstat(FromComps(at + [names[0]])) == Got(below)
    ensures Avoids(w, at, info, names, id) <==> info.id != id && Avoids(w, at + [names[0]], below, names[1..], id)
  {
    var there, rest := at + [names[0]], names[1..];
    forall k: nat | k < |rest|
      ensures InfoAt(w, at, info, names, k + 1) == InfoAt(w, there, below, rest, k)
    {
      Shifts(w, at, info, names, below, k);
    }
    assert InfoAt(w, at, info, names, 0) == Got(info);
    if info.id != id && Avoids(w, there, below, rest, id) {
      forall k: nat | k < |names| ensures !SameAs(InfoAt(w, at, info, names, k), id) {
        if k > 0 { assert !SameAs(InfoAt(w, there, below, rest, k - 1), id); }
      }
    }
    if Avoids(w, at, info, names, id) {
      assert !SameAs(InfoAt(w, at, info, names, 0), id);
      forall k: nat | k < |rest| ensures !SameAs(InfoAt(w, there, below, rest, k), id) {
        assert !SameAs(InfoAt(w, at, info, names, k + 1), id);
      }
    }
  }

  lemma NoRepeatUnfolds(w: World, at: seq<string>, info: Info, names: seq<string>, below: Info)
    requires names != [] && w.lstat(FromComps(at + [names[0]])) == Got(below)
    ensures NoRepeat(w, at, info, names) <==>
            Avoids(w, at + [names[0]], below, names[1..], info.id) && NoRepeat(w, at + [names[0]], below, names[1..])
  {
    var there, rest := at + [names[0]], names[1..];
    forall k: nat | k < |rest|
      ensures InfoAt(w, at, info, names, k + 1) == InfoAt(w, there, below, rest, k)
    {
      Shifts(w, at, info, names, below, k);
    }
    assert InfoAt(w, at, info, names, 0) == Got(info);
    if Avoids(w, there, below, rest, info.id) && NoRepeat(w, there, below, rest) {
      forall i: nat, k: nat | i < k < |names| && InfoAt(w, at, info, names, i).Got?
        ensures !SameAs(InfoAt(w, at, info, names, k), InfoAt(w, at, info, names, i).value.id)
      {
        assert InfoAt(w, at, info, names, k) == InfoAt(w, there, below, rest, k - 1);
        if i > 0 { assert InfoAt(w, at, info, names, i) == InfoAt(w, there, below, rest, i - 1); }
      }
    }
    if NoRepeat(w, at, info, names) {
      forall k: nat | k < |rest| ensures !SameAs(InfoAt(w, there, below, rest, k), info.id) {
        assert !SameAs(InfoAt(w, at, info, names, k + 1), InfoAt(w, at, info, names, 0).value.id);
      }
      forall i: nat, k: nat | i < k < |rest| && InfoAt(w, there, below, rest, i).Got?
        ensures !SameAs(InfoAt(w, there, below, rest, k), InfoAt(w, there, below, rest, i).value.id)
      {
        assert !SameAs(InfoAt(w, at, info, names, k + 1), InfoAt(w, at, info, names, i + 1).value.id);
      }
    }
  }

  lemma AvoidsStackUnfolds(w: World, at: seq<string>, info: Info, names: seq<string>, below: Info, stack: seq<Info>)
    requires names != [] && w.lstat(FromComps(at + [names[0]])) == Got(below)
    ensures AvoidsStack(w, at, info, names, stack) <==>
            !OnStack(stack, info) && AvoidsStack(w, at + [names[0]], below, names[1..], stack)
  {
    forall i | 0 <= i < |stack|
      ensures Avoids(w, at, info, names, stack[i].id) <==>
              info.id != stack[i].id && Avoids(w, at + [names[0]], below, names[1..], stack[i].id)
    {
      AvoidsUnfolds(w, at, info, names, below, stack[i].id);
    }
  }

  lemma AvoidsPushed(w: World, at: seq<string>, info: Info, names: seq<string>, stack: seq<Info>, top: Info)
    ensures AvoidsStack(w, at, info, names, stack + [top]) <==>
            AvoidsStack(w, at, info, names, stack) && Avoids(w, at, info, names, top.id)
  {
    var s := stack + [top];
    if AvoidsStack(w, at, info, names, s) {
      forall i | 0 <= i < |stack| ensures Avoids(w, at, info, names, stack[i].id) { assert s[i] == stack[i]; }
      assert s[|stack|] == top;
    }
  }

  /** The chains that avoid a stack are the reachable paths that do. */
  lemma {:induction false} ChainIffReachable(w: World, at: seq<string>, info: Info, stack: seq<Info>,
      names: seq<string>)
    ensures Chain(w, at, info, stack, names) <==>
            Reachable(w, at, info, names) && (w.check ==> AvoidsStack(w, at, info, names, stack))
    decreases |names|
  {
    if names != [] {
      assert at + names[..0] == at && names[..1] == [names[0]];
      if w.lstat(FromComps(at + [names[0]])).Got? {
        var below := w.lstat(FromComps(at + [names[0]])).value;
        ChainIffReachable(w, at + [names[0]], below, Pushed(w, stack, info), names[1..]);
        AllLeadUnfolds(w, at, info, names, below);
        NoRepeatUnfolds(w, at, info, names, below);
        AvoidsStackUnfolds(w, at, info, names, below, stack);
        AvoidsPushed(w, at + [names[0]], below, names[1..], stack, info);
      } else {
        assert !Leads(w, at, info, names, 0);
      }
    }
  }

  // ---------------------------------------------------------------- the walk

  lemma {:induction false} GrownNames(w: World, t: Tree, at: seq<string>, stack: seq<Info>)
    requires ListsNames(w) && Placed(t, at) && AllNames(at) && Grown(w, t, stack)
    ensures NamesOnly(t)
    decreases t, 0
  {
    if t.Entry? && t.kids.Kid? {
      PathAt(at);
      var all := w.dirNames(FromComps(at)).value;
      assert NameList(all);
      GrownNamesAll(w, t.kids, at, all, Pushed(w, stack, t.info));
    }
  }

  lemma {:induction false} GrownNamesAll(w: World, kids: Kids, at: seq<string>, all: seq<string>, stack: seq<Info>)
    requires ListsNames(w) && PlacedAll(kids, at) && AllNames(at) && GrownAll(w, kids, stack)
    requires AllNames(all) && Names(kids) <= all
    ensures NamesOnlyAll(kids)
    decreases kids, 1
  {
    if kids.Kid? {
      var names := Names(kids);
      assert names[0] == all[0] && IsName(all[0]);
      assert Names(kids.tail) == names[1..] && names[1..] <= all[1..];
      GrownNames(w, kids.head, at + [kids.name], stack);
      GrownNamesAll(w, kids.tail, at, all[1..], stack);
    }
  }

  /** The calls a walk makes, as marks. */
  ghost predicate Marked(calls: seq<Call>, r: Walked, more: seq<Call>, marks: seq<Mark>) {
    r.calls == calls + more && MarkedAs(more, marks)
  }

  /** Whatever the callback does: the walk below a path calls it in pre-order, once for each entry; an
      error it returns is the last it hears and the outcome; and once it returns SkipDir it hears of
      nothing more in that directory, or for a file in the directory the file is in. */
  lemma WalkIsOrderly(w: World, at: seq<string>, info: Info, stack: seq<Info>, calls: seq<Call>)
      returns (more: seq<Call>, marks: seq<Mark>)
    requires Finite(w) && ListsNames(w) && (w.check ==> info.id in w.ids) && AllNames(at)
    ensures var r := Visit(w, FromComps(at), info, stack, calls);
            && Marked(calls, r, more, marks)
            && PreOrder(marks) && AtOrBelow(marks, at)
            && StopsAtOnce(w, calls, more, r.out)
            && SkipsRest(w, calls, more, marks)
  {
    var t := VisitLeavesTree(w, at, info, stack, calls);
    more, marks := Flat(t), Marks(t);
    GrownNames(w, t, at, stack);
    FlatIsMarked(t);
    MarksInPreOrder(t, at);
    MarksStayBelow(t, at);
    TreeStops(w, t, calls);
    TreeSkips(w, t, at, stack, calls);
  }

  /** The entries the callback hears of are reachable without passing a directory twice, and if it never
      objects they are all of those. */
  lemma WalkVisitsReachable(w: World, at: seq<string>, info: Info, calls: seq<Call>)
      returns (more: seq<Call>, marks: seq<Mark>)
    requires Finite(w) && ListsNames(w) && (w.check ==> info.id in w.ids) && AllNames(at)
    ensures var r := Visit(w, FromComps(at), info, [], calls);
            && Marked(calls, r, more, marks)
            && (forall x :: x in Places(marks) ==> at <= x && Reachable(w, at, info, x[|at|..]))
            && (NeverObjects(w) ==> forall names :: Reachable(w, at, info, names) ==> at + names in Places(marks))
  {
    var t := VisitLeavesTree(w, at, info, [], calls);
    more, marks := Flat(t), Marks(t);
    GrownNames(w, t, at, []);
    FlatIsMarked(t);
    forall x | x in Places(marks)
      ensures at <= x && Reachable(w, at, info, x[|at|..])
    {
      VisitedIsChained(w, t, at, [], x);
      ChainIffReachable(w, at, info, [], x[|at|..]);
    }
    if NeverObjects(w) {
      forall names | Reachable(w, at, info, names)
        ensures at + names in Places(marks)
      {
        ChainIffReachable(w, at, info, [], names);
        ChainedIsVisited(w, t, at, [], names);
      }
    }
  }

  // ---------------------------------------------------------------- nothing else is left out

  /** The callback answered SkipDir to a regular call in whose directory the place is. */
  ghost predicate SkippedBy(w: World, calls: seq<Call>, more: seq<Call>, marks: seq<Mark>, x: seq<string>) {
    && |more| == |marks|
    && exists j: nat :: j < |more| && Skips(w, calls, more, marks, j) && Scope(marks[j]) <= x
  }

  lemma SkippedByPart(w: World, calls: seq<Call>, a: seq<Call>, b: seq<Call>, ma: seq<Mark>, mb: seq<Mark>,
      x: seq<string>)
    requires |a| == |ma| && |b| == |mb|
    requires SkippedBy(w, calls, a, ma, x) || SkippedBy(w, calls + a, b, mb, x)
    ensures SkippedBy(w, calls, a + b, ma + mb, x)
  {
    if SkippedBy(w, calls, a, ma, x) {
      var j: nat :| j < |a| && Skips(w, calls, a, ma, j) && Scope(ma[j]) <= x;
      SkipsOf(w, calls, a, b, ma, mb, j);
      assert (ma + mb)[j] == ma[j];
    } else {
      var j: nat :| j < |b| && Skips(w, calls + a, b, mb, j) && Scope(mb[j]) <= x;
      SkipsOf(w, calls, a, b, ma, mb, |a| + j);
      assert (ma + mb)[|a| + j] == mb[j];
    }
  }

  /** Every chain ends at an entry that is visited or was skipped, unless an error stopped the walk. */
  lemma {:induction false} UnskippedIsVisited(w: World, t: Tree, at: seq<string>, stack: seq<Info>,
      names: seq<string>, calls: seq<Call>)
    requires t.Entry? && Placed(t, at) && Grown(w, t, stack) && Obeys(w, t, calls) && Full(w, t, stack, calls)
    requires Chain(w, at, t.info, stack, names) && !Out(w, t, calls).Stop?
    ensures at + names in Places(Marks(t)) || SkippedBy(w, calls, Flat(t), Marks(t), at + names)
    decreases |names|, 0, t
  {
    var first, mark := First(t), Marks(t)[0];
    OwnPlaces(t);
    if names == [] {
      assert at + names == at;
    } else if w.fn(calls + [first]) == SkipDir {
      assert Flat(t) == [first] && Marks(t) == [mark];
      OneReply(w, calls, first);
      assert Skips(w, calls, Flat(t), Marks(t), 0);
    } else {
      var list := w.dirNames(FromComps(at)).value;
      UnskippedBelowIsVisited(w, t.kids, at, Pushed(w, stack, t.info), list, names, calls + [first]);
      assert Flat(t) == [first] + FlatAll(t.kids) && Marks(t) == [mark] + MarksAll(t.kids);
      if SkippedBy(w, calls + [first], FlatAll(t.kids), MarksAll(t.kids), at + names) {
        SkippedByPart(w, calls, [first], FlatAll(t.kids), [mark], MarksAll(t.kids), at + names);
      }
    }
  }

  lemma {:induction false} UnskippedBelowIsVisited(w: World, kids: Kids, at: seq<string>, stack: seq<Info>,
      list: seq<string>, names: seq<string>, calls: seq<Call>)
    requires PlacedAll(kids, at) && GrownAll(w, kids, stack) && ObeysAll(w, kids, calls)
    requires FullAll(w, kids, list, stack, calls) && !OutAll(w, kids, calls).Stop?
    requires names != [] && names[0] in list && w.lstat(FromComps(at + [names[0]])).Got?
    requires Chain(w, at + [names[0]], w.lstat(FromComps(at + [names[0]])).value, stack, names[1..])
    ensures at + names in Places(MarksAll(kids)) || SkippedBy(w, calls, FlatAll(kids), MarksAll(kids), at + names)
    decreases |names| - 1, 1, kids
  {
    var head, tail, x := kids.head, kids.tail, at + names;
    var f, g, m, n := Flat(head), FlatAll(tail), Marks(head), MarksAll(tail);
    var o := Out(w, head, calls);
    PlacesJoin(m, n);
    TreeMatches(w, head, at + [kids.name], stack, calls);
    if names[0] == kids.name {
      UnskippedIsVisited(w, head, at + [kids.name], stack, names[1..], calls);
      assert at + [kids.name] + names[1..] == x;
    } else if !Halts(head, o) {
      UnskippedBelowIsVisited(w, tail, at, stack, list[1..], names, calls + f);
    } else {
      HaltSkips(w, head, at, kids.name, stack, calls);
    }
    TreesMatch(w, tail, at, stack, calls + f, Halts(head, o));
    if SkippedBy(w, calls, f, m, x) || SkippedBy(w, calls + f, g, n, x) { SkippedByPart(w, calls, f, g, m, n, x); }
  }

  /** A file for which the callback answers SkipDir skips the directory it is in. */
  lemma HaltSkips(w: World, head: Tree, at: seq<string>, name: string, stack: seq<Info>, calls: seq<Call>)
    requires Obeys(w, head, calls) && Placed(head, at + [name]) && Grown(w, head, stack)
    requires Halts(head, Out(w, head, calls)) && !Out(w, head, calls).Stop?
    ensures forall x :: at <= x ==> SkippedBy(w, calls, Flat(head), Marks(head), x)
  {
    var f, m := Flat(head), Marks(head);
    TreeSkips(w, head, at + [name], stack, calls);
    assert f[..1] == f && Skips(w, calls, f, m, 0);
    assert (at + [name])[..|at|] == at;
    assert Scope(m[0]) == at;
  }

  lemma TreeMatches(w: World, t: Tree, at: seq<string>, stack: seq<Info>, calls: seq<Call>)
    requires Obeys(w, t, calls) && Placed(t, at) && Grown(w, t, stack)
    ensures |Flat(t)| == |Marks(t)|
  {
    TreeSkips(w, t, at, stack, calls);
  }

  lemma TreesMatch(w: World, kids: Kids, at: seq<string>, stack: seq<Info>, calls: seq<Call>, none: bool)
    requires if none then kids.NoKids? else ObeysAll(w, kids, calls) && PlacedAll(kids, at) && GrownAll(w, kids, stack)
    ensures |FlatAll(kids)| == |MarksAll(kids)|
  {
    if !none { TreesSkip(w, kids, at, stack, calls); }
  }

  /** A walk that no error ended: every reachable entry was visited, or the callback answered SkipDir to
      the directory it is in or below, or to a file there. So SkipDir skips no more than that. */
  lemma WalkVisitsUnskipped(w: World, at: seq<string>, info: Info, calls: seq<Call>)
      returns (more: seq<Call>, marks: seq<Mark>)
    requires Finite(w) && ListsNames(w) && (w.check ==> info.id in w.ids) && AllNames(at)
    ensures var r := Visit(w, FromComps(at), info, [], calls);
            && Marked(calls, r, more, marks)
            && (!r.out.Stop? ==> forall names :: Reachable(w, at, info, names) ==>
                at + names in Places(marks) || SkippedBy(w, calls, more, marks, at + names))
  {
    var t := VisitLeavesTree(w, at, info, [], calls);
    more, marks := Flat(t), Marks(t);
    GrownNames(w, t, at, []);
    FlatIsMarked(t);
    if !Out(w, t, calls).Stop? {
      forall names | Reachable(w, at, info, names)
        ensures at + names in Places(marks) || SkippedBy(w, calls, more, marks, at + names)
      {
        ChainIffReachable(w, at, info, [], names);
        UnskippedIsVisited(w, t, at, [], names, calls);
      }
    }
  }

  /** A call is for the place it names: it hands on what is there, or was given for the start. */
  ghost predicate TrueInfo(w: World, at: seq<string>, info: Info, c: Call) {
    c.info.Some? ==> w.lstat(c.path) == Got(c.info.value) || (c.path == FromComps(at) && c.info.value == info)
  }

  lemma {:induction false} TreeInfoIsTrue(w: World, t: Tree, at: seq<string>, stack: seq<Info>)
    requires t.Entry? && Placed(t, at) && Grown(w, t, stack)
    ensures forall c :: c in Flat(t) ==> TrueInfo(w, at, t.info, c)
    decreases t, 0
  {
    TreesInfoIsTrue(w, t.kids, at, Pushed(w, stack, t.info));
  }

  lemma {:induction false} TreesInfoIsTrue(w: World, kids: Kids, at: seq<string>, stack: seq<Info>)
    requires PlacedAll(kids, at) && GrownAll(w, kids, stack)
    ensures forall c :: c in FlatAll(kids) && c.info.Some? ==> w.lstat(c.path) == Got(c.info.value)
    decreases kids, 1
  {
    if kids.Kid? {
      if kids.head.Entry? { TreeInfoIsTrue(w, kids.head, at + [kids.name], stack); }
      TreesInfoIsTrue(w, kids.tail, at, stack);
    }
  }

  /** Whatever the callback does, it is told of each place what is there. */
  lemma WalkTellsTheTruth(w: World, at: seq<string>, info: Info, calls: seq<Call>) returns (more: seq<Call>)
    requires Finite(w) && ListsNames(w) && (w.check ==> info.id in w.ids) && AllNames(at)
    ensures Visit(w, FromComps(at), info, [], calls).calls == calls + more
    ensures forall c :: c in more ==> TrueInfo(w, at, info, c)
  {
    var t := VisitLeavesTree(w, at, info, [], calls);
    more := Flat(t);
    TreeInfoIsTrue(w, t, at, []);
  }

  /** A walk from a path that is not accepted, or from one that cannot be looked at. */
  lemma RootTrouble(w: World, root: string)
    requires Finite(w)
    ensures w.lstat(root).Failed? ==>
              var call := Call(root, None, Some(w.lstat(root).problem));
              WalkFrom(w, root) == Walked([call], w.fn([call]))
    ensures w.lstat(root).Got? && Canonicalize(root).Err? ==>
              WalkFrom(w, root).calls == [] && WalkFrom(w, root).out.Stop?
  {
    if w.lstat(root).Failed? {
      var call := Call(root, None, Some(w.lstat(root).problem));
      assert [] + [call] == [call];
    }
  }

  // ---------------------------------------------------------------- trouble

  /** A call with a problem tells the truth about the file system. */
  ghost predicate TrueTrouble(w: World, c: Call) {
    match c.err
    case None => true
    case Some(e) =>
      if c.info.None? then w.lstat(c.path) == Failed(e)
      else (w.check && e == InfiniteRecursion) || w.dirNames(c.path) == Failed(e)
  }

  lemma {:induction false} TreeTroubleIsTrue(w: World, t: Tree, stack: seq<Info>)
    requires Grown(w, t, stack)
    ensures forall c :: c in Flat(t) ==> TrueTrouble(w, c)
    decreases t, 0
  {
    if t.Entry? { TreesTroubleIsTrue(w, t.kids, Pushed(w, stack, t.info)); }
  }

  lemma {:induction false} TreesTroubleIsTrue(w: World, kids: Kids, stack: seq<Info>)
    requires GrownAll(w, kids, stack)
    ensures forall c :: c in FlatAll(kids) ==> TrueTrouble(w, c)
    decreases kids, 1
  {
    if kids.Kid? {
      TreeTroubleIsTrue(w, kids.head, stack);
      TreesTroubleIsTrue(w, kids.tail, stack);
    }
  }

  /** One of the directories on the way has this identity. */
  ghost predicate Passes(w: World, at: seq<string>, info: Info, names: seq<string>, id: FileID) {
    !Avoids(w, at, info, names, id)
  }

  /** The stack below a chain holds what was on it and what the chain passes. */
  ghost predicate StackBelow(w: World, at: seq<string>, info: Info, names: seq<string>, stack: seq<Info>,
      below: seq<Info>) {
    w.check ==> forall x: Info :: OnStack(below, x) <==> OnStack(stack, x) || Passes(w, at, info, names, x.id)
  }

  ghost predicate PartOf(sub: Tree, t: Tree) { forall c :: c in Flat(sub) ==> c in Flat(t) }

  /** The part of the tree at the end of a chain. */
  lemma {:induction false} ChainedTree(w: World, t: Tree, at: seq<string>, stack: seq<Info>, names: seq<string>)
      returns (sub: Tree, below: seq<Info>)
    requires t.Entry? && Placed(t, at) && Grown(w, t, stack) && Complete(w, t, stack)
             && Chain(w, at, t.info, stack, names)
    ensures sub.Entry? && Placed(sub, at + names) && Complete(w, sub, below) && Grown(w, sub, below)
    ensures InfoAt(w, at, t.info, names, |names|) == Got(sub.info) && PartOf(sub, t)
    ensures StackBelow(w, at, t.info, names, stack, below)
    decreases |names|, 0, t
  {
    if names == [] {
      assert at + names == at;
      sub, below := t, stack;
    } else {
      var there, rest := at + [names[0]], names[1..];
      var kid := KidNamed(w, t.kids, at, Pushed(w, stack, t.info), names[0]);
      sub, below := ChainedTree(w, kid, there, Pushed(w, stack, t.info), rest);
      assert there + rest == at + names;
      Shifts(w, at, t.info, names, kid.info, |rest|);
      if |rest| == 0 {
        assert names[..1] == [names[0]];
      } else {
        assert names[..|names|] == names && rest[..|rest|] == rest;
      }
      StackUnfolds(w, at, t.info, names, kid.info, stack, below);
    }
  }

  lemma {:induction false} KidNamed(w: World, kids: Kids, at: seq<string>, stack: seq<Info>, name: string)
      returns (kid: Tree)
    requires PlacedAll(kids, at) && GrownAll(w, kids, stack) && CompleteAll(w, kids, stack)
    requires name in Names(kids)
    ensures Placed(kid, at + [name]) && Grown(w, kid, stack) && Complete(w, kid, stack)
    ensures kid.Entry? ==> w.lstat(FromComps(at + [name])) == Got(kid.info)
    ensures kid.Lost? ==> w.lstat(FromComps(at + [name])) == Failed(kid.problem)
    ensures forall c :: c in Flat(kid) ==> c in FlatAll(kids)
  {
    if name == kids.name { kid := kids.head; } else { kid := KidNamed(w, kids.tail, at, stack, name); }
  }

  lemma StackUnfolds(w: World, at: seq<string>, info: Info, names: seq<string>, there: Info, stack: seq<Info>,
      below: seq<Info>)
    requires names != [] && w.lstat(FromComps(at + [names[0]])) == Got(there)
    requires StackBelow(w, at + [names[0]], there, names[1..], Pushed(w, stack, info), below)
    ensures StackBelow(w, at, info, names, stack, below)
  {
    forall x: Info | w.check
      ensures OnStack(below, x) <==> OnStack(stack, x) || Passes(w, at, info, names, x.id)
    {
      AvoidsUnfolds(w, at, info, names, there, x.id);
      OnStackPushed(stack, info, x);
    }
  }

  lemma OnStackPushed(stack: seq<Info>, top: Info, x: Info)
    ensures OnStack(stack + [top], x) <==> OnStack(stack, x) || top.id == x.id
  {
    var s := stack + [top];
    assert s[|stack|] == top;
    if OnStack(stack, x) {
      var i :| 0 <= i < |stack| && stack[i].id == x.id;
      assert s[i] == stack[i];
    }
  }

  /** A callback that never objects is told of every reachable directory that is one of its own
      ancestors, of every other that cannot be read, and of every listed name that cannot be looked at;
      and no callback is told of trouble there is not. */
  lemma WalkReportsTrouble(w: World, at: seq<string>, info: Info, calls: seq<Call>) returns (more: seq<Call>)
    requires Finite(w) && ListsNames(w) && (w.check ==> info.id in w.ids) && AllNames(at)
    ensures Visit(w, FromComps(at), info, [], calls).calls == calls + more
    ensures forall c :: c in more ==> TrueTrouble(w, c)
    ensures NeverObjects(w) ==> forall names :: Reachable(w, at, info, names) ==> ToldOf(w, at, info, names, more)
  {
    var t := VisitLeavesTree(w, at, info, [], calls);
    more := Flat(t);
    TreeTroubleIsTrue(w, t, []);
    if NeverObjects(w) {
      forall names | Reachable(w, at, info, names)
        ensures ToldOf(w, at, info, names, more)
      {
        ChainIffReachable(w, at, info, [], names);
        var sub, below := ChainedTree(w, t, at, [], names);
        SubtreeTells(w, t, sub, at, info, names, below);
      }
    }
  }

  /** What is to be told of the entry at the end of a path. */
  ghost predicate ToldOf(w: World, at: seq<string>, info: Info, names: seq<string>, calls: seq<Call>) {
    var place, there := at + names, InfoAt(w, at, info, names, |names|);
    there.Got? && (there.value.isDir || place == []) ==>
      if w.check && Passes(w, at, info, names, there.value.id) then
        Call(FromComps(place), Some(there.value), Some(InfiniteRecursion)) in calls
      else match w.dirNames(FromComps(place))
        case Failed(e) => Call(FromComps(place), Some(there.value), Some(e)) in calls
        case Got(list) => forall n :: n in list && w.lstat(FromComps(place + [n])).Failed? ==>
          Call(FromComps(place + [n]), None, Some(w.lstat(FromComps(place + [n])).problem)) in calls
  }

  lemma SubtreeTells(w: World, t: Tree, sub: Tree, at: seq<string>, info: Info, names: seq<string>, below: seq<Info>)
    requires sub.Entry? && Placed(sub, at + names) && Grown(w, sub, below) && Complete(w, sub, below) && PartOf(sub, t)
    requires InfoAt(w, at, info, names, |names|) == Got(sub.info) && StackBelow(w, at, info, names, [], below)
    ensures ToldOf(w, at, info, names, Flat(t))
  {
    var place := at + names;
    if sub.trouble.Some? {
      assert Call(FromComps(place), Some(sub.info), sub.trouble) in Flat(sub);
    } else if sub.info.isDir || place == [] {
      var list := w.dirNames(FromComps(place)).value;
      forall n | n in list && w.lstat(FromComps(place + [n])).Failed?
        ensures Call(FromComps(place + [n]), None, Some(w.lstat(FromComps(place + [n])).problem)) in Flat(t)
      {
        var kid := KidNamed(w, sub.kids, place, Pushed(w, below, sub.info), n);
        assert First(kid) in Flat(kid);
        assert First(kid) in FlatAll(sub.kids);
        assert First(kid) in Flat(sub);
      }
    }
  }
}
