/** The walker (lib/fs/walkfs.go): recursion over directories that may contain themselves, made
    terminating by a list of the ancestors. */
module WalkFs {
  import opened Paths
  import opened Options

  /** What os.SameFile compares. */
  type FileID = nat

  datatype Info = Info(id: FileID, isDir: bool)

  datatype Problem = BadPath(e: PathError) | InfiniteRecursion | Failure(code: nat)

  /** What a callback returns: nil, SkipDir or another error. */
  datatype Outcome = Continue | SkipDir | Stop(problem: Problem)

  datatype Result<T> = Got(value: T) | Failed(problem: Problem)

  /** A call of the callback. */
  datatype Call = Call(path: string, info: Option<Info>, err: Option<Problem>)

  /** The file system below the walker, the callback as a function of all calls so far, and whether
      recursion is checked. `ids` holds the identities of all files; `rank` bounds the depth below a
      path and matters only where recursion is not checked. */
  datatype World = World(
    lstat: string -> Result<Info>, dirNames: string -> Result<seq<string>>, fn: seq<Call> -> Outcome,
    check: bool, ids: set<FileID>, rank: string -> nat)

  /** filepath.Join of a canonical path and a name. */
  function Child(p: string, name: string): string
    requires IsCanonical(p)
  {
    CanonicalShape(p);
    JoinPath(p, name)
  }

  lemma ChildAdds(p: string, name: string)
    requires IsCanonical(p) && IsName(name)
    ensures IsCanonical(Child(p, name)) && Comps(Child(p, name)) == Comps(p) + [name]
    ensures Canonicalize(Child(p, name)) == Ok(Child(p, name))
  {
    CanonicalShape(p);
    var whole := p + [SEP] + name;
    assert whole[0] == p[0];
    SplitAtSep(p, name);
    SplitOfName(name);
    ReduceNames(Split(p), [name], false);
    if p == "." {
      SplitOfName(".");
      assert Reduce(["."], false) == PushComp(Reduce([], false), ".", false);
    } else {
      assert NormalFrom(Split(p), 0);
      ReduceOfNormal(Split(p), 0, false);
    }
    assert Reduce(Split(whole), false) == Comps(p) + [name];
    FromCompsOfComps(p);
    CompsOfFromComps(Comps(p) + [name]);
    CanonicalIffFixpoint(Child(p, name));
  }

  function RankOf(w: World, path: string): nat {
    match Canonicalize(path) case Ok(p) => w.rank(p) case Err(_) => 0
  }

  /** With the check on, there are finitely many files; with it off, finite depth. */
  ghost predicate Finite(w: World) {
    if w.check then forall p: string :: w.lstat(p).Got? ==> w.lstat(p).value.id in w.ids
    else forall p: string :: IsCanonical(p) && w.dirNames(p).Got? ==>
           forall i :: 0 <= i < |w.dirNames(p).value| ==> RankOf(w, Child(p, w.dirNames(p).value[i])) < w.rank(p)
  }

  predicate OnStack(stack: seq<Info>, info: Info) {
    exists i :: 0 <= i < |stack| && stack[i].id == info.id
  }

  function StackIDs(stack: seq<Info>): set<FileID> { set i | 0 <= i < |stack| :: stack[i].id }

  /** The identities not yet on the stack, or the depth left. */
  function Measure(w: World, path: string, stack: seq<Info>): nat {
    if w.check then |w.ids - StackIDs(stack)| else RankOf(w, path)
  }

  lemma PushShrinks(w: World, stack: seq<Info>, info: Info)
    requires w.check && info.id in w.ids && !OnStack(stack, info)
    ensures |w.ids - StackIDs(stack + [info])| < |w.ids - StackIDs(stack)|
  {
    assert info.id !in StackIDs(stack);
    var s := stack + [info];
    assert s[|stack|].id == info.id;
    forall i | 0 <= i < |stack| ensures stack[i].id in StackIDs(s) { assert s[i] == stack[i]; }
    assert w.ids - StackIDs(s) < w.ids - StackIDs(stack) by {
      assert info.id in w.ids - StackIDs(stack);
      assert info.id !in w.ids - StackIDs(s);
    }
    SmallerSet(w.ids - StackIDs(s), w.ids - StackIDs(stack));
  }

  lemma SmallerSet<T>(a: set<T>, b: set<T>)
    requires a < b
    ensures |a| < |b|
  {
    assert b == a + (b - a);
    assert |b| == |a| + |b - a|;
  }

  // ---------------------------------------------------------------- the walk as a function

  datatype Walked = Walked(calls: seq<Call>, out: Outcome)

  function Pushed(w: World, stack: seq<Info>, info: Info): seq<Info> { if w.check then stack + [info] else stack }

  /** Calls the callback and returns what it returns. */
  function Report(w: World, calls: seq<Call>, c: Call): Walked { Walked(calls + [c], w.fn(calls + [c])) }

  function Visit(w: World, path: string, info: Info, stack: seq<Info>, calls: seq<Call>): Walked
    requires Finite(w) && (w.check ==> info.id in w.ids)
    decreases Measure(w, path, stack), 2, 0
  {
    match Canonicalize(path)
    case Err(e) => Walked(calls, Stop(BadPath(e)))
    case Ok(p) =>
      CanonicalizeYieldsCanonical(path);
      var r := Report(w, calls, Call(p, Some(info), None));
      if r.out != Continue then (if info.isDir && r.out == SkipDir then Walked(r.calls, Continue) else r)
      else if !info.isDir && p != "." then r
      else if w.check && OnStack(stack, info) then Report(w, r.calls, Call(p, Some(info), Some(InfiniteRecursion)))
      else match w.dirNames(p)
        case Failed(e) => Report(w, r.calls, Call(p, Some(info), Some(e)))
        case Got(names) =>
          if w.check then PushShrinks(w, stack, info); VisitAll(w, p, names, Pushed(w, stack, info), r.calls)
          else VisitAll(w, p, names, stack, r.calls)
  }

  /** The loop over the names in a directory. */
  function VisitAll(w: World, p: string, names: seq<string>, stack: seq<Info>, calls: seq<Call>): Walked
    requires Finite(w) && IsCanonical(p)
    requires !w.check ==> forall i :: 0 <= i < |names| ==> RankOf(w, Child(p, names[i])) < w.rank(p)
    decreases if w.check then |w.ids - StackIDs(stack)| else w.rank(p), if w.check then 3 else 1, |names|
  {
    if names == [] then Walked(calls, Continue)
    else
      var filename := Child(p, names[0]);
      match w.lstat(filename)
      case Failed(e) =>
        var r := Report(w, calls, Call(filename, None, Some(e)));
        if r.out.Stop? then r else VisitAll(w, p, names[1..], stack, r.calls)
      case Got(info) =>
        var r := Visit(w, filename, info, stack, calls);
        if r.out != Continue && (!info.isDir || r.out != SkipDir) then r
        else VisitAll(w, p, names[1..], stack, r.calls)
  }

  function WalkFrom(w: World, root: string): Walked
    requires Finite(w)
  {
    match w.lstat(root)
    case Failed(e) => Report(w, [], Call(root, None, Some(e)))
    case Got(info) => Visit(w, root, info, [], [])
  }

  // ---------------------------------------------------------------- the walker

  class Walker {
    const w: World
    var ancestors: seq<Info>
    var calls: seq<Call>

    constructor (w: World)
      ensures this.w == w && ancestors == [] && calls == []
    {
      this.w, ancestors, calls := w, [], [];
    }

    method Push(info: Info)
      modifies `ancestors
      ensures ancestors == old(ancestors) + [info]
    {
      ancestors := ancestors + [info];
    }

    method Pop()
      requires ancestors != []
      modifies `ancestors
      ensures ancestors == old(ancestors)[..|old(ancestors)| - 1]
    {
      ancestors := ancestors[..|ancestors| - 1];
    }

    method Contains(info: Info) returns (found: bool)
      ensures found == OnStack(ancestors, info)
    {
      for i := 0 to |ancestors|
        invariant forall j :: 0 <= j < i ==> ancestors[j].id != info.id
      {
        if ancestors[i].id == info.id {
          return true;
        }
      }
      found := false;
    }

    method CallBack(c: Call) returns (out: Outcome)
      modifies `calls
      ensures Walked(calls, out) == Report(w, old(calls), c)
    {
      calls := calls + [c];
      out := w.fn(calls);
    }

    /** It terminates, calls back as Visit says, and leaves the ancestors as it found them. */
    method Walk(path: string, info: Info) returns (out: Outcome)
      requires Finite(w) && (w.check ==> info.id in w.ids)
      modifies this
      ensures ancestors == old(ancestors)
      ensures Walked(calls, out) == Visit(w, path, info, old(ancestors), old(calls))
      decreases Measure(w, path, ancestors), 2, 0
    {
      var canonical := Canonicalize(path);
      if canonical.Err? {
        return Stop(BadPath(canonical.error));
      }
      var p := canonical.path;
      CanonicalizeYieldsCanonical(path);
      out := CallBack(Call(p, Some(info), None));
      if out != Continue {
        if info.isDir && out == SkipDir {
          return Continue;
        }
        return;
      }
      if !info.isDir && p != "." {
        return;
      }
      if w.check {
        var found := Contains(info);
        if found {
          out := CallBack(Call(p, Some(info), Some(InfiniteRecursion)));
          return;
        }
      }
      out := WalkDir(p, info);
    }

    /** Walk of the file system: from the entry a path names. */
    method WalkRoot(root: string) returns (out: Outcome)
      requires Finite(w) && ancestors == [] && calls == []
      modifies this
      ensures ancestors == []
      ensures Walked(calls, out) == WalkFrom(w, root)
    {
      match w.lstat(root) {
        case Failed(e) => out := CallBack(Call(root, None, Some(e)));
        case Got(info) => out := Walk(root, info);
      }
    }

    /** The rest of it once the directory is to be read: pushed on the ancestors and, by the deferred
        call, popped again. */
    method WalkDir(p: string, info: Info) returns (out: Outcome)
      requires Finite(w) && IsCanonical(p) && (w.check ==> info.id in w.ids && !OnStack(ancestors, info))
      modifies this
      ensures ancestors == old(ancestors)
      ensures match w.dirNames(p)
              case Failed(e) => Walked(calls, out) == Report(w, old(calls), Call(p, Some(info), Some(e)))
              case Got(names) =>
                Walked(calls, out) == VisitAll(w, p, names, Pushed(w, old(ancestors), info), old(calls))
      decreases if w.check then |w.ids - StackIDs(ancestors)| else w.rank(p), 1, 1
    {
      if w.check {
        PushShrinks(w, ancestors, info);
        Push(info);
      }
      var names := w.dirNames(p);
      match names {
        case Failed(e) => out := CallBack(Call(p, Some(info), Some(e)));
        case Got(list) => out := WalkNames(p, list);
      }
      if w.check {
        Pop();
      }
    }

    method WalkNames(p: string, names: seq<string>) returns (out: Outcome)
      requires Finite(w) && IsCanonical(p)
      requires !w.check ==> forall i :: 0 <= i < |names| ==> RankOf(w, Child(p, names[i])) < w.rank(p)
      modifies this
      ensures ancestors == old(ancestors)
      ensures Walked(calls, out) == VisitAll(w, p, names, old(ancestors), old(calls))
      decreases if w.check then |w.ids - StackIDs(ancestors)| else w.rank(p), if w.check then 3 else 1, 0
    {
      ghost var whole := VisitAll(w, p, names, ancestors, calls);
      assert names[0..] == names;
      for i := 0 to |names|
        invariant ancestors == old(ancestors)
        invariant VisitAll(w, p, names[i..], ancestors, calls) == whole
      {
        var filename := Child(p, names[i]);
        assert names[i..][0] == names[i] && names[i..][1..] == names[i + 1..];
        match w.lstat(filename) {
          case Failed(e) =>
            out := CallBack(Call(filename, None, Some(e)));
            if out.Stop? {
              return;
            }
          case Got(info) =>
            out := Walk(filename, info);
            if out != Continue {
              if !info.isDir || out != SkipDir {
                return;
              }
            }
        }
      }
      out := Continue;
    }
  }
}
