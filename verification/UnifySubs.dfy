/** unifySubs of lib/model/folder.go: from the requested sub-paths of a scan to the directories
    that are scanned. */
module UnifySubs {
  import opened Options
  import opened Paths
  import opened Sorting

  /** Up from a path to the highest directory whose parent is known (or the root). */
  function Climb(dir: string, exists_: string -> bool): string
    requires IsCanonical(dir)
    decreases |Comps(dir)|
  {
    DirShrinks(dir);
    var parent := Dir(dir);
    if parent != "." && parent != [SEP] && !exists_(parent) then Climb(parent, exists_) else dir
  }

  lemma DirShrinks(dir: string)
    requires IsCanonical(dir)
    ensures IsCanonical(Dir(dir)) && Dir(dir) != [SEP]
    ensures Dir(dir) != "." ==> |Comps(Dir(dir))| < |Comps(dir)|
  {
    if dir == "." {
      DirOfRoot();
    } else {
      DirDropsLast(dir);
      CanonicalShape(Dir(dir));
    }
  }

  predicate AtOrBelow(path: string, dir: string) { path == dir || IsParent(path, dir) }

  method ClimbUp(start: string, exists_: string -> bool) returns (dir: string)
    requires IsCanonical(start)
    ensures dir == Climb(start, exists_)
  {
    dir := start;
    DirShrinks(dir);
    var parent := Dir(dir);
    while parent != "." && parent != [SEP] && !exists_(parent)
      invariant IsCanonical(dir) && parent == Dir(dir) && Climb(dir, exists_) == Climb(start, exists_)
      decreases |Comps(dir)|
    {
      DirShrinks(dir);
      dir := parent;
      DirShrinks(dir);
      parent := Dir(dir);
    }
  }

  // ---------------------------------------------------------------- the loop

  /** A request as the loop sees it: not a path, or a canonical path and where climbing from it ends. */
  datatype Request = NoPath | Asks(path: string, climbed: string)

  function AsRequest(dir: string, exists_: string -> bool): Request {
    match Canonicalize(dir)
    case Err(_) => NoPath
    case Ok(path) =>
      CanonicalizeYieldsCanonical(dir);
      Asks(path, Climb(path, exists_))
  }

  function AsRequests(dirs: seq<string>, exists_: string -> bool): (reqs: seq<Request>)
    ensures |reqs| == |dirs| && forall i :: 0 <= i < |dirs| ==> reqs[i] == AsRequest(dirs[i], exists_)
  {
    seq(|dirs|, i requires 0 <= i < |dirs| => AsRequest(dirs[i], exists_))
  }

  /** Anything that cannot be above a canonical path. */
  const NO_PREVIOUS := "./"

  function Last(outs: seq<string>): string { if outs == [] then NO_PREVIOUS else outs[|outs| - 1] }

  /** One round of the loop: a request that is no path, or that the last output covers, is dropped. */
  function Keep(outs: seq<string>, r: Request): seq<string> {
    if r.NoPath? || AtOrBelow(r.path, Last(outs)) then outs else outs + [r.climbed]
  }

  function Run(reqs: seq<Request>): seq<string> {
    if reqs == [] then [] else Keep(Run(reqs[..|reqs| - 1]), reqs[|reqs| - 1])
  }

  predicate AsksForRoot(first: string) { first == "" || first == "." || first == [SEP] }

  /** None stands for scanning the whole folder. */
  function Unified(dirs: seq<string>, exists_: string -> bool): Option<seq<string>> {
    var sorted := Sort(LexLe, dirs);
    if dirs == [] || sorted == [] || AsksForRoot(sorted[0]) then None else Some(Run(AsRequests(sorted, exists_)))
  }

  lemma RunStep(reqs: seq<Request>, t: nat)
    requires t < |reqs|
    ensures Run(reqs[..t + 1]) == Keep(Run(reqs[..t]), reqs[t])
  {
    assert reqs[..t + 1][..t] == reqs[..t] && reqs[..t + 1][t] == reqs[t];
  }

  /** unifySubs. */
  method UnifySubdirs(requested: seq<string>, exists_: string -> bool) returns (r: Option<seq<string>>)
    ensures r == Unified(requested, exists_)
  {
    if |requested| == 0 {
      return None;
    }
    var sorted := Sort(LexLe, requested);
    LexIsLinear();
    SortSorts(LexLe, requested);
    if AsksForRoot(sorted[0]) {
      return None;
    }
    var dirs := UnifySorted(sorted, exists_);
    return Some(dirs);
  }

  lemma Edits(dirs: seq<string>, i: nat, dir: string)
    requires i < |dirs|
    ensures (dirs[..i] + dirs[i + 1..])[..i] == dirs[..i] && (dirs[..i] + dirs[i + 1..])[i..] == dirs[i + 1..]
    ensures dirs[i := dir][..i + 1] == dirs[..i] + [dir] && dirs[i := dir][i + 1..] == dirs[i + 1..]
  {
  }

  /** The loop edits the list in place: what is kept moves to the front. */
  method UnifySorted(sorted: seq<string>, exists_: string -> bool) returns (dirs: seq<string>)
    ensures dirs == Run(AsRequests(sorted, exists_))
  {
    dirs := sorted;
    ghost var t, reqs := 0, AsRequests(sorted, exists_);
    var prev := NO_PREVIOUS;
    var i := 0;
    assert reqs[..0] == [];
    while i < |dirs|
      invariant 0 <= i <= |dirs| && 0 <= t <= |sorted|
      invariant dirs[..i] == Run(reqs[..t]) && dirs[i..] == sorted[t..]
      invariant prev == Last(dirs[..i])
      decreases |dirs| - i
    {
      RunStep(reqs, t);
      assert dirs[i] == dirs[i..][0] == sorted[t] && dirs[i + 1..] == dirs[i..][1..] == sorted[t + 1..];
      var c := Canonicalize(dirs[i]);
      if c.Err? || AtOrBelow(c.path, prev) {
        Edits(dirs, i, dirs[i]);
        dirs := dirs[..i] + dirs[i + 1..];
      } else {
        CanonicalizeYieldsCanonical(dirs[i]);
        var dir := ClimbUp(c.path, exists_);
        Edits(dirs, i, dir);
        dirs := dirs[i := dir];
        prev := dir;
        i := i + 1;
      }
      t := t + 1;
    }
    assert |dirs[i..]| == |sorted[t..]|;
    assert reqs[..t] == reqs && dirs[..i] == dirs;
  }

  // ---------------------------------------------------------------- climbing

  /** The result of climbing is the path or above it; its parent is the root or known; nothing
      between it and the path is known. */
  lemma {:induction false} ClimbFacts(dir: string, exists_: string -> bool)
    requires IsCanonical(dir)
    ensures var o := Climb(dir, exists_);
            && IsCanonical(o) && Comps(o) <= Comps(dir) && (dir != "." ==> o != ".")
            && (Dir(o) == "." || exists_(Dir(o)))
            && (forall q :: IsCanonical(q) && Comps(o) <= Comps(q) && Comps(q) < Comps(dir) ==> !exists_(q))
    decreases |Comps(dir)|
  {
    DirShrinks(dir);
    var parent := Dir(dir);
    if parent != "." && parent != [SEP] && !exists_(parent) {
      ClimbFacts(parent, exists_);
      if dir == "." { DirOfRoot(); } else { DirDropsLast(dir); }
      var o := Climb(dir, exists_);
      var n := |Comps(dir)| - 1;
      assert Comps(parent) == Comps(dir)[..n];
      forall q | IsCanonical(q) && Comps(o) <= Comps(q) && Comps(q) < Comps(dir)
        ensures !exists_(q)
      {
        if |Comps(q)| == n {
          assert Comps(q) == Comps(parent);
          CompsInjective(q, parent);
        } else {
          assert Comps(q) < Comps(parent);
        }
      }
    } else {
      var o := dir;
      assert forall q :: Comps(o) <= Comps(q) && Comps(q) < Comps(dir) ==> |Comps(q)| < |Comps(q)|;
    }
  }

  lemma ClimbIsAbove(c: string, exists_: string -> bool)
    requires IsCanonical(c)
    ensures AtOrBelow(c, Climb(c, exists_))
  {
    ClimbFacts(c, exists_);
    var o := Climb(c, exists_);
    IsParentIffCompsPrefix(c, o);
    if Comps(o) == Comps(c) { CompsInjective(o, c); }
  }

  lemma NothingBelowNoPrevious(c: string)
    requires IsCanonical(c)
    ensures !AtOrBelow(c, NO_PREVIOUS)
  {
    if c != "." {
      assert IsName(Split(c)[0]);
      HeadOfJoin(Split(c));
      JoinOfSplit(c);
      SplitAtSep(".", if |c| >= 2 then c[2..] else "");
      SplitOfName(".");
      assert |c| >= 2 ==> c == c[..2] + c[2..];
    }
  }

  // ---------------------------------------------------------------- what every run covers

  lemma {:induction false} RunPrefix(reqs: seq<Request>, s: nat, t: nat)
    requires s <= t <= |reqs|
    ensures Run(reqs[..s]) <= Run(reqs[..t])
  {
    if s < t {
      RunPrefix(reqs, s, t - 1);
      RunStep(reqs, t - 1);
    }
  }

  /** Output `a` comes from request `i`: that is when it was kept. */
  ghost predicate From(reqs: seq<Request>, a: nat, i: nat) {
    && i < |reqs| && reqs[i].Asks? && |Run(reqs[..i])| == a
    && Run(reqs[..i + 1]) == Run(reqs[..i]) + [reqs[i].climbed]
    && !AtOrBelow(reqs[i].path, Last(Run(reqs[..i])))
  }

  lemma {:induction false} SourceUpTo(reqs: seq<Request>, t: nat, a: nat) returns (i: nat)
    requires t <= |reqs| && a < |Run(reqs[..t])|
    ensures i < t && From(reqs, a, i)
    decreases t
  {
    assert reqs[..0] == [];
    RunStep(reqs, t - 1);
    if a < |Run(reqs[..t - 1])| {
      i := SourceUpTo(reqs, t - 1, a);
    } else {
      i := t - 1;
    }
  }

  /** Where an output comes from. */
  lemma Source(reqs: seq<Request>, a: nat) returns (i: nat)
    requires a < |Run(reqs)|
    ensures From(reqs, a, i) && Run(reqs)[a] == reqs[i].climbed
    ensures a > 0 ==> !AtOrBelow(reqs[i].path, Run(reqs)[a - 1])
  {
    assert reqs[..|reqs|] == reqs;
    i := SourceUpTo(reqs, |reqs|, a);
    RunPrefix(reqs, i + 1, |reqs|);
  }

  lemma SourcesAscend(reqs: seq<Request>, a: nat, i: nat, b: nat, j: nat)
    requires From(reqs, a, i) && From(reqs, b, j) && a < b
    ensures i < j
  {
    if j <= i {
      RunPrefix(reqs, j + 1, i + 1);
    }
  }

  /** The path lies at or below where climbing from it ends, and not below nothing. */
  predicate Sensible(r: Request) {
    r.Asks? ==> AtOrBelow(r.path, r.climbed) && !AtOrBelow(r.path, NO_PREVIOUS)
  }

  lemma RequestsAreSensible(dirs: seq<string>, exists_: string -> bool, i: nat)
    requires i < |dirs|
    ensures Sensible(AsRequests(dirs, exists_)[i])
  {
    var c := Canonicalize(dirs[i]);
    if c.Ok? {
      CanonicalizeYieldsCanonical(dirs[i]);
      ClimbIsAbove(c.path, exists_);
      NothingBelowNoPrevious(c.path);
    }
  }

  /** The last output once a request has been handled covers the request. */
  lemma CoveredBy(reqs: seq<Request>, h: nat) returns (c: nat)
    requires h < |reqs| && reqs[h].Asks? && Sensible(reqs[h])
    ensures |Run(reqs[..h + 1])| == c + 1 && c < |Run(reqs)| && AtOrBelow(reqs[h].path, Run(reqs)[c])
    ensures |Run(reqs[..h])| == c + 1 || Run(reqs)[c] == reqs[h].climbed
  {
    RunStep(reqs, h);
    RunPrefix(reqs, h + 1, |reqs|);
    assert reqs[..|reqs|] == reqs;
    c := |Run(reqs[..h + 1])| - 1;
  }

  /** Every request that names a valid path is an output or below one. */
  lemma UnifiedCovers(requested: seq<string>, exists_: string -> bool, dir: string) returns (a: nat)
    requires dir in requested && Canonicalize(dir).Ok? && Unified(requested, exists_).Some?
    ensures a < |Unified(requested, exists_).value|
    ensures AtOrBelow(Canonicalize(dir).path, Unified(requested, exists_).value[a])
  {
    LexIsLinear();
    SortMembers(LexLe, requested, dir);
    var sorted := Sort(LexLe, requested);
    var i :| 0 <= i < |sorted| && sorted[i] == dir;
    RequestsAreSensible(sorted, exists_, i);
    a := CoveredBy(AsRequests(sorted, exists_), i);
  }

  /** Every output is a requested path or above one, and its parent is the root or known. */
  lemma UnifiedIsNeeded(requested: seq<string>, exists_: string -> bool, a: nat) returns (dir: string)
    requires Unified(requested, exists_).Some? && a < |Unified(requested, exists_).value|
    ensures var o := Unified(requested, exists_).value[a];
            && IsCanonical(o) && (Dir(o) == "." || exists_(Dir(o)))
            && dir in requested && Canonicalize(dir).Ok? && AtOrBelow(Canonicalize(dir).path, o)
  {
    LexIsLinear();
    var sorted := Sort(LexLe, requested);
    var i := Source(AsRequests(sorted, exists_), a);
    dir := sorted[i];
    SortMembers(LexLe, requested, dir);
    CanonicalizeYieldsCanonical(dir);
    ClimbIsAbove(Canonicalize(dir).path, exists_);
    ClimbFacts(Canonicalize(dir).path, exists_);
  }

  // ---------------------------------------------------------------- nesting

  /** Sorted requests in canonical form, none of them for the whole folder. */
  ghost predicate CanonicalRequests(dirs: seq<string>) {
    && (forall i :: 0 <= i < |dirs| ==> IsCanonical(dirs[i]) && dirs[i] != ".")
    && Sorted(LexLe, dirs)
  }

  /** With a path its parents are known. */
  ghost predicate ParentClosed(exists_: string -> bool) {
    forall p, q :: IsCanonical(p) && IsCanonical(q) && q != "." && Comps(q) < Comps(p) && exists_(p) ==> exists_(q)
  }

  lemma AtOrBelowIffComps(path: string, dir: string)
    requires IsCanonical(path) && IsCanonical(dir)
    ensures AtOrBelow(path, dir) <==> Comps(dir) <= Comps(path)
  {
    IsParentIffCompsPrefix(path, dir);
    if Comps(dir) == Comps(path) { CompsInjective(path, dir); }
  }

  lemma BelowExtendsText(path: string, dir: string)
    requires IsCanonical(path) && IsCanonical(dir) && dir != "." && IsParent(path, dir)
    ensures dir + [SEP] <= path && path != dir && LexLe(dir, path)
  {
    CanonicalShape(dir);
    assert path[..|dir| + 1] == dir + [SEP];
    PrefixIsLess(dir, path);
  }

  ghost function Outputs(dirs: seq<string>, exists_: string -> bool): seq<string> {
    Run(AsRequests(dirs, exists_))
  }

  lemma CanonicalRequest(dir: string, exists_: string -> bool)
    requires IsCanonical(dir)
    ensures AsRequest(dir, exists_) == Asks(dir, Climb(dir, exists_))
  {
    CanonicalIffFixpoint(dir);
  }

  /** Where an output comes from, for requests already in canonical form. */
  lemma SourceOf(dirs: seq<string>, exists_: string -> bool, a: nat) returns (i: nat)
    requires CanonicalRequests(dirs) && a < |Outputs(dirs, exists_)|
    ensures From(AsRequests(dirs, exists_), a, i) && AsRequests(dirs, exists_)[i].path == dirs[i]
    ensures Outputs(dirs, exists_)[a] == Climb(dirs[i], exists_)
    ensures a > 0 ==> !AtOrBelow(dirs[i], Outputs(dirs, exists_)[a - 1])
  {
    i := Source(AsRequests(dirs, exists_), a);
    CanonicalRequest(dirs[i], exists_);
  }

  /** No output is strictly above an earlier one. */
  lemma NotAboveEarlier(dirs: seq<string>, exists_: string -> bool, a: nat, b: nat)
    requires CanonicalRequests(dirs) && ParentClosed(exists_) && a < b < |Outputs(dirs, exists_)|
    ensures !IsParent(Outputs(dirs, exists_)[a], Outputs(dirs, exists_)[b])
  {
    var i := SourceOf(dirs, exists_, a);
    var j := SourceOf(dirs, exists_, b);
    SourcesAscend(AsRequests(dirs, exists_), a, i, b, j);
    ClimbNotAbove(dirs[i], dirs[j], exists_);
  }

  lemma ClimbNotAbove(x: string, y: string, exists_: string -> bool)
    requires IsCanonical(x) && IsCanonical(y) && x != "." && y != "." && LexLe(x, y) && ParentClosed(exists_)
    ensures !IsParent(Climb(x, exists_), Climb(y, exists_))
  {
    var o, p := Climb(x, exists_), Climb(y, exists_);
    ClimbFacts(x, exists_);
    ClimbFacts(y, exists_);
    if IsParent(o, p) {
      IsParentIffCompsPrefix(o, p);
      DirDropsLast(o);
      assert Comps(p) <= Comps(Dir(o));
      assert Comps(p) != [];
      if Comps(p) == Comps(Dir(o)) {
        CompsInjective(p, Dir(o));
      }
      assert exists_(p);
      CompsInjective(p, y);
      IsParentIffCompsPrefix(x, y);
      BelowExtendsText(x, y);
      LexTotal(x, y);
    }
  }

  /** What climbs to a place at or below another climb's result lies at or below that result. */
  lemma ClimbsStayBelow(x: string, z: string, exists_: string -> bool)
    requires IsCanonical(x) && IsCanonical(z) && AtOrBelow(Climb(z, exists_), Climb(x, exists_))
    ensures AtOrBelow(z, Climb(x, exists_))
  {
    ClimbFacts(x, exists_);
    ClimbFacts(z, exists_);
    AtOrBelowIffComps(Climb(z, exists_), Climb(x, exists_));
    AtOrBelowIffComps(z, Climb(x, exists_));
  }

  /** Consecutive outputs are never equal or nested. */
  lemma ConsecutiveApart(dirs: seq<string>, exists_: string -> bool, a: nat)
    requires CanonicalRequests(dirs) && ParentClosed(exists_) && a + 1 < |Outputs(dirs, exists_)|
    ensures var outs := Outputs(dirs, exists_); !AtOrBelow(outs[a], outs[a + 1]) && !AtOrBelow(outs[a + 1], outs[a])
  {
    NotAboveEarlier(dirs, exists_, a, a + 1);
    var i := SourceOf(dirs, exists_, a);
    var j := SourceOf(dirs, exists_, a + 1);
    if AtOrBelow(Outputs(dirs, exists_)[a + 1], Outputs(dirs, exists_)[a]) {
      ClimbsStayBelow(dirs[i], dirs[j], exists_);
    }
  }

  // ---------------------------------------------------------------- exactly when outputs nest

  /** No output is equal to or below another one. */
  ghost predicate NestFree(outs: seq<string>) {
    forall a, b :: 0 <= a < |outs| && 0 <= b < |outs| && a != b ==> !AtOrBelow(outs[b], outs[a])
  }

  ghost predicate Topmost(dirs: seq<string>, i: nat)
    requires i < |dirs|
  {
    forall h :: 0 <= h < |dirs| ==> !IsParent(dirs[i], dirs[h])
  }

  /** Request `m` is elsewhere, yet sorts between a topmost request whose parent is known and one
      below that. */
  ghost predicate Interloper(dirs: seq<string>, exists_: string -> bool, i: nat, m: nat, j: nat) {
    && i < m < j < |dirs| && Topmost(dirs, i)
    && (Dir(dirs[i]) == "." || exists_(Dir(dirs[i])))
    && IsParent(dirs[j], dirs[i]) && !AtOrBelow(dirs[m], dirs[i])
  }

  lemma BetweenIsBelow(dir: string, x: string, y: string, z: string)
    requires IsCanonical(dir) && dir != "." && IsCanonical(x) && IsCanonical(y) && IsCanonical(z)
    requires IsParent(x, dir) && IsParent(z, dir) && LexLe(x, y) && LexLe(y, z)
    ensures IsParent(y, dir)
  {
    BelowExtendsText(x, dir);
    BelowExtendsText(z, dir);
    BetweenSharesPrefix(dir + [SEP], x, y, z);
    CanonicalShape(dir);
    CanonicalShape(y);
  }

  /** The path an output with something below it stands for was itself requested. */
  lemma NestingOutputIsRequested(o: string, x: string, y: string, z: string, exists_: string -> bool)
    requires IsCanonical(x) && IsCanonical(y) && IsCanonical(z) && x != "." && o == Climb(x, exists_)
    requires LexLe(x, y) && LexLe(y, z) && LexLe(x, z)
    requires AtOrBelow(z, o) && !AtOrBelow(y, o)
    ensures o == x && IsParent(z, x)
  {
    ClimbFacts(x, exists_);
    ClimbIsAbove(x, exists_);
    if IsParent(x, o) {
      BelowExtendsText(x, o);
      if z == o {
        LexTotal(x, z);
      } else {
        BetweenIsBelow(o, x, y, z);
      }
    } else if z == o {
      LexTotal(x, y);
    }
  }

  /** The requests behind an output, the next one and a still later one. */
  lemma ThreeSources(dirs: seq<string>, exists_: string -> bool, a: nat, b: nat) returns (i: nat, m: nat, j: nat)
    requires CanonicalRequests(dirs) && a + 1 < b < |Outputs(dirs, exists_)|
    ensures i < m < j < |dirs| && From(AsRequests(dirs, exists_), a, i)
    ensures Outputs(dirs, exists_)[a] == Climb(dirs[i], exists_) && Outputs(dirs, exists_)[b] == Climb(dirs[j], exists_)
    ensures !AtOrBelow(dirs[m], Outputs(dirs, exists_)[a])
  {
    i := SourceOf(dirs, exists_, a);
    m := SourceOf(dirs, exists_, a + 1);
    j := SourceOf(dirs, exists_, b);
    SourcesAscend(AsRequests(dirs, exists_), a, i, a + 1, m);
    SourcesAscend(AsRequests(dirs, exists_), a + 1, m, b, j);
  }

  lemma NestedSources(dirs: seq<string>, exists_: string -> bool, a: nat, b: nat) returns (i: nat, m: nat, j: nat)
    requires CanonicalRequests(dirs) && ParentClosed(exists_) && a < b < |Outputs(dirs, exists_)|
    requires AtOrBelow(Outputs(dirs, exists_)[b], Outputs(dirs, exists_)[a])
    ensures i < m < j < |dirs| && From(AsRequests(dirs, exists_), a, i) && Outputs(dirs, exists_)[a] == dirs[i]
    ensures Dir(dirs[i]) == "." || exists_(Dir(dirs[i]))
    ensures IsParent(dirs[j], dirs[i]) && !AtOrBelow(dirs[m], dirs[i])
  {
    if a + 1 == b { ConsecutiveApart(dirs, exists_, a); }
    i, m, j := ThreeSources(dirs, exists_, a, b);
    ClimbFacts(dirs[i], exists_);
    ClimbsStayBelow(dirs[i], dirs[j], exists_);
    NestingOutputIsRequested(Outputs(dirs, exists_)[a], dirs[i], dirs[m], dirs[j], exists_);
  }

  /** Nested outputs betray an interloper. */
  lemma {:induction false} NestedHasInterloper(dirs: seq<string>, exists_: string -> bool, a: nat, b: nat)
    returns (i: nat, m: nat, j: nat)
    requires CanonicalRequests(dirs) && ParentClosed(exists_) && a < b < |Outputs(dirs, exists_)|
    requires AtOrBelow(Outputs(dirs, exists_)[b], Outputs(dirs, exists_)[a])
    ensures Interloper(dirs, exists_, i, m, j)
    decreases a
  {
    i, m, j := NestedSources(dirs, exists_, a, b);
    if h: nat :| h < |dirs| && IsParent(dirs[i], dirs[h]) {
      var c := AboveIsKeptBefore(dirs, exists_, a, i, h);
      i, m, j := NestedHasInterloper(dirs, exists_, c, a);
    }
  }

  /** A request above an output that was requested itself led to an earlier output above both. */
  lemma AboveIsKeptBefore(dirs: seq<string>, exists_: string -> bool, a: nat, i: nat, h: nat) returns (c: nat)
    requires CanonicalRequests(dirs) && From(AsRequests(dirs, exists_), a, i) && a < |Outputs(dirs, exists_)|
    requires Outputs(dirs, exists_)[a] == dirs[i] && h < |dirs| && IsParent(dirs[i], dirs[h])
    ensures c < a && AtOrBelow(Outputs(dirs, exists_)[a], Outputs(dirs, exists_)[c])
  {
    BelowExtendsText(dirs[i], dirs[h]);
    if i < h { LexTotal(dirs[i], dirs[h]); }
    CanonicalRequest(dirs[h], exists_);
    RequestsAreSensible(dirs, exists_, h);
    c := CoveredBy(AsRequests(dirs, exists_), h);
    RunPrefix(AsRequests(dirs, exists_), h + 1, i);
    var k := SourceOf(dirs, exists_, c);
    ClimbFacts(dirs[k], exists_);
    AtOrBelowIffComps(dirs[h], Outputs(dirs, exists_)[c]);
    AtOrBelowIffComps(dirs[i], Outputs(dirs, exists_)[c]);
    IsParentIffCompsPrefix(dirs[i], dirs[h]);
  }

  lemma CompsOfClimb(dir: string, exists_: string -> bool)
    requires IsCanonical(dir) && Climb(dir, exists_) != dir
    ensures Comps(Climb(dir, exists_)) < Comps(dir) && !exists_(Climb(dir, exists_))
  {
    ClimbFacts(dir, exists_);
    var o := Climb(dir, exists_);
    if Comps(o) == Comps(dir) { CompsInjective(o, dir); }
  }

  /** A topmost request whose parent is known is itself an output. */
  lemma TopIsKept(dirs: seq<string>, exists_: string -> bool, i: nat) returns (a: nat)
    requires CanonicalRequests(dirs) && ParentClosed(exists_) && i < |dirs| && Topmost(dirs, i)
    requires Dir(dirs[i]) == "." || exists_(Dir(dirs[i]))
    ensures |Run(AsRequests(dirs, exists_)[..i + 1])| == a + 1
    ensures a < |Outputs(dirs, exists_)| && Outputs(dirs, exists_)[a] == dirs[i]
  {
    var x := dirs[i];
    CanonicalRequest(x, exists_);
    RequestsAreSensible(dirs, exists_, i);
    a := CoveredBy(AsRequests(dirs, exists_), i);
    assert Climb(x, exists_) == x;
    var o := Outputs(dirs, exists_)[a];
    if o != x {
      var k := SourceOf(dirs, exists_, a);
      assert o != dirs[k];
      CompsOfClimb(dirs[k], exists_);
      KnownAbove(x, dirs[k], exists_);
    }
  }

  /** Nothing that climbing ended at without being requested lies above a path with a known parent. */
  lemma KnownAbove(x: string, y: string, exists_: string -> bool)
    requires IsCanonical(x) && IsCanonical(y) && x != "." && y != "." && ParentClosed(exists_)
    requires Dir(x) == "." || exists_(Dir(x))
    requires Climb(y, exists_) != y
    ensures !IsParent(x, Climb(y, exists_))
  {
    var o := Climb(y, exists_);
    ClimbFacts(y, exists_);
    CompsOfClimb(y, exists_);
    IsParentIffCompsPrefix(x, o);
    DirDropsLast(x);
    assert Comps(o) < Comps(x) ==> Comps(o) <= Comps(Dir(x));
    if Comps(o) == Comps(Dir(x)) { CompsInjective(o, Dir(x)); }
  }

  /** From the interloper on, what covers a request is a later output than the topmost one. */
  lemma LaterOutputCovers(reqs: seq<Request>, i: nat, m: nat, j: nat, a: nat) returns (f: nat)
    requires i < m < j < |reqs| && reqs[m].Asks? && reqs[j].Asks? && Sensible(reqs[m]) && Sensible(reqs[j])
    requires |Run(reqs[..i + 1])| == a + 1 && a < |Run(reqs)| && !AtOrBelow(reqs[m].path, Run(reqs)[a])
    ensures a < f < |Run(reqs)| && AtOrBelow(reqs[j].path, Run(reqs)[f])
  {
    var d := CoveredBy(reqs, m);
    RunPrefix(reqs, i + 1, m + 1);
    f := CoveredBy(reqs, j);
    RunPrefix(reqs, m + 1, j + 1);
  }

  lemma InterloperNests(dirs: seq<string>, exists_: string -> bool, i: nat, m: nat, j: nat)
    requires CanonicalRequests(dirs) && ParentClosed(exists_) && Interloper(dirs, exists_, i, m, j)
    ensures !NestFree(Outputs(dirs, exists_))
  {
    var outs := Outputs(dirs, exists_);
    var a := TopIsKept(dirs, exists_, i);
    CanonicalRequest(dirs[m], exists_);
    CanonicalRequest(dirs[j], exists_);
    RequestsAreSensible(dirs, exists_, m);
    RequestsAreSensible(dirs, exists_, j);
    var f := LaterOutputCovers(AsRequests(dirs, exists_), i, m, j, a);
    NotAboveEarlier(dirs, exists_, a, f);
    var k := SourceOf(dirs, exists_, f);
    ClimbFacts(dirs[k], exists_);
    BothAbove(dirs[j], dirs[i], outs[f]);
  }

  /** Two paths above a third are comparable. */
  lemma BothAbove(z: string, x: string, o: string)
    requires IsCanonical(z) && IsCanonical(x) && IsCanonical(o)
    requires IsParent(z, x) && AtOrBelow(z, o) && !IsParent(x, o)
    ensures AtOrBelow(o, x)
  {
    IsParentIffCompsPrefix(z, x);
    AtOrBelowIffComps(z, o);
    IsParentIffCompsPrefix(x, o);
    AtOrBelowIffComps(o, x);
  }

  /** The exact law: outputs nest if and only if a request sorts in between a topmost request with
      a known parent and something below it, without being below it. */
  lemma NestFreeIffNoInterloper(dirs: seq<string>, exists_: string -> bool)
    requires CanonicalRequests(dirs) && ParentClosed(exists_)
    ensures NestFree(Outputs(dirs, exists_)) <==> !exists i: nat, m: nat, j: nat :: Interloper(dirs, exists_, i, m, j)
  {
    var outs := Outputs(dirs, exists_);
    if i: nat, m: nat, j: nat :| Interloper(dirs, exists_, i, m, j) {
      InterloperNests(dirs, exists_, i, m, j);
    }
    if !NestFree(outs) {
      var a: nat, b: nat :| a < |outs| && b < |outs| && a != b && AtOrBelow(outs[b], outs[a]);
      if b < a {
        NotAboveEarlier(dirs, exists_, b, a);
        assert outs[a] == outs[b];
        var i, m, j := NestedHasInterloper(dirs, exists_, b, a);
      } else {
        var i, m, j := NestedHasInterloper(dirs, exists_, a, b);
      }
    }
  }

  lemma ExampleOrder()
    ensures LexLe("a", "a.b") && LexLe("a", "a/c") && LexLe("a.b", "a/c")
  {
  }

  lemma ExamplePaths()
    ensures IsCanonical("a") && IsCanonical("a.b") && IsCanonical("a/c") && Dir("a") == "."
  {
    SplitOfName("a");
    SplitOfName("a.b");
    SplitOfName("c");
    SplitAtSep("a", "c");
    assert "a" + [SEP] + "c" == "a/c";
    DirDropsLast("a");
    FromCompsOfComps(Dir("a"));
  }

  lemma ExampleRequests()
    ensures CanonicalRequests(["a", "a.b", "a/c"])
    ensures IsParent("a/c", "a") && !AtOrBelow("a.b", "a")
  {
    ExampleOrder();
    ExamplePaths();
    var dirs := ["a", "a.b", "a/c"];
    assert dirs[0] == "a" && dirs[1] == "a.b" && dirs[2] == "a/c";
    assert dirs[1][1] == '.' && dirs[2][1] == SEP;
  }

  /** "a.b" is an interloper between "a" and "a/c": the folder scan visits "a/c" twice. */
  lemma OutputsCanNest()
    ensures var known: string -> bool := path => true;
            CanonicalRequests(["a", "a.b", "a/c"]) && ParentClosed(known)
            && !NestFree(Outputs(["a", "a.b", "a/c"], known))
  {
    ExampleRequests();
    ExamplePaths();
    var dirs := ["a", "a.b", "a/c"];
    var known: string -> bool := path => true;
    assert dirs[0] == "a" && dirs[1] == "a.b" && dirs[2] == "a/c";
    assert forall h :: 0 <= h < |dirs| ==> |dirs[h]| >= |dirs[0]|;
    assert Interloper(dirs, known, 0, 1, 2);
    InterloperNests(dirs, known, 0, 1, 2);
  }

  lemma FirstOfSorted(dirs: seq<string>)
    requires dirs != []
    ensures var sorted := Sort(LexLe, dirs);
            sorted != [] && sorted[0] in dirs && forall d :: d in dirs ==> LexLe(sorted[0], d)
  {
    LexIsLinear();
    SortSorts(LexLe, dirs);
    var sorted := Sort(LexLe, dirs);
    SortMembers(LexLe, dirs, sorted[0]);
    forall d | d in dirs
      ensures LexLe(sorted[0], d)
    {
      SortMembers(LexLe, dirs, d);
      var i :| 0 <= i < |sorted| && sorted[i] == d;
      if i == 0 { LexTotal(d, d); }
    }
  }

  /** Everything is scanned exactly if nothing is asked for, or the first request in byte order is one for
      the folder itself. */
  lemma WholeFolderIff(dirs: seq<string>, exists_: string -> bool)
    ensures Unified(dirs, exists_).None? <==>
            dirs == [] || exists d :: d in dirs && d in {"", ".", "/"} && forall e :: e in dirs ==> LexLe(d, e)
  {
    if dirs != [] {
      FirstOfSorted(dirs);
      var first := Sort(LexLe, dirs)[0];
      assert Unified(dirs, exists_).None? <==> first in {"", ".", "/"};
      if d :| d in dirs && d in {"", ".", "/"} && forall e :: e in dirs ==> LexLe(d, e) { LexTotal(d, first); }
    }
  }
}
