/** Lexical path algebra of lib/fs on Unix: paths are strings, `/` separates components.

    `Clean` is modelled as a stack machine over the components; everything the rest of the
    project needs is then stated on component lists (`Comps`). */
module Paths {

  const SEP: char := '/'

  datatype PathError = Invalid | TraversingUpwards | EmptyRoot
  datatype PathResult = Ok(path: string) | Err(error: PathError)

  predicate HasPrefix(s: string, prefix: string) { prefix <= s }

  predicate NoSep(c: string) { SEP !in c }

  /** A component that stands for a file name rather than for "here" or "one up". */
  predicate IsName(c: string) { c != "" && c != "." && c != ".." && NoSep(c) }

  predicate AllNames(cs: seq<string>) { forall i :: 0 <= i < |cs| ==> IsName(cs[i]) }

  // ---------------------------------------------------------------- split and join

  /** PathComponents: strings.Split(path, "/"). */
  function Split(s: string): (cs: seq<string>)
    ensures |cs| >= 1
    ensures forall i :: 0 <= i < |cs| ==> NoSep(cs[i])
  {
    if s == "" then [""]
    else
      var rest := Split(s[1..]);
      if s[0] == SEP then [""] + rest else [[s[0]] + rest[0]] + rest[1..]
  }

  /** strings.Join(cs, "/"). */
  function Join(cs: seq<string>): string {
    if |cs| == 0 then "" else if |cs| == 1 then cs[0] else cs[0] + [SEP] + Join(cs[1..])
  }

  lemma {:induction false} JoinOfSplit(s: string)
    ensures Join(Split(s)) == s
  {
    if s != "" {
      JoinOfSplit(s[1..]);
      var rest := Split(s[1..]);
      if s[0] == SEP {
        assert Split(s)[1..] == rest;
      } else {
        assert Split(s)[1..] == rest[1..];
      }
    }
  }

  lemma {:induction false} SplitOfName(c: string)
    requires NoSep(c)
    ensures Split(c) == [c]
  {
    if c != "" {
      SplitOfName(c[1..]);
      assert c == [c[0]] + c[1..];
      assert c[0] in c;
    }
  }

  lemma SplitHead(x: seq<string>, y: seq<string>, c: char)
    requires |x| >= 1
    ensures [""] + (x + y) == ([""] + x) + y
    ensures [[c] + (x + y)[0]] + (x + y)[1..] == ([[c] + x[0]] + x[1..]) + y
  {
    assert (x + y)[1..] == x[1..] + y;
  }

  /** Splitting commutes with joining two strings at a separator. */
  lemma {:induction false} SplitAtSep(a: string, b: string)
    ensures Split(a + [SEP] + b) == Split(a) + Split(b)
  {
    if a == "" {
      assert a + [SEP] + b == [SEP] + b;
      assert ([SEP] + b)[1..] == b;
    } else {
      SplitAtSep(a[1..], b);
      var s := a + [SEP] + b;
      assert s[1..] == a[1..] + [SEP] + b && s[0] == a[0];
      SplitHead(Split(a[1..]), Split(b), a[0]);
    }
  }

  lemma {:induction false} SplitOfJoin(cs: seq<string>)
    requires |cs| >= 1
    requires forall i :: 0 <= i < |cs| ==> NoSep(cs[i])
    ensures Split(Join(cs)) == cs
  {
    if |cs| == 1 {
      SplitOfName(cs[0]);
    } else {
      SplitOfJoin(cs[1..]);
      SplitAtSep(cs[0], Join(cs[1..]));
      SplitOfName(cs[0]);
    }
  }

  lemma {:induction false} JoinConcat(a: seq<string>, b: seq<string>)
    requires |a| >= 1 && |b| >= 1
    ensures Join(a + b) == Join(a) + [SEP] + Join(b)
  {
    if |a| == 1 {
      assert (a + b)[1..] == b;
    } else {
      JoinConcat(a[1..], b);
      assert (a + b)[1..] == a[1..] + b;
      assert Join(a + b) == a[0] + [SEP] + Join(a[1..] + b);
    }
  }

  // ---------------------------------------------------------------- Clean

  /** One step of filepath.Clean: what a component does to the stack of kept ones. */
  function PushComp(stack: seq<string>, c: string, rooted: bool): seq<string> {
    if c == "" || c == "." then stack
    else if c == ".." then
      if |stack| > 0 && stack[|stack| - 1] != ".." then stack[..|stack| - 1]
      else if rooted then stack
      else stack + [".."]
    else stack + [c]
  }

  function Reduce(cs: seq<string>, rooted: bool): seq<string> {
    if cs == [] then [] else PushComp(Reduce(cs[..|cs| - 1], rooted), cs[|cs| - 1], rooted)
  }

  predicate IsAbs(s: string) { HasPrefix(s, [SEP]) }

  function Clean(s: string): string {
    var stack := Reduce(Split(s), IsAbs(s));
    if IsAbs(s) then [SEP] + Join(stack) else if stack == [] then "." else Join(stack)
  }

  /** A stack `Clean` can end with: names, after a run of ".." if the path is relative. */
  ghost predicate Normal(stack: seq<string>, rooted: bool) {
    exists k: nat :: NormalFrom(stack, k) && (rooted ==> k == 0)
  }

  predicate NormalFrom(stack: seq<string>, k: nat) {
    && k <= |stack|
    && (forall i :: 0 <= i < k ==> stack[i] == "..")
    && (forall i :: k <= i < |stack| ==> IsName(stack[i]))
  }

  lemma {:induction false} ReduceIsNormal(cs: seq<string>, rooted: bool)
    requires forall i :: 0 <= i < |cs| ==> NoSep(cs[i])
    ensures Normal(Reduce(cs, rooted), rooted)
  {
    if cs == [] {
      assert NormalFrom([], 0);
    } else {
      var n := |cs| - 1;
      ReduceIsNormal(cs[..n], rooted);
      var st := Reduce(cs[..n], rooted);
      var k: nat :| NormalFrom(st, k) && (rooted ==> k == 0);
      var r := PushComp(st, cs[n], rooted);
      assert NormalFrom(r, k) || (!rooted && NormalFrom(r, k + 1));
    }
  }

  lemma {:induction false} ReduceOfNormal(st: seq<string>, k: nat, rooted: bool)
    requires NormalFrom(st, k) && (rooted ==> k == 0)
    ensures Reduce(st, rooted) == st
  {
    if st != [] {
      var n := |st| - 1;
      ReduceOfNormal(st[..n], if k > n then n else k, rooted);
      PushNormal(st, k, rooted);
    }
  }

  lemma PushNormal(st: seq<string>, k: nat, rooted: bool)
    requires NormalFrom(st, k) && (rooted ==> k == 0) && st != []
    ensures PushComp(st[..|st| - 1], st[|st| - 1], rooted) == st
  {
    assert st == st[..|st| - 1] + [st[|st| - 1]];
  }

  /** `Reduce` can be resumed: reducing a concatenation continues from the reduced prefix. */
  lemma {:induction false} ReduceNames(cs: seq<string>, names: seq<string>, rooted: bool)
    requires AllNames(names)
    ensures Reduce(cs + names, rooted) == Reduce(cs, rooted) + names
  {
    if names == [] {
      assert cs + names == cs;
    } else {
      var n := |names| - 1;
      var whole := cs + names;
      assert IsName(names[n]);
      ReduceNames(cs, names[..n], rooted);
      assert whole[..|whole| - 1] == cs + names[..n] && whole[|whole| - 1] == names[n];
      var before := Reduce(cs, rooted);
      assert Reduce(whole, rooted) == (before + names[..n]) + [names[n]];
      assert (before + names[..n]) + [names[n]] == before + names;
    }
  }

  // ---------------------------------------------------------------- canonical paths

  /** The normal form the rest of the code works with: "." or names joined by separators. */
  ghost predicate IsCanonical(s: string) {
    s == "." || AllNames(Split(s))
  }

  /** The names on the way from the folder root to a canonical path. */
  function Comps(s: string): seq<string> {
    if s == "." then [] else Split(s)
  }

  function FromComps(cs: seq<string>): string {
    if cs == [] then "." else Join(cs)
  }

  lemma CompsOfFromComps(cs: seq<string>)
    requires AllNames(cs)
    ensures IsCanonical(FromComps(cs)) && Comps(FromComps(cs)) == cs
  {
    if cs != [] {
      assert IsName(cs[0]);
      SplitOfJoin(cs);
      SplitOfName(".");
    }
  }

  lemma FromCompsOfComps(s: string)
    requires IsCanonical(s)
    ensures FromComps(Comps(s)) == s && AllNames(Comps(s))
  {
    JoinOfSplit(s);
  }

  /** A canonical path is determined by its components. */
  lemma CompsInjective(s: string, t: string)
    requires IsCanonical(s) && IsCanonical(t)
    requires Comps(s) == Comps(t)
    ensures s == t
  {
    FromCompsOfComps(s);
    FromCompsOfComps(t);
  }

  /** Canonicalize of lib/fs. */
  function Canonicalize(file: string): PathResult {
    if HasPrefix(file, [SEP, SEP]) then Err(Invalid)
    else
      var cleaned := Clean(file);
      if cleaned == ".." then Err(TraversingUpwards)
      else if HasPrefix(cleaned, ['.', '.', SEP]) then Err(TraversingUpwards)
      else if HasPrefix(cleaned, [SEP]) then
        if cleaned == [SEP] then Ok(".") else Ok(cleaned[1..])
      else Ok(cleaned)
  }

  lemma HeadOfJoin(cs: seq<string>)
    requires |cs| >= 1 && cs[0] != ""
    requires forall i :: 0 <= i < |cs| ==> NoSep(cs[i])
    ensures !HasPrefix(Join(cs), [SEP])
    ensures Join(cs)[0] == cs[0][0]
    ensures (Join(cs) == ".." || HasPrefix(Join(cs), ['.', '.', SEP])) <==> cs[0] == ".."
  {
    var s := Join(cs);
    assert s[0] == cs[0][0];
    assert cs[0][0] in cs[0];
    SplitOfJoin(cs);
    if s == ".." || HasPrefix(s, ['.', '.', SEP]) { UpHead(s); }
    if cs[0] == ".." && |cs| > 1 { assert s == ".." + [SEP] + Join(cs[1..]); }
  }

  lemma UpHead(s: string)
    requires s == ".." || HasPrefix(s, ['.', '.', SEP])
    ensures Split(s)[0] == ".."
  {
    SplitOfName("..");
    if s != ".." {
      assert s == ".." + [SEP] + s[3..];
      SplitAtSep("..", s[3..]);
    }
  }

  /** What Canonicalize returns, in terms of the reduced component stack. */
  lemma CanonicalizeByStack(file: string)
    requires !HasPrefix(file, [SEP, SEP])
    ensures var st := Reduce(Split(file), IsAbs(file));
            Canonicalize(file) == if st != [] && st[0] == ".." then Err(TraversingUpwards) else Ok(FromComps(st))
    ensures Canonicalize(file).Ok? ==> AllNames(Reduce(Split(file), IsAbs(file)))
  {
    var rooted := IsAbs(file);
    var st := Reduce(Split(file), rooted);
    ReduceIsNormal(Split(file), rooted);
    var k: nat :| NormalFrom(st, k) && (rooted ==> k == 0);
    if st != [] {
      assert st[0] == ".." || IsName(st[0]);
      HeadOfJoin(st);
      if rooted {
        assert ([SEP] + Join(st))[1..] == Join(st);
      }
      if st[0] != ".." { assert k == 0; }
    }
  }

  /** Accepted paths are canonical, and canonical paths are exactly the fixed points. */
  lemma CanonicalizeYieldsCanonical(file: string)
    requires Canonicalize(file).Ok?
    ensures IsCanonical(Canonicalize(file).path)
    ensures Canonicalize(Canonicalize(file).path) == Canonicalize(file)
  {
    CanonicalizeByStack(file);
    CompsOfFromComps(Reduce(Split(file), IsAbs(file)));
    CanonicalIffFixpoint(Canonicalize(file).path);
  }

  lemma CanonicalIffFixpoint(s: string)
    ensures IsCanonical(s) <==> Canonicalize(s) == Ok(s)
  {
    if IsCanonical(s) {
      if s == "." {
        SplitOfName(".");
        assert Reduce(["."], false) == PushComp(Reduce([], false), ".", false);
        CanonicalizeByStack(s);
      } else {
        var cs := Split(s);
        JoinOfSplit(s);
        HeadOfJoin(cs);
        assert IsName(cs[0]);
        assert NormalFrom(cs, 0);
        ReduceOfNormal(cs, 0, false);
        CanonicalizeByStack(s);
      }
    } else if Canonicalize(s) == Ok(s) {
      CanonicalizeByStack(s);
      CompsOfFromComps(Reduce(Split(s), IsAbs(s)));
    }
  }

  // ---------------------------------------------------------------- which path is meant

  lemma ReduceSnoc(cs: seq<string>, c: string, rooted: bool)
    ensures Reduce(cs + [c], rooted) == PushComp(Reduce(cs, rooted), c, rooted)
  {
    assert (cs + [c])[..|cs|] == cs;
  }

  lemma ReduceLast(a: seq<string>, b: seq<string>, rooted: bool)
    requires b != []
    ensures Reduce(a + b, rooted) == PushComp(Reduce(a + b[..|b| - 1], rooted), b[|b| - 1], rooted)
  {
    assert a + b == (a + b[..|b| - 1]) + [b[|b| - 1]];
    ReduceSnoc(a + b[..|b| - 1], b[|b| - 1], rooted);
  }

  lemma UpUndoes(a: seq<string>, name: string, rooted: bool)
    requires IsName(name)
    ensures Reduce(a + [name, ".."], rooted) == Reduce(a, rooted)
  {
    var st := Reduce(a, rooted);
    ReduceSnoc(a, name, rooted);
    ReduceSnoc(a + [name], "..", rooted);
    assert a + [name, ".."] == (a + [name]) + [".."];
    assert (st + [name])[..|st|] == st;
  }

  lemma {:induction false} SameBefore(a: seq<string>, a': seq<string>, b: seq<string>, rooted: bool)
    requires Reduce(a, rooted) == Reduce(a', rooted)
    ensures Reduce(a + b, rooted) == Reduce(a' + b, rooted)
  {
    if b == [] {
      assert a + b == a && a' + b == a';
    } else {
      SameBefore(a, a', b[..|b| - 1], rooted);
      ReduceLast(a, b, rooted);
      ReduceLast(a', b, rooted);
    }
  }

  lemma UpCancels(a: seq<string>, name: string, b: seq<string>, rooted: bool)
    requires IsName(name)
    ensures Reduce(a + [name, ".."] + b, rooted) == Reduce(a + b, rooted)
  {
    UpUndoes(a, name, rooted);
    SameBefore(a + [name, ".."], a, b, rooted);
  }

  lemma HereVanishes(a: seq<string>, c: string, b: seq<string>, rooted: bool)
    requires c == "" || c == "." || (c == ".." && rooted && Reduce(a, rooted) == [])
    ensures Reduce(a + [c] + b, rooted) == Reduce(a + b, rooted)
  {
    ReduceSnoc(a, c, rooted);
    SameBefore(a + [c], a, b, rooted);
  }

  lemma SameCanonical(s: string, t: string)
    requires HasPrefix(s, "//") <==> HasPrefix(t, "//")
    requires IsAbs(s) == IsAbs(t) && Reduce(Split(s), IsAbs(s)) == Reduce(Split(t), IsAbs(t))
    ensures Canonicalize(s) == Canonicalize(t)
  {
    if !HasPrefix(s, [SEP, SEP]) {
      CanonicalizeByStack(s);
      CanonicalizeByStack(t);
    }
  }

  /** Whether the middle part changes what the components reduce to. */
  predicate Idle(x: string, middle: string, y: string, rooted: bool) {
    Reduce(Split(x) + Split(middle) + Split(y), rooted) == Reduce(Split(x) + Split(y), rooted)
  }

  lemma SplitThree(x: string, middle: string, y: string)
    ensures Split(x + "/" + middle + "/" + y) == Split(x) + Split(middle) + Split(y)
  {
    SplitAtSep(x, middle);
    SplitAtSep(x + "/" + middle, y);
  }

  lemma Begins(x: string, rest: string)
    requires x != "" && rest != "" && rest[0] == SEP
    ensures IsAbs(x + rest) == IsAbs(x)
    ensures HasPrefix(x + rest, "//") <==> x == "/" || HasPrefix(x, "//")
  {
    var s := x + rest;
    assert s[0] == x[0];
    if |x| == 1 { assert s[1] == SEP; } else { assert s[1] == x[1]; }
    assert HasPrefix(s, "//") <==> s[0] == SEP && s[1] == SEP;
    assert |x| >= 2 ==> (HasPrefix(x, "//") <==> x[0] == SEP && x[1] == SEP);
  }

  lemma SameBeginning(x: string, a: string, b: string)
    requires x != ""
    ensures IsAbs(x + "/" + a) == IsAbs(x + "/" + b) == IsAbs(x)
    ensures HasPrefix(x + "/" + a, "//") <==> HasPrefix(x + "/" + b, "//")
  {
    assert x + "/" + a == x + ("/" + a) && x + "/" + b == x + ("/" + b);
    Begins(x, "/" + a);
    Begins(x, "/" + b);
  }

  lemma IdlePartVanishes(x: string, middle: string, y: string)
    requires x != "" && Idle(x, middle, y, IsAbs(x))
    ensures Canonicalize(x + "/" + middle + "/" + y) == Canonicalize(x + "/" + y)
  {
    var rest := middle + "/" + y;
    assert x + "/" + middle + "/" + y == x + "/" + rest;
    SplitThree(x, middle, y);
    SplitAtSep(x, y);
    SameBeginning(x, rest, y);
    SameCanonical(x + "/" + rest, x + "/" + y);
  }

  /** A name and "..", a "." and a doubled separator may be left out of a path anywhere after its beginning. */
  lemma DetoursDoNotMatter(x: string, name: string, middle: string, y: string)
    requires x != "" && IsName(name)
    requires middle == name + "/.." || middle == "." || middle == ""
    ensures Canonicalize(x + "/" + middle + "/" + y) == Canonicalize(x + "/" + y)
  {
    if middle == name + "/.." {
      assert middle == name + "/" + "..";
      SplitAtSep(name, "..");
      SplitOfName(name);
      SplitOfName("..");
      assert Split(middle) == [name, ".."];
      UpCancels(Split(x), name, Split(y), IsAbs(x));
    } else {
      SplitOfName(middle);
      HereVanishes(Split(x), middle, Split(y), IsAbs(x));
    }
    IdlePartVanishes(x, middle, y);
  }

  lemma ReduceCanonical(c: string, rooted: bool)
    requires IsCanonical(c)
    ensures Reduce(Split(c), rooted) == Comps(c)
  {
    if c == "." {
      SplitOfName(".");
      assert ["."][..0] == [] && Reduce([], rooted) == [];
    } else {
      assert NormalFrom(Split(c), 0);
      ReduceOfNormal(Split(c), 0, rooted);
    }
  }

  lemma SplitRooted(c: string)
    ensures Split("/" + c) == [""] + Split(c) && Split("/../" + c) == ["", ".."] + Split(c)
  {
    SplitAtSep("", c);
    assert "" + [SEP] + c == "/" + c;
    SplitThree("", "..", c);
    SplitOfName("..");
    assert "" + "/" + ".." + "/" + c == "/../" + c;
  }

  lemma RootedCanonical(s: string, front: seq<string>, c: string)
    requires IsCanonical(c) && (front == [""] || front == ["", ".."]) && Split(s) == front + Split(c)
    requires IsAbs(s) && !HasPrefix(s, "//")
    ensures Canonicalize(s) == Ok(c)
  {
    RootedFront(front, Split(c));
    ReduceCanonical(c, true);
    CanonicalizeByStack(s);
    FromCompsOfComps(c);
    assert Comps(c) != [] ==> IsName(Comps(c)[0]);
  }

  /** A leading separator stands for the folder root, above which there is nothing. */
  lemma RootIsTheFolder(c: string)
    requires IsCanonical(c)
    ensures Canonicalize("/" + c) == Ok(c) && Canonicalize("/../" + c) == Ok(c)
  {
    var s, t := "/" + c, "/../" + c;
    SplitRooted(c);
    CanonicalShape(c);
    assert s[0] == SEP && s[1] == c[0] && t[0] == SEP && t[1] == '.';
    RootedCanonical(s, [""], c);
    RootedCanonical(t, ["", ".."], c);
  }

  lemma RootedFront(front: seq<string>, cs: seq<string>)
    requires front == [""] || front == ["", ".."]
    ensures Reduce(front + cs, true) == Reduce(cs, true)
  {
    var none: seq<string> := [];
    HereVanishes(none, "", cs, true);
    assert none + [""] + cs == [""] + cs && none + cs == cs;
    if front == ["", ".."] {
      assert [""][..0] == [];
      assert Reduce([""], true) == [];
      HereVanishes([""], "..", cs, true);
      assert [""] + [".."] + cs == front + cs;
    }
  }

  // ---------------------------------------------------------------- when is a path refused

  /** How far below its start a component list ends, counting a name as one down and ".." as one up. */
  function Depth(cs: seq<string>): int {
    if cs == [] then 0
    else
      var d := Depth(cs[..|cs| - 1]);
      var c := cs[|cs| - 1];
      if c == "" || c == "." then d else if c == ".." then d - 1 else d + 1
  }

  /** Some prefix of the components leads above the starting point. */
  ghost predicate Escapes(cs: seq<string>) {
    exists k :: 0 <= k <= |cs| && Depth(cs[..k]) < 0
  }

  lemma EscapesStep(cs: seq<string>)
    requires cs != []
    ensures Escapes(cs) <==> Escapes(cs[..|cs| - 1]) || Depth(cs) < 0
  {
    var n := |cs| - 1;
    var init := cs[..n];
    if Escapes(cs) {
      var k :| 0 <= k <= |cs| && Depth(cs[..k]) < 0;
      if k <= n {
        assert cs[..k] == init[..k];
      } else {
        assert cs[..k] == cs;
      }
    }
    if Escapes(init) {
      var k :| 0 <= k <= n && Depth(init[..k]) < 0;
      assert cs[..k] == init[..k];
    }
    assert cs[..|cs|] == cs;
  }

  /** The bottom of the stack of a relative path is ".." exactly when the path escapes; otherwise
      the stack holds as many names as the path is deep. */
  lemma {:induction false} StackTracksDepth(cs: seq<string>)
    requires forall i :: 0 <= i < |cs| ==> NoSep(cs[i])
    ensures var st := Reduce(cs, false);
            if Escapes(cs) then st != [] && st[0] == ".."
            else AllNames(st) && |st| == Depth(cs)
  {
    if cs == [] {
      assert !Escapes(cs);
    } else {
      var init := cs[..|cs| - 1];
      StackTracksDepth(init);
      EscapesStep(cs);
      ReduceIsNormal(init, false);
    }
  }

  /** Canonicalize refuses exactly the double-slash paths and the relative paths that at some
      component lead above the folder root. */
  lemma CanonicalizeRefusesIff(file: string)
    ensures Canonicalize(file).Err? <==>
            HasPrefix(file, [SEP, SEP]) || (!IsAbs(file) && Escapes(Split(file)))
  {
    if !HasPrefix(file, [SEP, SEP]) {
      CanonicalizeByStack(file);
      if IsAbs(file) {
        ReduceIsNormal(Split(file), true);
      } else {
        StackTracksDepth(Split(file));
        var st := Reduce(Split(file), false);
        if !Escapes(Split(file)) && st != [] { assert IsName(st[0]); }
      }
    }
  }

  // ---------------------------------------------------------------- IsParent

  /** IsParent of lib/fs/util.go. */
  predicate IsParent(path: string, parent: string) {
    if parent == path then false
    else if IsAbs(path) != IsAbs(parent) then false
    else if parent == "" || parent == "." then path != "" && path != "."
    else if parent == [SEP] then path != [SEP]
    else if parent[|parent| - 1] == SEP then HasPrefix(path, parent)
    else HasPrefix(path, parent) && |path| > |parent| && path[|parent|] == SEP
  }

  lemma PrefixIffComps(path: string, parent: string)
    ensures (|path| > |parent| && parent <= path && path[|parent|] == SEP) <==> Split(parent) < Split(path)
  {
    if |path| > |parent| && parent <= path && path[|parent|] == SEP {
      var rest := path[|parent| + 1..];
      assert path == parent + [SEP] + rest;
      SplitAtSep(parent, rest);
    }
    if Split(parent) < Split(path) {
      var a, b := Split(parent), Split(path)[|Split(parent)|..];
      assert Split(path) == a + b;
      JoinConcat(a, b);
      JoinOfSplit(path);
      JoinOfSplit(parent);
    }
  }

  lemma CanonicalShape(s: string)
    requires IsCanonical(s)
    ensures s != "" && !IsAbs(s) && s[|s| - 1] != SEP
  {
    if s != "." {
      var cs := Split(s);
      JoinOfSplit(s);
      assert IsName(cs[0]);
      HeadOfJoin(cs);
      assert IsName(cs[|cs| - 1]);
      SplitAtSep(s[..|s| - 1], "");
      assert s == s[..|s| - 1] + [s[|s| - 1]] + "";
    }
  }

  /** On canonical paths IsParent is exactly "strict prefix of the component list". */
  lemma IsParentIffCompsPrefix(path: string, parent: string)
    requires IsCanonical(path) && IsCanonical(parent)
    ensures IsParent(path, parent) <==> Comps(parent) < Comps(path)
  {
    CanonicalShape(path);
    CanonicalShape(parent);
    if path == parent {
    } else if parent == "." {
    } else if path == "." {
      assert !HasPrefix(path, parent) || |path| <= |parent|;
    } else {
      PrefixIffComps(path, parent);
    }
  }

  // ---------------------------------------------------------------- Dir, Base, rooted

  /** The part of a path up to and including its last separator. */
  function UpToLastSep(s: string): (r: string)
    ensures |r| <= |s|
  {
    if s == "" then "" else if s[|s| - 1] == SEP then s else UpToLastSep(s[..|s| - 1])
  }

  /** filepath.Dir. */
  function Dir(s: string): string { Clean(UpToLastSep(s)) }

  /** filepath.Base on a path without trailing separators. */
  function Base(s: string): string { s[|UpToLastSep(s)|..] }

  lemma {:induction false} UpToLastSepOf(a: string, name: string)
    requires NoSep(name)
    ensures UpToLastSep(a + [SEP] + name) == a + [SEP]
    ensures UpToLastSep(name) == ""
  {
    if name == "" {
      assert a + [SEP] + name == a + [SEP];
    } else {
      var n := |name| - 1;
      UpToLastSepOf(a, name[..n]);
      var s := a + [SEP] + name;
      assert s[|s| - 1] == name[n];
      assert s[..|s| - 1] == a + [SEP] + name[..n];
    }
  }

  /** Dir drops the last component of a canonical path; Base is that component. */
  lemma DirDropsLast(s: string)
    requires IsCanonical(s) && s != "."
    ensures IsCanonical(Dir(s))
    ensures Comps(Dir(s)) == Comps(s)[..|Comps(s)| - 1]
    ensures Base(s) == Comps(s)[|Comps(s)| - 1]
  {
    var cs := Split(s);
    JoinOfSplit(s);
    var n := |cs| - 1;
    if n == 0 {
      UpToLastSepOf("", cs[0]);
      assert Split("") == [""];
      assert Reduce([""], false) == PushComp(Reduce([], false), "", false);
      assert Dir(s) == ".";
    } else {
      var a := cs[..n];
      assert cs == a + [cs[n]];
      JoinConcat(a, [cs[n]]);
      UpToLastSepOf(Join(a), cs[n]);
      assert UpToLastSep(s) == Join(a) + [SEP] + "";
      SplitAtSep(Join(a), "");
      SplitOfJoin(a);
      assert Split(UpToLastSep(s)) == a + [""];
      assert (a + [""])[..n] == a;
      assert IsName(a[0]);
      HeadOfJoin(a);
      assert !IsAbs(UpToLastSep(s));
      assert NormalFrom(a, 0);
      ReduceOfNormal(a, 0, false);
      assert Reduce(a + [""], false) == PushComp(Reduce(a, false), "", false);
      assert Dir(s) == FromComps(a);
      CompsOfFromComps(a);
    }
  }

  lemma DirOfRoot()
    ensures Dir(".") == "."
  {
    UpToLastSepOf("", ".");
    assert Split("") == [""];
    assert Reduce([""], false) == PushComp(Reduce([], false), "", false);
  }

  /** filepath.Join of two elements, of which the first is not empty. */
  function JoinPath(root: string, rel: string): string
    requires root != ""
  {
    if rel == "" then Clean(root) else Clean(root + [SEP] + rel)
  }

  /** rooted of lib/fs/basicfs.go. */
  function Rooted(rel: string, root: string): PathResult {
    if root == "" then Err(EmptyRoot)
    else match Canonicalize(rel)
      case Err(e) => Err(e)
      case Ok(c) => Ok(JoinPath(root, c))
  }

  /** The names below "/" of a clean absolute path. */
  function AbsComps(s: string): seq<string>
    requires IsAbs(s)
  {
    if s == [SEP] then [] else Split(s[1..])
  }

  ghost predicate IsCleanAbs(s: string) {
    IsAbs(s) && (s == [SEP] || AllNames(Split(s[1..])))
  }

  lemma CleanAbsOfComps(cs: seq<string>)
    requires AllNames(cs)
    ensures var s := [SEP] + Join(cs); IsCleanAbs(s) && AbsComps(s) == cs
  {
    var s := [SEP] + Join(cs);
    assert s[1..] == Join(cs);
    if cs != [] {
      SplitOfJoin(cs);
      assert IsName(cs[0]);
      HeadOfJoin(cs);
    }
  }

  /** The component stack of a clean absolute path is its list of names. */
  lemma ReduceOfCleanAbs(root: string)
    requires IsCleanAbs(root)
    ensures Reduce(Split(root), true) == AbsComps(root)
  {
    SplitAtSep("", root[1..]);
    assert root == "" + [SEP] + root[1..];
    assert Split("") == [""];
    var names := AbsComps(root);
    assert [""][..0] == [] && ["", ""][..1] == [""];
    assert Reduce([""], true) == [];
    assert Reduce(["", ""], true) == [];
    if root == [SEP] {
      assert Split(root) == ["", ""];
    } else {
      ReduceNames([""], names, true);
    }
  }

  lemma ReduceJoined(root: string, rel: string)
    requires IsCleanAbs(root) && IsCanonical(rel)
    ensures Reduce(Split(root + [SEP] + rel), true) == AbsComps(root) + Comps(rel)
  {
    SplitAtSep(root, rel);
    ReduceOfCleanAbs(root);
    if rel == "." {
      SplitOfName(".");
      assert (Split(root) + ["."])[..|Split(root)|] == Split(root);
    } else {
      ReduceNames(Split(root), Split(rel), true);
    }
  }

  /** Joining a canonical path below a clean absolute root appends its components. */
  lemma JoinPathComps(root: string, rel: string)
    requires IsCleanAbs(root) && IsCanonical(rel)
    ensures var r := JoinPath(root, rel);
            IsCleanAbs(r) && AbsComps(r) == AbsComps(root) + Comps(rel)
  {
    var all := AbsComps(root) + Comps(rel);
    JoinIsClean(root, rel);
    ReduceJoined(root, rel);
    NamesJoined(root, rel);
    CleanAbsOfComps(all);
  }

  lemma JoinIsClean(root: string, rel: string)
    requires IsCleanAbs(root) && IsCanonical(rel)
    ensures JoinPath(root, rel) == [SEP] + Join(Reduce(Split(root + [SEP] + rel), true))
  {
    CanonicalShape(rel);
    assert (root + [SEP] + rel)[0] == SEP;
  }

  lemma NamesJoined(root: string, rel: string)
    requires IsCleanAbs(root) && IsCanonical(rel)
    ensures AllNames(AbsComps(root) + Comps(rel))
  {
    FromCompsOfComps(rel);
  }

  /** A path below a folder never leaves the folder's root: `Rooted` yields the root itself
      exactly for the paths that canonicalize to ".", and otherwise something IsParent places
      strictly below the root, with the components of the root and then of the path. */
  lemma RootedStaysBelowRoot(rel: string, root: string)
    requires IsCleanAbs(root)
    ensures Rooted(rel, root).Ok? <==> Canonicalize(rel).Ok?
    ensures Rooted(rel, root).Ok? ==>
              var r := Rooted(rel, root).path;
              && IsCleanAbs(r) && AbsComps(r) == AbsComps(root) + Comps(Canonicalize(rel).path)
              && if Canonicalize(rel).path == "." then r == root else IsParent(r, root)
  {
    if Canonicalize(rel).Ok? {
      CanonicalizeYieldsCanonical(rel);
      var c := Canonicalize(rel).path;
      var r := JoinPath(root, c);
      JoinPathComps(root, c);
      AbsIsParent(r, root);
      if c == "." {
        assert AbsComps(r) == AbsComps(root);
        JoinOfSplit(r[1..]);
        JoinOfSplit(root[1..]);
        assert r == [SEP] + r[1..] && root == [SEP] + root[1..];
        SingleSepHasNoNames(r);
        SingleSepHasNoNames(root);
      }
    }
  }

  lemma SingleSepHasNoNames(s: string)
    requires IsCleanAbs(s)
    ensures s == [SEP] <==> AbsComps(s) == []
  {
  }

  lemma AbsIsParent(path: string, parent: string)
    requires IsCleanAbs(path) && IsCleanAbs(parent)
    ensures IsParent(path, parent) <==> AbsComps(parent) < AbsComps(path)
  {
    if parent == path {
    } else if parent == [SEP] {
    } else {
      var p, q := path[1..], parent[1..];
      assert path == [SEP] + p && parent == [SEP] + q;
      JoinOfSplit(q);
      assert AllNames(Split(q));
      CanonicalShape(q);
      assert parent[|parent| - 1] == q[|q| - 1];
      PrefixIffComps(p, q);
      assert HasPrefix(path, parent) <==> q <= p;
      if |path| > |parent| { assert path[|parent|] == p[|q|]; }
      if path == [SEP] {
        assert AbsComps(path) == [];
      }
    }
  }
}
