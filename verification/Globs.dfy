/** The glob fragment that ignore patterns are compiled to, with `/` as the separator:
    literals, `?`, `*`, `**` and backslash escapes. */
module Globs {
  import opened Options
  import opened Paths


  datatype Token = Lit(c: char) | Single | Star | Super

  type Glob = seq<Token>

  function Prepend(t: Token, g: Option<Glob>): Option<Glob> {
    if g.None? then None else Some([t] + g.value)
  }

  /** glob.Compile. Character classes and alternatives are outside the fragment. */
  function Compile(s: string): Option<Glob> {
    if s == "" then Some([])
    else if s[0] == '*' then
      if |s| >= 2 && s[1] == '*' then Prepend(Super, Compile(s[2..])) else Prepend(Star, Compile(s[1..]))
    else if s[0] == '?' then Prepend(Single, Compile(s[1..]))
    else if s[0] == '\\' then
      if |s| == 1 then Some([]) else Prepend(Lit(s[1]), Compile(s[2..]))
    else if s[0] == '[' || s[0] == '{' then None
    else Prepend(Lit(s[0]), Compile(s[1..]))
  }

  /** Does the whole of `s` match? Only `**` reaches across a separator. */
  predicate Matches(g: Glob, s: string)
    decreases |g| + |s|
  {
    if g == [] then s == ""
    else match g[0]
      case Lit(c) => s != "" && s[0] == c && Matches(g[1..], s[1..])
      case Single => s != "" && s[0] != SEP && Matches(g[1..], s[1..])
      case Star => Matches(g[1..], s) || (s != "" && s[0] != SEP && Matches(g, s[1..]))
      case Super => Matches(g[1..], s) || (s != "" && Matches(g, s[1..]))
  }

  lemma {:induction false} SuperMatchesAll(s: string)
    ensures Matches([Super], s)
  {
    if s != "" {
      SuperMatchesAll(s[1..]);
    }
  }

  lemma {:induction false} SuperStarMatchesAll(s: string)
    ensures Matches([Super, Star], s)
  {
    if s == "" {
      assert [Super, Star][1..] == [Star];
      assert [Star][1..] == [];
    } else {
      SuperStarMatchesAll(s[1..]);
    }
  }

  /** A concatenation of globs matches a concatenation of matching strings ... */
  lemma {:induction false} MatchesJoin(g: Glob, h: Glob, s: string, t: string)
    requires Matches(g, s) && Matches(h, t)
    ensures Matches(g + h, s + t)
    decreases |g| + |s|
  {
    if g == [] {
      assert g + h == h && s + t == t;
    } else {
      assert (g + h)[1..] == g[1..] + h && (g + h)[0] == g[0];
      if s != "" { assert (s + t)[1..] == s[1..] + t; }
      if (g[0].Star? || g[0].Super?) && Matches(g[1..], s) {
        MatchesJoin(g[1..], h, s, t);
      } else if g[0].Star? || g[0].Super? {
        MatchesJoin(g, h, s[1..], t);
      } else {
        MatchesJoin(g[1..], h, s[1..], t);
      }
    }
  }

  /** ... and only that: a match of a concatenation can be cut in two. */
  lemma {:induction false} MatchesCut(g: Glob, h: Glob, s: string) returns (i: nat)
    requires Matches(g + h, s)
    ensures i <= |s| && Matches(g, s[..i]) && Matches(h, s[i..])
    decreases |g| + |s|
  {
    if g == [] {
      assert g + h == h && s[0..] == s;
      i := 0;
    } else {
      assert (g + h)[1..] == g[1..] + h && (g + h)[0] == g[0];
      if (g[0].Star? || g[0].Super?) && Matches((g + h)[1..], s) {
        i := MatchesCut(g[1..], h, s);
      } else {
        if g[0].Star? || g[0].Super? {
          i := MatchesCut(g, h, s[1..]);
        } else {
          i := MatchesCut(g[1..], h, s[1..]);
        }
        i := i + 1;
        assert s[..i][1..] == s[1..][..i - 1] && s[i..] == s[1..][i - 1..];
      }
    }
  }

  // ---------------------------------------------------------------- the "everything below" suffix

  const BELOW: Glob := [Lit(SEP), Super]

  lemma CompileStars()
    ensures Compile("") == Some([])
    ensures Compile("*") == Some([Star])
    ensures Compile("**") == Some([Super])
  {
    var one, two := "*", "**";
    assert one[1..] == "" && two[2..] == "";
    var none: Glob := [];
    assert [Star] + none == [Star] && [Super] + none == [Super];
    assert Compile("") == Some(none);
    assert Compile(one) == Prepend(Star, Compile(""));
    assert Compile(two) == Prepend(Super, Compile(""));
  }

  /** Compiling is compositional at the appended "everything below" suffix, even after a dangling
      backslash. */
  lemma {:induction false} CompileBelow(s: string)
    ensures Compile(s + "/**") == if Compile(s).None? then None else Some(Compile(s).value + BELOW)
  {
    var t := s + "/**";
    CompileStars();
    if s == "" {
      assert t == "/**" && t[1..] == "**";
      assert [Lit(SEP)] + [Super] == BELOW;
    } else if (s[0] == '*' && |s| >= 2 && s[1] == '*') || (s[0] == '\\' && |s| >= 2) {
      CompileBelow(s[2..]);
      assert t[2..] == s[2..] + "/**" && t[0] == s[0] && t[1] == s[1];
      PrependAssoc(if s[0] == '*' then Super else Lit(s[1]), Compile(s[2..]));
    } else if s == "\\" {
      assert t[2..] == "**";
      assert t[1] == SEP;
      assert [Lit(SEP)] + [Super] == [] + BELOW;
    } else {
      CompileBelow(s[1..]);
      assert t[1..] == s[1..] + "/**" && t[0] == s[0];
      assert |s| >= 2 ==> t[1] == s[1];
      PrependAssoc(if s[0] == '*' then Star else if s[0] == '?' then Single else Lit(s[0]), Compile(s[1..]));
    }
  }

  lemma PrependAssoc(t: Token, g: Option<Glob>)
    ensures g.Some? ==> [t] + (g.value + BELOW) == ([t] + g.value) + BELOW
  {
  }

  /** If a glob matches a directory, the glob with the suffix appended matches everything below it. */
  lemma BelowMatchesDescendants(g: Glob, dir: string, rest: string)
    requires Matches(g, dir)
    ensures Matches(g + BELOW, dir + [SEP] + rest)
  {
    SuperMatchesAll(rest);
    assert BELOW[1..] == [Super] && ([SEP] + rest)[1..] == rest;
    MatchesJoin(g, BELOW, dir, [SEP] + rest);
    assert dir + ([SEP] + rest) == dir + [SEP] + rest;
  }

  /** A glob that ends in `**` and matches a string matches every extension of it. */
  lemma OpenEnded(g: Glob, s: string, t: string)
    requires |g| >= 1 && g[|g| - 1] == Super && Matches(g, s)
    ensures Matches(g, s + t)
  {
    var n := |g| - 1;
    assert g == g[..n] + [Super];
    var i := MatchesCut(g[..n], [Super], s);
    SuperMatchesAll(s[i..] + t);
    MatchesJoin(g[..n], [Super], s[..i], s[i..] + t);
    assert s[..i] + (s[i..] + t) == s + t;
  }

  // ---------------------------------------------------------------- globs that stay on one level

  predicate OneLevel(t: Token) { t == Star || t == Single || (t.Lit? && t.c != SEP) }

  /** Tokens that cannot match a separator, possibly followed by a `**` that runs to the end. */
  predicate Flat(g: Glob) {
    g == [] || g == [Super] || g == [Super, Star] || (OneLevel(g[0]) && Flat(g[1..]))
  }

  predicate StarsAt(s: string, i: nat) { i + 1 < |s| && s[i] == '*' && s[i + 1] == '*' }

  predicate HasDoubleStar(s: string) { exists i :: 0 <= i < |s| && StarsAt(s, i) }

  lemma HasDoubleStarTail(s: string, n: nat)
    requires n <= |s| && !HasDoubleStar(s)
    ensures !HasDoubleStar(s[n..])
  {
    forall i | 0 <= i < |s| - n
      ensures !StarsAt(s[n..], i)
    {
      assert !StarsAt(s, n + i);
    }
  }

  /** Text without a separator and with "**" at most at its very end compiles to a flat glob. */
  lemma {:induction false} PlainTextIsFlat(s: string)
    requires NoSep(s) && !HasDoubleStar(s) && Compile(s).Some?
    ensures Flat(Compile(s).value)
  {
    if s != "" && s != "\\" {
      var n := if s[0] == '\\' then 2 else 1;
      HasDoubleStarTail(s, n);
      assert !StarsAt(s, 0);
      assert s[0] in s && s[n - 1] in s;
      assert forall c :: c in s[n..] ==> c in s;
      PlainTextIsFlat(s[n..]);
      var g := Compile(s).value;
      assert g[1..] == Compile(s[n..]).value;
    }
  }

  lemma {:induction false} PlainTextThenSuperIsFlat(s: string)
    requires NoSep(s) && !HasDoubleStar(s) && Compile(s + "**").Some?
    ensures Flat(Compile(s + "**").value)
  {
    var t := s + "**";
    CompileStars();
    if s == "" {
      assert t == "**" && t[2..] == "";
    } else if s == "*" {
      assert t == "***" && t[2..] == "*" && t[2..][1..] == "";
      assert [Super] + [Star] == [Super, Star];
    } else if s == "\\" {
      assert t[2..] == "*";
      assert t[1] == '*';
      assert Compile(t) == Some([Lit('*')] + [Star]);
      assert ([Lit('*')] + [Star])[1..] == [Star] && [Star][1..] == [];
    } else {
      var n := if s[0] == '\\' then 2 else 1;
      HasDoubleStarTail(s, n);
      assert !StarsAt(s, 0);
      assert s[0] in s && s[n - 1] in s;
      assert forall c :: c in s[n..] ==> c in s;
      assert t[n..] == s[n..] + "**" && t[0] == s[0];
      if |s| >= 2 { assert t[1] == s[1]; }
      PlainTextThenSuperIsFlat(s[n..]);
      var g := Compile(t).value;
      assert g[1..] == Compile(t[n..]).value;
    }
  }

  /** A flat glob that matches something below a directory already matches the directory. */
  lemma {:induction false} FlatMatchesDirectory(g: Glob, dir: string, rest: string)
    requires Flat(g) && Matches(g, dir + [SEP] + rest)
    ensures Matches(g, dir)
    decreases |g| + |dir|
  {
    var e := dir + [SEP] + rest;
    if g == [Super] {
      SuperMatchesAll(dir);
    } else if g == [Super, Star] {
      SuperStarMatchesAll(dir);
    } else if g[0] == Star && Matches(g[1..], e) {
      FlatMatchesDirectory(g[1..], dir, rest);
    } else {
      assert e[1..] == dir[1..] + [SEP] + rest;
      FlatMatchesDirectory(if g[0] == Star then g else g[1..], dir[1..], rest);
    }
  }

  /** If a flat glob with the suffix appended matches something below a directory, then it matches
      the directory too, or the glob without the suffix does. */
  lemma FlatBelowReaches(g: Glob, dir: string, rest: string)
    requires Flat(g) && Matches(g + BELOW, dir + [SEP] + rest)
    ensures Matches(g, dir) || Matches(g + BELOW, dir)
  {
    var e := dir + [SEP] + rest;
    var i := MatchesCut(g, BELOW, e);
    assert e[i..][0] == SEP;
    if i < |dir| {
      var tail := dir[i + 1..];
      SuperMatchesAll(tail);
      assert dir == e[..i] + [SEP] + tail;
      BelowMatchesDescendants(g, e[..i], tail);
    } else if i == |dir| {
      assert e[..i] == dir;
    } else {
      var r := e[|dir| + 1..i];
      assert e[..i] == dir + [SEP] + r;
      FlatMatchesDirectory(g, dir, r);
    }
  }
}
