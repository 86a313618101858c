/** What a line of an ignore file means (lib/ignore/ignore.go), on the text of the line and the path, apart
    from how the matcher gets there. */
module RuleMeaning {
  import opened Paths
  import opened Globs
  import opened Options
  import opened IgnorePatterns
  import opened IgnoreSkip

  // ---------------------------------------------------------------- the text of a glob

  /** The text compiles to a glob that matches the string. */
  predicate TextMatches(text: string, s: string) {
    var g := Compile(text);
    g.Some? && Matches(g.value, s)
  }

  /** Without a character that means something else. */
  predicate Plain(u: string) { forall i :: 0 <= i < |u| ==> u[i] !in "*?[{\\" }

  function Lits(u: string): Glob {
    if u == "" then [] else [Lit(u[0])] + Lits(u[1..])
  }

  lemma {:induction false} PlainThen(u: string, w: string)
    requires Plain(u)
    ensures Compile(u + w) == if Compile(w).None? then None else Some(Lits(u) + Compile(w).value)
  {
    if u == "" {
      assert u + w == w;
      if Compile(w).Some? { assert Lits(u) + Compile(w).value == Compile(w).value; }
    } else {
      PlainThen(u[1..], w);
      assert (u + w)[0] == u[0] && (u + w)[1..] == u[1..] + w;
      if Compile(w).Some? {
        assert Lits(u) + Compile(w).value == [Lit(u[0])] + (Lits(u[1..]) + Compile(w).value);
      }
    }
  }

  lemma {:induction false} LitsMatch(u: string, h: Glob, s: string)
    ensures Matches(Lits(u) + h, s) <==> u <= s && Matches(h, s[|u|..])
  {
    if u == "" {
      assert Lits(u) + h == h && s[0..] == s;
    } else {
      var g := Lits(u) + h;
      assert g[0] == Lit(u[0]) && g[1..] == Lits(u[1..]) + h;
      if s != "" && s[0] == u[0] {
        LitsMatch(u[1..], h, s[1..]);
        assert u <= s <==> u[1..] <= s[1..];
        if u <= s { assert s[1..][|u| - 1..] == s[|u|..]; }
      }
    }
  }

  /** Plain text in front matches itself. */
  lemma PlainInFront(u: string, w: string, s: string)
    requires Plain(u)
    ensures TextMatches(u + w, s) <==> u <= s && TextMatches(w, s[|u|..])
  {
    PlainThen(u, w);
    if Compile(w).Some? { LitsMatch(u, Compile(w).value, s); }
  }

  lemma EmptyMatches(s: string)
    ensures TextMatches("", s) <==> s == ""
  {
  }

  /** Text without any special character matches itself only. */
  lemma PlainMatches(u: string, s: string)
    requires Plain(u)
    ensures TextMatches(u, s) <==> s == u
  {
    assert u + "" == u;
    PlainInFront(u, "", s);
    if u <= s { EmptyMatches(s[|u|..]); }
  }

  /** A question mark matches one character that is no separator. */
  lemma QuestionMark(w: string, s: string)
    ensures TextMatches("?" + w, s) <==> s != "" && s[0] != '/' && TextMatches(w, s[1..])
  {
    var t := "?" + w;
    assert t[0] == '?' && t[1..] == w;
    if Compile(w).Some? {
      var g := [Single] + Compile(w).value;
      assert g[0] == Single && g[1..] == Compile(w).value;
    }
  }

  /** A backslash takes the next character as it is, at the end it is nothing. */
  lemma Backslash(c: char, w: string, s: string)
    ensures TextMatches("\\" + [c] + w, s) <==> s != "" && s[0] == c && TextMatches(w, s[1..])
    ensures TextMatches("\\", s) <==> s == ""
  {
    var t := "\\" + [c] + w;
    assert t[0] == '\\' && t[1] == c && t[2..] == w;
    if Compile(w).Some? {
      var g := [Lit(c)] + Compile(w).value;
      assert g[0] == Lit(c) && g[1..] == Compile(w).value;
    }
  }

  /** Classes and alternatives are refused. */
  lemma ClassesAreRefused(u: string, w: string)
    requires Plain(u)
    ensures Compile(u + "[" + w).None? && Compile(u + "{" + w).None?
  {
    PlainThen(u, "[" + w);
    PlainThen(u, "{" + w);
    assert u + "[" + w == u + ("[" + w) && u + "{" + w == u + ("{" + w);
  }

  predicate Reaches(h: Glob, s: string, i: nat) { i <= |s| && NoSep(s[..i]) && Matches(h, s[i..]) }

  lemma ReachesStep(h: Glob, s: string, i: nat)
    ensures Reaches(h, s, 0) <==> Matches(h, s)
    ensures s != "" ==> (Reaches(h, s, i + 1) <==> s[0] != SEP && Reaches(h, s[1..], i))
  {
    assert s[0..] == s && s[..0] == "";
    if s != "" && i < |s| {
      assert s[..i + 1] == [s[0]] + s[1..][..i] && s[i + 1..] == s[1..][i..];
    }
  }

  lemma {:induction false} StarReach(h: Glob, s: string)
    ensures Matches([Star] + h, s) <==> exists i: nat :: Reaches(h, s, i)
  {
    var g := [Star] + h;
    assert g[0] == Star && g[1..] == h;
    ReachesStep(h, s, 0);
    if s != "" {
      StarReach(h, s[1..]);
      if i: nat :| Reaches(h, s, i) {
        if i > 0 { ReachesStep(h, s, i - 1); }
      }
      if i: nat :| s[0] != SEP && Reaches(h, s[1..], i) { ReachesStep(h, s, i); }
    }
  }

  /** A star that is not followed by another matches any text without a separator. */
  lemma OneStar(w: string, s: string)
    requires w == "" || w[0] != '*'
    ensures TextMatches("*" + w, s) <==> exists i :: 0 <= i <= |s| && '/' !in s[..i] && TextMatches(w, s[i..])
  {
    var t := "*" + w;
    assert t[0] == '*' && t[1..] == w && (w != "" ==> t[1] == w[0]);
    if Compile(w).Some? {
      var h := Compile(w).value;
      StarReach(h, s);
      if i :| 0 <= i <= |s| && '/' !in s[..i] && TextMatches(w, s[i..]) { assert Reaches(h, s, i); }
      if i: nat :| Reaches(h, s, i) { assert '/' !in s[..i] && TextMatches(w, s[i..]); }
    }
  }

  lemma {:induction false} SuperReach(h: Glob, s: string)
    ensures Matches([Super] + h, s) <==> exists i :: 0 <= i <= |s| && Matches(h, s[i..])
  {
    var g := [Super] + h;
    assert g[0] == Super && g[1..] == h && s[0..] == s;
    if s == "" {
      assert forall i :: 0 <= i <= |s| ==> s[i..] == s;
    } else {
      SuperReach(h, s[1..]);
      if i :| 0 <= i <= |s| && Matches(h, s[i..]) {
        if i > 0 { assert s[1..][i - 1..] == s[i..]; }
      }
      if Matches(g, s[1..]) {
        var i :| 0 <= i <= |s[1..]| && Matches(h, s[1..][i..]);
        assert s[i + 1..] == s[1..][i..];
      }
    }
  }

  /** Two stars match anything. */
  lemma TwoStars(w: string, s: string)
    ensures TextMatches("**" + w, s) <==> exists i :: 0 <= i <= |s| && TextMatches(w, s[i..])
  {
    var t := "**" + w;
    assert t[0] == '*' && t[1] == '*' && t[2..] == w;
    if Compile(w).Some? { SuperReach(Compile(w).value, s); }
  }

  // ---------------------------------------------------------------- what is matched of a path

  /** By the path or by what comes after one of its separators. */
  ghost predicate AtAnyDepth(text: string, s: string) {
    TextMatches(text, s) || exists i :: 0 <= i < |s| && s[i] == '/' && TextMatches(text, s[i + 1..])
  }

  /** What the text of a line stands for: from the root if it begins with a separator, else at any depth. */
  ghost predicate Means(text: string, s: string) {
    if "/" <= text then TextMatches(text[1..], s)
    else if "**/" <= text then AtAnyDepth(text[3..], s)
    else AtAnyDepth(text, s)
  }

  /** Something above the path is meant. */
  ghost predicate MeansAbove(text: string, s: string) {
    exists i :: 0 <= i < |s| && s[i] == '/' && Means(text, s[..i])
  }

  lemma AnywhereMatches(text: string, s: string)
    ensures TextMatches("**/" + text, s) <==> exists i :: 0 <= i < |s| && s[i] == '/' && TextMatches(text, s[i + 1..])
  {
    var rest := "/" + text;
    assert "**/" + text == "**" + rest;
    TwoStars(rest, s);
    forall i | 0 <= i <= |s|
      ensures TextMatches(rest, s[i..]) <==> i < |s| && s[i] == '/' && TextMatches(text, s[i + 1..])
    {
      PlainInFront("/", text, s[i..]);
      if i < |s| && s[i] == '/' { assert s[i..][1..] == s[i + 1..]; }
    }
  }

  /** The path as a pattern with these flags sees it. */
  function Seen(plat: Platform, s: string, r: R): string { if r.foldCaseBit then plat.ToLower(s) else s }

  ghost predicate AnyMatches(plat: Platform, ps: seq<Pattern>, s: string) {
    exists i :: 0 <= i < |ps| && PatternMatches(plat, ps[i], s)
  }

  /** One of the patterns of a text matches exactly what the text means. */
  lemma ExpandMeans(plat: Platform, text: string, r: R, s: string)
    requires Expand(text, r).Some?
    ensures AnyMatches(plat, Expand(text, r).value, s) <==> Means(text, Seen(plat, s, r))
  {
    var g, f := Expand(text, r).value, Seen(plat, s, r);
    ExpandShape(text, r);
    assert forall i :: 0 <= i < |g| ==> (PatternMatches(plat, g[i], s) <==> Matches(g[i].glob, f));
    if "/" <= text {
      assert PatternMatches(plat, g[0], s) <==> TextMatches(text[1..], f);
    } else if "**/" <= text {
      assert text == "**/" + text[3..];
      AnywhereMatches(text[3..], f);
      assert PatternMatches(plat, g[0], s) <==> TextMatches(text, f);
      assert PatternMatches(plat, g[1], s) <==> TextMatches(text[3..], f);
    } else {
      AnywhereMatches(text, f);
      assert PatternMatches(plat, g[0], s) <==> TextMatches(text, f);
      assert PatternMatches(plat, g[1], s) <==> TextMatches("**/" + text, f);
    }
  }

  // ---------------------------------------------------------------- everything below

  lemma BelowText(w: string, s: string)
    ensures TextMatches(w + "/**", s) <==> exists i :: 0 <= i < |s| && s[i] == '/' && TextMatches(w, s[..i])
  {
    CompileBelow(w);
    if Compile(w).Some? {
      var g := Compile(w).value;
      if Matches(g + BELOW, s) {
        var i := MatchesCut(g, BELOW, s);
        assert s[i..] != "" && s[i..][0] == SEP;
        assert s[i] == '/' && TextMatches(w, s[..i]);
      }
      if i :| 0 <= i < |s| && s[i] == '/' && TextMatches(w, s[..i]) {
        BelowMatchesDescendants(g, s[..i], s[i + 1..]);
        assert s[..i] + [SEP] + s[i + 1..] == s;
      }
    }
  }

  lemma DepthBelow(text: string, s: string)
    ensures AtAnyDepth(text + "/**", s) <==> exists i :: 0 <= i < |s| && s[i] == '/' && AtAnyDepth(text, s[..i])
  {
    BelowText(text, s);
    if j :| 0 <= j < |s| && s[j] == '/' && TextMatches(text + "/**", s[j + 1..]) {
      BelowText(text, s[j + 1..]);
      var k :| 0 <= k < |s[j + 1..]| && s[j + 1..][k] == '/' && TextMatches(text, s[j + 1..][..k]);
      var i := j + 1 + k;
      assert s[..i][j + 1..] == s[j + 1..][..k] && s[..i][j] == s[j];
      assert s[i] == '/' && AtAnyDepth(text, s[..i]);
    }
    if i :| 0 <= i < |s| && s[i] == '/' && AtAnyDepth(text, s[..i]) {
      if !TextMatches(text, s[..i]) {
        var j :| 0 <= j < i && s[..i][j] == '/' && TextMatches(text, s[..i][j + 1..]);
        BelowText(text, s[j + 1..]);
        assert s[j + 1..][..i - j - 1] == s[..i][j + 1..] && s[j + 1..][i - j - 1] == s[i];
        assert s[j] == '/' && TextMatches(text + "/**", s[j + 1..]);
      }
    }
  }

  lemma StarsMatchAll(s: string)
    ensures TextMatches("**", s)
  {
    assert "**" + "" == "**" && s[|s|..] == "";
    EmptyMatches(s[|s|..]);
    TwoStars("", s);
  }

  /** A text with the suffix "everything below" means what is below what the text means; without a text, and
      for two stars, it means everything. */
  lemma SuffixMeansBelow(text: string, s: string)
    ensures Means(text + "/**", s) <==> text == "" || text == "**" || MeansAbove(text, s)
  {
    var t := text + "/**";
    StarsMatchAll(s);
    if text == "" {
      assert t[1..] == "**";
    } else if text == "**" {
      assert t[3..] == "**";
    } else {
      AppendedPrefixes(text);
      if "/" <= text {
        assert t[1..] == text[1..] + "/**";
        BelowText(text[1..], s);
      } else if "**/" <= text {
        assert t[3..] == text[3..] + "/**";
        DepthBelow(text[3..], s);
      } else {
        DepthBelow(text, s);
      }
    }
  }

  lemma AnyOfBoth(plat: Platform, g: seq<Pattern>, h: seq<Pattern>, s: string)
    ensures AnyMatches(plat, g + h, s) <==> AnyMatches(plat, g, s) || AnyMatches(plat, h, s)
  {
    if i :| 0 <= i < |g| && PatternMatches(plat, g[i], s) { assert (g + h)[i] == g[i]; }
    if i :| 0 <= i < |h| && PatternMatches(plat, h[i], s) { assert (g + h)[|g| + i] == h[i]; }
  }

  /** The patterns of a rule line match exactly what its text means and everything below, or only what is
      below if the line ends in a separator or in the suffix; a line that folds case is taken in lower case,
      as is the path, and any other as it is written. */
  lemma RuleMeans(plat: Platform, line: string, s: string)
    requires plat.Valid() && RulePatterns(plat, line).Some?
    ensures var (rest, r) := StripPrefixes(Core(line), false, false, false, plat.Ignored());
            var text := if r.foldCaseBit then plat.ToLower(rest) else rest;
            var path := if r.foldCaseBit then plat.ToLower(s) else s;
            AnyMatches(plat, RulePatterns(plat, line).value, s) <==>
              if Core(line) == line then Means(text, path) || MeansAbove(text, path)
              else text == "" || text == "**" || MeansAbove(text, path)
  {
    var text, r := LineText(plat, Core(line)), LineResult(plat, Core(line));
    RuleExpands(plat, line);
    ExpandMeans(plat, text + "/**", r, s);
    SuffixMeansBelow(text, Seen(plat, s, r));
    if !Closed(line) {
      ExpandMeans(plat, text, r, s);
      AnyOfBoth(plat, Expand(text, r).value, Expand(text + "/**", r).value, s);
      if text == "**" { StarsMatchAll(Seen(plat, s, r)); }
    }
  }

  // ---------------------------------------------------------------- prefixes

  predicate IsPrefix(p: string) { p == "!" || p == "(?i)" || p == "(?d)" }

  predicate Prefixes(ps: seq<string>) {
    (forall i :: 0 <= i < |ps| ==> IsPrefix(ps[i])) && forall i, j :: 0 <= i < j < |ps| ==> ps[i] != ps[j]
  }

  function Flattened(ps: seq<string>): string {
    if ps == [] then "" else ps[0] + Flattened(ps[1..])
  }

  /** The flags these prefixes add to others. */
  function WithFlags(r: R, bang: bool, fold: bool, del: bool): R {
    R(r.ignoreBit != bang, r.deletableBit || del, r.foldCaseBit || fold, r.canSkipDirBit)
  }

  lemma StripOne(tail: string, bang: bool, fold: bool, del: bool, r: R)
    ensures !bang ==> StripPrefixes("!" + tail, bang, fold, del, r)
                      == StripPrefixes(tail, true, fold, del, WithFlags(r, true, false, false))
    ensures !fold ==> StripPrefixes("(?i)" + tail, bang, fold, del, r)
                      == StripPrefixes(tail, bang, true, del, WithFlags(r, false, true, false))
    ensures !del ==> StripPrefixes("(?d)" + tail, bang, fold, del, r)
                     == StripPrefixes(tail, bang, fold, true, WithFlags(r, false, false, true))
  {
    var b, i, d := "!" + tail, "(?i)" + tail, "(?d)" + tail;
    assert b[1..] == tail && i[4..] == tail && d[4..] == tail;
    assert i[0] == '(' && d[0] == '(' && d[2] == 'd';
  }

  lemma InRest(ps: seq<string>, p: string)
    requires Prefixes(ps) && ps != []
    ensures Prefixes(ps[1..]) && (p in ps <==> p == ps[0] || p in ps[1..]) && ps[0] !in ps[1..]
  {
  }

  lemma StripNone(text: string, bang: bool, fold: bool, del: bool, r: R)
    requires ("!" <= text ==> bang) && ("(?i)" <= text ==> fold) && ("(?d)" <= text ==> del)
    ensures StripPrefixes(text, bang, fold, del, r) == (text, r)
  {
  }

  /** These prefixes were not met before, and the text begins with none that was not. */
  predicate Unmet(ps: seq<string>, text: string, bang: bool, fold: bool, del: bool) {
    && Prefixes(ps) && ("!" in ps ==> !bang) && ("(?i)" in ps ==> !fold) && ("(?d)" in ps ==> !del)
    && ("!" <= text ==> bang || "!" in ps) && ("(?i)" <= text ==> fold || "(?i)" in ps)
    && ("(?d)" <= text ==> del || "(?d)" in ps)
  }

  lemma UnmetRest(ps: seq<string>, text: string, bang: bool, fold: bool, del: bool, r: R)
    requires Unmet(ps, text, bang, fold, del) && ps != []
    ensures var p, rest := ps[0], ps[1..];
            && Unmet(rest, text, bang || p == "!", fold || p == "(?i)", del || p == "(?d)")
            && WithFlags(WithFlags(r, p == "!", p == "(?i)", p == "(?d)"), "!" in rest, "(?i)" in rest, "(?d)" in rest)
               == WithFlags(r, "!" in ps, "(?i)" in ps, "(?d)" in ps)
  {
    InRest(ps, "!");
    InRest(ps, "(?i)");
    InRest(ps, "(?d)");
  }

  lemma {:induction false} StripFlattened(ps: seq<string>, text: string, bang: bool, fold: bool, del: bool, r: R)
    requires Unmet(ps, text, bang, fold, del)
    ensures StripPrefixes(Flattened(ps) + text, bang, fold, del, r)
         == (text, WithFlags(r, "!" in ps, "(?i)" in ps, "(?d)" in ps))
    decreases |ps|
  {
    if ps == [] {
      assert Flattened(ps) + text == text;
      StripNone(text, bang, fold, del, r);
    } else {
      var p, rest := ps[0], ps[1..];
      UnmetRest(ps, text, bang, fold, del, r);
      StripFlattened(rest, text, bang || p == "!", fold || p == "(?i)", del || p == "(?d)",
        WithFlags(r, p == "!", p == "(?i)", p == "(?d)"));
      StripOneMore(ps, text, bang, fold, del, r);
    }
  }

  lemma StripOneMore(ps: seq<string>, text: string, bang: bool, fold: bool, del: bool, r: R)
    requires Unmet(ps, text, bang, fold, del) && ps != []
    ensures var b, f, d := ps[0] == "!", ps[0] == "(?i)", ps[0] == "(?d)";
            StripPrefixes(Flattened(ps) + text, bang, fold, del, r)
            == StripPrefixes(Flattened(ps[1..]) + text, bang || b, fold || f, del || d, WithFlags(r, b, f, d))
  {
    assert Flattened(ps) + text == ps[0] + (Flattened(ps[1..]) + text);
    StripPrefix(ps[0], Flattened(ps[1..]) + text, bang, fold, del, r);
  }

  lemma StripPrefix(p: string, tail: string, bang: bool, fold: bool, del: bool, r: R)
    requires IsPrefix(p) && (p == "!" ==> !bang) && (p == "(?i)" ==> !fold) && (p == "(?d)" ==> !del)
    ensures var b, f, d := p == "!", p == "(?i)", p == "(?d)";
            StripPrefixes(p + tail, bang, fold, del, r)
            == StripPrefixes(tail, bang || b, fold || f, del || d, WithFlags(r, b, f, d))
  {
    StripOne(tail, bang, fold, del, r);
  }

  /** Prefixes in any order, each once, and then a text that does not begin with another: the text is what
      is left, a "!" un-ignores, "(?i)" folds case, and "(?d)" makes deletable what is ignored. */
  lemma PrefixesMean(plat: Platform, ps: seq<string>, text: string)
    requires Prefixes(ps) && forall p :: IsPrefix(p) && p <= text ==> p in ps
    ensures var (rest, r) := StripPrefixes(Flattened(ps) + text, false, false, false, plat.Ignored());
            && rest == text && !r.CanSkipDir()
            && (r.IsIgnored() <==> "!" !in ps)
            && (r.IsCaseFolded() <==> plat.foldsByDefault || "(?i)" in ps)
            && (r.IsDeletable() <==> "(?d)" in ps && "!" !in ps)
  {
    StripFlattened(ps, text, false, false, false, plat.Ignored());
  }

  // ---------------------------------------------------------------- case

  /** Two strings are the same but for the case of letters. */
  predicate SameLetters(plat: Platform, s: string, t: string) {
    |s| == |t| && forall i :: 0 <= i < |s| ==> plat.lower(s[i]) == plat.lower(t[i])
  }

  lemma SameLower(plat: Platform, s: string, t: string)
    ensures SameLetters(plat, s, t) <==> plat.ToLower(s) == plat.ToLower(t)
  {
    var a, b := plat.ToLower(s), plat.ToLower(t);
    if a == b {
      forall i | 0 <= i < |s| ensures plat.lower(s[i]) == plat.lower(t[i]) { assert a[i] == b[i]; }
    }
  }

  /** A pattern that folds case does not tell such paths apart; any other sees the path as it is. */
  lemma FoldingIgnoresCase(plat: Platform, p: Pattern, s: string, t: string)
    ensures p.result.foldCaseBit && SameLetters(plat, s, t) ==>
              (PatternMatches(plat, p, s) <==> PatternMatches(plat, p, t))
    ensures !p.result.foldCaseBit ==> (PatternMatches(plat, p, s) <==> Matches(p.glob, s))
  {
    SameLower(plat, s, t);
  }

  /** The line of these prefixes and this text stands for the text, in lower case if it folds case. */
  lemma ParsedFlattened(plat: Platform, ps: seq<string>, text: string)
    requires Prefixes(ps) && text != "" && forall p :: IsPrefix(p) && p <= text ==> p in ps
    ensures var r := WithFlags(plat.Ignored(), "!" in ps, "(?i)" in ps, "(?d)" in ps);
            ParsedLine(plat, Flattened(ps) + text) == Expand(if r.foldCaseBit then plat.ToLower(text) else text, r)
  {
    StripFlattened(ps, text, false, false, false, plat.Ignored());
  }

  /** Nor does a line that folds case depend on the case it is written in. */
  lemma FoldingLinesAgree(plat: Platform, ps: seq<string>, a: string, b: string)
    requires Prefixes(ps) && (plat.foldsByDefault || "(?i)" in ps) && SameLetters(plat, a, b) && a != ""
    requires forall p :: IsPrefix(p) && (p <= a || p <= b) ==> p in ps
    ensures ParsedLine(plat, Flattened(ps) + a) == ParsedLine(plat, Flattened(ps) + b)
  {
    ParsedFlattened(plat, ps, a);
    ParsedFlattened(plat, ps, b);
    SameLower(plat, a, b);
  }

  /** A rooted name is matched by the paths that are the same but for case, if the line folds case, and by
      itself only if it does not. */
  lemma RootedNameMatches(plat: Platform, ps: seq<string>, name: string, s: string)
    requires plat.Valid() && Prefixes(ps) && Plain(name) && Plain(plat.ToLower(name))
    ensures var parsed := ParsedLine(plat, Flattened(ps) + ("/" + name));
            && parsed.Some?
            && (AnyMatches(plat, parsed.value, s) <==>
                  if plat.foldsByDefault || "(?i)" in ps then SameLetters(plat, s, name) else s == name)
  {
    var text := "/" + name;
    var r := WithFlags(plat.Ignored(), "!" in ps, "(?i)" in ps, "(?d)" in ps);
    assert text[0] == '/';
    ParsedFlattened(plat, ps, text);
    LowerRooted(plat, name);
    RootedTextMatches(plat, if r.foldCaseBit then plat.ToLower(name) else name, r, s);
    SameLower(plat, s, name);
  }

  lemma LowerRooted(plat: Platform, name: string)
    requires plat.Valid()
    ensures plat.ToLower("/" + name) == "/" + plat.ToLower(name)
  {
  }

  lemma RootedTextMatches(plat: Platform, name: string, r: R, s: string)
    requires Plain(name)
    ensures Expand("/" + name, r).Some?
    ensures AnyMatches(plat, Expand("/" + name, r).value, s) <==> Seen(plat, s, r) == name
  {
    var t := "/" + name;
    assert t[1..] == name && name + "" == name;
    PlainThen(name, "");
    ExpandMeans(plat, t, r, s);
    PlainMatches(name, Seen(plat, s, r));
  }

  // ---------------------------------------------------------------- which un-ignoring patterns allow skipping

  /** A single name of which at most the end is a double star. */
  ghost predicate SimpleName(name: string) {
    && '/' !in name
    && (!HasDoubleStar(name) || (|name| >= 2 && name[|name| - 2..] == "**" && !HasDoubleStar(name[..|name| - 2])))
  }

  /** An un-ignoring pattern allows skipping exactly if it is a separator and a single name of which at most
      the end is a double star, with or without the suffix "everything below". */
  lemma AllowsSkippingIff(p: Pattern)
    requires p.text != "" && !p.result.IsIgnored()
    ensures AllowsSkippingIgnoredDirs(p) <==>
            exists name, tail :: p.text == "/" + name + tail && (tail == "" || tail == "/**") && SimpleName(name)
  {
    var trimmed := TrimSuffix(p.text, "/**");
    if AllowsSkippingIgnoredDirs(p) {
      if trimmed == "" {
        assert p.text == "/" + "**" + "" && SimpleName("**") by { NamesOf("**"); }
      } else {
        var name, tail := trimmed[1..], p.text[|trimmed|..];
        assert p.text == "/" + name + tail && trimmed == "/" + name;
        NamesOf(name);
      }
    }
    if name, tail :| p.text == "/" + name + tail && (tail == "" || tail == "/**") && SimpleName(name) {
      NamesOf(name);
      if tail == "/**" {
        assert p.text == ("/" + name) + "/**";
        assert trimmed == "/" + name;
      } else {
        assert p.text == "/" + name;
        SuffixOfName(name);
        assert name != "**" ==> trimmed == "/" + name;
      }
      assert trimmed != "" ==> trimmed == "/" + name && trimmed[1..] == name;
    }
  }

  lemma SuffixOfName(name: string)
    requires '/' !in name
    ensures HasSuffix("/" + name, "/**") <==> name == "**"
  {
    var t := "/" + name;
    assert t[1..] == name;
    if |name| > 2 {
      assert t[|t| - 3..][0] == name[|name| - 3];
    } else if |name| == 2 {
      assert t[|t| - 3..] == t;
      assert t == "/**" ==> name == "/**"[1..];
    }
  }

  /** The name without a double star at its end. */
  function WithoutEnd(name: string): string {
    if |name| >= 2 && name[|name| - 2..] == "**" then name[..|name| - 2] else name
  }

  lemma TrimOfName(name: string)
    requires '/' !in name
    ensures TrimSuffix("/" + name, "**") == "/" + WithoutEnd(name)
  {
    var t := "/" + name;
    if |name| >= 2 {
      assert t[|t| - 2..] == name[|name| - 2..];
      assert t[..|t| - 2] == "/" + name[..|name| - 2];
    } else if |name| == 1 {
      assert t[|t| - 2..] == t && t[0] == '/';
    }
  }

  lemma NamesOf(name: string)
    requires '/' !in name
    ensures SimpleName(name) <==> !HasDoubleStar(TrimSuffix("/" + name, "**"))
  {
    TrimOfName(name);
    StarsAfterSlash(WithoutEnd(name));
    if WithoutEnd(name) != name {
      assert name[|name| - 2..][0] == '*' && name[|name| - 2..][1] == '*';
      assert StarsAt(name, |name| - 2);
    }
  }

  lemma StarsAfterSlash(s: string)
    ensures HasDoubleStar("/" + s) <==> HasDoubleStar(s)
  {
    var t := "/" + s;
    if i :| 0 <= i < |t| && StarsAt(t, i) { assert StarsAt(s, i - 1); }
    if i :| 0 <= i < |s| && StarsAt(s, i) { assert StarsAt(t, i + 1); }
  }

  // ---------------------------------------------------------------- the lines of a file

  /** The line is a rule, and not a repetition. */
  ghost predicate IsRule(lines: seq<string>, i: nat)
    requires i < |lines|
  {
    lines[i] != "" && !("//" <= lines[i]) && forall j :: 0 <= j < i ==> lines[j] != lines[i]
  }

  /** The patterns of the rules from the i-th line on. */
  ghost function RulesFrom(plat: Platform, lines: seq<string>, i: nat): seq<Pattern>
    decreases |lines| - i
  {
    if i >= |lines| then []
    else
      var here := RulePatterns(plat, lines[i]);
      (if IsRule(lines, i) && here.Some? then here.value else []) + RulesFrom(plat, lines, i + 1)
  }

  /** The line can be read. */
  ghost predicate Readable(plat: Platform, lines: seq<string>, i: nat)
    requires i < |lines|
  {
    !("#escape" <= lines[i]) && (IsRule(lines, i) ==> !("#include" <= lines[i]) && RulePatterns(plat, lines[i]).Some?)
  }

  function LinesBefore(lines: seq<string>, i: nat): set<string>
    requires i <= |lines|
  {
    set j | 0 <= j < i :: lines[j]
  }

  lemma ParsedStep(plat: Platform, lines: seq<string>, i: nat)
    requires i < |lines|
    ensures var parsed := ParsedRules(plat, lines[i..], LinesBefore(lines, i));
            var later := ParsedRules(plat, lines[i + 1..], LinesBefore(lines, i + 1));
            var rule := RulePatterns(plat, lines[i]);
            var here := if IsRule(lines, i) && rule.Some? then rule.value else [];
            parsed == if Readable(plat, lines, i) && later.Some? then Some(here + later.value) else None
  {
    var line, rest := lines[i], lines[i + 1..];
    assert lines[i..][0] == line && lines[i..][1..] == rest;
    assert LinesBefore(lines, i) + {line} == LinesBefore(lines, i + 1);
    assert IsRule(lines, i) <==> !IsComment(line) && line !in LinesBefore(lines, i);
    var later := ParsedRules(plat, rest, LinesBefore(lines, i + 1));
    if later.Some? { assert [] + later.value == later.value; }
  }

  lemma {:induction false} ParsedFrom(plat: Platform, lines: seq<string>, i: nat)
    requires i <= |lines|
    ensures var parsed := ParsedRules(plat, lines[i..], LinesBefore(lines, i));
            && (parsed.Some? <==> forall j :: i <= j < |lines| ==> Readable(plat, lines, j))
            && (parsed.Some? ==> parsed.value == RulesFrom(plat, lines, i))
    decreases |lines| - i
  {
    if i < |lines| {
      ParsedStep(plat, lines, i);
      ParsedFrom(plat, lines, i + 1);
    }
  }

  /** A file is read if every line can be, and then its patterns are those of its rules in order, each once. */
  lemma FileMeansItsRules(plat: Platform, lines: seq<string>)
    ensures var parsed := ParsedRules(plat, lines, {});
            && (parsed.Some? <==> forall i :: 0 <= i < |lines| ==> Readable(plat, lines, i))
            && (parsed.Some? ==> parsed.value == RulesFrom(plat, lines, 0))
  {
    ParsedFrom(plat, lines, 0);
    assert lines[0..] == lines && LinesBefore(lines, 0) == {};
  }

  // ---------------------------------------------------------------- names that no rule decides

  lemma LastNameTemporary(dir: string, name: string)
    requires NoSep(name)
    ensures IsTemporary(name) <==> "~syncthing~" <= name || ".syncthing." <= name
    ensures IsTemporary(dir + "/" + name) <==> "~syncthing~" <= name || ".syncthing." <= name
  {
    UpToLastSepOf(dir, name);
    assert Base(name) == name;
    assert Base(dir + "/" + name) == name;
    assert TEMP_PREFIXES[0] == "~syncthing~" && TEMP_PREFIXES[1] == ".syncthing.";
  }

  /** Internal are exactly three names in the folder root and what is below them. */
  lemma FirstNameInternal(path: string)
    requires IsCanonical(path) && path != "."
    ensures IsInternal(path) <==> Comps(path)[0] in {".stfolder", ".stignore", ".stversions"}
  {
    forall i | 0 <= i < |INTERNALS|
      ensures path == INTERNALS[i] || IsParent(path, INTERNALS[i]) <==> Comps(path)[0] == INTERNALS[i]
    {
      InternalByName(path, INTERNALS[i]);
    }
    assert INTERNALS[0] == ".stfolder" && INTERNALS[1] == ".stignore" && INTERNALS[2] == ".stversions";
  }

  lemma InternalByName(path: string, name: string)
    requires IsCanonical(path) && path != "." && IsName(name)
    ensures path == name || IsParent(path, name) <==> Comps(path)[0] == name
  {
    SplitOfName(name);
    IsParentIffCompsPrefix(path, name);
    FromCompsOfComps(path);
    if Comps(path)[0] == name && |Comps(path)| == 1 { assert Comps(path) == [name]; }
  }

  /** What Match shows: temporary and internal names are ignored and skipped whatever the rules, the root is
      not ignored, and anything else is ignored exactly if the first pattern that matches it ignores it. */
  lemma MatchShows(plat: Platform, ps: seq<Pattern>, file: string)
    requires Usable(ps)
    ensures var r := MatchResult(plat, ps, file);
            if IsTemporary(file) || IsInternal(file) then r.IsIgnored() && r.CanSkipDir()
            else if file == "." then !r.IsIgnored()
            else r.IsIgnored() <==> exists k: nat :: FirstMatch(plat, ps, file, k) && ps[k].result.ignoreBit
  {
    var k := LoopFrom(plat, ps, 0, true, file);
  }
}
