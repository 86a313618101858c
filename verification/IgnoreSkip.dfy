/** What Match returns, and when "ignored, skip the directory" is right for everything below it. */
module IgnoreSkip {
  import opened Paths
  import opened Globs
  import opened Options
  import opened IgnorePatterns

  const TEMP_PREFIXES: seq<string> := ["~syncthing~", ".syncthing."]
  const INTERNALS: seq<string> := [".stfolder", ".stignore", ".stversions"]

  /** IsTemporary of lib/fs/tempname.go. */
  predicate IsTemporary(file: string) {
    exists i :: 0 <= i < |TEMP_PREFIXES| && HasPrefix(Base(file), TEMP_PREFIXES[i])
  }

  /** IsInternal of lib/fs/filesystem.go. */
  predicate IsInternal(file: string) {
    exists i :: 0 <= i < |INTERNALS| && (file == INTERNALS[i] || IsParent(file, INTERNALS[i]))
  }

  predicate PatternMatches(plat: Platform, p: Pattern, file: string) {
    Matches(p.glob, Folded(plat, file, p.result))
  }

  /** No pattern has an empty text; the code indexes the first byte. */
  predicate Usable(ps: seq<Pattern>) { forall i :: 0 <= i < |ps| ==> ps[i].text != "" }

  /** The loop of Match from pattern `i` on. */
  function Loop(plat: Platform, ps: seq<Pattern>, i: nat, canSkip: bool, file: string): R
    requires Usable(ps)
    decreases |ps| - i
  {
    if i >= |ps| then NOT_IGNORED
    else
      var skip := canSkip && AllowsSkippingIgnoredDirs(ps[i]);
      if PatternMatches(plat, ps[i], file) then
        if skip then ps[i].result.WithSkipDir() else ps[i].result
      else Loop(plat, ps, i + 1, skip, file)
  }

  /** Matcher.Match without the cache. */
  function MatchResult(plat: Platform, ps: seq<Pattern>, file: string): R
    requires Usable(ps)
  {
    if IsTemporary(file) || IsInternal(file) then plat.IgnoreAndSkip()
    else if file == "." then NOT_IGNORED
    else Loop(plat, ps, 0, true, file)
  }

  // ---------------------------------------------------------------- first match

  ghost predicate FirstMatch(plat: Platform, ps: seq<Pattern>, file: string, k: nat) {
    && k < |ps| && PatternMatches(plat, ps[k], file)
    && forall i :: 0 <= i < k ==> !PatternMatches(plat, ps[i], file)
  }

  ghost predicate NoMatch(plat: Platform, ps: seq<Pattern>, file: string) {
    forall i :: 0 <= i < |ps| ==> !PatternMatches(plat, ps[i], file)
  }

  ghost predicate AllAllow(ps: seq<Pattern>, lo: nat, hi: nat)
    requires Usable(ps) && hi <= |ps|
  {
    forall i :: lo <= i < hi ==> AllowsSkippingIgnoredDirs(ps[i])
  }

  /** The loop is first match wins, with the skip bit set exactly if every pattern up to and
      including the matching one allows skipping. */
  lemma {:induction false} LoopFrom(plat: Platform, ps: seq<Pattern>, i: nat, canSkip: bool, file: string)
      returns (k: nat)
    requires Usable(ps) && i <= |ps|
    requires forall j :: 0 <= j < i ==> !PatternMatches(plat, ps[j], file)
    ensures i <= k <= |ps|
    ensures k == |ps| ==> NoMatch(plat, ps, file) && Loop(plat, ps, i, canSkip, file) == NOT_IGNORED
    ensures k != |ps| ==>
              FirstMatch(plat, ps, file, k) && Loop(plat, ps, i, canSkip, file) ==
              if canSkip && AllAllow(ps, i, k + 1) then ps[k].result.WithSkipDir() else ps[k].result
    decreases |ps| - i
  {
    if i == |ps| || PatternMatches(plat, ps[i], file) {
      k := i;
    } else {
      var skip := AllowsSkippingIgnoredDirs(ps[i]);
      k := LoopFrom(plat, ps, i + 1, canSkip && skip, file);
      if k < |ps| {
        assert AllAllow(ps, i, k + 1) <==> skip && AllAllow(ps, i + 1, k + 1);
      }
    }
  }

  // ---------------------------------------------------------------- what one line expands to

  lemma ExpandShape(text: string, r: R)
    requires Expand(text, r).Some?
    ensures var g := Expand(text, r).value;
            && 1 <= |g| <= 2
            && (forall i :: 0 <= i < |g| ==> g[i].result == r)
            && (text != "" && text != "**/" ==> forall i :: 0 <= i < |g| ==> g[i].text != "")
            && (HasPrefix(text, "/") ==> |g| == 1 && g[0].text == text && Compile(text[1..]) == Some(g[0].glob))
            && (!HasPrefix(text, "/") ==> |g| == 2 && g[0].text == text && Compile(text) == Some(g[0].glob))
            && (!HasPrefix(text, "/") && HasPrefix(text, "**/") ==>
                g[1].text == text[3..] && Compile(text[3..]) == Some(g[1].glob))
            && (!HasPrefix(text, "/") && !HasPrefix(text, "**/") ==>
                  g[1].text == "**/" + text && Compile("**/" + text) == Some(g[1].glob))
  {
  }

  lemma AppendedPrefixes(text: string)
    requires text != ""
    ensures var t := text + "/**"; HasPrefix(t, "/") <==> HasPrefix(text, "/")
    ensures var t := text + "/**"; text != "**" ==> (HasPrefix(t, "**/") <==> HasPrefix(text, "**/"))
  {
    var t := text + "/**";
    assert t[0] == text[0];
    if |text| >= 3 {
      assert t[..3] == text[..3];
    } else if |text| == 2 {
      assert t[..3] == text + "/" && text == [text[0], text[1]];
      assert t[0] == text[0] && t[1] == text[1];
    } else {
      assert t[1] == '/';
    }
  }

  // Every pattern of a text that ends in the suffix "everything below" is open ended.
  lemma ExpandBelowIsOpen(text: string, r: R)
    requires Expand(text + "/**", r).Some?
    ensures forall p :: p in Expand(text + "/**", r).value ==> |p.glob| >= 1 && p.glob[|p.glob| - 1] == Super
  {
    var t := text + "/**";
    ExpandShape(t, r);
    CompileStars();
    CompileBelow(text);
    if text == "" {
      assert t[1..] == "**";
      return;
    }
    AppendedPrefixes(text);
    if HasPrefix(t, "/") {
      CompileBelow(text[1..]);
      assert t[1..] == text[1..] + "/**";
    } else if HasPrefix(t, "**/") {
      if |text| >= 3 {
        CompileBelow(text[3..]);
        assert t[3..] == text[3..] + "/**";
      } else {
        assert |text| == 2;
        assert t[3..] == "**";
      }
    } else {
      CompileBelow("**/" + text);
      assert "**/" + t == ("**/" + text) + "/**";
    }
  }

  // Pattern by pattern, the expansion of the suffixed text is the suffixed expansion of the text.
  lemma ExpandPairsUp(text: string, r: R)
    requires text != "" && text != "**" && Expand(text, r).Some? && Expand(text + "/**", r).Some?
    ensures var g, h := Expand(text, r).value, Expand(text + "/**", r).value;
            |g| == |h| && forall i :: 0 <= i < |g| ==> h[i].glob == g[i].glob + BELOW
  {
    AppendedPrefixes(text);
    ExpandShape(text + "/**", r);
    ExpandShape(text, r);
    if HasPrefix(text, "/") {
      CompileBelow(text[1..]);
      assert (text + "/**")[1..] == text[1..] + "/**";
    } else if HasPrefix(text, "**/") {
      CompileBelow(text);
      CompileBelow(text[3..]);
      assert (text + "/**")[3..] == text[3..] + "/**";
    } else {
      CompileBelow(text);
      CompileBelow("**/" + text);
      assert "**/" + (text + "/**") == ("**/" + text) + "/**";
    }
  }

  // ... except for the text that is just a double star, whose patterns are open ended anyway.
  lemma ExpandDoubleStarIsOpen(r: R)
    requires Expand("**", r).Some?
    ensures forall p :: p in Expand("**", r).value ==> |p.glob| >= 1 && p.glob[|p.glob| - 1] == Super
  {
    CompileStars();
    CompileBelow("**");
    ExpandShape("**", r);
    assert "**/" + "**" == "**" + "/**";
  }

  // ---------------------------------------------------------------- what one rule line expands to

  predicate Closed(line: string) { HasSuffix(line, "/") || HasSuffix(line, "/**") }

  /** A rule line without the suffix that closes it. */
  function Core(line: string): string {
    if HasSuffix(line, "/**") then line[..|line| - 3] else if HasSuffix(line, "/") then line[..|line| - 1] else line
  }

  /** The result flags a line's prefixes ask for. */
  function LineResult(plat: Platform, line: string): R {
    StripPrefixes(line, false, false, false, plat.Ignored()).1
  }

  /** A line's text without its prefixes, lower-cased if it folds case. */
  function LineText(plat: Platform, line: string): string {
    Folded(plat, StripPrefixes(line, false, false, false, plat.Ignored()).0, LineResult(plat, line))
  }

  lemma SuffixedLine(plat: Platform, core: string)
    requires plat.Valid()
    ensures ParsedLine(plat, core + "/**") == Expand(LineText(plat, core) + "/**", LineResult(plat, core))
    ensures LineResult(plat, core + "/") == LineResult(plat, core) == LineResult(plat, core + "/**")
  {
    StripOfAppended(core, "/**", false, false, false, plat.Ignored());
    StripOfAppended(core, "/", false, false, false, plat.Ignored());
    FoldedSuffix(plat, StripPrefixes(core, false, false, false, plat.Ignored()).0, LineResult(plat, core));
  }

  lemma OpenLineText(plat: Platform, line: string)
    requires plat.Valid() && !Closed(line)
    ensures !HasSuffix(LineText(plat, line), "/") && !HasSuffix(LineText(plat, line), "/**")
  {
    var rest := StripPrefixes(line, false, false, false, plat.Ignored()).0;
    StripIsSuffix(line, false, false, false, plat.Ignored());
    FoldedSuffix(plat, rest, LineResult(plat, line));
    if HasSuffix(rest, "/") { SuffixOfSuffix(line, rest, "/"); }
    if HasSuffix(rest, "/**") { SuffixOfSuffix(line, rest, "/**"); }
  }

  // A rule line stands for the expansion of its text with the suffix "everything below"; an open
  // line, one that does not end in that suffix itself, also for the expansion of the bare text.
  lemma RuleExpands(plat: Platform, line: string)
    requires plat.Valid() && RulePatterns(plat, line).Some?
    ensures var text, r := LineText(plat, Core(line)), LineResult(plat, Core(line));
            && r == LineResult(plat, line) && Expand(text + "/**", r).Some?
            && if Closed(line) then RulePatterns(plat, line) == Expand(text + "/**", r)
               else Expand(text, r).Some?
                    && RulePatterns(plat, line).value == Expand(text, r).value + Expand(text + "/**", r).value
  {
    var core := Core(line);
    SuffixedLine(plat, core);
    if HasSuffix(line, "/**") {
      assert line == core + "/**";
    } else if HasSuffix(line, "/") {
      assert line == core + "/" && line + "**" == core + "/**";
    }
  }

  lemma RuleShape(plat: Platform, line: string) returns (text: string, r: R)
    requires plat.Valid() && RulePatterns(plat, line).Some?
    ensures r == LineResult(plat, line)
    ensures Expand(text + "/**", r).Some?
    ensures Closed(line) ==> RulePatterns(plat, line) == Expand(text + "/**", r)
    ensures !Closed(line) ==> text != "" && !HasSuffix(text, "/") && !HasSuffix(text, "/**") && Expand(text, r).Some?
    ensures !Closed(line) ==> RulePatterns(plat, line).value == Expand(text, r).value + Expand(text + "/**", r).value
  {
    RuleExpands(plat, line);
    text, r := LineText(plat, Core(line)), LineResult(plat, Core(line));
    if !Closed(line) { OpenLineText(plat, line); }
  }

  lemma FoldedBelow(plat: Platform, dir: string, rest: string, r: R)
    requires plat.Valid()
    ensures Folded(plat, dir + [SEP] + rest, r) == Folded(plat, dir, r) + [SEP] + Folded(plat, rest, r)
  {
  }

  predicate OpenEndedPattern(p: Pattern) { |p.glob| >= 1 && p.glob[|p.glob| - 1] == Super }

  lemma OpenPatternCovers(plat: Platform, p: Pattern, dir: string, rest: string)
    requires plat.Valid() && OpenEndedPattern(p) && PatternMatches(plat, p, dir)
    ensures PatternMatches(plat, p, dir + [SEP] + rest)
  {
    FoldedBelow(plat, dir, rest, p.result);
    var d, t := Folded(plat, dir, p.result), Folded(plat, rest, p.result);
    OpenEnded(p.glob, d, [SEP] + t);
    assert d + ([SEP] + t) == d + [SEP] + t;
  }

  lemma BelowPatternCovers(plat: Platform, p: Pattern, q: Pattern, dir: string, rest: string)
    requires plat.Valid() && q.glob == p.glob + BELOW && q.result == p.result && PatternMatches(plat, p, dir)
    ensures PatternMatches(plat, q, dir + [SEP] + rest)
  {
    FoldedBelow(plat, dir, rest, p.result);
    BelowMatchesDescendants(p.glob, Folded(plat, dir, p.result), Folded(plat, rest, p.result));
  }

  predicate AllOpen(s: seq<Pattern>) { forall k :: 0 <= k < |s| ==> OpenEndedPattern(s[k]) }

  /** Pattern by pattern, the second list is the first with the suffix "everything below". */
  predicate Paired(first: seq<Pattern>, below: seq<Pattern>) {
    |first| == |below| && forall k :: 0 <= k < |first| ==> Extends(below[k], first[k])
  }

  predicate Extends(q: Pattern, p: Pattern) { q.glob == p.glob + BELOW && q.result == p.result }

  lemma ExpandedIsOpen(text: string, r: R)
    requires Expand(text + "/**", r).Some?
    ensures AllOpen(Expand(text + "/**", r).value)
  {
    ExpandBelowIsOpen(text, r);
  }

  lemma ExpandedIsPaired(text: string, r: R)
    requires text != "" && Expand(text, r).Some? && Expand(text + "/**", r).Some?
    ensures AllOpen(Expand(text, r).value) || Paired(Expand(text, r).value, Expand(text + "/**", r).value)
  {
    if text == "**" {
      ExpandDoubleStarIsOpen(r);
    } else {
      ExpandPairsUp(text, r);
      ExpandShape(text + "/**", r);
      ExpandShape(text, r);
    }
  }

  lemma PairsUp(first: seq<Pattern>, below: seq<Pattern>, i: nat) returns (j: nat)
    requires i < |first + below| && AllOpen(below) && (AllOpen(first) || Paired(first, below))
    ensures i <= j < |first + below|
    ensures var g := first + below; if i == j then OpenEndedPattern(g[i]) else Extends(g[j], g[i])
  {
    j := if i < |first| && !AllOpen(first) then i + |first| else i;
  }

  /** In the patterns of a rule line each is open ended, or a later one is its extension by the
      suffix "everything below". */
  lemma RulePairsUp(plat: Platform, line: string, i: nat) returns (j: nat)
    requires plat.Valid() && RulePatterns(plat, line).Some? && i < |RulePatterns(plat, line).value|
    ensures i <= j < |RulePatterns(plat, line).value|
    ensures var g := RulePatterns(plat, line).value; if i == j then OpenEndedPattern(g[i]) else Extends(g[j], g[i])
  {
    var text, r := RuleShape(plat, line);
    ExpandedIsOpen(text, r);
    if Closed(line) {
      j := i;
    } else {
      ExpandedIsPaired(text, r);
      j := PairsUp(Expand(text, r).value, Expand(text + "/**", r).value, i);
    }
  }

  /** Whatever pattern of a rule line matches a directory, that pattern or a later one of the same
      line matches everything below the directory. */
  lemma RuleCovers(plat: Platform, line: string, i: nat, dir: string, rest: string) returns (j: nat)
    requires plat.Valid() && RulePatterns(plat, line).Some?
    requires i < |RulePatterns(plat, line).value| && PatternMatches(plat, RulePatterns(plat, line).value[i], dir)
    ensures i <= j < |RulePatterns(plat, line).value|
    ensures PatternMatches(plat, RulePatterns(plat, line).value[j], dir + [SEP] + rest)
  {
    var g := RulePatterns(plat, line).value;
    j := RulePairsUp(plat, line, i);
    if i == j {
      OpenPatternCovers(plat, g[i], dir, rest);
    } else {
      BelowPatternCovers(plat, g[i], g[j], dir, rest);
    }
  }

  lemma RuleResults(plat: Platform, line: string)
    requires plat.Valid() && RulePatterns(plat, line).Some?
    ensures var g := RulePatterns(plat, line).value;
            Usable(g) && forall i :: 0 <= i < |g| ==>
              g[i].result == LineResult(plat, line)
  {
    var text, r := RuleShape(plat, line);
    ExpandShape(text + "/**", r);
    var t := text + "/**";
    assert t[|t| - 1] == '*';
    if !Closed(line) {
      ExpandShape(text, r);
      assert HasSuffix("**/", "/");
    }
  }

  // ---------------------------------------------------------------- un-ignoring patterns

  /** An un-ignoring pattern that reaches below a directory which its text, without the suffix
      "everything below", names. */
  predicate Reopens(plat: Platform, p: Pattern, dir: string) {
    && !p.result.IsIgnored() && |p.text| > 3 && p.text[0] == SEP && HasSuffix(p.text, "/**")
    && var g := Compile(p.text[1..|p.text| - 3]);
       g.Some? && Matches(g.value, Folded(plat, dir, p.result))
  }

  predicate Rooted(p: Pattern) { p.text != "" && p.text[0] == SEP && Compile(p.text[1..]) == Some(p.glob) }

  lemma RootedBelow(p: Pattern)
    requires Rooted(p) && |p.text| > 3 && HasSuffix(p.text, "/**")
    ensures var g := Compile(p.text[1..|p.text| - 3]);
            g.Some? && p.glob == g.value + BELOW
  {
    var x := p.text[1..|p.text| - 3];
    CompileBelow(x);
    assert p.text[1..] == x + "/**";
  }

  /** A reopening pattern matches everything below the directory it reopens. */
  lemma ReopensMatchesBelow(plat: Platform, p: Pattern, dir: string, rest: string)
    requires plat.Valid() && Rooted(p) && Reopens(plat, p, dir)
    ensures PatternMatches(plat, p, dir + [SEP] + rest)
  {
    RootedBelow(p);
    FoldedBelow(plat, dir, rest, p.result);
    BelowMatchesDescendants(Compile(p.text[1..|p.text| - 3]).value, Folded(plat, dir, p.result),
        Folded(plat, rest, p.result));
  }

  // The shape test: what is left of the pattern text between the leading separator and the suffix
  // "everything below" compiles to a flat glob.
  lemma AllowedIsFlat(p: Pattern)
    requires Rooted(p) && !p.result.IsIgnored() && AllowsSkippingIgnoredDirs(p)
    ensures p.text == "/**" || (!HasSuffix(p.text, "/**") && Flat(p.glob))
         || (|p.text| > 3 && HasSuffix(p.text, "/**") && Compile(p.text[1..|p.text| - 3]).Some?
             && Flat(Compile(p.text[1..|p.text| - 3]).value))
  {
    var q := TrimSuffix(p.text, "/**");
    if p.text != "/**" {
      var x := q[1..];
      if HasSuffix(p.text, "/**") {
        RootedBelow(p);
      }
      assert Compile(x).Some?;
      var y := TrimSuffix(q, "**");
      HasDoubleStarTail(y, 1);
      if HasSuffix(q, "**") {
        assert x == y[1..] + "**";
        assert forall c :: c in y[1..] ==> c in x;
        PlainTextThenSuperIsFlat(y[1..]);
      } else {
        PlainTextIsFlat(x);
      }
    }
  }

  /** A skippable un-ignoring pattern that matches below a directory, but not the directory, is a
      reopening pattern. */
  lemma AllowedMatchesBelow(plat: Platform, p: Pattern, dir: string, rest: string)
    requires plat.Valid() && Rooted(p) && !p.result.IsIgnored() && AllowsSkippingIgnoredDirs(p)
    requires PatternMatches(plat, p, dir + [SEP] + rest) && !PatternMatches(plat, p, dir)
    ensures Reopens(plat, p, dir)
  {
    AllowedIsFlat(p);
    FoldedBelow(plat, dir, rest, p.result);
    var d, t := Folded(plat, dir, p.result), Folded(plat, rest, p.result);
    if p.text == "/**" {
      CompileStars();
      assert p.text[1..] == "**";
      SuperMatchesAll(d);
    } else if HasSuffix(p.text, "/**") {
      RootedBelow(p);
      FlatBelowReaches(Compile(p.text[1..|p.text| - 3]).value, d, t);
    } else {
      FlatMatchesDirectory(p.glob, d, t);
    }
  }

  /** Whether a pattern text starts at the folder root. */
  predicate AtRoot(p: Pattern) { HasPrefix(p.text, "/") }

  // Among the patterns of a text, one that starts at the root and whose predecessor does too is the
  // only one, and compiled from its own text.
  lemma AtRootInExpand(text: string, r: R, g: seq<Pattern>, i: nat)
    requires Expand(text, r) == Some(g) && i < |g|
    requires AtRoot(g[i]) && (i > 0 ==> AtRoot(g[i - 1]))
    ensures i == 0 && |g| == 1 && AtRoot(g[0]) && g[0].text == text && Rooted(g[0])
  {
  }

  lemma AtRootInBoth(text: string, r: R, first: seq<Pattern>, below: seq<Pattern>, i: nat)
    requires text != "" && Expand(text, r) == Some(first) && Expand(text + "/**", r) == Some(below)
    requires i < |first + below| && AtRoot((first + below)[i]) && (i > 0 ==> AtRoot((first + below)[i - 1]))
    ensures |first| == |below| == 1 && i <= 1
    ensures Rooted(first[0]) && first[0].text == text && Rooted(below[0]) && below[0].text == text + "/**"
  {
    AppendedPrefixes(text);
    RootedOrNot(text, r, first);
    RootedOrNot(text + "/**", r, below);
  }

  lemma RootedOrNot(text: string, r: R, g: seq<Pattern>)
    requires Expand(text, r) == Some(g)
    ensures HasPrefix(text, "/") ==> |g| == 1 && g[0].text == text && Rooted(g[0])
    ensures !HasPrefix(text, "/") ==> |g| == 2 && !AtRoot(g[0])
    ensures !HasPrefix(text, "/") && !HasPrefix(text, "**/") ==> !AtRoot(g[1])
  {
    ExpandShape(text, r);
  }

  lemma AtRootInRule(plat: Platform, line: string, g: seq<Pattern>, i: nat)
    requires plat.Valid() && RulePatterns(plat, line) == Some(g) && i < |g|
    requires AtRoot(g[i]) && (i > 0 ==> AtRoot(g[i - 1]))
    ensures Rooted(g[i])
    ensures Closed(line) ==> i == 0
    ensures !Closed(line) ==>
              i <= 1 && Rooted(g[0]) && !HasSuffix(g[0].text, "/**") && (i == 1 ==> g[1].text == g[0].text + "/**")
  {
    var text, r := RuleShape(plat, line);
    var below := Expand(text + "/**", r).value;
    if Closed(line) {
      AtRootInExpand(text + "/**", r, below, i);
    } else {
      AtRootInBoth(text, r, Expand(text, r).value, below, i);
    }
  }

  // ---------------------------------------------------------------- the whole list

  /** The rule line a pattern of a parsed list comes from, and where its patterns start. */
  lemma {:induction false} Locate(plat: Platform, lines: seq<string>, seen: set<string>, ps: seq<Pattern>, k: nat)
    returns (off: nat, line: string, g: seq<Pattern>)
    requires ParsedRules(plat, lines, seen) == Some(ps) && k < |ps|
    ensures line in lines && RulePatterns(plat, line) == Some(g)
    ensures off <= k < off + |g| <= |ps|
    ensures forall i :: 0 <= i < |g| ==> g[i] == ps[off + i]
  {
    var rest := lines[1..];
    if lines[0] in seen || IsComment(lines[0]) {
      off, line, g := Locate(plat, rest, seen + {lines[0]}, ps, k);
    } else {
      var here := RulePatterns(plat, lines[0]).value;
      var later := ParsedRules(plat, rest, seen + {lines[0]}).value;
      assert ps == here + later;
      if k < |here| {
        off, line, g := 0, lines[0], here;
      } else {
        var o: nat;
        o, line, g := Locate(plat, rest, seen + {lines[0]}, later, k - |here|);
        off := |here| + o;
        forall i | 0 <= i < |g| ensures g[i] == ps[off + i] {
          assert g[i] == later[o + i] == ps[|here| + (o + i)];
        }
      }
    }
  }

  lemma ParsedIsUsable(plat: Platform, lines: seq<string>, ps: seq<Pattern>)
    requires plat.Valid() && ParsedRules(plat, lines, {}) == Some(ps)
    ensures Usable(ps)
  {
    forall k | 0 <= k < |ps|
      ensures ps[k].text != ""
    {
      var off, line, g := Locate(plat, lines, {}, ps, k);
      RuleResults(plat, line);
      assert g[k - off] == ps[k];
    }
  }

  /** A pattern that reopens the directory, before anything that matches the directory or the
      given path below it. */
  ghost predicate ReopenedFirst(plat: Platform, ps: seq<Pattern>, dir: string, below: string, j: nat) {
    && j < |ps| && Reopens(plat, ps[j], dir)
    && (forall i :: 0 <= i <= j ==> !PatternMatches(plat, ps[i], dir))
    && (forall i :: 0 <= i < j ==> !PatternMatches(plat, ps[i], below))
  }

  lemma SkippableIsAtRoot(ps: seq<Pattern>, j: nat, off: nat, g: seq<Pattern>)
    requires Usable(ps) && off <= j < off + |g| <= |ps| && AllAllow(ps, 0, j + 1)
    requires forall i :: 0 <= i < |g| ==> g[i] == ps[off + i] && g[i].result == ps[j].result
    requires !ps[j].result.IsIgnored()
    ensures AtRoot(g[j - off]) && (j > off ==> AtRoot(g[j - off - 1]))
  {
  }

  // Ahead of a skippable match every un-ignoring pattern is compiled from its own text.
  lemma SkippableIsRooted(plat: Platform, lines: seq<string>, ps: seq<Pattern>, j: nat)
    requires plat.Valid() && ParsedRules(plat, lines, {}) == Some(ps) && Usable(ps)
    requires j < |ps| && AllAllow(ps, 0, j + 1) && !ps[j].result.IsIgnored()
    ensures Rooted(ps[j])
  {
    var off, line, g := Locate(plat, lines, {}, ps, j);
    assert g[j - off] == ps[j];
    RuleResults(plat, line);
    SkippableIsAtRoot(ps, j, off, g);
    AtRootInRule(plat, line, g, j - off);
  }

  // Below a skippable directory, an un-ignoring first match is one that reopens the directory.
  lemma UnignoredBelowIsReopened(plat: Platform, lines: seq<string>, ps: seq<Pattern>, dir: string, rest: string,
      k: nat, m: nat)
    requires plat.Valid() && ParsedRules(plat, lines, {}) == Some(ps) && Usable(ps)
    requires FirstMatch(plat, ps, dir, k) && AllAllow(ps, 0, k + 1)
    requires FirstMatch(plat, ps, dir + [SEP] + rest, m) && m < k && !ps[m].result.IsIgnored()
    ensures ReopenedFirst(plat, ps, dir, dir + [SEP] + rest, m)
  {
    SkippableIsRooted(plat, lines, ps, m);
    AllowedMatchesBelow(plat, ps[m], dir, rest);
  }

  // The first match below a directory whose first match ignores it comes no later than the end of
  // the rule line that ignores the directory, and an ignoring line only has ignoring patterns.
  lemma CoveredBelow(plat: Platform, lines: seq<string>, ps: seq<Pattern>, dir: string, rest: string, k: nat)
      returns (m: nat)
    requires plat.Valid() && ParsedRules(plat, lines, {}) == Some(ps) && Usable(ps)
    requires FirstMatch(plat, ps, dir, k) && ps[k].result.IsIgnored()
    ensures FirstMatch(plat, ps, dir + [SEP] + rest, m)
    ensures m >= k ==> ps[m].result.IsIgnored()
  {
    var e := dir + [SEP] + rest;
    var off, line, g := Locate(plat, lines, {}, ps, k);
    assert g[k - off] == ps[k];
    var c := RuleCovers(plat, line, k - off, dir, rest);
    assert g[c] == ps[off + c];
    RuleResults(plat, line);
    m := LoopFrom(plat, ps, 0, true, e);
    if k <= m {
      assert g[m - off] == ps[m];
    }
  }

  /** The exact law. If the pattern loop says "ignored, skip" for a directory, then a path below it
      is ignored exactly if no un-ignoring pattern reopens the directory ahead of every pattern
      that matches the directory or the path. */
  lemma SkippedIgnoresBelowIff(plat: Platform, lines: seq<string>, ps: seq<Pattern>, dir: string, rest: string)
    requires plat.Valid() && ParsedRules(plat, lines, {}) == Some(ps) && Usable(ps)
    requires Loop(plat, ps, 0, true, dir).CanSkipDir()
    ensures Loop(plat, ps, 0, true, dir + [SEP] + rest).IsIgnored() <==>
            !exists j: nat :: ReopenedFirst(plat, ps, dir, dir + [SEP] + rest, j)
  {
    var e := dir + [SEP] + rest;
    var k := LoopFrom(plat, ps, 0, true, dir);
    ParsedResults(plat, lines, ps, k);
    var m := CoveredBelow(plat, lines, ps, dir, rest, k);
    var m' := LoopFrom(plat, ps, 0, true, e);
    assert m == m';
    if !ps[m].result.IsIgnored() {
      UnignoredBelowIsReopened(plat, lines, ps, dir, rest, k, m);
    }
    if exists j: nat :: ReopenedFirst(plat, ps, dir, e, j) {
      var j: nat :| ReopenedFirst(plat, ps, dir, e, j);
      assert j < k;
      SkippableIsRooted(plat, lines, ps, j);
      ReopensMatchesBelow(plat, ps[j], dir, rest);
      assert m == j;
    }
  }

  // Parsed patterns do not carry the skip bit themselves.
  lemma ParsedResults(plat: Platform, lines: seq<string>, ps: seq<Pattern>, k: nat)
    requires plat.Valid() && ParsedRules(plat, lines, {}) == Some(ps) && k < |ps|
    ensures !ps[k].result.canSkipDirBit
  {
    var off, line, g := Locate(plat, lines, {}, ps, k);
    RuleResults(plat, line);
    StripKeepsSkipBit(line, false, false, false, plat.Ignored());
    assert g[k - off] == ps[k];
  }

  lemma {:induction false} StripKeepsSkipBit(line: string, bang: bool, fold: bool, del: bool, r: R)
    ensures StripPrefixes(line, bang, fold, del, r).1.canSkipDirBit == r.canSkipDirBit
    decreases |line|
  {
    if HasPrefix(line, "!") && !bang {
      StripKeepsSkipBit(line[1..], true, fold, del, r.ToggleIgnored());
    } else if HasPrefix(line, "(?i)") && !fold {
      StripKeepsSkipBit(line[4..], bang, true, del, r.WithFoldCase());
    } else if HasPrefix(line, "(?d)") && !del {
      StripKeepsSkipBit(line[4..], bang, fold, true, r.WithDeletable());
    }
  }

  /** An un-ignoring line that the user wrote for everything below a directory but not for the
      directory: it ends in a separator or in a separator and a double star. */
  predicate UnignoresOnlyBelow(plat: Platform, line: string) {
    Closed(line) && !LineResult(plat, line).IsIgnored()
  }

  ghost predicate NoneOnlyBelow(plat: Platform, lines: seq<string>) {
    forall line :: line in lines ==> !UnignoresOnlyBelow(plat, line)
  }

  /** Without such lines nothing is un-ignored below a directory the pattern loop says to skip. */
  lemma LoopSkipIsSound(plat: Platform, lines: seq<string>, ps: seq<Pattern>, dir: string, rest: string)
    requires plat.Valid() && ParsedRules(plat, lines, {}) == Some(ps) && Usable(ps)
    requires NoneOnlyBelow(plat, lines)
    requires Loop(plat, ps, 0, true, dir).CanSkipDir()
    ensures Loop(plat, ps, 0, true, dir + [SEP] + rest).IsIgnored()
  {
    var e := dir + [SEP] + rest;
    SkippedIgnoresBelowIff(plat, lines, ps, dir, rest);
    var k := LoopFrom(plat, ps, 0, true, dir);
    ParsedResults(plat, lines, ps, k);
    if exists j: nat :: ReopenedFirst(plat, ps, dir, e, j) {
      var j: nat :| ReopenedFirst(plat, ps, dir, e, j);
      var line := ReopeningLine(plat, lines, ps, dir, j);
    }
  }

  /** ... and so for Match as a whole, except for directories that are temporary and not internal. */
  lemma SkipIsSound(plat: Platform, lines: seq<string>, ps: seq<Pattern>, dir: string, rest: string)
    requires plat.Valid() && ParsedRules(plat, lines, {}) == Some(ps) && Usable(ps)
    requires NoneOnlyBelow(plat, lines)
    requires MatchResult(plat, ps, dir).CanSkipDir() && (!IsTemporary(dir) || IsInternal(dir))
    ensures MatchResult(plat, ps, dir + [SEP] + rest).IsIgnored()
  {
    if IsInternal(dir) {
      InternalBelow(dir, rest);
    } else {
      LoopSkipIsSound(plat, lines, ps, dir, rest);
    }
  }

  lemma InternalBelow(dir: string, rest: string)
    requires IsInternal(dir)
    ensures IsInternal(dir + [SEP] + rest)
  {
    var i :| 0 <= i < |INTERNALS| && (dir == INTERNALS[i] || IsParent(dir, INTERNALS[i]));
    var e := dir + [SEP] + rest;
    assert e[|dir|] == SEP;
    assert |INTERNALS[i]| > 1 && INTERNALS[i][0] == '.' && INTERNALS[i][|INTERNALS[i]| - 1] != SEP;
    assert e[0] == dir[0];
    assert IsParent(e, INTERNALS[i]);
  }

  lemma BarePatternMatches(plat: Platform, p: Pattern, q: Pattern, dir: string)
    requires Rooted(p) && q.text == p.text + "/**" && q.result == p.result && Reopens(plat, q, dir)
    ensures PatternMatches(plat, p, dir)
  {
  }

  // A pattern that reopens a directory no earlier pattern matches comes from a line that un-ignores
  // only what is below.
  lemma ReopeningLine(plat: Platform, lines: seq<string>, ps: seq<Pattern>, dir: string, j: nat) returns (line: string)
    requires plat.Valid() && ParsedRules(plat, lines, {}) == Some(ps) && Usable(ps)
    requires j < |ps| && Reopens(plat, ps[j], dir) && AllAllow(ps, 0, j + 1)
    requires forall i :: 0 <= i <= j ==> !PatternMatches(plat, ps[i], dir)
    ensures line in lines && UnignoresOnlyBelow(plat, line)
  {
    var off, l, g := Locate(plat, lines, {}, ps, j);
    line := l;
    var i := j - off;
    assert g[i] == ps[j] && g[0] == ps[off];
    RuleResults(plat, line);
    SkippableIsAtRoot(ps, j, off, g);
    AtRootInRule(plat, line, g, i);
    if !Closed(line) && i == 1 {
      BarePatternMatches(plat, g[0], g[1], dir);
    }
  }

  // ---------------------------------------------------------------- where skipping goes wrong

  lemma CompileLetter(c: char)
    requires c !in "*?\\[{"
    ensures Compile([c]) == Some([Lit(c)])
    ensures Compile([c] + "/**") == Some([Lit(c)] + BELOW)
  {
    var none: Glob := [];
    assert [c][1..] == "" && Compile("") == Some(none) && [Lit(c)] + none == [Lit(c)];
    CompileBelow([c]);
  }

  /** The patterns of the rules "un-ignore everything below f, ignore f". */
  function ReopeningExample(plat: Platform): seq<Pattern> {
    [Pattern("/f/**", [Lit('f')] + BELOW, plat.Ignored().ToggleIgnored()),
     Pattern("/f", [Lit('f')], plat.Ignored()),
     Pattern("/f/**", [Lit('f')] + BELOW, plat.Ignored())]
  }

  /** The letter of the example is its own lower case wherever patterns fold case. */
  predicate Plain(plat: Platform) { plat.foldsByDefault ==> plat.lower('f') == 'f' }

  lemma FoldsToItself(plat: Platform, s: string, r: R)
    requires plat.Valid() && Plain(plat) && (r.IsCaseFolded() ==> plat.foldsByDefault)
    requires forall i :: 0 <= i < |s| ==> s[i] == 'f' || s[i] == '/' || s[i] == '*'
    ensures Folded(plat, s, r) == s
  {
  }

  lemma UnignoreLine(plat: Platform)
    requires plat.Valid() && Plain(plat)
    ensures RulePatterns(plat, "!/f/**") == Some(ReopeningExample(plat)[..1])
  {
    CompileLetter('f');
    var line := "!/f/**";
    var rest := line[1..];
    assert rest == "/f/**" && rest[1..] == ['f'] + "/**";
    assert rest[0] == '/' && !HasPrefix(rest, "(?i)") && !HasPrefix(rest, "(?d)");
    var un := plat.Ignored().ToggleIgnored();
    assert StripPrefixes(rest, true, false, false, un) == (rest, un);
    assert line[0] == '!' && HasPrefix(line, "!") && line[|line| - 3..] == "/**";
    assert StripPrefixes(line, false, false, false, plat.Ignored()) == (rest, un);
    var g := ReopeningExample(plat);
    assert g[..1] == [g[0]];
    assert Expand(rest, un) == Some([g[0]]);
    FoldsToItself(plat, rest, un);
  }

  lemma IgnoreLine(plat: Platform)
    requires plat.Valid() && Plain(plat)
    ensures RulePatterns(plat, "/f") == Some(ReopeningExample(plat)[1..])
  {
    CompileLetter('f');
    var line := "/f";
    assert line[0] == '/' && !HasPrefix(line, "!") && !HasPrefix(line, "(?i)") && !HasPrefix(line, "(?d)");
    assert StripPrefixes(line, false, false, false, plat.Ignored()) == (line, plat.Ignored());
    StripOfAppended(line, "/**", false, false, false, plat.Ignored());
    assert line[1..] == ['f'] && (line + "/**")[1..] == ['f'] + "/**";
    var g := ReopeningExample(plat);
    assert Expand(line, plat.Ignored()) == Some([g[1]]);
    assert line + "/**" == "/f/**";
    assert Expand(line + "/**", plat.Ignored()) == Some([g[2]]);
    FoldsToItself(plat, line, plat.Ignored());
    FoldsToItself(plat, line + "/**", plat.Ignored());
    assert [g[1]] + [g[2]] == g[1..];
  }

  lemma RuleStep(plat: Platform, line: string, rest: seq<string>, seen: set<string>, g: seq<Pattern>, h: seq<Pattern>)
    requires line !in seen && !IsComment(line) && !IsDirective(line)
    requires RulePatterns(plat, line) == Some(g) && ParsedRules(plat, rest, seen + {line}) == Some(h)
    ensures ParsedRules(plat, [line] + rest, seen) == Some(g + h)
  {
  }

  lemma ReopeningRules(plat: Platform)
    requires plat.Valid() && Plain(plat)
    ensures ParsedRules(plat, ["!/f/**", "/f"], {}) == Some(ReopeningExample(plat))
  {
    UnignoreLine(plat);
    IgnoreLine(plat);
    var l, m := "!/f/**", "/f";
    var g, h := ReopeningExample(plat)[..1], ReopeningExample(plat)[1..];
    var none: seq<string> := [];
    assert l[0] == '!' && m[0] == '/' && m[1] == 'f';
    RuleStep(plat, m, none, {} + {l}, h, []);
    assert [m] + none == [m] && h + [] == h;
    RuleStep(plat, l, [m], {}, g, h);
    assert [l, m] == [l] + [m] && g + h == ReopeningExample(plat);
  }

  /** The rules "un-ignore everything below f, ignore f" report the directory f as ignored and
      skippable although nothing below it is ignored. */
  lemma SkipIsUnsoundWhenReopened(plat: Platform, rest: string)
    requires plat.Valid() && Plain(plat)
    ensures var rules := ParsedRules(plat, ["!/f/**", "/f"], {});
            && rules.Some? && Usable(rules.value)
            && Loop(plat, rules.value, 0, true, "f").CanSkipDir()
            && !Loop(plat, rules.value, 0, true, "f" + [SEP] + rest).IsIgnored()
  {
    ReopeningRules(plat);
    ReopeningMatches(plat, rest);
    ReopeningAllows(plat);
    var g := ReopeningExample(plat);
    assert Loop(plat, g, 1, true, "f") == g[1].result.WithSkipDir();
  }

  lemma ReopeningMatches(plat: Platform, rest: string)
    requires plat.Valid() && Plain(plat)
    ensures var g := ReopeningExample(plat);
            && !PatternMatches(plat, g[0], "f") && PatternMatches(plat, g[1], "f")
            && PatternMatches(plat, g[0], "f" + [SEP] + rest)
  {
    var lit := [Lit('f')];
    assert lit[1..] == [] && "f"[1..] == "";
    assert Matches(lit, "f");
    var r := plat.Ignored();
    FoldedBelow(plat, "f", rest, r);
    FoldsToItself(plat, "f", r);
    BelowMatchesDescendants(lit, "f", Folded(plat, rest, r));
    assert (lit + BELOW)[1..] == BELOW && (lit + BELOW)[0] == Lit('f');
    assert !Matches(BELOW, "");
    assert !Matches(lit + BELOW, "f");
  }

  lemma ReopeningAllows(plat: Platform)
    requires plat.Valid() && Plain(plat)
    ensures AllowsSkippingIgnoredDirs(ReopeningExample(plat)[0])
  {
  }

  lemma InternalParent(dir: string, name: string)
    requires NoSep(name) && IsInternal(dir + [SEP] + name)
    ensures IsInternal(dir)
  {
    var e := dir + [SEP] + name;
    var i :| 0 <= i < |INTERNALS| && (e == INTERNALS[i] || IsParent(e, INTERNALS[i]));
    var internal := INTERNALS[i];
    assert NoSep(internal) && internal[0] == '.';
    assert e[|dir|] == SEP;
    assert IsParent(e, internal);
    if |internal| < |dir| {
      assert dir[..|internal|] == e[..|internal|] && dir[|internal|] == e[|internal|] && dir[0] == e[0];
      assert IsParent(dir, internal);
    } else if |internal| == |dir| {
      assert dir == e[..|internal|];
    }
  }

  /** A temporary name is skippable without any rule, but what lies below it is not ignored unless it is
      internal. */
  lemma TemporaryDirectoryIsSkipped(plat: Platform, dir: string)
    requires IsTemporary(dir) && !IsInternal(dir)
    ensures MatchResult(plat, [], dir).CanSkipDir()
    ensures MatchResult(plat, [], dir + [SEP] + "a") == NOT_IGNORED
  {
    var name := "a";
    UpToLastSepOf(dir, name);
    assert Base(dir + [SEP] + name) == name;
    if IsInternal(dir + [SEP] + name) { InternalParent(dir, name); }
  }

  /** If Match says to skip a directory, what is below is ignored. */
  ghost predicate SkipsRightly(plat: Platform, lines: seq<string>, dir: string, rest: string) {
    match ParsedRules(plat, lines, {})
    case None => true
    case Some(ps) => Usable(ps) && MatchResult(plat, ps, dir).CanSkipDir() ==>
      MatchResult(plat, ps, dir + [SEP] + rest).IsIgnored()
  }

  /** Whatever the rules, as long as none un-ignores only what is below: skipping a directory is right
      for everything below it exactly if its name is not a temporary one or it is internal. */
  lemma SkipsRightlyIff(plat: Platform, dir: string)
    requires plat.Valid()
    ensures (forall lines, rest :: NoneOnlyBelow(plat, lines) ==> SkipsRightly(plat, lines, dir, rest)) <==>
            !IsTemporary(dir) || IsInternal(dir)
  {
    if !IsTemporary(dir) || IsInternal(dir) {
      forall lines, rest | NoneOnlyBelow(plat, lines)
        ensures SkipsRightly(plat, lines, dir, rest)
      {
        var parsed := ParsedRules(plat, lines, {});
        if parsed.Some? && Usable(parsed.value) && MatchResult(plat, parsed.value, dir).CanSkipDir() {
          SkipIsSound(plat, lines, parsed.value, dir, rest);
        }
      }
    } else {
      TemporaryDirectoryIsSkipped(plat, dir);
      var none: seq<string> := [];
      assert ParsedRules(plat, none, {}) == Some([]);
      assert NoneOnlyBelow(plat, none) && !SkipsRightly(plat, none, dir, "a");
    }
  }

  /** Such a name. */
  lemma TemporaryExample()
    ensures IsTemporary(".syncthing.d") && !IsInternal(".syncthing.d")
  {
    var dir := ".syncthing.d";
    UpToLastSepOf("", dir);
    assert Base(dir) == dir && HasPrefix(dir, TEMP_PREFIXES[1]);
    forall i | 0 <= i < |INTERNALS|
      ensures dir != INTERNALS[i] && !IsParent(dir, INTERNALS[i])
    {
      assert dir[2] == 'y' && INTERNALS[i][2] != 'y' && INTERNALS[i][0] == '.';
    }
  }
}
