/** Why comparing hashes of rendered patterns is enough: the rendering of a parsed pattern list
    determines everything about the list that Match can show. */
module IgnoreHash {
  import opened Paths
  import opened Options
  import opened IgnorePatterns
  import opened IgnoreSkip

  /** Pattern.String. */
  function Render(p: Pattern): string {
    (if p.result.IsDeletable() then "(?d)" else "")
    + (if p.result.IsCaseFolded() then "(?i)" else "")
    + (if p.result.IsIgnored() then "" else "!")
    + p.text
  }

  /** The text that hashPatterns feeds to the hash. */
  function HashInput(ps: seq<Pattern>): string {
    if ps == [] then "" else Render(ps[0]) + "\n" + HashInput(ps[1..])
  }

  // ---------------------------------------------------------------- observable equality

  /** Results that no method of R tells apart: the deletable bit only shows on ignored results. */
  predicate SameResult(r: R, s: R) {
    && r.ignoreBit == s.ignoreBit && r.foldCaseBit == s.foldCaseBit && r.canSkipDirBit == s.canSkipDirBit
    && r.IsDeletable() == s.IsDeletable()
  }

  predicate SamePattern(p: Pattern, q: Pattern) {
    p.text == q.text && p.glob == q.glob && SameResult(p.result, q.result)
  }

  predicate SamePatterns(ps: seq<Pattern>, qs: seq<Pattern>) {
    |ps| == |qs| && forall i :: 0 <= i < |ps| ==> SamePattern(ps[i], qs[i])
  }

  lemma {:induction false} SamePatternsSameLoop(plat: Platform, ps: seq<Pattern>, qs: seq<Pattern>, i: nat,
      canSkip: bool, file: string)
    requires SamePatterns(ps, qs) && Usable(ps) && Usable(qs)
    ensures SameResult(Loop(plat, ps, i, canSkip, file), Loop(plat, qs, i, canSkip, file))
    decreases |ps| - i
  {
    if i < |ps| {
      assert SamePattern(ps[i], qs[i]);
      if !PatternMatches(plat, ps[i], file) {
        SamePatternsSameLoop(plat, ps, qs, i + 1, canSkip && AllowsSkippingIgnoredDirs(ps[i]), file);
      }
    }
  }

  // ---------------------------------------------------------------- a parsed list as single lines

  /** The lines that end up in parseLine, in order. */
  function ExpandedLines(line: string): seq<string> {
    if HasSuffix(line, "/**") then [line] else if HasSuffix(line, "/") then [line + "**"] else [line, line + "/**"]
  }

  function RuleLines(lines: seq<string>, seen: set<string>): seq<string> {
    if lines == [] then []
    else
      var line, rest := lines[0], lines[1..];
      if line in seen || IsComment(line) then RuleLines(rest, seen + {line})
      else ExpandedLines(line) + RuleLines(rest, seen + {line})
  }

  function ParsedLines(plat: Platform, lines: seq<string>): Option<seq<Pattern>> {
    if lines == [] then Some([])
    else
      var here, later := ParsedLine(plat, lines[0]), ParsedLines(plat, lines[1..]);
      if here.None? || later.None? then None else Some(here.value + later.value)
  }

  lemma {:induction false} ParsedLinesConcat(plat: Platform, ls: seq<string>, ms: seq<string>)
    requires ParsedLines(plat, ls).Some? && ParsedLines(plat, ms).Some?
    ensures ParsedLines(plat, ls + ms) == Some(ParsedLines(plat, ls).value + ParsedLines(plat, ms).value)
  {
    if ls == [] {
      assert ls + ms == ms && [] + ParsedLines(plat, ms).value == ParsedLines(plat, ms).value;
    } else {
      ParsedLinesConcat(plat, ls[1..], ms);
      assert (ls + ms)[1..] == ls[1..] + ms && (ls + ms)[0] == ls[0];
      var a, b, c := ParsedLine(plat, ls[0]).value, ParsedLines(plat, ls[1..]).value, ParsedLines(plat, ms).value;
      assert a + (b + c) == (a + b) + c;
    }
  }

  lemma RuleByLines(plat: Platform, line: string)
    requires RulePatterns(plat, line).Some?
    ensures ParsedLines(plat, ExpandedLines(line)) == RulePatterns(plat, line)
  {
    var ls := ExpandedLines(line);
    OneParsedLine(plat, ls[|ls| - 1]);
    if |ls| == 2 {
      assert ls[1..] == [ls[1]];
    } else {
      assert ls == [ls[0]];
    }
  }

  lemma OneParsedLine(plat: Platform, line: string)
    ensures ParsedLines(plat, [line]) == ParsedLine(plat, line)
  {
    var none: seq<string> := [];
    assert [line][1..] == none && ParsedLines(plat, none) == Some([]);
    var g := ParsedLine(plat, line);
    assert g.Some? ==> g.value + [] == g.value;
  }

  lemma {:induction false} ParsedByLines(plat: Platform, lines: seq<string>, seen: set<string>)
    requires ParsedRules(plat, lines, seen).Some?
    ensures ParsedLines(plat, RuleLines(lines, seen)) == ParsedRules(plat, lines, seen)
  {
    if lines != [] {
      var line, rest := lines[0], lines[1..];
      ParsedByLines(plat, rest, seen + {line});
      if !(line in seen || IsComment(line)) {
        RuleByLines(plat, line);
        ParsedLinesConcat(plat, ExpandedLines(line), RuleLines(rest, seen + {line}));
      }
    }
  }

  // ---------------------------------------------------------------- decoding one rendering

  /** How a stripped line looks: a prefix is left at its front only if it was taken before. */
  predicate Stripped(rest: string, bang: bool, fold: bool, del: bool) {
    && (bang || !HasPrefix(rest, "!")) && (fold || !HasPrefix(rest, "(?i)")) && (del || !HasPrefix(rest, "(?d)"))
  }

  lemma {:induction false} StripLeavesNoPrefix(line: string, bang: bool, fold: bool, del: bool, r: R)
    ensures var (rest, s) := StripPrefixes(line, bang, fold, del, r);
            Stripped(rest, bang || s.ignoreBit != r.ignoreBit, s.foldCaseBit || fold, s.deletableBit || del)
    ensures bang ==> StripPrefixes(line, bang, fold, del, r).1.ignoreBit == r.ignoreBit
    ensures r.foldCaseBit ==> StripPrefixes(line, bang, fold, del, r).1.foldCaseBit
    ensures r.deletableBit ==> StripPrefixes(line, bang, fold, del, r).1.deletableBit
    decreases |line|
  {
    if HasPrefix(line, "!") && !bang {
      StripLeavesNoPrefix(line[1..], true, fold, del, r.ToggleIgnored());
    } else if HasPrefix(line, "(?i)") && !fold {
      StripLeavesNoPrefix(line[4..], bang, true, del, r.WithFoldCase());
    } else if HasPrefix(line, "(?d)") && !del {
      StripLeavesNoPrefix(line[4..], bang, fold, true, r.WithDeletable());
    }
  }

  /** What a line's text cannot start with, given the line's flags. */
  predicate Decodable(text: string, r: R) {
    && (r.ignoreBit ==> !HasPrefix(text, "!"))
    && (!r.foldCaseBit ==> !HasPrefix(text, "(?i)"))
    && (!r.foldCaseBit && !r.deletableBit ==> !HasPrefix(text, "(?d)"))
    && !r.canSkipDirBit
  }

  lemma LineIsDecodable(plat: Platform, line: string)
    requires plat.Valid()
    ensures Decodable(LineText(plat, line), LineResult(plat, line))
  {
    var ig := plat.Ignored();
    var (rest, r) := StripPrefixes(line, false, false, false, ig);
    StripLeavesNoPrefix(line, false, false, false, ig);
    StripKeepsSkipBit(line, false, false, false, ig);
    var text := Folded(plat, rest, r);
    if HasPrefix(text, "!") {
      assert text[0] == '!' && rest[0] == '!';
      assert rest[..1] == "!";
    }
  }

  function Flag(flag: string, on: bool, tail: string): string { (if on then flag else "") + tail }

  /** A flag can be read off the front of a text that only starts with it if it is set. */
  lemma FlagDecodes(flag: string, on: bool, tail: string, on': bool, tail': string)
    requires (on || !HasPrefix(tail, flag)) && (on' || !HasPrefix(tail', flag))
    requires Flag(flag, on, tail) == Flag(flag, on', tail')
    ensures on == on' && tail == tail'
  {
    var s := Flag(flag, on, tail);
    assert "" + tail == tail && "" + tail' == tail';
    assert (flag + tail)[|flag|..] == tail && (flag + tail')[|flag|..] == tail';
    assert HasPrefix(flag + tail, flag) && HasPrefix(flag + tail', flag);
  }

  function BangAndText(p: Pattern): string { Flag("!", !p.result.IsIgnored(), p.text) }
  function FoldAndRest(p: Pattern): string { Flag("(?i)", p.result.IsCaseFolded(), BangAndText(p)) }

  lemma RenderByFlags(p: Pattern)
    requires Decodable(p.text, p.result)
    ensures Render(p) == Flag("(?d)", p.result.IsDeletable(), FoldAndRest(p))
    ensures p.result.IsCaseFolded() || !HasPrefix(BangAndText(p), "(?i)")
    ensures p.result.IsDeletable() || !HasPrefix(FoldAndRest(p), "(?d)")
  {
    assert "" + p.text == p.text && "" + BangAndText(p) == BangAndText(p);
    assert !p.result.IsIgnored() ==> BangAndText(p)[0] == '!';
    assert p.result.IsCaseFolded() ==> FoldAndRest(p)[2] == 'i';
  }

  lemma RenderDecodes(p: Pattern, q: Pattern)
    requires Decodable(p.text, p.result) && Decodable(q.text, q.result)
    requires Render(p) == Render(q)
    ensures p.text == q.text && SameResult(p.result, q.result)
  {
    RenderByFlags(p);
    RenderByFlags(q);
    FlagDecodes("(?d)", p.result.IsDeletable(), FoldAndRest(p), q.result.IsDeletable(), FoldAndRest(q));
    FlagDecodes("(?i)", p.result.IsCaseFolded(), BangAndText(p), q.result.IsCaseFolded(), BangAndText(q));
    FlagDecodes("!", !p.result.IsIgnored(), p.text, !q.result.IsIgnored(), q.text);
  }

  // ---------------------------------------------------------------- decoding the whole list

  predicate OneLine(s: string) { '\n' !in s }

  /** What a line scanner yields. */
  predicate AllOneLine(lines: seq<string>) { forall i :: 0 <= i < |lines| ==> OneLine(lines[i]) }

  lemma FirstLine(a: string, x: string, b: string, y: string)
    requires OneLine(a) && OneLine(b) && a + "\n" + x == b + "\n" + y
    ensures a == b && x == y
  {
    var s, t := a + "\n" + x, b + "\n" + y;
    assert s[|a|] == '\n' && t[|b|] == '\n';
    assert forall i :: 0 <= i < |a| ==> a[i] == s[i] && a[i] in a;
    assert forall i :: 0 <= i < |b| ==> b[i] == t[i] && b[i] in b;
    assert s[..|a|] == a && t[..|b|] == b && s[|a| + 1..] == x && t[|b| + 1..] == y;
  }

  lemma {:induction false} HashInputConcat(ps: seq<Pattern>, qs: seq<Pattern>)
    ensures HashInput(ps + qs) == HashInput(ps) + HashInput(qs)
  {
    if ps == [] {
      assert ps + qs == qs;
    } else {
      HashInputConcat(ps[1..], qs);
      assert (ps + qs)[1..] == ps[1..] + qs && (ps + qs)[0] == ps[0];
    }
  }

  /** Rendered lists of patterns with the same texts and flags are the same. */
  lemma {:induction false} SamePatternsSameInput(ps: seq<Pattern>, qs: seq<Pattern>)
    requires SamePatterns(ps, qs)
    ensures HashInput(ps) == HashInput(qs)
  {
    if ps != [] {
      assert SamePattern(ps[0], qs[0]);
      SamePatternsSameInput(ps[1..], qs[1..]);
    }
  }

  lemma LinePatterns(plat: Platform, line: string)
    requires plat.Valid() && ParsedLine(plat, line).Some?
    ensures LineText(plat, line) != "" && ParsedLine(plat, line) == Expand(LineText(plat, line), LineResult(plat, line))
    ensures |ParsedLine(plat, line).value| >= 1
    ensures var p := ParsedLine(plat, line).value[0];
            p.text == LineText(plat, line) && p.result == LineResult(plat, line)
  {
  }

  /** The first pattern of a line decides all its patterns. */
  lemma LinesDecode(plat: Platform, l: string, m: string)
    requires plat.Valid() && ParsedLine(plat, l).Some? && ParsedLine(plat, m).Some?
    requires |ParsedLine(plat, l).value| >= 1 && |ParsedLine(plat, m).value| >= 1
    requires Render(ParsedLine(plat, l).value[0]) == Render(ParsedLine(plat, m).value[0])
    ensures SamePatterns(ParsedLine(plat, l).value, ParsedLine(plat, m).value)
  {
    LinePatterns(plat, l);
    LinePatterns(plat, m);
    LineIsDecodable(plat, l);
    LineIsDecodable(plat, m);
    RenderDecodes(ParsedLine(plat, l).value[0], ParsedLine(plat, m).value[0]);
    ExpandShape(LineText(plat, l), LineResult(plat, l));
    ExpandShape(LineText(plat, m), LineResult(plat, m));
  }

  lemma LineRendersOnOneLine(plat: Platform, line: string)
    requires plat.Valid() && ParsedLine(plat, line).Some? && OneLine(line)
    requires |ParsedLine(plat, line).value| >= 1
    ensures OneLine(Render(ParsedLine(plat, line).value[0]))
  {
    LinePatterns(plat, line);
    StripIsSuffix(line, false, false, false, plat.Ignored());
    var rest := StripPrefixes(line, false, false, false, plat.Ignored()).0;
    var text := LineText(plat, line);
    forall i | 0 <= i < |rest|
      ensures text[i] != '\n'
    {
      assert rest[i] == line[|line| - |rest| + i];
      assert rest[i] in line;
    }
  }

  lemma SameConcat(g: seq<Pattern>, x: seq<Pattern>, h: seq<Pattern>, y: seq<Pattern>)
    requires SamePatterns(g, h) && SamePatterns(x, y)
    ensures SamePatterns(g + x, h + y)
  {
  }

  /** Equal hash inputs of parsed lists mean lists that behave the same. */
  lemma {:induction false} HashInputDecodes(plat: Platform, ls: seq<string>, ms: seq<string>, ps: seq<Pattern>,
      qs: seq<Pattern>)
    requires plat.Valid() && ParsedLines(plat, ls) == Some(ps) && ParsedLines(plat, ms) == Some(qs)
    requires AllOneLine(ls) && AllOneLine(ms) && HashInput(ps) == HashInput(qs)
    ensures SamePatterns(ps, qs)
  {
    if ls != [] { ListHead(plat, ls); }
    if ms != [] { ListHead(plat, ms); }
    if ls != [] && ms != [] {
      HeadsDecode(plat, ls, ms);
      var x, y := ParsedLines(plat, ls[1..]).value, ParsedLines(plat, ms[1..]).value;
      HashInputDecodes(plat, ls[1..], ms[1..], x, y);
      SameConcat(ParsedLine(plat, ls[0]).value, x, ParsedLine(plat, ms[0]).value, y);
    }
  }

  lemma HeadsDecode(plat: Platform, ls: seq<string>, ms: seq<string>)
    requires plat.Valid() && ls != [] && ms != [] && OneLine(ls[0]) && OneLine(ms[0])
    requires ParsedLines(plat, ls).Some? && ParsedLines(plat, ms).Some?
    requires HashInput(ParsedLines(plat, ls).value) == HashInput(ParsedLines(plat, ms).value)
    ensures SamePatterns(ParsedLine(plat, ls[0]).value, ParsedLine(plat, ms[0]).value)
    ensures HashInput(ParsedLines(plat, ls[1..]).value) == HashInput(ParsedLines(plat, ms[1..]).value)
  {
    ListHead(plat, ls);
    ListHead(plat, ms);
    var g, h := ParsedLine(plat, ls[0]).value, ParsedLine(plat, ms[0]).value;
    var x, y := ParsedLines(plat, ls[1..]).value, ParsedLines(plat, ms[1..]).value;
    FirstLine(Render(g[0]), HashInput(g[1..] + x), Render(h[0]), HashInput(h[1..] + y));
    LinesDecode(plat, ls[0], ms[0]);
    SamePatternsSameInput(g, h);
    HashInputConcat(g, x);
    HashInputConcat(h, y);
    assert (HashInput(g) + HashInput(x))[|HashInput(g)|..] == HashInput(x);
    assert (HashInput(h) + HashInput(y))[|HashInput(h)|..] == HashInput(y);
  }

  lemma ListHead(plat: Platform, ls: seq<string>)
    requires plat.Valid() && ls != [] && ParsedLines(plat, ls).Some? && OneLine(ls[0])
    ensures var g, x := ParsedLine(plat, ls[0]).value, ParsedLines(plat, ls[1..]).value;
            && |g| >= 1 && OneLine(Render(g[0]))
            && HashInput(ParsedLines(plat, ls).value) == Render(g[0]) + "\n" + HashInput(g[1..] + x)
  {
    LinePatterns(plat, ls[0]);
    LineRendersOnOneLine(plat, ls[0]);
    var g, x := ParsedLine(plat, ls[0]).value, ParsedLines(plat, ls[1..]).value;
    assert (g + x)[1..] == g[1..] + x;
  }

  lemma {:induction false} RuleLinesOneLine(lines: seq<string>, seen: set<string>)
    requires AllOneLine(lines)
    ensures AllOneLine(RuleLines(lines, seen))
  {
    if lines != [] {
      RuleLinesOneLine(lines[1..], seen + {lines[0]});
      assert OneLine(lines[0]);
      ExpandedOneLine(lines[0]);
    }
  }

  lemma ExpandedOneLine(line: string)
    requires OneLine(line)
    ensures AllOneLine(ExpandedLines(line))
  {
  }

  /** Two ignore files whose pattern lists render to the same hash input show the same results for
      every path. */
  lemma SameHashInputSameMatches(plat: Platform, lines: seq<string>, lines': seq<string>, ps: seq<Pattern>,
      qs: seq<Pattern>)
    requires plat.Valid() && ParsedRules(plat, lines, {}) == Some(ps) && ParsedRules(plat, lines', {}) == Some(qs)
    requires AllOneLine(lines)
    requires AllOneLine(lines')
    requires HashInput(ps) == HashInput(qs)
    ensures SamePatterns(ps, qs)
  {
    ParsedByLines(plat, lines, {});
    ParsedByLines(plat, lines', {});
    RuleLinesOneLine(lines, {});
    RuleLinesOneLine(lines', {});
    HashInputDecodes(plat, RuleLines(lines, {}), RuleLines(lines', {}), ps, qs);
  }
}
