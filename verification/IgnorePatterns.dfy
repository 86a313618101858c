/** From the lines of an ignore file to the pattern list of lib/ignore/ignore.go. */
module IgnorePatterns {
  import opened Paths
  import opened Globs
  import opened Options

  /** ignoreresult.R: four independent bits. */
  datatype R = R(ignoreBit: bool, deletableBit: bool, foldCaseBit: bool, canSkipDirBit: bool) {
    predicate IsIgnored() { ignoreBit }
    predicate IsDeletable() { IsIgnored() && deletableBit }
    predicate IsCaseFolded() { foldCaseBit }
    predicate CanSkipDir() { IsIgnored() && canSkipDirBit }
    function ToggleIgnored(): R { this.(ignoreBit := !ignoreBit) }
    function WithDeletable(): R { this.(deletableBit := true) }
    function WithFoldCase(): R { this.(foldCaseBit := true) }
    function WithSkipDir(): R { this.(canSkipDirBit := true) }
  }

  const NOT_IGNORED := R(false, false, false, false)

  /** What differs between operating systems: whether patterns fold case by default, and the
      per-character lower-casing of strings.ToLower. */
  datatype Platform = Platform(foldsByDefault: bool, lower: char -> char) {
    function Ignored(): R { R(true, false, foldsByDefault, false) }
    function IgnoreAndSkip(): R { Ignored().WithSkipDir() }

    function ToLower(s: string): (t: string)
      ensures |t| == |s| && forall i :: 0 <= i < |s| ==> t[i] == lower(s[i])
    {
      seq(|s|, i requires 0 <= i < |s| => lower(s[i]))
    }

    /** The separator, the star, the exclamation mark and the line feed are the lower case of
        themselves and of nothing else. */
    ghost predicate Valid() {
      forall c :: (lower(c) == '/' <==> c == '/') && (lower(c) == '*' <==> c == '*')
               && (lower(c) == '!' <==> c == '!') && (lower(c) == '\n' <==> c == '\n')
    }
  }

  datatype Pattern = Pattern(text: string, glob: Glob, result: R)

  predicate HasSuffix(s: string, suffix: string) {
    |suffix| <= |s| && s[|s| - |suffix|..] == suffix
  }

  function TrimSuffix(s: string, suffix: string): string {
    if HasSuffix(s, suffix) then s[..|s| - |suffix|] else s
  }

  /** Pattern.allowsSkippingIgnoredDirs; the code indexes an un-ignoring pattern's first byte. */
  predicate AllowsSkippingIgnoredDirs(p: Pattern)
    requires p.text != ""
  {
    if p.result.IsIgnored() then true
    else if p.text[0] != SEP then false
    else
      var trimmed := TrimSuffix(p.text, "/**");
      if |trimmed| == 0 then true
      else if SEP in trimmed[1..] then false
      else !HasDoubleStar(TrimSuffix(trimmed, "**"))
  }

  // ---------------------------------------------------------------- parseLine

  /** The prefixes of a line, each taken at most once and in any order. */
  function StripPrefixes(line: string, bang: bool, fold: bool, del: bool, r: R): (string, R)
    decreases |line|
  {
    if HasPrefix(line, "!") && !bang then StripPrefixes(line[1..], true, fold, del, r.ToggleIgnored())
    else if HasPrefix(line, "(?i)") && !fold then StripPrefixes(line[4..], bang, true, del, r.WithFoldCase())
    else if HasPrefix(line, "(?d)") && !del then StripPrefixes(line[4..], bang, fold, true, r.WithDeletable())
    else (line, r)
  }

  function Folded(plat: Platform, s: string, r: R): string {
    if r.IsCaseFolded() then plat.ToLower(s) else s
  }

  function MakePattern(text: string, globText: string, r: R): Option<Pattern> {
    match Compile(globText)
    case None => None
    case Some(g) => Some(Pattern(text, g, r))
  }

  function Both(p: Option<Pattern>, q: Option<Pattern>): Option<seq<Pattern>> {
    if p.None? || q.None? then None else Some([p.value, q.value])
  }

  /** The one or two patterns that a line's text, without its prefixes, stands for. */
  function Expand(text: string, r: R): Option<seq<Pattern>> {
    if HasPrefix(text, "/") then
      var p := MakePattern(text, text[1..], r);
      if p.None? then None else Some([p.value])
    else if HasPrefix(text, "**/") then
      Both(MakePattern(text, text, r), MakePattern(text[3..], text[3..], r))
    else
      Both(MakePattern(text, text, r), MakePattern("**/" + text, "**/" + text, r))
  }

  function ParsedLine(plat: Platform, line: string): Option<seq<Pattern>> {
    var (rest, r) := StripPrefixes(line, false, false, false, plat.Ignored());
    if rest == "" then None else Expand(Folded(plat, rest, r), r)
  }

  /** parseLine. */
  method ParseLine(plat: Platform, line: string) returns (patterns: Option<seq<Pattern>>)
    ensures patterns == ParsedLine(plat, line)
  {
    var rest, r := line, plat.Ignored();
    var bang, fold, del := false, false, false;
    while true
      invariant StripPrefixes(rest, bang, fold, del, r) == StripPrefixes(line, false, false, false, plat.Ignored())
      decreases |rest|
    {
      if HasPrefix(rest, "!") && !bang {
        bang, rest, r := true, rest[1..], r.ToggleIgnored();
      } else if HasPrefix(rest, "(?i)") && !fold {
        fold, r, rest := true, r.WithFoldCase(), rest[4..];
      } else if HasPrefix(rest, "(?d)") && !del {
        del, r, rest := true, r.WithDeletable(), rest[4..];
      } else {
        break;
      }
    }
    if rest == "" {
      return None;
    }
    if r.IsCaseFolded() {
      rest := plat.ToLower(rest);
    }
    return Expand(rest, r);
  }

  // ---------------------------------------------------------------- parseIgnoreFile

  /** The patterns of one rule line: the line itself and, unless it already says so, everything
      below it. */
  function RulePatterns(plat: Platform, line: string): Option<seq<Pattern>> {
    if HasSuffix(line, "/**") then ParsedLine(plat, line)
    else if HasSuffix(line, "/") then ParsedLine(plat, line + "**")
    else
      var first := ParsedLine(plat, line);
      var below := ParsedLine(plat, line + "/**");
      if first.None? || below.None? then None else Some(first.value + below.value)
  }

  predicate IsComment(line: string) { line == "" || HasPrefix(line, "//") }

  /** Includes and escape settings are not part of this model: the file system behind it has no
      file to include, and no escape line is well formed, so both fail the parse. */
  predicate IsDirective(line: string) { HasPrefix(line, "#escape") || HasPrefix(line, "#include") }

  /** The patterns of trimmed lines; lines in `seen` have been met before. */
  function ParsedRules(plat: Platform, lines: seq<string>, seen: set<string>): Option<seq<Pattern>> {
    if lines == [] then Some([])
    else
      var line, rest := lines[0], lines[1..];
      if HasPrefix(line, "#escape") then None
      else if line in seen || IsComment(line) then ParsedRules(plat, rest, seen + {line})
      else if IsDirective(line) then None
      else
        var here := RulePatterns(plat, line);
        var later := ParsedRules(plat, rest, seen + {line});
        if here.None? || later.None? then None else Some(here.value + later.value)
  }

  ghost function Continue(found: seq<Pattern>, later: Option<seq<Pattern>>): Option<seq<Pattern>> {
    if later.None? then None else Some(found + later.value)
  }

  lemma ContinueStep(plat: Platform, lines: seq<string>, i: nat, seen: set<string>, found: seq<Pattern>)
    requires i < |lines|
    ensures var line := lines[i];
            var now := Continue(found, ParsedRules(plat, lines[i..], seen));
            if HasPrefix(line, "#escape") then now == None
            else if line in seen || IsComment(line) then
              now == Continue(found, ParsedRules(plat, lines[i + 1..], seen + {line}))
            else if IsDirective(line) || RulePatterns(plat, line).None? then now == None
            else
              var here := RulePatterns(plat, line).value;
              now == Continue(found + here, ParsedRules(plat, lines[i + 1..], seen + {line}))
  {
    assert lines[i..][0] == lines[i] && lines[i..][1..] == lines[i + 1..];
    var here := RulePatterns(plat, lines[i]);
    var later := ParsedRules(plat, lines[i + 1..], seen + {lines[i]});
    if here.Some? && later.Some? {
      assert found + (here.value + later.value) == found + here.value + later.value;
    }
  }

  /** The switch on the end of a rule line. */
  method AddPatterns(plat: Platform, line: string) returns (here: Option<seq<Pattern>>)
    ensures here == RulePatterns(plat, line)
  {
    if HasSuffix(line, "/**") {
      here := ParseLine(plat, line);
    } else if HasSuffix(line, "/") {
      here := ParseLine(plat, line + "**");
    } else {
      here := ParseLine(plat, line);
      if here.Some? {
        var below := ParseLine(plat, line + "/**");
        here := if below.None? then None else Some(here.value + below.value);
      }
    }
  }

  /** parseIgnoreFile, from the lines already read. */
  method ParseIgnoreFile(plat: Platform, lines: seq<string>) returns (patterns: Option<seq<Pattern>>)
    ensures patterns == ParsedRules(plat, lines, {})
  {
    var found: seq<Pattern> := [];
    var linesSeen: set<string> := {};
    assert lines[0..] == lines;
    ghost var all := ParsedRules(plat, lines, {});
    assert all.Some? ==> [] + all.value == all.value;
    for i := 0 to |lines|
      invariant all == Continue(found, ParsedRules(plat, lines[i..], linesSeen))
    {
      var line := lines[i];
      ContinueStep(plat, lines, i, linesSeen, found);
      if HasPrefix(line, "#escape") {
        return None;
      }
      if line in linesSeen {
        assert linesSeen + {line} == linesSeen;
        continue;
      }
      linesSeen := linesSeen + {line};
      if IsComment(line) {
        continue;
      }
      if HasPrefix(line, "#include") {
        return None;
      }
      var here := AddPatterns(plat, line);
      if here.None? {
        return None;
      }
      found := found + here.value;
    }
    assert lines[|lines|..] == [] && found + [] == found;
    return Some(found);
  }

  // ---------------------------------------------------------------- facts about prefixes

  lemma PrefixOfAppended(line: string, suffix: string, prefix: string)
    requires NoSep(prefix) && HasPrefix(suffix, "/")
    ensures HasPrefix(line + suffix, prefix) <==> HasPrefix(line, prefix)
  {
    var t := line + suffix;
    if HasPrefix(line, prefix) {
      assert t[..|prefix|] == line[..|prefix|];
    }
    assert t[|line|] == SEP;
    assert forall i :: 0 <= i < |prefix| ==> prefix[i] in prefix;
    if HasPrefix(t, prefix) {
      assert line[..|prefix|] == t[..|prefix|];
    }
  }

  /** Appending something that starts with a separator to a line only appends it to the stripped
      text: no prefix contains a separator. */
  lemma {:induction false} StripOfAppended(line: string, suffix: string, bang: bool, fold: bool, del: bool, r: R)
    requires HasPrefix(suffix, "/")
    ensures var (rest, res) := StripPrefixes(line, bang, fold, del, r);
            StripPrefixes(line + suffix, bang, fold, del, r) == (rest + suffix, res)
    decreases |line|
  {
    var t := line + suffix;
    PrefixOfAppended(line, suffix, "!");
    PrefixOfAppended(line, suffix, "(?i)");
    PrefixOfAppended(line, suffix, "(?d)");
    if HasPrefix(line, "!") && !bang {
      StripOfAppended(line[1..], suffix, true, fold, del, r.ToggleIgnored());
      assert t[1..] == line[1..] + suffix;
    } else if HasPrefix(line, "(?i)") && !fold {
      StripOfAppended(line[4..], suffix, bang, true, del, r.WithFoldCase());
      assert t[4..] == line[4..] + suffix;
    } else if HasPrefix(line, "(?d)") && !del {
      StripOfAppended(line[4..], suffix, bang, fold, true, r.WithDeletable());
      assert t[4..] == line[4..] + suffix;
    }
  }

  lemma {:induction false} StripIsSuffix(line: string, bang: bool, fold: bool, del: bool, r: R)
    ensures HasSuffix(line, StripPrefixes(line, bang, fold, del, r).0)
    decreases |line|
  {
    if HasPrefix(line, "!") && !bang {
      StripIsSuffix(line[1..], true, fold, del, r.ToggleIgnored());
    } else if HasPrefix(line, "(?i)") && !fold {
      StripIsSuffix(line[4..], bang, true, del, r.WithFoldCase());
    } else if HasPrefix(line, "(?d)") && !del {
      StripIsSuffix(line[4..], bang, fold, true, r.WithDeletable());
    }
  }

  lemma FoldedSuffix(plat: Platform, s: string, r: R)
    requires plat.Valid()
    ensures Folded(plat, s + "/**", r) == Folded(plat, s, r) + "/**"
    ensures HasSuffix(Folded(plat, s, r), "/**") <==> HasSuffix(s, "/**")
    ensures HasSuffix(Folded(plat, s, r), "/") <==> HasSuffix(s, "/")
  {
  }

  lemma SuffixOfSuffix(s: string, t: string, u: string)
    requires HasSuffix(s, t) && HasSuffix(t, u)
    ensures HasSuffix(s, u)
  {
  }
}
