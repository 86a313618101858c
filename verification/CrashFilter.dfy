/** The filter for crash reports (filterLogLines in cmd/syncthing/crash_reporting.go): it rewrites the
    buffer it is still reading, and yet returns what the same filter makes of a copy. */
module CrashFilter {

  const NEWLINE: char := '\n'
  const PANIC := "Panic "

  /** bytes.Split at newlines: the last line may be empty. */
  function Lines(s: string): (ls: seq<string>)
    ensures |ls| >= 1
  {
    if s == "" then [""]
    else
      var before, c := Lines(s[..|s| - 1]), s[|s| - 1];
      if c == NEWLINE then before + [""] else before[..|before| - 1] + [before[|before| - 1] + [c]]
  }

  /** The position of the first "]", or -1. */
  function IndexOfBracket(line: string): (i: int)
    ensures -1 <= i < |line|
  {
    if line == "" then -1
    else if line[0] == ']' then 0
    else var i := IndexOfBracket(line[1..]); if i < 0 then -1 else i + 1
  }

  /** Where the text starts that is kept of a line: after a device ID in brackets and a space. */
  function Skipped(line: string): (k: nat)
    ensures k <= |line| && (line != "" ==> k < |line|)
  {
    var end := IndexOfBracket(line);
    if end > 1 && end < |line| - 2 && "[" <= line then end + 2 else 0
  }

  function Strip(line: string): string { line[Skipped(line)..] }

  function Appended(filtered: string, line: string): string {
    (if filtered == "" then "" else filtered + [NEWLINE]) + Strip(line)
  }

  /** The loop over the lines, from a state of it. */
  function FilterFrom(lines: seq<string>, filtered: string, matched: bool): string {
    if lines == [] then filtered
    else
      var m := matched || PANIC <= lines[0];
      FilterFrom(lines[1..], if m || filtered == "" then Appended(filtered, lines[0]) else filtered, m)
  }

  function Filter(s: string): string { FilterFrom(Lines(s), "", false) }

  // ---------------------------------------------------------------- what it means

  function JoinLines(ls: seq<string>): string {
    if ls == [] then "" else if |ls| == 1 then ls[0] else ls[0] + [NEWLINE] + JoinLines(ls[1..])
  }

  function StripAll(ls: seq<string>): seq<string> {
    if ls == [] then [] else [Strip(ls[0])] + StripAll(ls[1..])
  }

  /** The index of the first line of the panic trace, or the number of lines. */
  function FirstPanic(ls: seq<string>): (k: nat)
    ensures k <= |ls|
  {
    if ls == [] || PANIC <= ls[0] then 0 else 1 + FirstPanic(ls[1..])
  }

  /** The first line that is not empty, of those before the trace. */
  function FirstLine(ls: seq<string>): seq<string> {
    if ls == [] || PANIC <= ls[0] then [] else if ls[0] != "" then [ls[0]] else FirstLine(ls[1..])
  }

  lemma {:induction false} JoinSnoc(ls: seq<string>, l: string)
    requires ls != []
    ensures JoinLines(ls + [l]) == JoinLines(ls) + [NEWLINE] + l
  {
    if |ls| == 1 {
      assert (ls + [l])[1..] == [l];
    } else {
      assert (ls + [l])[1..] == ls[1..] + [l];
      JoinSnoc(ls[1..], l);
      assert ls[0] + [NEWLINE] + (JoinLines(ls[1..]) + [NEWLINE] + l)
             == ls[0] + [NEWLINE] + JoinLines(ls[1..]) + [NEWLINE] + l;
    }
  }

  lemma JoinNotEmpty(ls: seq<string>)
    requires ls != [] && ls[0] != ""
    ensures JoinLines(ls) != ""
  {
  }

  lemma OneMoreKept(lines: seq<string>, kept: seq<string>)
    requires kept != [] && kept[0] != "" && lines != []
    ensures FilterFrom(lines, JoinLines(kept), true)
            == FilterFrom(lines[1..], JoinLines(kept + [Strip(lines[0])]), true)
  {
    JoinNotEmpty(kept);
    JoinSnoc(kept, Strip(lines[0]));
  }

  lemma KeptJoins(lines: seq<string>, kept: seq<string>)
    requires lines != []
    ensures kept + [Strip(lines[0])] + StripAll(lines[1..]) == kept + StripAll(lines)
  {
  }

  /** Inside the trace every line is kept. */
  lemma {:induction false} TraceIsKept(lines: seq<string>, kept: seq<string>)
    requires kept != [] && kept[0] != ""
    ensures FilterFrom(lines, JoinLines(kept), true) == JoinLines(kept + StripAll(lines))
  {
    if lines == [] {
      assert kept + [] == kept;
    } else {
      OneMoreKept(lines, kept);
      TraceIsKept(lines[1..], kept + [Strip(lines[0])]);
      KeptJoins(lines, kept);
    }
  }

  lemma {:induction false} SkipsToTrace(lines: seq<string>, first: string)
    requires first != ""
    ensures FilterFrom(lines, first, false) == JoinLines([first] + StripAll(lines[FirstPanic(lines)..]))
  {
    if lines == [] {
      assert [first] + [] == [first];
    } else if PANIC <= lines[0] {
      assert lines[0..] == lines;
      JoinSnoc([first], Strip(lines[0]));
      TraceIsKept(lines[1..], [first] + [Strip(lines[0])]);
      assert [first] + [Strip(lines[0])] + StripAll(lines[1..]) == [first] + StripAll(lines);
    } else {
      SkipsToTrace(lines[1..], first);
      assert lines[1..][FirstPanic(lines[1..])..] == lines[FirstPanic(lines)..];
    }
  }

  /** The result is the first line of the log, if any comes before the trace, and the trace. */
  lemma {:induction false} FilterKeepsFirstAndTrace(lines: seq<string>)
    ensures FilterFrom(lines, "", false) == JoinLines(StripAll(FirstLine(lines)) + StripAll(lines[FirstPanic(lines)..]))
  {
    if lines == [] {
    } else if PANIC <= lines[0] {
      assert lines[0..] == lines;
      TraceStarts(lines);
    } else if lines[0] != "" {
      SkipsToTrace(lines[1..], Strip(lines[0]));
      assert "" + Strip(lines[0]) == Strip(lines[0]);
      assert lines[1..][FirstPanic(lines[1..])..] == lines[FirstPanic(lines)..];
      assert [lines[0]][1..] == [];
      assert StripAll([lines[0]]) == [Strip(lines[0])];
    } else {
      FilterKeepsFirstAndTrace(lines[1..]);
      assert "" + Strip(lines[0]) == "";
      assert lines[1..][FirstPanic(lines[1..])..] == lines[FirstPanic(lines)..];
    }
  }

  lemma TraceStarts(lines: seq<string>)
    requires lines != [] && PANIC <= lines[0]
    ensures FilterFrom(lines, "", false) == JoinLines([] + StripAll(lines))
  {
    var first := Strip(lines[0]);
    assert lines[0][0] == 'P';
    assert "" + first == first && JoinLines([first]) == first;
    TraceIsKept(lines[1..], [first]);
    assert [first] + StripAll(lines[1..]) == StripAll(lines) == [] + StripAll(lines);
  }

  // ---------------------------------------------------------------- in place

  /** A line as the slice of the buffer it is. */
  datatype Slice = Slice(start: nat, end: nat)

  predicate Cuts(s: string, at: Slice, line: string) { at.start <= at.end <= |s| && s[at.start..at.end] == line }

  ghost predicate SplitInto(s: string, slices: seq<Slice>, ls: seq<string>) {
    && |slices| == |ls| > 0
    && slices[0].start == 0
    && (forall i :: 0 <= i < |slices| ==> Cuts(s, slices[i], ls[i]))
    && (forall i :: 0 <= i < |slices| - 1 ==> slices[i + 1].start == slices[i].end + 1)
  }

  ghost predicate IsSplit(s: string, slices: seq<Slice>) { SplitInto(s, slices, Lines(s)) }

  /** Before the last line is complete: the slices of what is read so far. */
  function NextSlices(slices: seq<Slice>, k: nat, c: char): seq<Slice>
    requires slices != []
  {
    if c == NEWLINE then slices + [Slice(k + 1, k + 1)]
    else slices[|slices| - 1 := Slice(slices[|slices| - 1].start, k + 1)]
  }

  lemma LinesNext(s: string, c: char)
    ensures var before := Lines(s);
            Lines(s + [c])
            == if c == NEWLINE then before + [""] else before[..|before| - 1] + [before[|before| - 1] + [c]]
  {
  }

  lemma CutGrows(s: string, c: char, at: Slice, line: string)
    requires Cuts(s, at, line) && at.end == |s|
    ensures Cuts(s + [c], Slice(at.start, |s| + 1), line + [c])
  {
  }

  lemma AllCutsStay(s: string, c: char, slices: seq<Slice>, ls: seq<string>)
    requires SplitInto(s, slices, ls)
    ensures SplitInto(s + [c], slices, ls)
  {
  }

  lemma OneMoreSlice(s: string, slices: seq<Slice>, ls: seq<string>, at: Slice, line: string)
    requires SplitInto(s, slices, ls) && Cuts(s, at, line) && at.start == slices[|slices| - 1].end + 1
    ensures SplitInto(s, slices + [at], ls + [line])
  {
  }

  lemma OtherLastSlice(s: string, slices: seq<Slice>, ls: seq<string>, at: Slice, line: string)
    requires SplitInto(s, slices, ls) && Cuts(s, at, line) && at.start == slices[|slices| - 1].start
    ensures SplitInto(s, slices[|slices| - 1 := at], ls[..|ls| - 1] + [line])
  {
  }

  lemma SplitNext(s: string, slices: seq<Slice>, c: char)
    requires IsSplit(s, slices) && slices[|slices| - 1].end == |s|
    ensures IsSplit(s + [c], NextSlices(slices, |s|, c))
  {
    var ls, t, last := Lines(s), s + [c], slices[|slices| - 1];
    LinesNext(s, c);
    AllCutsStay(s, c, slices, ls);
    if c == NEWLINE {
      OneMoreSlice(t, slices, ls, Slice(|s| + 1, |s| + 1), "");
    } else {
      CutGrows(s, c, last, ls[|ls| - 1]);
      OtherLastSlice(t, slices, ls, Slice(last.start, |s| + 1), ls[|ls| - 1] + [c]);
    }
  }

  method SplitLines(data: array<char>) returns (slices: seq<Slice>)
    ensures IsSplit(data[..], slices)
  {
    slices := [Slice(0, 0)];
    for k := 0 to data.Length
      invariant |slices| > 0 && slices[|slices| - 1].end == k
      invariant IsSplit(data[..k], slices)
    {
      SplitNext(data[..k], slices, data[k]);
      assert data[..k + 1] == data[..k] + [data[k]] && |data[..k]| == k;
      if data[k] == NEWLINE {
        slices := slices + [Slice(k + 1, k + 1)];
      } else {
        slices := slices[|slices| - 1 := Slice(slices[|slices| - 1].start, k + 1)];
      }
    }
    assert data[..data.Length] == data[..];
  }

  /** Moves a part of the buffer down, to a place at or before it. */
  method MoveDown(data: array<char>, from: nat, to: nat, n: nat)
    requires to <= from && from + n <= data.Length
    modifies data
    ensures data[..to] == old(data[..to]) && data[to..to + n] == old(data[from..from + n])
    ensures data[from + n..] == old(data[from + n..])
  {
    for k := 0 to n
      invariant forall j :: 0 <= j < to ==> data[j] == old(data[j])
      invariant forall j :: to <= j < to + k ==> data[j] == old(data[from + (j - to)])
      invariant forall j :: from + k <= j < data.Length ==> data[j] == old(data[j])
    {
      data[to + k] := data[from + k];
    }
    ghost var moved, was := data[to..to + n], old(data[from..from + n]);
    forall j | 0 <= j < |moved|
      ensures moved[j] == was[j]
    {
      assert data[to + j] == old(data[from + (to + j - to)]);
    }
  }

  /** Appends a part of the buffer to what is before `to`. */
  method AppendSlice(data: array<char>, to: nat, from: nat, end: nat) returns (m: nat)
    requires to <= from <= end <= data.Length
    modifies data
    ensures m == to + (end - from) && data[..m] == old(data[..to]) + old(data[from..end])
    ensures data[end..] == old(data[end..])
  {
    MoveDown(data, from, to, end - from);
    m := to + (end - from);
    assert data[..m] == data[..to] + data[to..m];
  }

  /** With what is to be read from `keep` on left alone. */
  method AppendNewline(data: array<char>, n: nat, ghost keep: nat) returns (m: nat)
    requires (n == 0 || n < keep) && keep <= data.Length
    modifies data
    ensures m == (if n == 0 then 0 else n + 1) && m <= keep
    ensures data[..m] == if n == 0 then "" else old(data[..n]) + [NEWLINE]
    ensures data[keep..] == old(data[keep..])
  {
    m := n;
    if m > 0 {
      data[m] := NEWLINE;
      m := m + 1;
    }
  }

  lemma Part(s: string, a: nat, b: nat, k: nat)
    requires a <= b <= |s| && k <= b - a
    ensures s[a..b][k..] == s[a + k..b]
    ensures s[a..][..b - a] == s[a..b]
    ensures s[a..][b - a..] == s[b..]
  {
  }

  /** Appends a line to what is filtered so far, in the same buffer. */
  method AppendLine(data: array<char>, n: nat, line: Slice) returns (m: nat)
    requires line.start <= line.end <= data.Length && (n == 0 || n < line.start)
    modifies data
    ensures m <= line.end
    ensures data[..m] == Appended(old(data[..n]), old(data[line.start..line.end]))
    ensures data[line.end..] == old(data[line.end..])
  {
    ghost var was, text := data[..], data[line.start..line.end];
    m := AppendNewline(data, n, line.start);
    Part(was, line.start, line.end, 0);
    Part(data[..], line.start, line.end, 0);
    assert data[..][line.start..] == data[line.start..] == was[line.start..];
    assert data[line.start..line.end] == text;
    var from := line.start + Skipped(data[line.start..line.end]);
    Part(data[..], line.start, line.end, from - line.start);
    assert data[from..line.end] == Strip(text);
    m := AppendSlice(data, m, from, line.end);
  }

  /** One turn of the loop. */
  method FilterLine(data: array<char>, n: nat, matched: bool, line: Slice) returns (m: nat, now: bool)
    requires line.start <= line.end <= data.Length && (n == 0 || n < line.start)
    modifies data
    ensures m <= line.end && now == (matched || PANIC <= old(data[line.start..line.end]))
    ensures data[..m]
            == if now || n == 0 then Appended(old(data[..n]), old(data[line.start..line.end])) else old(data[..n])
    ensures data[line.end..] == old(data[line.end..])
  {
    m, now := n, matched;
    if !matched && PANIC <= data[line.start..line.end] {
      now := true;
    }
    if n == 0 || now {
      m := AppendLine(data, n, line);
    }
  }

  lemma FilterNext(lines: seq<string>, i: nat, filtered: string, matched: bool)
    requires i < |lines|
    ensures var m := matched || PANIC <= lines[i];
            var next := if m || filtered == "" then Appended(filtered, lines[i]) else filtered;
            FilterFrom(lines[i..], filtered, matched) == FilterFrom(lines[i + 1..], next, m)
  {
  }

  /** The returned prefix of the buffer is the filter of what was in it: the write position never passes
      the start of a line still to be read. */
  method FilterLogLines(data: array<char>) returns (n: nat)
    modifies data
    ensures n <= data.Length && data[..n] == Filter(old(data[..]))
  {
    ghost var original := data[..];
    var slices := SplitLines(data);
    ghost var lines := Lines(original);
    n := 0;
    var matched := false;
    assert lines[0..] == lines && data[..0] == "";
    for i := 0 to |slices|
      invariant IsSplit(original, slices) && n <= data.Length
      invariant i < |slices| ==> (n == 0 || n < slices[i].start)
      invariant i < |slices| ==> data[slices[i].start..] == original[slices[i].start..]
      invariant FilterFrom(lines[i..], data[..n], matched) == Filter(original)
    {
      var line := slices[i];
      assert Cuts(original, line, lines[i]);
      UnreadLine(data[..], original, line.start, line.end);
      FilterNext(lines, i, data[..n], matched);
      n, matched := FilterLine(data, n, matched, line);
      if i + 1 < |slices| { UnreadFrom(data[..], original, line.end, slices[i + 1].start); }
    }
    assert lines[|slices|..] == [];
  }

  lemma UnreadLine(now: string, was: string, a: nat, b: nat)
    requires |now| == |was| && a <= b <= |now| && now[a..] == was[a..]
    ensures now[a..b] == was[a..b] && now[b..] == was[b..]
  {
  }

  lemma UnreadFrom(now: string, was: string, a: nat, b: nat)
    requires |now| == |was| && a <= b <= |now| && now[a..] == was[a..]
    ensures now[b..] == was[b..]
  {
  }

  // ---------------------------------------------------------------- lines and device IDs

  ghost predicate AreLines(ls: seq<string>, s: string) {
    ls != [] && JoinLines(ls) == s && forall i :: 0 <= i < |ls| ==> '\n' !in ls[i]
  }

  /** The lines of a text have no newline, and joined by newlines they are the text. */
  lemma {:induction false} LinesAre(s: string)
    ensures AreLines(Lines(s), s)
  {
    if s != "" {
      LinesAre(s[..|s| - 1]);
      OneMoreChar(Lines(s[..|s| - 1]), s[..|s| - 1], s[|s| - 1]);
      assert s == s[..|s| - 1] + [s[|s| - 1]];
    }
  }

  lemma OneMoreChar(ls: seq<string>, s: string, c: char)
    requires AreLines(ls, s)
    ensures AreLines(if c == '\n' then ls + [""] else ls[..|ls| - 1] + [ls[|ls| - 1] + [c]], s + [c])
  {
    if c == '\n' {
      JoinSnoc(ls, "");
      assert s + [NEWLINE] + "" == s + [c];
    } else {
      var init, last := ls[..|ls| - 1], ls[|ls| - 1];
      JoinLast(init, last, c);
      assert init + [last] == ls;
      assert '\n' !in last;
    }
  }

  lemma JoinLast(init: seq<string>, last: string, c: char)
    ensures JoinLines(init + [last + [c]]) == JoinLines(init + [last]) + [c]
  {
    if init == [] {
      assert init + [last + [c]] == [last + [c]] && init + [last] == [last];
    } else {
      JoinSnoc(init, last + [c]);
      JoinSnoc(init, last);
      assert JoinLines(init) + [NEWLINE] + (last + [c]) == JoinLines(init) + [NEWLINE] + last + [c];
    }
  }

  lemma {:induction false} BracketAfter(id: string, rest: string)
    requires ']' !in id
    ensures IndexOfBracket(id + "]" + rest) == |id|
  {
    var line := id + "]" + rest;
    if id != "" {
      BracketAfter(id[1..], rest);
      assert line[1..] == id[1..] + "]" + rest && line[0] == id[0];
    }
  }

  lemma {:induction false} BracketIs(line: string)
    ensures var k := IndexOfBracket(line);
            k >= 0 ==> line[k] == ']' && ']' !in line[..k]
  {
    if line != "" && line[0] != ']' {
      BracketIs(line[1..]);
      var k := IndexOfBracket(line);
      if k >= 0 { assert line[..k] == [line[0]] + line[1..][..k - 1]; }
    }
  }

  /** A device ID in brackets, one more character and something after it. */
  ghost predicate Prefixed(line: string, id: string, c: char, text: string) {
    line == "[" + id + "]" + [c] + text && id != "" && ']' !in id && text != ""
  }

  /** Of such a line the text is kept, any other line is kept as it is. */
  lemma StripsDeviceID(line: string)
    ensures forall id, c, text :: Prefixed(line, id, c, text) ==> Strip(line) == text
    ensures (forall id, c, text :: !Prefixed(line, id, c, text)) ==> Strip(line) == line
  {
    forall id, c, text | Prefixed(line, id, c, text)
      ensures Strip(line) == text
    {
      assert line == ("[" + id) + "]" + ([c] + text);
      BracketAfter("[" + id, [c] + text);
      assert line[0] == '[' && line[|id| + 3..] == text;
    }
    var end := IndexOfBracket(line);
    BracketIs(line);
    if end > 1 && end < |line| - 2 && "[" <= line {
      assert line[..end][0] == '[' && line[..end][1..] == line[1..end];
      assert line == "[" + line[1..end] + "]" + [line[end + 1]] + line[end + 2..];
      assert Prefixed(line, line[1..end], line[end + 1], line[end + 2..]);
    }
  }

  lemma {:induction false} StripAllAre(ls: seq<string>)
    ensures |StripAll(ls)| == |ls| && forall i :: 0 <= i < |ls| ==> StripAll(ls)[i] == Strip(ls[i])
  {
    if ls != [] { StripAllAre(ls[1..]); }
  }

  lemma {:induction false} FirstPanicIs(ls: seq<string>)
    ensures var k := FirstPanic(ls);
            (forall i :: 0 <= i < k ==> !("Panic " <= ls[i])) && (k < |ls| ==> "Panic " <= ls[k])
  {
    if ls != [] && !(PANIC <= ls[0]) { FirstPanicIs(ls[1..]); }
  }

  /** The first line that is not empty, of those before the k-th. */
  ghost predicate FirstFull(ls: seq<string>, i: int, k: nat) {
    0 <= i < k <= |ls| && ls[i] != "" && forall j :: 0 <= j < i ==> ls[j] == ""
  }

  lemma {:induction false} FirstLineIs(ls: seq<string>)
    ensures var k := FirstPanic(ls);
            || ((forall i :: 0 <= i < k ==> ls[i] == "") && FirstLine(ls) == [])
            || exists i :: FirstFull(ls, i, k) && FirstLine(ls) == [ls[i]]
  {
    if ls != [] && !(PANIC <= ls[0]) && ls[0] == "" {
      var rest, k := ls[1..], FirstPanic(ls);
      FirstLineIs(rest);
      assert FirstPanic(rest) == k - 1;
      if i :| FirstFull(rest, i, k - 1) && FirstLine(rest) == [rest[i]] { assert FirstFull(ls, i + 1, k); }
    }
  }

  /** The lines from the k-th on, without device IDs. */
  function From(ls: seq<string>, k: nat): seq<string>
    requires k <= |ls|
  {
    seq(|ls| - k, i requires 0 <= i < |ls| - k => Strip(ls[k + i]))
  }

  lemma StrippedFrom(ls: seq<string>, k: nat)
    requires k <= |ls|
    ensures StripAll(ls[k..]) == From(ls, k)
  {
    StripAllAre(ls[k..]);
  }

  /** The result in plain terms: k is where the panic trace starts, all of it is kept; before it the first
      line that is not empty. */
  lemma FilterMeans(s: string) returns (k: nat, first: seq<string>)
    ensures var ls := Lines(s);
            && k <= |ls| && (forall i :: 0 <= i < k ==> !("Panic " <= ls[i])) && (k < |ls| ==> "Panic " <= ls[k])
            && (first == [] <==> forall i :: 0 <= i < k ==> ls[i] == "")
            && (first != [] ==> exists i :: FirstFull(ls, i, k) && first == [Strip(ls[i])])
            && Filter(s) == JoinLines(first + From(ls, k))
  {
    var ls := Lines(s);
    k := FirstPanic(ls);
    first := StripAll(FirstLine(ls));
    FilterKeepsFirstAndTrace(ls);
    FirstPanicIs(ls);
    FirstLineIs(ls);
    StripAllAre(FirstLine(ls));
    StrippedFrom(ls, k);
    assert FirstLine(ls) != [] ==> first == [Strip(FirstLine(ls)[0])];
  }
}
