/** The rotating log file (rotatedFile in cmd/syncthing/monitor.go): the files that are there always
    hold the end of everything written, cut between writes. */
module LogRotation {
  import opened Options

  // ---------------------------------------------------------------- file names

  function Digit(d: nat): char
    requires d < 10
  {
    "0123456789"[d]
  }

  function Decimal(n: nat): string {
    if n < 10 then [Digit(n)] else Decimal(n / 10) + [Digit(n % 10)]
  }

  /** Distinct numbers have distinct texts. */
  lemma {:induction false} DecimalInjective(m: nat, n: nat)
    requires Decimal(m) == Decimal(n)
    ensures m == n
  {
    var a, b := Decimal(m), Decimal(n);
    DecimalNotEmpty(m / 10);
    DecimalNotEmpty(n / 10);
    if m >= 10 && n >= 10 {
      assert a[..|a| - 1] == Decimal(m / 10) && b[..|b| - 1] == Decimal(n / 10);
      DecimalInjective(m / 10, n / 10);
      assert a[|a| - 1] == Digit(m % 10) && b[|b| - 1] == Digit(n % 10);
      DigitInjective(m % 10, n % 10);
    } else if m < 10 && n < 10 {
      assert a[0] == Digit(m) && b[0] == Digit(n);
      DigitInjective(m, n);
    }
  }

  lemma DigitInjective(c: nat, d: nat)
    requires c < 10 && d < 10 && Digit(c) == Digit(d)
    ensures c == d
  {
  }

  lemma DecimalNotEmpty(n: nat)
    ensures |Decimal(n)| >= 1 && (n >= 10 ==> |Decimal(n)| >= 2)
  {
  }

  /** filepath.Ext: from the last dot of the last path component, if it has one. */
  function ExtBefore(name: string, i: nat): (ext: string)
    requires i <= |name|
    ensures |ext| <= |name|
    ensures ext == name[|name| - |ext|..]
  {
    if i == 0 || name[i - 1] == '/' then assert name[|name|..] == ""; ""
    else if name[i - 1] == '.' then name[i - 1..]
    else ExtBefore(name, i - 1)
  }

  function NumberedFile(name: string, num: nat): string {
    var ext := ExtBefore(name, |name|);
    name[..|name| - |ext|] + "." + Decimal(num) + ext
  }

  /** Numbered files differ from each other and from the file itself. */
  lemma NumberedFileInjective(name: string, i: nat, j: nat)
    ensures NumberedFile(name, i) != name
    ensures NumberedFile(name, i) == NumberedFile(name, j) ==> i == j
  {
    var ext := ExtBefore(name, |name|);
    var stem := name[..|name| - |ext|];
    var a, b := NumberedFile(name, i), NumberedFile(name, j);
    assert |a| == |stem| + 1 + |Decimal(i)| + |ext| && |name| == |stem| + |ext|;
    if a == b {
      assert |b| == |stem| + 1 + |Decimal(j)| + |ext|;
      assert a[|stem| + 1..|a| - |ext|] == Decimal(i);
      assert b[|stem| + 1..|b| - |ext|] == Decimal(j);
      DecimalInjective(i, j);
    }
  }

  predicate IsDigit(c: char) { '0' <= c <= '9' }

  /** The number a text of digits stands for. */
  function Value(s: string): nat
    requires forall i :: 0 <= i < |s| ==> IsDigit(s[i])
  {
    if s == "" then 0
    else
      assert IsDigit(s[|s| - 1]);
      Value(s[..|s| - 1]) * 10 + (s[|s| - 1] as int - '0' as int)
  }

  /** The text of a number is its digits, without zeros in front. */
  lemma {:induction false} DecimalReads(n: nat)
    ensures var s := Decimal(n);
            && s != "" && (forall i :: 0 <= i < |s| ==> IsDigit(s[i])) && Value(s) == n
            && (n > 0 ==> s[0] != '0')
  {
    var d := n % 10;
    assert Digit(d) == ['0', '1', '2', '3', '4', '5', '6', '7', '8', '9'][d];
    assert IsDigit(Digit(d)) && Digit(d) as int - '0' as int == d;
    if n < 10 {
      assert Decimal(n)[..0] == "" && Value("") == 0;
    } else {
      DecimalReads(n / 10);
      var s := Decimal(n);
      assert s[..|s| - 1] == Decimal(n / 10);
    }
  }

  lemma {:induction false} ExtOf(stem: string, ext: string, i: nat)
    requires '.' !in ext && '/' !in ext && i <= |ext|
    ensures ExtBefore(stem + "." + ext, |stem| + 1 + i) == "." + ext
  {
    var name := stem + "." + ext;
    if i > 0 {
      assert name[|stem| + i] == ext[i - 1];
      ExtOf(stem, ext, i - 1);
    } else {
      assert name[|stem|] == '.' && name[|stem|..] == "." + ext;
    }
  }

  lemma {:induction false} NoExt(dir: string, base: string, i: nat)
    requires '.' !in base && '/' !in base && i <= |base|
    requires dir == "" || dir[|dir| - 1] == '/'
    ensures ExtBefore(dir + base, |dir| + i) == ""
  {
    var name := dir + base;
    if i > 0 {
      assert name[|dir| + i - 1] == base[i - 1];
      NoExt(dir, base, i - 1);
    } else if dir != "" {
      assert name[|dir| - 1] == '/';
    }
  }

  /** The number stands between the name and its extension ... */
  lemma NumberBeforeExtension(stem: string, ext: string, num: nat)
    requires '.' !in ext && '/' !in ext
    ensures NumberedFile(stem + "." + ext, num) == stem + "." + Decimal(num) + ("." + ext)
  {
    var name := stem + "." + ext;
    ExtOf(stem, ext, |ext|);
    assert name[..|stem|] == stem;
  }

  /** ... or at the end of a name without one. */
  lemma NumberAtTheEnd(dir: string, base: string, num: nat)
    requires '.' !in base && '/' !in base && (dir == "" || dir[|dir| - 1] == '/')
    ensures NumberedFile(dir + base, num) == dir + base + "." + Decimal(num)
  {
    var name := dir + base;
    NoExt(dir, base, |base|);
    assert name[..|name|] == name && name + "." + Decimal(num) + "" == name + "." + Decimal(num);
  }

  // ---------------------------------------------------------------- the log as segments

  function Keep(maxFiles: nat): nat { if maxFiles == 0 then 1 else maxFiles }

  function LastOf<T>(s: seq<T>, n: nat): seq<T> { if |s| > n then s[|s| - n..] else s }

  /** The rotated segments there were, oldest first, and the current one. */
  datatype Log = Log(segments: seq<string>, current: string)

  function Written(log: Log, bs: string, maxSize: int): Log {
    if |log.current| + |bs| > maxSize then Log(log.segments + [log.current], bs) else log.(current := log.current + bs)
  }

  /** From what earlier runs left. */
  function Run(start: Log, writes: seq<string>, maxSize: int): Log {
    if writes == [] then start
    else Written(Run(start, writes[..|writes| - 1], maxSize), writes[|writes| - 1], maxSize)
  }

  function Flatten(parts: seq<string>): string {
    if parts == [] then "" else Flatten(parts[..|parts| - 1]) + parts[|parts| - 1]
  }

  lemma {:induction false} FlattenJoins(a: seq<string>, b: seq<string>)
    ensures Flatten(a + b) == Flatten(a) + Flatten(b)
  {
    if b == [] {
      assert a + b == a;
    } else {
      var init, last := b[..|b| - 1], b[|b| - 1];
      FlattenJoins(a, init);
      assert (a + b)[..|a + b| - 1] == a + init;
      assert Flatten(a) + (Flatten(init) + last) == Flatten(a) + Flatten(init) + last;
    }
  }

  function All(log: Log): string { Flatten(log.segments) + log.current }

  /** The segments are everything there was and everything written since, in order. */
  lemma {:induction false} SegmentsAreTheHistory(start: Log, writes: seq<string>, maxSize: int)
    ensures All(Run(start, writes, maxSize)) == All(start) + Flatten(writes)
  {
    if writes == [] {
      assert All(start) + "" == All(start);
    } else {
      var before, bs := writes[..|writes| - 1], writes[|writes| - 1];
      SegmentsAreTheHistory(start, before, maxSize);
      var log := Run(start, before, maxSize);
      assert (log.segments + [log.current])[..|log.segments|] == log.segments;
      assert All(start) + (Flatten(before) + bs) == All(start) + Flatten(before) + bs;
      assert Flatten(log.segments) + (log.current + bs) == Flatten(log.segments) + log.current + bs;
    }
  }

  // ---------------------------------------------------------------- the files as numbers

  /** The numbered files, and the current one. */
  datatype Disk = Disk(olds: imap<nat, string>, current: string)

  ghost function Slot(olds: imap<nat, string>, j: nat): Option<string> {
    if j in olds then Some(olds[j]) else None
  }

  /** What a rotation leaves at a number. The highest it touches keeps what it has when nothing comes
      from below. */
  ghost function SlotAfter(olds: imap<nat, string>, current: string, keep: nat, j: nat): Option<string> {
    if j >= keep then Slot(olds, j)
    else if j == 0 then Some(current)
    else if j - 1 in olds then Slot(olds, j - 1)
    else if j == keep - 1 then Slot(olds, j)
    else None
  }

  ghost function Shifted(olds: imap<nat, string>, current: string, keep: nat): imap<nat, string> {
    imap j: nat | SlotAfter(olds, current, keep, j).Some? :: SlotAfter(olds, current, keep, j).value
  }

  ghost predicate IsShifted(t: imap<nat, string>, olds: imap<nat, string>, current: string, keep: nat) {
    forall j: nat :: Slot(t, j) == SlotAfter(olds, current, keep, j)
  }

  lemma ShiftedIs(olds: imap<nat, string>, current: string, keep: nat)
    ensures IsShifted(Shifted(olds, current, keep), olds, current, keep)
  {
  }

  ghost function Stored(disk: Disk, bs: string, maxSize: int, keep: nat): Disk {
    if |disk.current| + |bs| > maxSize then Disk(Shifted(disk.olds, disk.current, keep), bs)
    else disk.(current := disk.current + bs)
  }

  ghost function Steps(start: Disk, writes: seq<string>, maxSize: int, keep: nat): Disk {
    if writes == [] then start
    else Stored(Steps(start, writes[..|writes| - 1], maxSize, keep), writes[|writes| - 1], maxSize, keep)
  }

  // ---------------------------------------------------------------- the rotation

  type Files = map<string, string>

  function Rename(files: Files, from: string, to: string): Files {
    if from in files then (files - {from})[to := files[from]] else files
  }

  function At(files: Files, name: string, j: nat): Option<string> {
    if NumberedFile(name, j) in files then Some(files[NumberedFile(name, j)]) else None
  }

  ghost function Numbered(files: Files, name: string): imap<nat, string> {
    imap j: nat | NumberedFile(name, j) in files :: files[NumberedFile(name, j)]
  }

  /** Not a log file. */
  ghost predicate Foreign(file: string, name: string) {
    file != name && forall j: nat :: file != NumberedFile(name, j)
  }

  ghost predicate SameElsewhere(files: Files, was: Files, name: string) {
    forall file :: Foreign(file, name) ==>
      (file in files <==> file in was) && (file in was ==> files[file] == was[file])
  }

  /** Halfway through a rotation: the files from the i-th on have moved up, up to `top`. */
  ghost function SlotMoved(olds: imap<nat, string>, i: nat, top: nat, j: nat): Option<string> {
    if j > i then SlotAfter(olds, "", top + 1, j) else if j == i < top then None else Slot(olds, j)
  }

  ghost predicate AllMoved(files: Files, name: string, olds: imap<nat, string>, i: nat, top: nat) {
    forall j: nat :: At(files, name, j) == SlotMoved(olds, i, top, j)
  }

  lemma MoveOne(files: Files, name: string, olds: imap<nat, string>, i: nat, top: nat)
    requires 0 < i <= top && AllMoved(files, name, olds, i, top)
    ensures var r := Rename(files, NumberedFile(name, i - 1), NumberedFile(name, i));
            && AllMoved(r, name, olds, i - 1, top) && SameElsewhere(r, files, name)
            && (name in files ==> name in r && r[name] == files[name])
  {
    var k: nat := i - 1;
    var r := Rename(files, NumberedFile(name, k), NumberedFile(name, i));
    NumberedFileInjective(name, k, i);
    NumberedFileInjective(name, i, i);
    assert At(files, name, k) == SlotMoved(olds, i, top, k) && At(files, name, i) == SlotMoved(olds, i, top, i);
    forall j: nat
      ensures At(r, name, j) == SlotMoved(olds, k, top, j)
    {
      assert At(files, name, j) == SlotMoved(olds, i, top, j);
      NumberedFileInjective(name, j, i);
      NumberedFileInjective(name, j, k);
    }
  }

  /** The last rename makes the current file the newest of the old ones. */
  lemma MoveBase(files: Files, name: string, olds: imap<nat, string>, top: nat)
    requires name in files && AllMoved(files, name, olds, 0, top)
    ensures var r := Rename(files, name, NumberedFile(name, 0));
            Numbered(r, name) == Shifted(olds, files[name], top + 1) && name !in r && SameElsewhere(r, files, name)
  {
    var r := Rename(files, name, NumberedFile(name, 0));
    NumberedFileInjective(name, 0, 0);
    forall j: nat
      ensures At(r, name, j) == SlotAfter(olds, files[name], top + 1, j)
    {
      NumberedFileInjective(name, j, 0);
      assert At(files, name, j) == SlotMoved(olds, 0, top, j);
    }
    var n, t := Numbered(r, name), Shifted(olds, files[name], top + 1);
    forall j: nat
      ensures j in n <==> j in t
      ensures j in n ==> n[j] == t[j]
    {
      assert At(r, name, j) == SlotAfter(olds, files[name], top + 1, j);
    }
    assert n == t;
  }

  lemma SetBase(files: Files, name: string, content: string)
    ensures Numbered(files[name := content], name) == Numbered(files, name)
    ensures SameElsewhere(files[name := content], files, name)
  {
    forall j: nat
      ensures NumberedFile(name, j) != name
    {
      NumberedFileInjective(name, j, j);
    }
  }

  class RotatedFile {
    const name: string
    const maxSize: nat
    const maxFiles: nat
    var currentSize: nat
    var files: Files

    ghost predicate Valid()
      reads this
    {
      name in files && currentSize == |files[name]|
    }

    ghost function Now(): Disk
      reads this
      requires name in files
    {
      Disk(Numbered(files, name), files[name])
    }

    /** Opens the file for appending, and creates it if it is not there. */
    constructor (name: string, files: Files, maxSize: nat, maxFiles: nat)
      ensures Valid() && this.name == name && this.maxSize == maxSize && this.maxFiles == maxFiles
      ensures Now() == Disk(Numbered(files, name), if name in files then files[name] else "")
      ensures SameElsewhere(this.files, files, name)
    {
      var content := if name in files then files[name] else "";
      this.name, this.maxSize, this.maxFiles := name, maxSize, maxFiles;
      this.files, currentSize := files[name := content], |content|;
      SetBase(files, name, content);
    }

    method Write(bs: string)
      requires Valid()
      modifies this
      ensures Valid() && Now() == Stored(old(Now()), bs, maxSize, Keep(maxFiles))
      ensures SameElsewhere(files, old(files), name)
    {
      if currentSize + |bs| > maxSize {
        currentSize := 0;
        Rotate();
        SetBase(files, name, "");
        files := files[name := ""];
      }
      SetBase(files, name, files[name] + bs);
      Append(bs);
      assert "" + bs == bs;
    }

    method Rotate()
      requires name in files
      modifies `files
      ensures Numbered(files, name) == Shifted(old(Now()).olds, old(Now()).current, Keep(maxFiles))
      ensures name !in files && SameElsewhere(files, old(files), name)
    {
      ghost var olds, top: nat := Now().olds, Keep(maxFiles) - 1;
      var i: nat := if maxFiles == 0 then 0 else maxFiles - 1;
      while i > 0
        invariant i <= top && name in files && files[name] == old(files[name])
        invariant AllMoved(files, name, olds, i, top) && SameElsewhere(files, old(files), name)
      {
        var from, to := NumberedFile(name, i - 1), NumberedFile(name, i);
        MoveOne(files, name, olds, i, top);
        files := Rename(files, from, to);
        i := i - 1;
      }
      MoveBase(files, name, olds, top);
      files := Rename(files, name, NumberedFile(name, 0));
    }

    /** Writes to the open file. */
    method Append(bs: string)
      requires name in files
      modifies `files, `currentSize
      ensures files == old(files)[name := old(files)[name] + bs] && currentSize == old(currentSize) + |bs|
    {
      files := files[name := files[name] + bs];
      currentSize := currentSize + |bs|;
    }
  }

  // ---------------------------------------------------------------- what is on disk

  /** The contents of the numbered files below n, highest number first. */
  ghost function Kept(olds: imap<nat, string>, n: nat): seq<string> {
    if n == 0 then [] else (if n - 1 in olds then [olds[n - 1]] else []) + Kept(olds, n - 1)
  }

  /** ... and the current one, in one. */
  ghost function OnDisk(disk: Disk, n: nat): string { Flatten(Kept(disk.olds, n)) + disk.current }

  ghost predicate AllBelow(olds: imap<nat, string>, n: nat) { forall j: nat :: j in olds ==> j < n }

  /** The numbers below `keep` that are in use are those below n. */
  ghost predicate Packed(olds: imap<nat, string>, n: nat, keep: nat) {
    n <= keep && forall j: nat :: j < keep ==> (j in olds <==> j < n)
  }

  ghost predicate EndOf<T>(s: seq<T>, whole: seq<T>) { |s| <= |whole| && s == whole[|whole| - |s|..] }

  lemma {:induction false} ShiftedBelow(t: imap<nat, string>, olds: imap<nat, string>, current: string, keep: nat,
      n: nat)
    requires 1 <= n < keep && IsShifted(t, olds, current, keep)
    ensures Kept(t, n) == Kept(olds, n - 1) + [current]
  {
    assert Slot(t, n - 1) == SlotAfter(olds, current, keep, n - 1);
    if n > 1 {
      ShiftedBelow(t, olds, current, keep, n - 1);
    } else {
      assert Kept(t, 0) == [] && Kept(olds, 0) == [];
    }
  }

  /** Whether a rotation drops the highest file. */
  ghost predicate Drops(olds: imap<nat, string>, keep: nat)
    requires keep > 0
  {
    keep - 1 in olds && (keep == 1 || keep - 2 in olds)
  }

  function OneIf(there: Option<string>): seq<string> { if there.Some? then [there.value] else [] }

  lemma KeptTop(olds: imap<nat, string>, n: nat)
    requires n > 0
    ensures Kept(olds, n) == OneIf(Slot(olds, n - 1)) + Kept(olds, n - 1)
  {
  }

  /** A rotation adds the current file to the kept ones and drops at most the oldest. */
  lemma ShiftedKeeps(t: imap<nat, string>, olds: imap<nat, string>, current: string, keep: nat)
    requires keep > 0 && IsShifted(t, olds, current, keep)
    ensures var was, now := Kept(olds, keep), Kept(t, keep);
            if Drops(olds, keep) then was != [] && now == was[1..] + [current] else now == was + [current]
  {
    assert Slot(t, keep - 1) == SlotAfter(olds, current, keep, keep - 1);
    KeptTop(t, keep);
    KeptTop(olds, keep);
    if keep == 1 {
      assert Kept(olds, 0) == [] && Kept(t, 0) == [];
    } else {
      KeptTop(olds, keep - 1);
      ShiftedBelow(t, olds, current, keep, keep - 1);
      ShiftTop(Slot(olds, keep - 1), Slot(olds, keep - 2), Kept(olds, keep - 2), current);
    }
  }

  lemma ShiftTop(top: Option<string>, next: Option<string>, rest: seq<string>, current: string)
    ensures var was := OneIf(top) + (OneIf(next) + rest);
            var now := OneIf(if next.Some? then next else top) + (rest + [current]);
            if top.Some? && next.Some? then was != [] && now == was[1..] + [current] else now == was + [current]
  {
  }

  lemma EndOfSnoc<T>(s: seq<T>, whole: seq<T>, x: T)
    requires EndOf(s, whole)
    ensures EndOf(s + [x], whole + [x])
    ensures s != [] ==> EndOf(s[1..] + [x], whole + [x])
  {
    var n := |whole| - |s|;
    assert (whole + [x])[n..] == whole[n..] + [x];
    if s != [] { assert (whole + [x])[n + 1..] == whole[n..][1..] + [x]; }
  }

  /** The history that begins with the files there are. */
  ghost function LogOf(disk: Disk, keep: nat): Log { Log(Kept(disk.olds, keep), disk.current) }

  lemma StoredAtEnd(disk: Disk, log: Log, bs: string, maxSize: int, keep: nat)
    requires keep > 0 && disk.current == log.current && EndOf(Kept(disk.olds, keep), log.segments)
    ensures var d, l := Stored(disk, bs, maxSize, keep), Written(log, bs, maxSize);
            d.current == l.current && EndOf(Kept(d.olds, keep), l.segments)
  {
    if |disk.current| + |bs| > maxSize {
      var t := Shifted(disk.olds, disk.current, keep);
      ShiftedIs(disk.olds, disk.current, keep);
      ShiftedKeeps(t, disk.olds, disk.current, keep);
      EndOfSnoc(Kept(disk.olds, keep), log.segments, disk.current);
    }
  }

  /** The files are the last segments of the history, whatever numbers were in use at the start. */
  lemma {:induction false} FilesAreLastSegments(start: Disk, writes: seq<string>, maxSize: int, keep: nat)
    requires keep > 0
    ensures var disk, log := Steps(start, writes, maxSize, keep), Run(LogOf(start, keep), writes, maxSize);
            disk.current == log.current && EndOf(Kept(disk.olds, keep), log.segments)
  {
    if writes != [] {
      var before, bs := writes[..|writes| - 1], writes[|writes| - 1];
      FilesAreLastSegments(start, before, maxSize, keep);
      StoredAtEnd(Steps(start, before, maxSize, keep), Run(LogOf(start, keep), before, maxSize), bs, maxSize, keep);
    }
  }

  lemma {:induction false} PackedLength(olds: imap<nat, string>, n: nat, keep: nat, m: nat)
    requires Packed(olds, n, keep) && m <= keep
    ensures |Kept(olds, m)| == if m < n then m else n
  {
    if m > 0 { PackedLength(olds, n, keep, m - 1); }
  }

  lemma ShiftedPacked(t: imap<nat, string>, olds: imap<nat, string>, current: string, n: nat, keep: nat)
    requires keep > 0 && Packed(olds, n, keep) && IsShifted(t, olds, current, keep)
    ensures Packed(t, AtMost(n + 1, keep), keep)
  {
    forall j: nat | j < keep
      ensures j in t <==> j < AtMost(n + 1, keep)
    {
      assert Slot(t, j) == SlotAfter(olds, current, keep, j);
    }
  }

  function AtMost(n: nat, keep: nat): nat { if n < keep then n else keep }

  lemma StoredPacked(disk: Disk, log: Log, bs: string, maxSize: int, keep: nat)
    requires keep > 0 && disk.current == log.current && Packed(disk.olds, AtMost(|log.segments|, keep), keep)
    ensures Packed(Stored(disk, bs, maxSize, keep).olds, AtMost(|Written(log, bs, maxSize).segments|, keep), keep)
  {
    if |disk.current| + |bs| > maxSize {
      ShiftedIs(disk.olds, disk.current, keep);
      var t, n := Shifted(disk.olds, disk.current, keep), AtMost(|log.segments|, keep);
      ShiftedPacked(t, disk.olds, disk.current, n, keep);
    }
  }

  /** Without gaps in the numbers there stay none, and the files are as many as there are segments, at
      most `keep`. */
  lemma {:induction false} PackedStays(start: Disk, n: nat, writes: seq<string>, maxSize: int, keep: nat)
    requires keep > 0 && Packed(start.olds, n, keep)
    ensures var disk, log := Steps(start, writes, maxSize, keep), Run(LogOf(start, keep), writes, maxSize);
            Packed(disk.olds, AtMost(|log.segments|, keep), keep)
  {
    if writes == [] {
      PackedLength(start.olds, n, keep, keep);
    } else {
      var before, bs := writes[..|writes| - 1], writes[|writes| - 1];
      PackedStays(start, n, before, maxSize, keep);
      FilesAreLastSegments(start, before, maxSize, keep);
      StoredPacked(Steps(start, before, maxSize, keep), Run(LogOf(start, keep), before, maxSize), bs, maxSize, keep);
    }
  }

  lemma PackedIsLast(disk: Disk, log: Log, keep: nat)
    requires Packed(disk.olds, AtMost(|log.segments|, keep), keep) && EndOf(Kept(disk.olds, keep), log.segments)
    ensures Kept(disk.olds, keep) == LastOf(log.segments, keep)
  {
    PackedLength(disk.olds, AtMost(|log.segments|, keep), keep, keep);
  }

  lemma {:induction false} NumbersStayBelow(start: Disk, writes: seq<string>, maxSize: int, keep: nat)
    requires AllBelow(start.olds, keep)
    ensures AllBelow(Steps(start, writes, maxSize, keep).olds, keep)
  {
    if writes != [] { NumbersStayBelow(start, writes[..|writes| - 1], maxSize, keep); }
  }

  lemma FlattenEnd(s: seq<string>, whole: seq<string>, current: string) returns (dropped: string)
    requires EndOf(s, whole)
    ensures dropped + (Flatten(s) + current) == Flatten(whole) + current
    ensures |s| == |whole| ==> dropped == ""
  {
    var gone := whole[..|whole| - |s|];
    assert whole == gone + s;
    FlattenJoins(gone, s);
    dropped := Flatten(gone);
    assert dropped + (Flatten(s) + current) == dropped + Flatten(s) + current;
    if |s| == |whole| { assert gone == []; }
  }

  /** After any run that starts without a numbered file at or above the limit: there is none then, and
      the files, from the highest number to the base, are the end of everything there was and was
      written. */
  lemma FilesAreASuffix(start: Disk, writes: seq<string>, maxSize: nat, maxFiles: nat) returns (dropped: string)
    requires AllBelow(start.olds, Keep(maxFiles))
    ensures var keep := Keep(maxFiles); var disk := Steps(start, writes, maxSize, keep);
            && AllBelow(disk.olds, keep)
            && dropped + OnDisk(disk, keep) == OnDisk(start, keep) + Flatten(writes)
  {
    var keep := Keep(maxFiles);
    var disk, log := Steps(start, writes, maxSize, keep), Run(LogOf(start, keep), writes, maxSize);
    NumbersStayBelow(start, writes, maxSize, keep);
    FilesAreLastSegments(start, writes, maxSize, keep);
    SegmentsAreTheHistory(LogOf(start, keep), writes, maxSize);
    dropped := FlattenEnd(Kept(disk.olds, keep), log.segments, disk.current);
  }

  /** If moreover the numbers had no gap they have none, there are as many files as segments, at most
      maxFiles (one if that is 0), and while there are no more segments than that nothing is dropped. */
  lemma NothingDroppedWhileRoom(start: Disk, n: nat, writes: seq<string>, maxSize: nat, maxFiles: nat)
    requires AllBelow(start.olds, Keep(maxFiles)) && Packed(start.olds, n, Keep(maxFiles))
    ensures var keep := Keep(maxFiles); var disk := Steps(start, writes, maxSize, keep);
            var segments := |Run(LogOf(start, keep), writes, maxSize).segments|;
            && (forall j: nat :: j in disk.olds <==> j < AtMost(segments, keep))
            && (segments <= keep ==> OnDisk(disk, keep) == OnDisk(start, keep) + Flatten(writes))
  {
    var keep := Keep(maxFiles);
    var disk, log := Steps(start, writes, maxSize, keep), Run(LogOf(start, keep), writes, maxSize);
    NumbersStayBelow(start, writes, maxSize, keep);
    PackedStays(start, n, writes, maxSize, keep);
    FilesAreLastSegments(start, writes, maxSize, keep);
    SegmentsAreTheHistory(LogOf(start, keep), writes, maxSize);
    PackedIsLast(disk, log, keep);
  }

  // ---------------------------------------------------------------- files above the limit

  /** The files with numbers below n always are the end of everything there was and was written. */
  ghost predicate AlwaysASuffix(numbers: set<nat>, n: nat, maxSize: nat, keep: nat) {
    forall start: Disk, writes | start.olds.Keys == (iset j | j in numbers) ::
      EndOf(OnDisk(Steps(start, writes, maxSize, keep), n), OnDisk(start, n) + Flatten(writes))
  }

  lemma {:induction false} KeptBeyond(olds: imap<nat, string>, keep: nat, n: nat)
    requires AllBelow(olds, keep) && keep <= n
    ensures Kept(olds, n) == Kept(olds, keep)
  {
    if n > keep { KeptBeyond(olds, keep, n - 1); }
  }

  function Repeat(c: char, n: nat): string { if n == 0 then "" else Repeat(c, n - 1) + [c] }

  function Copies(s: string, n: nat): seq<string> { if n == 0 then [] else Copies(s, n - 1) + [s] }

  ghost predicate Only(c: char, s: string) { forall i :: 0 <= i < |s| ==> s[i] == c }

  lemma {:induction false} RepeatIs(c: char, n: nat)
    ensures |Repeat(c, n)| == n && Only(c, Repeat(c, n))
  {
    if n > 0 { RepeatIs(c, n - 1); }
  }

  lemma CopiesSnoc(s: string, n: nat)
    requires n > 0
    ensures var all := Copies(s, n);
            all != [] && all[..|all| - 1] == Copies(s, n - 1) && Flatten(all) == Flatten(Copies(s, n - 1)) + s
  {
  }

  lemma OneMoreTime(n: nat, size: nat)
    ensures (n + 1) * size == n * size + size
  {
  }

  lemma OnlyJoins(c: char, a: string, b: string)
    requires Only(c, a) && Only(c, b)
    ensures Only(c, a + b) && |a + b| == |a| + |b|
  {
  }

  /** n copies of a text of one character. */
  ghost predicate AreCopies(c: char, whole: string, n: nat, size: nat) { |whole| == n * size && Only(c, whole) }

  lemma OneMoreCopy(c: char, whole: string, n: nat, s: string)
    requires AreCopies(c, whole, n, |s|) && Only(c, s)
    ensures AreCopies(c, whole + s, n + 1, |s|)
  {
    OnlyJoins(c, whole, s);
    OneMoreTime(n, |s|);
  }

  lemma {:induction false} CopiesFlatten(c: char, s: string, n: nat)
    requires Only(c, s)
    ensures AreCopies(c, Flatten(Copies(s, n)), n, |s|)
  {
    if n > 0 {
      CopiesFlatten(c, s, n - 1);
      CopiesSnoc(s, n);
      OneMoreCopy(c, Flatten(Copies(s, n - 1)), n - 1, s);
    }
  }

  /** What is written in copies of a text larger than the limit: every file the rotation touches holds
      at most one, and the others hold what they held. */
  ghost predicate Overwritten(disk: Disk, start: Disk, size: nat, keep: nat) {
    && |disk.current| <= size
    && (forall j: nat :: j < keep && j in disk.olds ==> |disk.olds[j]| <= size)
    && (forall j: nat :: j >= keep ==> Slot(disk.olds, j) == Slot(start.olds, j))
  }

  lemma OverwritesMore(disk: Disk, start: Disk, s: string, maxSize: nat, keep: nat)
    requires |s| > maxSize && Overwritten(disk, start, |s|, keep)
    ensures Overwritten(Stored(disk, s, maxSize, keep), start, |s|, keep)
  {
    var t := Shifted(disk.olds, disk.current, keep);
    ShiftedIs(disk.olds, disk.current, keep);
    forall j: nat
      ensures j < keep && j in t ==> |t[j]| <= |s|
      ensures j >= keep ==> Slot(t, j) == Slot(start.olds, j)
    {
      assert Slot(t, j) == SlotAfter(disk.olds, disk.current, keep, j);
    }
  }

  lemma {:induction false} CopiesOverwrite(start: Disk, writes: seq<string>, s: string, maxSize: nat, keep: nat)
    requires |s| > maxSize && Overwritten(start, start, |s|, keep)
    requires forall i :: 0 <= i < |writes| ==> writes[i] == s
    ensures Overwritten(Steps(start, writes, maxSize, keep), start, |s|, keep)
  {
    if writes != [] {
      var disk := Steps(start, writes[..|writes| - 1], maxSize, keep);
      CopiesOverwrite(start, writes[..|writes| - 1], s, maxSize, keep);
      OverwritesMore(disk, start, s, maxSize, keep);
    }
  }

  lemma {:induction false} CopiesAre(s: string, n: nat)
    ensures forall i :: 0 <= i < |Copies(s, n)| ==> Copies(s, n)[i] == s
  {
    if n > 0 { CopiesAre(s, n - 1); }
  }

  lemma {:induction false} KeptIsShort(olds: imap<nat, string>, n: nat, size: nat)
    requires forall j: nat :: j < n && j in olds ==> |olds[j]| <= size
    ensures |Flatten(Kept(olds, n))| <= n * size
  {
    if n > 0 {
      KeptIsShort(olds, n - 1, size);
      var first := if n - 1 in olds then [olds[n - 1]] else [];
      FlattenJoins(first, Kept(olds, n - 1));
      if n - 1 in olds { FlattenOne(olds[n - 1]); }
      assert n * size == (n - 1) * size + size;
    }
  }

  lemma FlattenOne(s: string)
    ensures Flatten([s]) == s
  {
    assert [s][..0] == [];
    assert "" + s == s;
  }

  /** A file above the limit comes first, if the others above it are empty. */
  lemma {:induction false} HighFileFirst(olds: imap<nat, string>, high: nat, keep: nat, n: nat)
    requires keep <= high && keep <= n && high in olds
    requires forall j: nat :: keep <= j != high && j in olds ==> olds[j] == ""
    ensures Flatten(Kept(olds, n)) == (if high < n then olds[high] else "") + Flatten(Kept(olds, keep))
  {
    if n > keep {
      HighFileFirst(olds, high, keep, n - 1);
      var first := if n - 1 in olds then [olds[n - 1]] else [];
      FlattenJoins(first, Kept(olds, n - 1));
      if n - 1 in olds { FlattenOne(olds[n - 1]); }
      assert "" + Flatten(Kept(olds, keep)) == Flatten(Kept(olds, keep));
    } else {
      assert "" + Flatten(Kept(olds, keep)) == Flatten(Kept(olds, keep));
    }
  }

  /** The files of the given numbers, all empty but one. */
  ghost function OneFull(numbers: set<nat>, high: nat): Disk {
    Disk(imap j: nat | j in numbers :: if j == high then "x" else "", "")
  }

  lemma XIsNoEnd(rest: string, ys: string)
    requires Only('y', ys) && |rest| < |ys|
    ensures !EndOf("x" + rest, "x" + ys)
  {
    var s, whole := "x" + rest, "x" + ys;
    var k := |whole| - |s|;
    assert s[0] == 'x' && whole[k] == ys[k - 1];
    assert whole[k..][0] == whole[k];
  }

  /** At or above the limit there is one file that is not empty, and it holds "x". */
  ghost predicate OneAbove(olds: imap<nat, string>, high: nat, keep: nat) {
    && keep <= high && high in olds && olds[high] == "x"
    && forall j: nat :: keep <= j != high && j in olds ==> olds[j] == ""
  }

  lemma OneStaysAbove(numbers: set<nat>, high: nat, disk: Disk, size: nat, keep: nat)
    requires high in numbers && keep <= high && Overwritten(disk, OneFull(numbers, high), size, keep)
    ensures OneAbove(disk.olds, high, keep)
  {
    var start := OneFull(numbers, high);
    assert Slot(disk.olds, high) == Slot(start.olds, high) == Some("x");
    forall j: nat | keep <= j != high && j in disk.olds
      ensures disk.olds[j] == ""
    {
      assert Slot(disk.olds, j) == Slot(start.olds, j);
    }
  }

  lemma OnDiskFromAbove(disk: Disk, high: nat, n: nat, size: nat, keep: nat) returns (rest: string)
    requires OneAbove(disk.olds, high, keep) && high < n && |disk.current| <= size
    requires forall j: nat :: j < keep && j in disk.olds ==> |disk.olds[j]| <= size
    ensures OnDisk(disk, n) == "x" + rest && |rest| <= keep * size + size
  {
    HighFileFirst(disk.olds, high, keep, n);
    KeptIsShort(disk.olds, keep, size);
    var low := Flatten(Kept(disk.olds, keep));
    rest := low + disk.current;
    assert "x" + low + disk.current == "x" + rest;
  }

  /** What is on disk when only files the rotation touches have changed. */
  lemma HighFileStays(numbers: set<nat>, high: nat, disk: Disk, n: nat, size: nat, keep: nat) returns (rest: string)
    requires high in numbers && keep <= high < n && Overwritten(disk, OneFull(numbers, high), size, keep)
    ensures OnDisk(disk, n) == "x" + rest && |rest| <= keep * size + size
  {
    OneStaysAbove(numbers, high, disk, size, keep);
    rest := OnDiskFromAbove(disk, high, n, size, keep);
  }

  lemma StartIsX(numbers: set<nat>, high: nat, n: nat, keep: nat)
    requires high in numbers && keep <= high < n
    ensures OnDisk(OneFull(numbers, high), n) == "x"
  {
    var rest := HighFileStays(numbers, high, OneFull(numbers, high), n, 0, keep);
    assert rest == "";
  }

  lemma HighFileNoEnd(numbers: set<nat>, high: nat, disk: Disk, n: nat, size: nat, keep: nat, ys: string)
    requires high in numbers && keep <= high < n && Overwritten(disk, OneFull(numbers, high), size, keep)
    requires Only('y', ys) && |ys| > keep * size + size
    ensures !EndOf(OnDisk(disk, n), OnDisk(OneFull(numbers, high), n) + ys)
  {
    var rest := HighFileStays(numbers, high, disk, n, size, keep);
    StartIsX(numbers, high, n, keep);
    XIsNoEnd(rest, ys);
  }

  lemma ManyCopies(c: char, whole: string, n: nat, size: nat, keep: nat)
    requires AreCopies(c, whole, n, size) && n == keep + 2 && size > 0
    ensures Only(c, whole) && |whole| > keep * size + size
  {
    OneMoreTime(keep, size);
    OneMoreTime(keep + 1, size);
  }

  lemma SpoilingCopies(start: Disk, y: string, n: nat, maxSize: nat, keep: nat)
    requires Overwritten(start, start, 0, keep) && Only('y', y) && |y| > maxSize && n == keep + 2
    ensures Overwritten(Steps(start, Copies(y, n), maxSize, keep), start, |y|, keep)
    ensures Only('y', Flatten(Copies(y, n))) && |Flatten(Copies(y, n))| > keep * |y| + |y|
  {
    CopiesFlatten('y', y, n);
    ManyCopies('y', Flatten(Copies(y, n)), n, |y|, keep);
    CopiesAre(y, n);
    CopiesOverwrite(start, Copies(y, n), y, maxSize, keep);
  }

  lemma HighFileSpoils(numbers: set<nat>, high: nat, n: nat, maxSize: nat, keep: nat)
    requires high in numbers && keep <= high < n
    ensures !AlwaysASuffix(numbers, n, maxSize, keep)
  {
    var start := OneFull(numbers, high);
    var y, k := Repeat('y', maxSize + 1), keep + 2;
    RepeatIs('y', maxSize + 1);
    SpoilingCopies(start, y, k, maxSize, keep);
    var writes := Copies(y, k);
    HighFileNoEnd(numbers, high, Steps(start, writes, maxSize, keep), n, |y|, keep, Flatten(writes));
    assert start.olds.Keys == (iset j | j in numbers);
  }

  /** The exact condition on the numbered files there are at the start, whatever they hold and whatever
      is written: none has a number at or above the limit, as when an earlier run kept more. */
  lemma AlwaysASuffixIff(numbers: set<nat>, n: nat, maxSize: nat, maxFiles: nat)
    requires Keep(maxFiles) <= n && forall j :: j in numbers ==> j < n
    ensures AlwaysASuffix(numbers, n, maxSize, Keep(maxFiles)) <==> forall j :: j in numbers ==> j < Keep(maxFiles)
  {
    var keep := Keep(maxFiles);
    if high: nat :| high in numbers && high >= keep {
      HighFileSpoils(numbers, high, n, maxSize, keep);
    } else {
      forall start: Disk, writes | start.olds.Keys == (iset j | j in numbers)
        ensures EndOf(OnDisk(Steps(start, writes, maxSize, keep), n), OnDisk(start, n) + Flatten(writes))
      {
        assert AllBelow(start.olds, keep) by {
          forall j: nat | j in start.olds ensures j < keep { assert j in start.olds.Keys; }
        }
        var dropped := FilesAreASuffix(start, writes, maxSize, maxFiles);
        KeptBeyond(start.olds, keep, n);
        var disk := Steps(start, writes, maxSize, keep);
        KeptBeyond(disk.olds, keep, n);
        assert (dropped + OnDisk(disk, n))[|dropped|..] == OnDisk(disk, n);
      }
    }
  }

  // ---------------------------------------------------------------- sizes

  /** While everything fits in the current file nothing is rotated. */
  lemma {:induction false} NoRotationWhileItFits(start: Disk, writes: seq<string>, maxSize: int, keep: nat)
    requires |start.current| + |Flatten(writes)| <= maxSize
    ensures Steps(start, writes, maxSize, keep) == Disk(start.olds, start.current + Flatten(writes))
  {
    if writes == [] {
      assert start.current + "" == start.current;
    } else {
      var before, bs := writes[..|writes| - 1], writes[|writes| - 1];
      NoRotationWhileItFits(start, before, maxSize, keep);
      assert start.current + Flatten(before) + bs == start.current + (Flatten(before) + bs);
    }
  }

  /** A file larger than the limit is one write, or was there at the start. */
  ghost predicate Fits(s: string, start: Disk, writes: seq<string>, maxSize: int) {
    |s| <= maxSize || s in writes || s == start.current || exists j: nat :: j in start.olds && start.olds[j] == s
  }

  /** Every file is within the limit, or a single write, or was there at the start. */
  lemma {:induction false} FilesFit(start: Disk, writes: seq<string>, maxSize: nat, keep: nat)
    ensures var disk := Steps(start, writes, maxSize, keep);
            && Fits(disk.current, start, writes, maxSize)
            && forall j: nat :: j in disk.olds ==> Fits(disk.olds[j], start, writes, maxSize)
  {
    if writes != [] {
      var before, bs := writes[..|writes| - 1], writes[|writes| - 1];
      FilesFit(start, before, maxSize, keep);
      assert forall x :: x in before ==> x in writes;
      assert bs in writes;
      var disk, now := Steps(start, before, maxSize, keep), Steps(start, writes, maxSize, keep);
      forall j: nat | j in now.olds
        ensures Fits(now.olds[j], start, writes, maxSize)
      {
        if |disk.current| + |bs| > maxSize {
          assert Slot(now.olds, j) == SlotAfter(disk.olds, disk.current, keep, j);
        }
      }
    }
  }

  /** With no old files asked for, one is kept all the same once there was a rotation. */
  lemma ZeroKeepsOne(start: Disk, writes: seq<string>, maxSize: nat)
    ensures 0 in Steps(start, writes, maxSize, Keep(0)).olds <==>
            Run(LogOf(start, Keep(0)), writes, maxSize).segments != []
  {
    PackedStays(start, if 0 in start.olds then 1 else 0, writes, maxSize, Keep(0));
  }
}
