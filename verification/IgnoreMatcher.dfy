/** The ignore matcher with its result cache: what is cached never changes what Match returns. */
module IgnoreMatcher {
  import opened Globs
  import opened Options
  import opened IgnorePatterns
  import opened IgnoreSkip
  import opened IgnoreHash

  datatype CacheEntry = CacheEntry(result: R, access: int)

  /** lib/ignore/cache.go. Times are nanosecond counts handed in by the caller. */
  class Cache {
    var entries: map<string, CacheEntry>

    constructor ()
      ensures entries == map[]
    {
      entries := map[];
    }

    method Get(key: string, now: int) returns (r: Option<R>)
      modifies this
      ensures r == if key in old(entries) then Some(old(entries)[key].result) else None
      ensures entries == if key in old(entries) then old(entries)[key := CacheEntry(old(entries)[key].result, now)]
                         else old(entries)
    {
      if key in entries {
        var entry := entries[key];
        entries := entries[key := entry.(access := now)];
        return Some(entry.result);
      }
      return None;
    }

    method Set(key: string, result: R, now: int)
      modifies this
      ensures entries == old(entries)[key := CacheEntry(result, now)]
    {
      entries := entries[key := CacheEntry(result, now)];
    }

    /** Drops the entries that have not been looked at for longer than `d`. */
    method Clean(d: int, now: int)
      modifies this
      ensures entries == map k | k in old(entries) && now - old(entries)[k].access <= d :: old(entries)[k]
    {
      var todo := entries.Keys;
      while todo != {}
        invariant todo <= old(entries).Keys
        invariant forall k :: k in entries ==> k in old(entries) && entries[k] == old(entries)[k]
        invariant forall k :: k in old(entries) ==>
                    (k in entries <==> k in todo || now - old(entries)[k].access <= d)
        decreases |todo|
      {
        var k :| k in todo;
        if now - entries[k].access > d {
          entries := entries - {k};
        }
        todo := todo - {k};
      }
    }
  }

  // ---------------------------------------------------------------- loading

  /** A file as it is when Load runs; a missing file is none. */
  datatype DiskFile = DiskFile(readable: bool, modtime: int, lines: seq<string>)

  type Disk = string -> Option<DiskFile>

  predicate Readable(disk: Disk, file: string) { disk(file).Some? && disk(file).value.readable }

  predicate SameModtime(disk: Disk, file: string, modtime: int) {
    disk(file).Some? && disk(file).value.modtime == modtime
  }

  /** What the change detector remembers, and the patterns last found. */
  datatype Loader = Loader(modtimes: map<string, int>, found: seq<Pattern>)

  /** The detector has seen the file and nothing it remembers has another modification time. */
  ghost predicate Unchanged(modtimes: map<string, int>, file: string, disk: Disk) {
    file in modtimes && forall name :: name in modtimes ==> SameModtime(disk, name, modtimes[name])
  }

  ghost function LoadNext(plat: Platform, s: Loader, file: string, disk: Disk): Loader {
    if Unchanged(s.modtimes, file, disk) then s
    else if !Readable(disk, file) then s.(found := [])
    else match ParsedRules(plat, disk(file).value.lines, {})
      case None => Loader(map[], [])
      case Some(ps) => Loader(map[file := disk(file).value.modtime], ps)
  }

  ghost predicate LoadSucceeds(plat: Platform, s: Loader, file: string, disk: Disk) {
    Unchanged(s.modtimes, file, disk) || (Readable(disk, file) && ParsedRules(plat, disk(file).value.lines, {}).Some?)
  }

  /** A call of Load. */
  datatype LoadCall = LoadCall(file: string, disk: Disk)

  ghost function Loads(plat: Platform, calls: seq<LoadCall>): Loader {
    if calls == [] then Loader(map[], [])
    else LoadNext(plat, Loads(plat, calls[..|calls| - 1]), calls[|calls| - 1].file, calls[|calls| - 1].disk)
  }

  /** Since the last file was read, one could not be read. */
  ghost predicate DroppedSince(plat: Platform, calls: seq<LoadCall>) {
    calls != [] &&
    var before, last := calls[..|calls| - 1], calls[|calls| - 1];
    if Unchanged(Loads(plat, before).modtimes, last.file, last.disk) then DroppedSince(plat, before)
    else !Readable(last.disk, last.file)
  }

  /** A file with the same modification time has the same lines. */
  ghost predicate Honest(calls: seq<LoadCall>) {
    forall i, j, name, t :: 0 <= i < |calls| && 0 <= j < |calls|
      && SameModtime(calls[i].disk, name, t) && SameModtime(calls[j].disk, name, t)
      ==> calls[i].disk(name).value.lines == calls[j].disk(name).value.lines
  }

  /** A file is remembered as one of the calls read it; its patterns are there unless they were
      dropped since. */
  ghost predicate RememberedFrom(plat: Platform, calls: seq<LoadCall>, file: string, i: nat) {
    var s := Loads(plat, calls);
    && i < |calls| && file in s.modtimes && SameModtime(calls[i].disk, file, s.modtimes[file])
    && var parsed := ParsedRules(plat, calls[i].disk(file).value.lines, {});
       parsed.Some? && s.found == if DroppedSince(plat, calls) then [] else parsed.value
  }

  lemma {:induction false} RememberedIsRead(plat: Platform, calls: seq<LoadCall>, file: string) returns (i: nat)
    requires file in Loads(plat, calls).modtimes
    ensures RememberedFrom(plat, calls, file, i)
  {
    var before, last := calls[..|calls| - 1], calls[|calls| - 1];
    var s := Loads(plat, before);
    if Unchanged(s.modtimes, last.file, last.disk) || !Readable(last.disk, last.file) {
      i := RememberedIsRead(plat, before, file);
      assert calls[i] == before[i];
    } else {
      i := |calls| - 1;
    }
  }

  /** When a Load that succeeds means the patterns on disk: unless the change detector makes it leave
      a file alone whose patterns an earlier Load dropped because it could not read it. Then there are
      no patterns. */
  lemma SuccessMeansDiskIff(plat: Platform, calls: seq<LoadCall>)
    requires calls != [] && Honest(calls)
    requires var last := calls[|calls| - 1]; LoadSucceeds(plat, Loads(plat, calls[..|calls| - 1]), last.file, last.disk)
    ensures var before, last := calls[..|calls| - 1], calls[|calls| - 1];
            var stale := Unchanged(Loads(plat, before).modtimes, last.file, last.disk) && DroppedSince(plat, before);
            && last.disk(last.file).Some?
            && var onDisk := ParsedRules(plat, last.disk(last.file).value.lines, {});
            && onDisk.Some? && Loads(plat, calls).found == (if stale then [] else onDisk.value)
            && (Loads(plat, calls).found == onDisk.value <==> !stale || onDisk.value == [])
  {
    var before, last := calls[..|calls| - 1], calls[|calls| - 1];
    var s := Loads(plat, before);
    if Unchanged(s.modtimes, last.file, last.disk) {
      var i := RememberedIsRead(plat, before, last.file);
      assert calls[i] == before[i];
      assert SameModtime(calls[i].disk, last.file, s.modtimes[last.file]);
      assert SameModtime(calls[|calls| - 1].disk, last.file, s.modtimes[last.file]);
    }
  }

  /** A file that goes missing and comes back as it was is not read again. */
  lemma ReturnedFileIsNotRead(plat: Platform, file: string, there: Disk, gone: Disk)
    requires Readable(there, file) && ParsedRules(plat, there(file).value.lines, {}).Some? && gone(file).None?
    ensures var calls := [LoadCall(file, there), LoadCall(file, gone), LoadCall(file, there)];
            LoadSucceeds(plat, Loads(plat, calls[..2]), file, there) && Loads(plat, calls).found == []
  {
    var a, b := LoadCall(file, there), LoadCall(file, gone);
    var calls := [a, b, a];
    assert calls[..2] == [a, b] && [a, b][..1] == [a] && [a][..0] == [];
    var none: seq<LoadCall> := [];
    assert Loads(plat, none) == Loader(map[], []) && !Unchanged(map[], file, there);
    var first := Loads(plat, [a]);
    var text := there(file).value;
    assert first == Loader(map[file := text.modtime], ParsedRules(plat, text.lines, {}).value);
    assert !SameModtime(gone, file, first.modtimes[file]);
    assert Loads(plat, [a, b]) == first.(found := []);
  }

  /** modtimeChecker of lib/ignore/ignore.go. */
  class ModtimeChecker {
    var modtimes: map<string, int>

    constructor ()
      ensures modtimes == map[]
    {
      modtimes := map[];
    }

    method Remember(name: string, modtime: int)
      modifies this
      ensures modtimes == old(modtimes)[name := modtime]
    {
      modtimes := modtimes[name := modtime];
    }

    predicate Seen(name: string)
      reads this
    {
      name in modtimes
    }

    method Reset()
      modifies this
      ensures modtimes == map[]
    {
      modtimes := map[];
    }

    method Changed(disk: Disk) returns (changed: bool)
      ensures changed <==> exists name :: name in modtimes && !SameModtime(disk, name, modtimes[name])
    {
      var todo := modtimes.Keys;
      while todo != {}
        invariant todo <= modtimes.Keys
        invariant forall name :: name in modtimes && name !in todo ==> SameModtime(disk, name, modtimes[name])
        decreases |todo|
      {
        var name :| name in todo;
        var info := disk(name);
        if info.None? {
          return true;
        }
        if info.value.modtime != modtimes[name] {
          return true;
        }
        todo := todo - {name};
      }
      changed := false;
    }
  }

  class Matcher {
    const plat: Platform
    const withCache: bool
    const hash: string -> string   // hex digest of a text
    const changeDetector: ModtimeChecker

    var lines: seq<string>
    var patterns: seq<Pattern>
    var matches: Cache?
    var curHash: string
    ghost var source: seq<string>   // the lines `patterns` was parsed from
    ghost var latest: seq<Pattern>  // the outcome of the last parse

    /** No two texts have the same digest, and no digest is empty. */
    static ghost predicate CollisionFree(hash: string -> string) {
      && (forall a, b :: hash(a) == hash(b) ==> a == b)
      && (forall a :: hash(a) != "")
    }

    ghost predicate Valid()
      reads this, matches
    {
      && plat.Valid() && CollisionFree(hash)
      && AllOneLine(source) && ParsedRules(plat, source, {}) == Some(patterns) && Usable(patterns)
      && Usable(latest) && SamePatterns(latest, patterns)
      && (curHash == "" || curHash == hash(HashInput(patterns)))
      && (curHash == "" ==> patterns == [])
      && (!withCache ==> matches == null)
      && (matches != null ==> forall file :: file in matches.entries ==>
            matches.entries[file].result == Loop(plat, patterns, 0, true, file))
    }

    constructor (plat: Platform, withCache: bool, hash: string -> string)
      requires plat.Valid() && CollisionFree(hash)
      ensures Valid() && matches == null && latest == []
      ensures fresh(changeDetector) && changeDetector.modtimes == map[]
      ensures this.plat == plat && this.withCache == withCache && this.hash == hash
    {
      this.plat, this.withCache, this.hash := plat, withCache, hash;
      changeDetector := new ModtimeChecker();
      lines, patterns, matches, curHash := [], [], null, "";
      source, latest := [], [];
    }

    /** parseLocked: a file that does not parse leaves no patterns. */
    method Parse(text: seq<string>) returns (ok: bool)
      requires Valid() && AllOneLine(text)
      modifies this
      ensures Valid() && (matches == old(matches) || matches == null || fresh(matches))
      ensures ok <==> ParsedRules(plat, text, {}).Some?
      ensures latest == if ok then ParsedRules(plat, text, {}).value else []
      ensures lines == text
    {
      var parsed := ParseIgnoreFile(plat, text);
      ok := parsed.Some?;
      var found := if ok then parsed.value else [];
      ghost var from := if ok then text else [];
      ParsedIsUsable(plat, from, found);
      lines := text;
      latest := found;
      var newHash := hash(HashInput(found));
      if newHash == curHash {
        SameHashInputSameMatches(plat, from, source, found, patterns);
        return;
      }
      curHash := newHash;
      patterns := found;
      source := from;
      if withCache {
        matches := new Cache();
      }
    }

    /** What later calls of Load depend on. */
    ghost function State(): Loader
      reads this, changeDetector
    {
      Loader(changeDetector.modtimes, latest)
    }

    method Load(file: string, disk: Disk) returns (ok: bool)
      requires Valid() && (Readable(disk, file) ==> AllOneLine(disk(file).value.lines))
      modifies this, changeDetector
      ensures Valid() && (matches == old(matches) || matches == null || fresh(matches))
      ensures ok <==> LoadSucceeds(plat, old(State()), file, disk)
      ensures State() == LoadNext(plat, old(State()), file, disk)
    {
      if changeDetector.Seen(file) {
        var changed := changeDetector.Changed(disk);
        if !changed {
          return true;
        }
      }
      if !Readable(disk, file) {
        ok := Parse([]);
        return false;
      }
      changeDetector.Reset();
      var text := disk(file).value;
      ok := Parse(text.lines);
      if ok {
        changeDetector.Remember(file, text.modtime);
      }
    }

    /** The pattern loop of Match. */
    method Search(file: string) returns (result: R)
      requires Usable(patterns)
      ensures result == Loop(plat, patterns, 0, true, file)
    {
      var canSkip, i := true, 0;
      while i < |patterns|
        invariant 0 <= i <= |patterns|
        invariant Loop(plat, patterns, i, canSkip, file) == Loop(plat, patterns, 0, true, file)
      {
        var pattern := patterns[i];
        if canSkip && !AllowsSkippingIgnoredDirs(pattern) {
          canSkip := false;
        }
        if Matches(pattern.glob, Folded(plat, file, pattern.result)) {
          return if canSkip then pattern.result.WithSkipDir() else pattern.result;
        }
        i := i + 1;
      }
      return NOT_IGNORED;
    }

    /** The part of Match under the lock: look in the cache, else search and remember. */
    method CachedSearch(file: string, now: int) returns (result: R)
      requires Valid()
      modifies matches
      ensures Valid() && patterns == old(patterns) && latest == old(latest) && matches == old(matches)
      ensures result == Loop(plat, patterns, 0, true, file)
    {
      if matches != null {
        var known := matches.Get(file, now);
        if known.Some? {
          return known.value;
        }
      }
      result := Search(file);
      if matches != null {
        matches.Set(file, result, now);
      }
    }

    /** Match returns what a first-match search of the last parsed patterns shows, cache or not. */
    method Match(file: string, now: int) returns (result: R)
      requires Valid()
      modifies matches
      ensures Valid() && patterns == old(patterns) && latest == old(latest) && matches == old(matches)
      ensures result == MatchResult(plat, patterns, file)
      ensures SameResult(result, MatchResult(plat, latest, file))
    {
      SamePatternsSameLoop(plat, latest, patterns, 0, true, file);
      if IsTemporary(file) || IsInternal(file) {
        return plat.IgnoreAndSkip();
      }
      if file == "." || |patterns| == 0 {
        return NOT_IGNORED;
      }
      result := CachedSearch(file, now);
    }

    /** The periodic cleaning. */
    method CleanCache(d: int, now: int)
      requires Valid()
      modifies matches
      ensures Valid() && patterns == old(patterns) && latest == old(latest) && matches == old(matches)
    {
      if matches != null {
        matches.Clean(d, now);
      }
    }
  }
}
