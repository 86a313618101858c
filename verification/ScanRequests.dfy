/** What the database pass of a scan (scanSubdirsDeletedAndIgnored in lib/model/folder.go) requests, in
    terms of the flags of the rows, the ignores and the disk; and what trouble does to it. */
module ScanRequests {
  import opened Paths
  import opened ScanIgnored
  import opened DeferredIgnore

  // ---------------------------------------------------------------- what is asked for

  /** Whether a row asks for an action, by its flags. A directory only asks; it may be held back. */
  predicate Asks(env: Env, item: Item, a: Action) {
    var here := !env.ignored(item.name);
    item.name == a.name
    && match a
       case Ignore(_, deferred) => !here && !item.isIgnored && deferred == item.isDirectory
       case Delete(_, emptyVersion) =>
         && here && env.gone(item.name) && (item.isIgnored || (!item.isDeleted && !item.isUnsupported))
         && emptyVersion == item.shouldConflict
       case Drop(_) =>
         && here && !item.isIgnored && item.isDeleted && item.receiveOnlyChanged
         && env.receiveOnlyFolder && env.global(item.name) == GlobalReceiveOnlyChanged
       case ClearReceiveOnly(_) =>
         && here && !item.isIgnored && item.isDeleted && item.receiveOnlyChanged
         && (!env.receiveOnlyFolder || env.global(item.name) == GlobalDeleted)
  }

  ghost predicate SomeRowAsks(env: Env, rows: seq<Row>, a: Action) {
    exists i :: 0 <= i < |rows| && rows[i].Row? && Asks(env, rows[i].item, a)
  }

  predicate Late(a: Action) { a.Ignore? && a.deferred }

  lemma OwnAsks(env: Env, item: Item, a: Action)
    ensures a in OwnActions(env, item) <==> Asks(env, item, a) && !Late(a)
    ensures forall o :: o in OwnActions(env, item) ==> !Late(o)
  {
  }

  lemma {:induction false} OwnActionsAsk(env: Env, rows: seq<Row>, a: Action)
    ensures a in OwnActionsOf(env, rows) <==> SomeRowAsks(env, rows, a) && !Late(a)
  {
    if rows != [] {
      var init, last := rows[..|rows| - 1], rows[|rows| - 1];
      OwnActionsAsk(env, init, a);
      if last.Row? { OwnAsks(env, last.item, a); }
      if SomeRowAsks(env, init, a) {
        var i :| 0 <= i < |init| && init[i].Row? && Asks(env, init[i].item, a);
        assert rows[i] == init[i];
      }
    }
  }

  lemma {:induction false} ImmediateMembers(log: seq<Action>, a: Action)
    ensures a in ImmediateActions(log) <==> a in log && !Late(a)
  {
    if log != [] {
      ImmediateMembers(log[..|log| - 1], a);
      assert log == log[..|log| - 1] + [log[|log| - 1]];
    }
  }

  lemma {:induction false} ImmediateJoins(log: seq<Action>, more: seq<Action>)
    ensures ImmediateActions(log + more) == ImmediateActions(log) + ImmediateActions(more)
  {
    if more == [] {
      assert log + more == log;
    } else {
      var init, a := more[..|more| - 1], more[|more| - 1];
      ImmediateJoins(log, init);
      assert more == init + [a] && log + more == (log + init) + [a];
      ImmediateOfAppended(log + init, a);
      ImmediateOfAppended(init, a);
      JoinsSnoc(ImmediateActions(log), ImmediateActions(init), a);
    }
  }

  lemma JoinsSnoc(a: seq<Action>, b: seq<Action>, x: Action)
    ensures a + (b + [x]) == (a + b) + [x]
  {
  }

  // ---------------------------------------------------------------- the log only grows

  lemma MarkAllGrows(env: Env, s: Pass, items: seq<Item>)
    ensures s.log <= MarkAll(env, s, items).log
  {
    MarkAllAppends(env, s, items);
  }

  lemma LeaveParentGrows(env: Env, s: Pass, name: string)
    ensures s.log <= LeaveParent(env, s, name).log
  {
    MarkAllGrows(env, s, s.toIgnore);
  }

  lemma ClassifyGrows(env: Env, s: Pass, item: Item)
    ensures s.log <= Classify(env, s, item).log
  {
  }

  lemma PrefixTransitive(a: seq<Action>, b: seq<Action>, c: seq<Action>)
    requires a <= b && b <= c
    ensures a <= c
  {
  }

  lemma ScanItemGrows(env: Env, s: Pass, item: Item)
    ensures s.log <= ScanItem(env, s, item).log
  {
    var u := FlushIfFull(env, Check(env, s, false));
    var v := LeaveParent(env, u, item.name);
    LeaveParentGrows(env, u, item.name);
    ClassifyGrows(env, v, item);
    PrefixTransitive(u.log, v.log, Classify(env, v, item).log);
  }

  lemma {:induction false} ScanRowsGrows(env: Env, s: Pass, rows: seq<Row>)
    ensures s.log <= ScanRows(env, s, rows).log
  {
    if rows != [] {
      ScanRowsGrows(env, s, rows[..|rows| - 1]);
      if rows[|rows| - 1].Row? {
        ScanItemGrows(env, ScanRows(env, s, rows[..|rows| - 1]), rows[|rows| - 1].item);
      }
    }
  }

  lemma EndListingGrows(env: Env, s: Pass)
    ensures s.log <= EndListing(env, s).log
  {
    var t := Check(env, s, true);
    MarkAllGrows(env, t, t.toIgnore);
  }

  // ---------------------------------------------------------------- the requests of a listing

  function AfterListing(env: Env, s: Pass, rows: seq<Row>): Pass { EndListing(env, ScanRows(env, s, rows)) }

  /** What a listing adds to the log. */
  function Requests(env: Env, s: Pass, rows: seq<Row>): seq<Action> {
    var r := AfterListing(env, s, rows);
    if |s.log| <= |r.log| then r.log[|s.log|..] else []
  }

  /** Of a listing scanned to its end, everything but the marks of directories is requested exactly if a
      row asks for it: a deletion for what is gone and was neither deleted nor unsupported, or was
      ignored; a mark for a file that became ignored; and what is to be done with deleted receive-only
      items. */
  lemma RequestedIffAsked(env: Env, s: Pass, rows: seq<Row>, a: Action)
    requires AfterListing(env, s, rows).stop.Running? && !Late(a)
    ensures a in Requests(env, s, rows) <==> SomeRowAsks(env, rows, a)
  {
    ImmediateRequests(env, s, rows);
    ImmediateMembers(Requests(env, s, rows), a);
    OwnActionsAsk(env, rows, a);
  }

  lemma EndListingAddsNothingElse(env: Env, s: Pass)
    ensures ImmediateActions(EndListing(env, s).log) == ImmediateActions(s.log)
    ensures EndListing(env, s).stop.Running? ==> s.stop.Running?
  {
    var t := Check(env, s, true);
    MarkAllAddsNothingElse(env, t, t.toIgnore);
  }

  lemma RequestsAre(env: Env, s: Pass, rows: seq<Row>)
    ensures AfterListing(env, s, rows).log == s.log + Requests(env, s, rows)
  {
    var u := ScanRows(env, s, rows);
    ScanRowsGrows(env, s, rows);
    EndListingGrows(env, u);
    PrefixTransitive(s.log, u.log, EndListing(env, u).log);
  }

  lemma SameRest(a: seq<Action>, b: seq<Action>, c: seq<Action>)
    requires a + b == a + c
    ensures b == c
  {
    assert (a + b)[|a|..] == b && (a + c)[|a|..] == c;
  }

  lemma ImmediateRequests(env: Env, s: Pass, rows: seq<Row>)
    requires AfterListing(env, s, rows).stop.Running?
    ensures ImmediateActions(Requests(env, s, rows)) == OwnActionsOf(env, rows)
  {
    EndListingAddsNothingElse(env, ScanRows(env, s, rows));
    ImmediateActionsExact(env, s, rows);
    RequestsAre(env, s, rows);
    ImmediateJoins(s.log, Requests(env, s, rows));
    SameRest(ImmediateActions(s.log), ImmediateActions(Requests(env, s, rows)), OwnActionsOf(env, rows));
  }

  /** In particular the deletions, in full. */
  lemma DeletedIff(env: Env, s: Pass, rows: seq<Row>, name: string, emptyVersion: bool)
    requires AfterListing(env, s, rows).stop.Running?
    ensures Delete(name, emptyVersion) in Requests(env, s, rows) <==>
            exists i :: 0 <= i < |rows| && rows[i].Row? && var item := rows[i].item;
              && item.name == name && item.shouldConflict == emptyVersion
              && !env.ignored(name) && env.gone(name)
              && (item.isIgnored || (!item.isDeleted && !item.isUnsupported))
  {
    RequestedIffAsked(env, s, rows, Delete(name, emptyVersion));
  }

  ghost predicate AllHeldAsk(env: Env, rows: seq<Row>, held: seq<Item>) {
    forall d :: d in held ==> SomeRowAsks(env, rows, Ignore(d.name, true))
  }

  ghost predicate AllLateAsk(env: Env, rows: seq<Row>, log: seq<Action>, from: nat) {
    forall k :: from <= k < |log| && Late(log[k]) ==> SomeRowAsks(env, rows, log[k])
  }

  lemma AsksInMore(env: Env, rows: seq<Row>, row: Row, a: Action)
    requires SomeRowAsks(env, rows, a) || (row.Row? && Asks(env, row.item, a))
    ensures SomeRowAsks(env, rows + [row], a)
  {
    var more := rows + [row];
    if SomeRowAsks(env, rows, a) {
      var i :| 0 <= i < |rows| && rows[i].Row? && Asks(env, rows[i].item, a);
      assert more[i] == rows[i];
    } else {
      assert more[|rows|] == row;
    }
  }

  lemma MarkAllAsks(env: Env, rows: seq<Row>, s: Pass, from: nat)
    requires from <= |s.log| && AllHeldAsk(env, rows, s.toIgnore) && AllLateAsk(env, rows, s.log, from)
    ensures AllLateAsk(env, rows, MarkAll(env, s, s.toIgnore).log, from)
  {
    var r := MarkAll(env, s, s.toIgnore);
    MarkAllAppends(env, s, s.toIgnore);
    forall k | from <= k < |r.log| && Late(r.log[k])
      ensures SomeRowAsks(env, rows, r.log[k])
    {
      if k < |s.log| {
        assert r.log[k] == s.log[k];
      } else {
        var j :| 0 <= j < |s.toIgnore| && r.log[k] == Ignore(s.toIgnore[j].name, true);
        assert s.toIgnore[j] in s.toIgnore;
      }
    }
  }

  lemma ClassifyHolds(env: Env, s: Pass, item: Item)
    ensures var r := Classify(env, s, item);
            && (forall d :: d in r.toIgnore ==> d in s.toIgnore || (d == item && Asks(env, item, Ignore(d.name, true))))
            && NoNewMarks(s.log, r.log) && |s.log| <= |r.log|
  {
    ClassifyMarksNothingLate(env, s, item);
  }

  lemma ScanItemAsks(env: Env, rows: seq<Row>, s: Pass, item: Item, from: nat)
    requires from <= |s.log| && AllHeldAsk(env, rows, s.toIgnore) && AllLateAsk(env, rows, s.log, from)
    ensures var r, more := ScanItem(env, s, item), rows + [Row(item)];
            AllHeldAsk(env, more, r.toIgnore) && AllLateAsk(env, more, r.log, from)
  {
    var u := FlushIfFull(env, Check(env, s, false));
    var v := LeaveParent(env, u, item.name);
    var r, more := ScanItem(env, s, item), rows + [Row(item)];
    MarkAllAsks(env, rows, u, from);
    MarkAllAppends(env, u, u.toIgnore);
    ClassifyHolds(env, v, item);
    forall d | d in r.toIgnore ensures SomeRowAsks(env, more, Ignore(d.name, true)) {
      AsksInMore(env, rows, Row(item), Ignore(d.name, true));
    }
    forall k | from <= k < |r.log| && Late(r.log[k]) ensures SomeRowAsks(env, more, r.log[k]) {
      AsksInMore(env, rows, Row(item), r.log[k]);
    }
  }

  lemma {:induction false} ScanRowsAsks(env: Env, s: Pass, rows: seq<Row>)
    requires s.toIgnore == []
    ensures var r := ScanRows(env, s, rows);
            AllHeldAsk(env, rows, r.toIgnore) && AllLateAsk(env, rows, r.log, |s.log|) && |s.log| <= |r.log|
  {
    if rows != [] {
      var init, row := rows[..|rows| - 1], rows[|rows| - 1];
      var before, after := ScanRows(env, s, init), ScanRows(env, s, rows);
      ScanRowsAsks(env, s, init);
      ScanRowsGrows(env, s, rows);
      assert rows == init + [row];
      if row.Row? {
        ScanItemAsks(env, init, before, row.item, |s.log|);
      } else {
        forall d | d in after.toIgnore ensures SomeRowAsks(env, rows, Ignore(d.name, true)) {
          AsksInMore(env, init, row, Ignore(d.name, true));
        }
        forall k | |s.log| <= k < |after.log| && Late(after.log[k]) ensures SomeRowAsks(env, rows, after.log[k]) {
          AsksInMore(env, init, row, after.log[k]);
        }
      }
    }
  }

  /** Marked late are only directories of the listing that became ignored; and where it is pre-ordered
      only such that no row below them is still there: neither matched by the ignores nor gone, and
      marked ignored, or neither deleted nor unsupported. */
  lemma MarkedLateOnly(env: Env, s: Pass, rows: seq<Row>, name: string)
    requires s.toIgnore == [] && HeldBelowParent(s) && (s.ignoredParent == "" || NameIsCanonical(s.ignoredParent))
    requires Ignore(name, true) in Requests(env, s, rows)
    ensures exists i :: 0 <= i < |rows| && rows[i].Row? && var item := rows[i].item;
              item.name == name && item.isDirectory && !item.isIgnored && env.ignored(name)
    ensures NamesCanonical(rows) && PreOrder(rows) ==>
              !exists u :: 0 <= u < |rows| && rows[u].Row? && var item := rows[u].item;
                && IsParent(item.name, name) && !env.ignored(item.name) && !env.gone(item.name)
                && (item.isIgnored || (!item.isDeleted && !item.isUnsupported))
  {
    var u := ScanRows(env, s, rows);
    var t := Check(env, u, true);
    var r := AfterListing(env, s, rows);
    ScanRowsAsks(env, s, rows);
    MarkAllAsks(env, rows, t, |s.log|);
    ScanRowsGrows(env, s, rows);
    EndListingGrows(env, u);
    var n :| 0 <= n < |Requests(env, s, rows)| && Requests(env, s, rows)[n] == Ignore(name, true);
    assert r.log[|s.log| + n] == Ignore(name, true);
    assert SomeRowAsks(env, rows, Ignore(name, true));
    if NamesCanonical(rows) && PreOrder(rows) {
      ListingIsSafe(env, rows, s);
      assert NoLiveBelow(env, rows, name, |rows|);
      forall u | 0 <= u < |rows| && rows[u].Row? && IsParent(rows[u].item.name, name)
        ensures !Live(env, rows[u].item)
      {
      }
    }
  }

  // ---------------------------------------------------------------- the count of changes

  /** The batch accepts every update, or refuses every one. */
  ghost predicate Answers(env: Env, accepts: bool) {
    forall t :: env.update(t) == if accepts then Accepted else Refused
  }

  /** The changes there are in a log then: all of it, or what is dropped from the database. */
  function Counted(log: seq<Action>, accepts: bool): nat {
    if log == [] then 0
    else Counted(log[..|log| - 1], accepts) + if accepts || log[|log| - 1].Drop? then 1 else 0
  }

  ghost predicate CountsRight(s: Pass, accepts: bool) { s.changes == Counted(s.log, accepts) }

  lemma CountedSnoc(log: seq<Action>, a: Action, accepts: bool)
    ensures Counted(log + [a], accepts) == Counted(log, accepts) + if accepts || a.Drop? then 1 else 0
  {
    assert (log + [a])[..|log|] == log;
  }

  lemma {:induction false} MarkAllCounts(env: Env, s: Pass, items: seq<Item>, accepts: bool)
    requires Answers(env, accepts) && CountsRight(s, accepts)
    ensures CountsRight(MarkAll(env, s, items), accepts)
    decreases |items|
  {
    if items != [] {
      CountedSnoc(s.log, Ignore(items[0].name, true), accepts);
      MarkAllCounts(env, FlushIfFull(env, Update(env, s, Ignore(items[0].name, true))), items[1..], accepts);
    }
  }

  lemma ClassifyCounts(env: Env, s: Pass, item: Item, accepts: bool)
    requires Answers(env, accepts) && CountsRight(s, accepts)
    ensures CountsRight(Classify(env, s, item), accepts)
  {
    CountedSnoc(s.log, Ignore(item.name, false), accepts);
    CountedSnoc(s.log, Delete(item.name, item.shouldConflict), accepts);
    CountedSnoc(s.log, ClearReceiveOnly(item.name), accepts);
    CountedSnoc(s.log, Drop(item.name), accepts);
  }

  lemma {:induction false} ScanRowsCounts(env: Env, s: Pass, rows: seq<Row>, accepts: bool)
    requires Answers(env, accepts) && CountsRight(s, accepts)
    ensures CountsRight(ScanRows(env, s, rows), accepts)
  {
    if rows != [] {
      var t, row := ScanRows(env, s, rows[..|rows| - 1]), rows[|rows| - 1];
      ScanRowsCounts(env, s, rows[..|rows| - 1], accepts);
      if row.Row? {
        var u := FlushIfFull(env, Check(env, t, false));
        MarkAllCounts(env, u, u.toIgnore, accepts);
        ClassifyCounts(env, LeaveParent(env, u, row.item.name), row.item, accepts);
      }
    }
  }

  /** The pass counts as changes what the batch accepted and what is dropped from the database. */
  lemma {:induction false} ChangesAreCounted(env: Env, listings: seq<seq<Row>>, accepts: bool)
    requires Answers(env, accepts)
    ensures var s := ScanListings(env, START, listings); s.changes == Counted(s.log, accepts)
  {
    if listings != [] {
      var before, rows := ScanListings(env, START, listings[..|listings| - 1]), listings[|listings| - 1];
      ChangesAreCounted(env, listings[..|listings| - 1], accepts);
      ScanRowsCounts(env, before, rows, accepts);
      var t := Check(env, ScanRows(env, before, rows), true);
      MarkAllCounts(env, t, t.toIgnore, accepts);
    }
  }

  // ---------------------------------------------------------------- trouble

  predicate HasRowError(rows: seq<Row>) { exists i :: 0 <= i < |rows| && rows[i].RowError? }

  /** A pass goes on only while nothing can have gone wrong, and stops only for a reason. */
  ghost predicate Explained(env: Env, rowError: bool, s: Pass) {
    match s.stop
    case Running =>
      forall t: nat :: t < s.tick ==> !(env.cancelled(t) && env.flushFails(t) && env.update(t).UpdateError?)
    case Failed =>
      || (exists t: nat :: t < s.tick && (env.flushFails(t) || env.update(t).UpdateError?))
      || exists name :: env.global(name).LookupError?
    case Aborted(_) => rowError || exists t: nat :: t < s.tick && env.cancelled(t)
  }

  lemma TicksExplained(env: Env, rowError: bool, s: Pass, error: bool, a: Action)
    requires Explained(env, rowError, s)
    ensures Explained(env, rowError, Check(env, s, error)) && Explained(env, rowError, FlushIfFull(env, s))
    ensures Explained(env, rowError, Update(env, s, a))
  {
  }

  lemma {:induction false} MarkAllExplained(env: Env, rowError: bool, s: Pass, items: seq<Item>)
    requires Explained(env, rowError, s)
    ensures Explained(env, rowError, MarkAll(env, s, items))
    decreases |items|
  {
    if items != [] {
      var a := Ignore(items[0].name, true);
      TicksExplained(env, rowError, s, false, a);
      TicksExplained(env, rowError, Update(env, s, a), false, a);
      MarkAllExplained(env, rowError, FlushIfFull(env, Update(env, s, a)), items[1..]);
    }
  }

  lemma ClassifyExplained(env: Env, rowError: bool, s: Pass, item: Item)
    requires Explained(env, rowError, s)
    ensures Explained(env, rowError, Classify(env, s, item))
  {
    TicksExplained(env, rowError, s, false, Ignore(item.name, false));
    TicksExplained(env, rowError, s, false, Delete(item.name, item.shouldConflict));
    TicksExplained(env, rowError, s, false, ClearReceiveOnly(item.name));
  }

  lemma ScanItemExplained(env: Env, rowError: bool, s: Pass, item: Item)
    requires Explained(env, rowError, s)
    ensures Explained(env, rowError, ScanItem(env, s, item))
  {
    var a, c := Drop(item.name), Check(env, s, false);
    var u := FlushIfFull(env, c);
    TicksExplained(env, rowError, s, false, a);
    TicksExplained(env, rowError, c, false, a);
    MarkAllExplained(env, rowError, u, u.toIgnore);
    ClassifyExplained(env, rowError, LeaveParent(env, u, item.name), item);
  }

  lemma {:induction false} ScanRowsExplained(env: Env, rowError: bool, s: Pass, rows: seq<Row>)
    requires Explained(env, rowError, s) && (HasRowError(rows) ==> rowError)
    ensures Explained(env, rowError, ScanRows(env, s, rows))
  {
    if rows != [] {
      var init, row := rows[..|rows| - 1], rows[|rows| - 1];
      if HasRowError(init) {
        var i :| 0 <= i < |init| && init[i].RowError?;
        assert rows[i].RowError?;
      }
      ScanRowsExplained(env, rowError, s, init);
      if row.Row? { ScanItemExplained(env, rowError, ScanRows(env, s, init), row.item); }
    }
  }

  /** A pass is still running at its end only if no interaction on the way can have gone wrong, failed only
      if the batch or a lookup did, and was aborted only if it was cancelled or a row could not be read. */
  lemma {:induction false} StopIsExplained(env: Env, listings: seq<seq<Row>>)
    ensures var rowError := exists l :: 0 <= l < |listings| && HasRowError(listings[l]);
            Explained(env, rowError, ScanListings(env, START, listings))
  {
    var rowError := exists l :: 0 <= l < |listings| && HasRowError(listings[l]);
    if listings != [] {
      var init, rows := listings[..|listings| - 1], listings[|listings| - 1];
      var before := ScanListings(env, START, init);
      StopIsExplained(env, init);
      assert forall l :: 0 <= l < |init| ==> init[l] == listings[l];
      assert Explained(env, rowError, before);
      ScanRowsExplained(env, rowError, before, rows);
      var u := ScanRows(env, before, rows);
      var t := Check(env, u, true);
      TicksExplained(env, rowError, u, true, Drop(""));
      MarkAllExplained(env, rowError, t, t.toIgnore);
    }
  }

  /** The same pass without trouble from the batch and the context. */
  function Quiet(env: Env): Env {
    env.(update := (t: nat) => if env.update(t).UpdateError? then Accepted else env.update(t),
         flushFails := _ => false, cancelled := _ => false)
  }

  ghost predicate CutShort(s: Pass, q: Pass) { if s.stop.Running? then s == q else s.log <= q.log }

  lemma TicksCutShort(env: Env, s: Pass, q: Pass, error: bool, a: Action)
    requires CutShort(s, q)
    ensures CutShort(Check(env, s, error), Check(Quiet(env), q, error))
    ensures CutShort(FlushIfFull(env, s), FlushIfFull(Quiet(env), q))
    ensures CutShort(Update(env, s, a), Update(Quiet(env), q, a))
  {
  }

  lemma {:induction false} MarkAllCutShort(env: Env, s: Pass, q: Pass, items: seq<Item>)
    requires CutShort(s, q)
    ensures CutShort(MarkAll(env, s, items), MarkAll(Quiet(env), q, items))
    decreases |items|
  {
    if items != [] {
      var a := Ignore(items[0].name, true);
      var u, v := Update(env, s, a), Update(Quiet(env), q, a);
      TicksCutShort(env, s, q, false, a);
      TicksCutShort(env, u, v, false, a);
      MarkAllCutShort(env, FlushIfFull(env, u), FlushIfFull(Quiet(env), v), items[1..]);
    }
  }

  lemma LeaveParentCutShort(env: Env, s: Pass, q: Pass, name: string)
    requires CutShort(s, q)
    ensures CutShort(LeaveParent(env, s, name), LeaveParent(Quiet(env), q, name))
  {
    LeaveParentGrows(Quiet(env), q, name);
    if s.stop.Running? {
      MarkAllCutShort(env, s, s, s.toIgnore);
    } else {
      PrefixTransitive(s.log, q.log, LeaveParent(Quiet(env), q, name).log);
    }
  }

  lemma ClassifyCutShort(env: Env, s: Pass, q: Pass, item: Item)
    requires CutShort(s, q)
    ensures CutShort(Classify(env, s, item), Classify(Quiet(env), q, item))
  {
    ClassifyGrows(Quiet(env), q, item);
    if !s.stop.Running? { PrefixTransitive(s.log, q.log, Classify(Quiet(env), q, item).log); }
  }

  lemma {:induction false} ScanRowsCutShort(env: Env, s: Pass, q: Pass, rows: seq<Row>)
    requires CutShort(s, q)
    ensures CutShort(ScanRows(env, s, rows), ScanRows(Quiet(env), q, rows))
  {
    if rows != [] {
      var init, row := rows[..|rows| - 1], rows[|rows| - 1];
      var t, p := ScanRows(env, s, init), ScanRows(Quiet(env), q, init);
      ScanRowsCutShort(env, s, q, init);
      if row.Row? {
        var a, name := Drop(""), row.item.name;
        TicksCutShort(env, t, p, false, a);
        TicksCutShort(env, Check(env, t, false), Check(Quiet(env), p, false), false, a);
        var u, v := FlushIfFull(env, Check(env, t, false)), FlushIfFull(Quiet(env), Check(Quiet(env), p, false));
        LeaveParentCutShort(env, u, v, name);
        ClassifyCutShort(env, LeaveParent(env, u, name), LeaveParent(Quiet(env), v, name), row.item);
      }
    }
  }

  lemma EndListingCutShort(env: Env, s: Pass, q: Pass)
    requires CutShort(s, q)
    ensures CutShort(EndListing(env, s), EndListing(Quiet(env), q))
  {
    TicksCutShort(env, s, q, true, Drop(""));
    var t, p := Check(env, s, true), Check(Quiet(env), q, true);
    if t.stop.Running? {
      MarkAllCutShort(env, t, p, t.toIgnore);
    } else {
      MarkAllStopped(env, t, t.toIgnore);
      EndListingGrows(Quiet(env), q);
      PrefixTransitive(s.log, q.log, EndListing(Quiet(env), q).log);
    }
  }

  /** Trouble with the batch or the context cuts a pass short and does nothing else: what was requested is
      the beginning of what would have been, and without trouble on the way it is all the same. */
  lemma {:induction false} TroubleCutsShort(env: Env, listings: seq<seq<Row>>)
    ensures var s, q := ScanListings(env, START, listings), ScanListings(Quiet(env), START, listings);
            if s.stop.Running? then s == q else s.log <= q.log
  {
    if listings != [] {
      var init, rows := listings[..|listings| - 1], listings[|listings| - 1];
      var before, calm := ScanListings(env, START, init), ScanListings(Quiet(env), START, init);
      TroubleCutsShort(env, init);
      ScanRowsCutShort(env, before, calm, rows);
      EndListingCutShort(env, ScanRows(env, before, rows), ScanRows(Quiet(env), calm, rows));
    }
  }

  /** Cancelled before a row, a pass ends without an error; cancelled after the last row, or when a row cannot
      be read, with one. Nothing more is requested. */
  lemma CancelledWhere(env: Env, s: Pass, item: Item)
    requires s.stop.Running?
    ensures env.cancelled(s.tick) ==>
              var r := ScanItem(env, s, item); r.stop == Aborted(false) && r.log == s.log && r.changes == s.changes
    ensures env.cancelled(s.tick) ==>
              var r := EndListing(env, s); r.stop == Aborted(true) && r.log == s.log && r.changes == s.changes
    ensures var r := ScanRows(env, s, [RowError]); r.stop == Aborted(true) && r.log == s.log && r.changes == s.changes
  {
    if env.cancelled(s.tick) {
      var t := Check(env, s, true);
      MarkAllStopped(env, t, t.toIgnore);
    }
    assert [RowError][..0] == [] && ScanRows(env, s, []) == s;
  }
}
