/** The database pass of a scan (scanSubdirsDeletedAndIgnored in lib/model/folder.go): which items
    it asks the batch to mark as ignored or deleted, and how directories that became ignored are
    held back in case something below them is not. */
module ScanIgnored {
  import opened Paths

  /** What the pass reads of a database row. */
  datatype Item = Item(name: string, isDirectory: bool, isIgnored: bool, isDeleted: bool, isUnsupported: bool,
                       receiveOnlyChanged: bool, shouldConflict: bool)
  datatype Row = Row(item: Item) | RowError

  datatype Action =
    | Ignore(name: string, deferred: bool)
    | Delete(name: string, emptyVersion: bool)
    | Drop(name: string)
    | ClearReceiveOnly(name: string)

  datatype GlobalFile = LookupError | NoGlobal | GlobalReceiveOnlyChanged | GlobalDeleted | GlobalOther
  datatype UpdateOutcome = Accepted | Refused | UpdateError

  /** Everything the pass cannot decide itself. Outcomes of the batch and of the context are given
      per interaction, numbered from the start of the pass. */
  datatype Env = Env(
    ignored: string -> bool,        // ignores.Match(name).IsIgnored()
    gone: string -> bool,           // osutil.IsDeleted
    receiveOnlyFolder: bool,
    global: string -> GlobalFile,
    update: nat -> UpdateOutcome,
    flushFails: nat -> bool,
    cancelled: nat -> bool)

  datatype Stop = Running | Failed | Aborted(error: bool)

  /** The batch of requested changes and the pass's own variables. */
  datatype Pass = Pass(toIgnore: seq<Item>, ignoredParent: string, log: seq<Action>, changes: nat, tick: nat,
      stop: Stop)

  const START := Pass([], "", [], 0, 0, Running)

  // ---------------------------------------------------------------- one step at a time

  function Halt(s: Pass, stop: Stop): Pass { s.(tick := s.tick + 1, stop := stop) }

  function Check(env: Env, s: Pass, error: bool): Pass {
    if !s.stop.Running? then s
    else if env.cancelled(s.tick) then Halt(s, Aborted(error)) else s.(tick := s.tick + 1)
  }

  function FlushIfFull(env: Env, s: Pass): Pass {
    if !s.stop.Running? then s
    else if env.flushFails(s.tick) then Halt(s, Failed) else s.(tick := s.tick + 1)
  }

  function Update(env: Env, s: Pass, a: Action): Pass {
    if !s.stop.Running? then s
    else
      var t := s.(tick := s.tick + 1, log := s.log + [a]);
      match env.update(s.tick)
      case Accepted => t.(changes := t.changes + 1)
      case Refused => t
      case UpdateError => t.(stop := Failed)
  }

  function MarkAll(env: Env, s: Pass, items: seq<Item>): Pass
    decreases |items|
  {
    if items == [] then s
    else MarkAll(env, FlushIfFull(env, Update(env, s, Ignore(items[0].name, true))), items[1..])
  }

  /** The item is not ignored and, as far as the database and the disk say, still there. */
  predicate Tracked(env: Env, item: Item) {
    !env.ignored(item.name) && (item.isIgnored || (!item.isDeleted && !item.isUnsupported))
  }

  predicate Live(env: Env, item: Item) { Tracked(env, item) && !env.gone(item.name) }

  predicate NewlyIgnored(env: Env, item: Item) { !item.isIgnored && env.ignored(item.name) }

  /** The switch over an item. */
  function Classify(env: Env, s: Pass, item: Item): Pass {
    if !s.stop.Running? then s
    else if item.isIgnored && env.ignored(item.name) then s
    else if NewlyIgnored(env, item) then
      if item.isDirectory then
        var parent := if s.ignoredParent == "" then item.name else s.ignoredParent;
        s.(toIgnore := s.toIgnore + [item], ignoredParent := parent)
      else Update(env, s, Ignore(item.name, false))
    else if Tracked(env, item) then
      if !env.gone(item.name) then s.(toIgnore := if s.ignoredParent != "" then [] else s.toIgnore, ignoredParent := "")
      else Update(env, s, Delete(item.name, item.shouldConflict))
    else if item.isDeleted && item.receiveOnlyChanged then
      if !env.receiveOnlyFolder then Update(env, s, ClearReceiveOnly(item.name))
      else match env.global(item.name)
        case LookupError => s.(stop := Failed)
        case NoGlobal => s
        case GlobalReceiveOnlyChanged => s.(log := s.log + [Drop(item.name)], changes := s.changes + 1)
        case GlobalDeleted => Update(env, s, ClearReceiveOnly(item.name))
        case GlobalOther => s
    else s
  }

  /** Leaving the highest ignored directory marks the directories held back so far. */
  function LeaveParent(env: Env, s: Pass, name: string): Pass {
    if s.stop.Running? && s.ignoredParent != "" && !IsParent(name, s.ignoredParent) then
      var t := MarkAll(env, s, s.toIgnore);
      if t.stop.Running? then t.(toIgnore := [], ignoredParent := "") else t
    else s
  }

  function ScanItem(env: Env, s: Pass, item: Item): Pass {
    Classify(env, LeaveParent(env, FlushIfFull(env, Check(env, s, false)), item.name), item)
  }

  function ScanRows(env: Env, s: Pass, rows: seq<Row>): Pass {
    if rows == [] then s
    else
      var t := ScanRows(env, s, rows[..|rows| - 1]);
      match rows[|rows| - 1]
      case RowError => if t.stop.Running? then t.(stop := Aborted(true)) else t
      case Row(item) => ScanItem(env, t, item)
  }

  /** The end of a listing: what is still held back is marked; the highest ignored directory is
      not forgotten. */
  function EndListing(env: Env, s: Pass): Pass {
    var t := Check(env, s, true);
    var u := MarkAll(env, t, t.toIgnore);
    if u.stop.Running? then u.(toIgnore := []) else u
  }

  function ScanListings(env: Env, s: Pass, listings: seq<seq<Row>>): Pass {
    if listings == [] then s
    else EndListing(env, ScanRows(env, ScanListings(env, s, listings[..|listings| - 1]), listings[|listings| - 1]))
  }

  lemma {:induction false} MarkAllStopped(env: Env, s: Pass, items: seq<Item>)
    requires !s.stop.Running?
    ensures MarkAll(env, s, items) == s
  {
    if items != [] {
      MarkAllStopped(env, s, items[1..]);
    }
  }

  lemma {:induction false} ScanRowsStopped(env: Env, s: Pass, rows: seq<Row>, n: nat)
    requires n <= |rows| && !ScanRows(env, s, rows[..n]).stop.Running?
    ensures ScanRows(env, s, rows) == ScanRows(env, s, rows[..n])
    decreases |rows|
  {
    if n == |rows| {
      assert rows[..n] == rows;
    } else {
      var m := |rows| - 1;
      assert rows[..m][..n] == rows[..n];
      ScanRowsStopped(env, s, rows[..m], n);
    }
  }

  lemma {:induction false} ScanListingsStopped(env: Env, s: Pass, listings: seq<seq<Row>>, n: nat)
    requires n <= |listings| && !ScanListings(env, s, listings[..n]).stop.Running?
    ensures ScanListings(env, s, listings) == ScanListings(env, s, listings[..n])
    decreases |listings|
  {
    if n == |listings| {
      assert listings[..n] == listings;
    } else {
      var m := |listings| - 1;
      assert listings[..m][..n] == listings[..n];
      ScanListingsStopped(env, s, listings[..m], n);
      var t := ScanListings(env, s, listings[..m]);
      assert listings[m][..0] == [];
      ScanRowsStopped(env, t, listings[m], 0);
      MarkAllStopped(env, t, t.toIgnore);
    }
  }

  // ---------------------------------------------------------------- the pass itself

  /** The scan batch and the context, as the pass talks to them. */
  class Batch {
    const env: Env
    var log: seq<Action>
    var tick: nat

    constructor (env: Env)
      ensures this.env == env && log == [] && tick == 0
    {
      this.env, log, tick := env, [], 0;
    }

    method Update(a: Action) returns (o: UpdateOutcome)
      modifies this
      ensures log == old(log) + [a] && tick == old(tick) + 1 && o == env.update(old(tick))
    {
      o := env.update(tick);
      log, tick := log + [a], tick + 1;
    }

    method Remove(name: string)
      modifies this
      ensures log == old(log) + [Drop(name)] && tick == old(tick)
    {
      log := log + [Drop(name)];
    }

    method FlushIfFull() returns (failed: bool)
      modifies this
      ensures log == old(log) && tick == old(tick) + 1 && failed == env.flushFails(old(tick))
    {
      failed := env.flushFails(tick);
      tick := tick + 1;
    }

    method Cancelled() returns (done: bool)
      modifies this
      ensures log == old(log) && tick == old(tick) + 1 && done == env.cancelled(old(tick))
    {
      done := env.cancelled(tick);
      tick := tick + 1;
    }
  }

  /** The two loops that mark what was held back. */
  method MarkHeldBack(batch: Batch, toIgnore: seq<Item>, changes: nat, ghost before: Pass)
      returns (stop: Stop, count: nat)
    requires before.stop.Running? && before.log == batch.log && before.tick == batch.tick && before.changes == changes
    modifies batch
    ensures MarkAll(batch.env, before, toIgnore)
            == before.(log := batch.log, tick := batch.tick, changes := count, stop := stop)
  {
    count := changes;
    ghost var s := before;
    for i := 0 to |toIgnore|
      invariant s == before.(log := batch.log, tick := batch.tick, changes := count)
      invariant MarkAll(batch.env, before, toIgnore) == MarkAll(batch.env, s, toIgnore[i..])
    {
      ghost var t := s;
      var o := batch.Update(Ignore(toIgnore[i].name, true));
      if o.UpdateError? {
        MarkAllStopped(batch.env, Update(batch.env, t, Ignore(toIgnore[i].name, true)), toIgnore[i + 1..]);
        return Failed, count;
      }
      if o.Accepted? {
        count := count + 1;
      }
      s := Update(batch.env, s, Ignore(toIgnore[i].name, true));
      var failed := batch.FlushIfFull();
      s := FlushIfFull(batch.env, s);
      assert toIgnore[i..][1..] == toIgnore[i + 1..];
      if failed {
        MarkAllStopped(batch.env, s, toIgnore[i + 1..]);
        return Failed, count;
      }
    }
    return Running, count;
  }

  /** The switch over an item, on the pass's variables. */
  method Examine(batch: Batch, item: Item, toIgnore: seq<Item>, ignoredParent: string, changes: nat)
    returns (held: seq<Item>, parent: string, count: nat, stop: Stop)
    modifies batch
    ensures Classify(batch.env, Pass(toIgnore, ignoredParent, old(batch.log), changes, old(batch.tick), Running), item)
         == Pass(held, parent, batch.log, count, batch.tick, stop)
  {
    held, parent, count, stop := toIgnore, ignoredParent, changes, Running;
    var env := batch.env;
    var ignored := env.ignored(item.name);
    var o := Refused;
    if item.isIgnored && ignored {
      return;
    } else if !item.isIgnored && ignored {
      if item.isDirectory {
        held := held + [item];
        if parent == "" {
          parent := item.name;
        }
        return;
      }
      o := batch.Update(Ignore(item.name, false));
    } else if item.isIgnored || (!item.isDeleted && !item.isUnsupported) {
      if !env.gone(item.name) {
        if parent != "" {
          held, parent := [], "";
        }
        return;
      }
      o := batch.Update(Delete(item.name, item.shouldConflict));
    } else if item.isDeleted && item.receiveOnlyChanged {
      if env.receiveOnlyFolder {
        match env.global(item.name) {
          case LookupError =>
            stop := Failed;
            return;
          case NoGlobal => return;
          case GlobalReceiveOnlyChanged =>
            batch.Remove(item.name);
            count := count + 1;
            return;
          case GlobalDeleted =>
          case GlobalOther => return;
        }
      }
      o := batch.Update(ClearReceiveOnly(item.name));
    }
    if o.UpdateError? {
      stop := Failed;
    } else if o.Accepted? {
      count := count + 1;
    }
  }

  /** The body of the inner loop. */
  method ScanRow(batch: Batch, row: Row, toIgnore: seq<Item>, ignoredParent: string, changes: nat)
    returns (held: seq<Item>, parent: string, count: nat, stop: Stop)
    modifies batch
    ensures var s := Pass(toIgnore, ignoredParent, old(batch.log), changes, old(batch.tick), Running);
            var t := Pass(held, parent, batch.log, count, batch.tick, stop);
            if row.RowError? then t == s.(stop := Aborted(true)) else t == ScanItem(batch.env, s, row.item)
  {
    held, parent, count := toIgnore, ignoredParent, changes;
    if row.RowError? {
      stop := Aborted(true);
      return;
    }
    ghost var s := Pass(toIgnore, ignoredParent, batch.log, changes, batch.tick, Running);
    var done := batch.Cancelled();
    if done {
      stop := Aborted(false);
      return;
    }
    var failed := batch.FlushIfFull();
    if failed {
      stop := Failed;
      return;
    }
    s := FlushIfFull(batch.env, Check(batch.env, s, false));
    if parent != "" && !IsParent(row.item.name, parent) {
      stop, count := MarkHeldBack(batch, held, count, s);
      if !stop.Running? {
        return;
      }
      held, parent := [], "";
    }
    held, parent, count, stop := Examine(batch, row.item, held, parent, count);
  }

  /** One listing: the inner loop and what follows it. */
  method ScanListing(batch: Batch, rows: seq<Row>, toIgnore: seq<Item>, ignoredParent: string, changes: nat)
    returns (held: seq<Item>, parent: string, count: nat, stop: Stop)
    modifies batch
    ensures var s := Pass(toIgnore, ignoredParent, old(batch.log), changes, old(batch.tick), Running);
            EndListing(batch.env, ScanRows(batch.env, s, rows))
              == Pass(held, parent, batch.log, count, batch.tick, stop)
  {
    held, parent, count, stop := toIgnore, ignoredParent, changes, Running;
    ghost var env := batch.env;
    ghost var s := Pass(toIgnore, ignoredParent, batch.log, changes, batch.tick, Running);
    assert rows[..0] == [];
    for r := 0 to |rows|
      invariant stop.Running?
      invariant ScanRows(env, s, rows[..r]) == Pass(held, parent, batch.log, count, batch.tick, stop)
    {
      assert rows[..r + 1][..r] == rows[..r];
      held, parent, count, stop := ScanRow(batch, rows[r], held, parent, count);
      if !stop.Running? {
        ScanRowsStopped(env, s, rows, r + 1);
        MarkAllStopped(env, ScanRows(env, s, rows), held);
        return;
      }
    }
    assert rows[..|rows|] == rows;
    var done := batch.Cancelled();
    ghost var t := Check(env, ScanRows(env, s, rows), true);
    if done {
      MarkAllStopped(env, t, held);
      stop := Aborted(true);
      return;
    }
    stop, count := MarkHeldBack(batch, held, count, t);
    if stop.Running? {
      held := [];
    }
  }

  /** scanSubdirsDeletedAndIgnored: a listing for each subdirectory. A failing batch or lookup
      reports no changes at all. */
  method ScanDeletedAndIgnored(batch: Batch, listings: seq<seq<Row>>) returns (changes: nat, stop: Stop)
    requires batch.log == [] && batch.tick == 0
    modifies batch
    ensures var s := ScanListings(batch.env, START, listings);
            batch.log == s.log && stop == s.stop && changes == if s.stop.Failed? then 0 else s.changes
  {
    var toIgnore: seq<Item> := [];
    var ignoredParent := "";
    changes, stop := 0, Running;
    ghost var env := batch.env;
    assert listings[..0] == [];
    for l := 0 to |listings|
      invariant stop.Running?
      invariant ScanListings(env, START, listings[..l])
                == Pass(toIgnore, ignoredParent, batch.log, changes, batch.tick, stop)
    {
      assert listings[..l + 1][..l] == listings[..l];
      toIgnore, ignoredParent, changes, stop := ScanListing(batch, listings[l], toIgnore, ignoredParent, changes);
      if !stop.Running? {
        ScanListingsStopped(env, START, listings, l + 1);
        return if stop.Failed? then 0 else changes, stop;
      }
    }
    assert listings[..|listings|] == listings;
  }
}
