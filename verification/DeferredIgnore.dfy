/** When holding back newly ignored directories is safe, and what the database pass requests. */
module DeferredIgnore {
  import opened Paths
  import opened ScanIgnored

  // ---------------------------------------------------------------- listings

  predicate NamesCanonical(rows: seq<Row>) {
    forall i :: 0 <= i < |rows| && rows[i].Row? ==> NameIsCanonical(rows[i].item.name)
  }

  predicate NameIsCanonical(name: string) { name != "." && AllNames(Split(name)) }

  /** Row `u` is somewhere below the item of row `i`. */
  predicate Below(rows: seq<Row>, u: nat, i: nat)
    requires u < |rows| && i < |rows|
  {
    rows[u].Row? && rows[i].Row? && IsParent(rows[u].item.name, rows[i].item.name)
  }

  /** Tree pre-order: what is below an item follows it directly. */
  ghost predicate PreOrder(rows: seq<Row>) {
    forall i: nat, u: nat :: i < |rows| && u < |rows| && Below(rows, u, i) ==>
      i < u && forall w: nat :: i < w <= u ==> rows[w].RowError? || Below(rows, w, i)
  }

  lemma EmptyIsNotCanonical()
    ensures !NameIsCanonical("")
  {
    assert Split("") == [""] && !IsName(Split("")[0]);
  }

  lemma BelowIsTransitive(a: string, b: string, c: string)
    requires NameIsCanonical(a) && NameIsCanonical(b) && NameIsCanonical(c)
    requires IsParent(a, b) && (b == c || IsParent(b, c))
    ensures IsParent(a, c)
  {
  }

  // ---------------------------------------------------------------- safety

  /** Nothing live in the listing is below the name. */
  ghost predicate NoLiveBelow(env: Env, rows: seq<Row>, name: string, upTo: nat)
    requires upTo <= |rows|
  {
    forall u: nat :: u < upTo && rows[u].Row? && IsParent(rows[u].item.name, name) ==> !Live(env, rows[u].item)
  }

  /** The directories marked late, from log position `from` on, have nothing live below them. */
  ghost predicate MarksAreSafe(env: Env, rows: seq<Row>, log: seq<Action>, from: nat) {
    forall k: nat :: from <= k < |log| && log[k].Ignore? && log[k].deferred ==>
      NoLiveBelow(env, rows, log[k].name, |rows|)
  }

  predicate UnderParent(item: Item, parent: string) {
    && NameIsCanonical(item.name) && NameIsCanonical(parent)
    && (item.name == parent || IsParent(item.name, parent))
  }

  /** Every directory held back is the highest ignored directory or below it. */
  ghost predicate HeldBelowParent(s: Pass) {
    forall j :: 0 <= j < |s.toIgnore| ==> UnderParent(s.toIgnore[j], s.ignoredParent)
  }

  lemma NothingHeldWithoutParent(s: Pass)
    requires HeldBelowParent(s) && s.ignoredParent == ""
    ensures s.toIgnore == []
  {
    EmptyIsNotCanonical();
    assert |s.toIgnore| > 0 ==> UnderParent(s.toIgnore[0], "");
  }

  ghost predicate IsRow(rows: seq<Row>, t: nat, item: Item)
    requires t <= |rows|
  {
    exists i: nat :: i < t && rows[i] == Row(item)
  }

  /** Each directory held back is one of the rows before `t`, and nothing live was met below it. */
  ghost predicate HeldIsSafe(env: Env, rows: seq<Row>, t: nat, held: seq<Item>)
    requires t <= |rows|
  {
    forall j :: 0 <= j < |held| ==> IsRow(rows, t, held[j]) && NoLiveBelow(env, rows, held[j].name, t)
  }

  ghost predicate Safe(env: Env, rows: seq<Row>, t: nat, from: nat, s: Pass)
    requires t <= |rows|
  {
    && from <= |s.log| && HeldBelowParent(s)
    && (s.ignoredParent == "" || NameIsCanonical(s.ignoredParent))
    && (s.stop.Running? ==> HeldIsSafe(env, rows, t, s.toIgnore))
    && MarksAreSafe(env, rows, s.log, from)
  }

  /** Marking only appends marks for the given directories. */
  lemma {:induction false} MarkAllAppends(env: Env, s: Pass, items: seq<Item>)
    ensures var t := MarkAll(env, s, items);
            && t.toIgnore == s.toIgnore && t.ignoredParent == s.ignoredParent
            && |s.log| <= |t.log| && t.log[..|s.log|] == s.log
            && forall k :: |s.log| <= k < |t.log| ==>
                 exists j :: 0 <= j < |items| && t.log[k] == Ignore(items[j].name, true)
    decreases |items|
  {
    if items != [] {
      var u := FlushIfFull(env, Update(env, s, Ignore(items[0].name, true)));
      MarkAllAppends(env, u, items[1..]);
      var t := MarkAll(env, s, items);
      forall k | |s.log| <= k < |t.log|
        ensures exists j :: 0 <= j < |items| && t.log[k] == Ignore(items[j].name, true)
      {
        if k < |u.log| {
          assert t.log[k] == u.log[k] == Ignore(items[0].name, true);
        } else {
          var j :| 0 <= j < |items[1..]| && t.log[k] == Ignore(items[1..][j].name, true);
          assert items[1..][j] == items[j + 1];
        }
      }
    }
  }

  /** Marking what is held back is safe once nothing further down the listing is below it. */
  lemma MarkAllIsSafe(env: Env, rows: seq<Row>, t: nat, from: nat, s: Pass)
    requires t <= |rows| && Safe(env, rows, t, from, s)
    requires forall j, u: nat :: 0 <= j < |s.toIgnore| && t <= u < |rows| && rows[u].Row? ==>
               !IsParent(rows[u].item.name, s.toIgnore[j].name)
    ensures Safe(env, rows, t, from, MarkAll(env, s, s.toIgnore))
  {
    var r := MarkAll(env, s, s.toIgnore);
    MarkAllAppends(env, s, s.toIgnore);
    if s.stop.Running? {
      forall k: nat | from <= k < |r.log| && r.log[k].Ignore? && r.log[k].deferred
        ensures NoLiveBelow(env, rows, r.log[k].name, |rows|)
      {
        if k < |s.log| {
          assert r.log[k] == s.log[k];
        } else {
          var j :| 0 <= j < |s.toIgnore| && r.log[k] == Ignore(s.toIgnore[j].name, true);
          assert NoLiveBelow(env, rows, s.toIgnore[j].name, t);
        }
      }
    } else {
      MarkAllStopped(env, s, s.toIgnore);
    }
  }

  /** In a pre-ordered listing, once a row is not below the highest ignored directory, no later row
      is below anything held back. */
  lemma NothingBelowLater(env: Env, rows: seq<Row>, t: nat, s: Pass)
    requires NamesCanonical(rows) && PreOrder(rows) && t < |rows| && rows[t].Row?
    requires HeldBelowParent(s) && HeldIsSafe(env, rows, t, s.toIgnore)
    requires s.ignoredParent != "" && !IsParent(rows[t].item.name, s.ignoredParent)
    ensures forall j, u: nat :: 0 <= j < |s.toIgnore| && t <= u < |rows| && rows[u].Row? ==>
              !IsParent(rows[u].item.name, s.toIgnore[j].name)
  {
    forall j, u: nat | 0 <= j < |s.toIgnore| && t <= u < |rows| && rows[u].Row?
      ensures !IsParent(rows[u].item.name, s.toIgnore[j].name)
    {
      assert IsRow(rows, t, s.toIgnore[j]);
      var i: nat :| i < t && rows[i] == Row(s.toIgnore[j]);
      if Below(rows, u, i) {
        assert Below(rows, t, i);
        BelowIsTransitive(rows[t].item.name, s.toIgnore[j].name, s.ignoredParent);
      }
    }
  }

  lemma LeaveParentIsSafe(env: Env, rows: seq<Row>, t: nat, from: nat, s: Pass)
    requires NamesCanonical(rows) && PreOrder(rows) && t < |rows| && rows[t].Row?
    requires Safe(env, rows, t, from, s)
    ensures var r := LeaveParent(env, s, rows[t].item.name);
            && Safe(env, rows, t, from, r)
            && (r.stop.Running? && r.ignoredParent != "" ==> IsParent(rows[t].item.name, r.ignoredParent))
  {
    var name := rows[t].item.name;
    if s.stop.Running? && s.ignoredParent != "" && !IsParent(name, s.ignoredParent) {
      NothingBelowLater(env, rows, t, s);
      MarkAllIsSafe(env, rows, t, from, s);
      MarkAllAppends(env, s, s.toIgnore);
    }
  }

  lemma ClassifyIsSafe(env: Env, rows: seq<Row>, t: nat, from: nat, s: Pass)
    requires NamesCanonical(rows) && PreOrder(rows) && t < |rows| && rows[t].Row?
    requires Safe(env, rows, t, from, s)
    requires s.stop.Running? && s.ignoredParent != "" ==> IsParent(rows[t].item.name, s.ignoredParent)
    ensures Safe(env, rows, t + 1, from, Classify(env, s, rows[t].item))
  {
    var item := rows[t].item;
    var r := Classify(env, s, item);
    if s.ignoredParent == "" { NothingHeldWithoutParent(s); }
    ClassifyKeepsHeldBelow(env, s, item);
    if r.stop.Running? {
      HeldStaysSafe(env, rows, t, s, r);
    }
    ClassifyMarksNothingLate(env, s, item);
    MarksStaySafe(env, rows, s.log, r.log, from);
  }

  /** Nothing but what was there is marked late. */
  ghost predicate NoNewMarks(log: seq<Action>, more: seq<Action>) {
    forall k: nat :: k < |more| && more[k].Ignore? && more[k].deferred ==> k < |log| && more[k] == log[k]
  }

  lemma ClassifyMarksNothingLate(env: Env, s: Pass, item: Item)
    ensures NoNewMarks(s.log, Classify(env, s, item).log) && |s.log| <= |Classify(env, s, item).log|
  {
  }

  lemma MarksStaySafe(env: Env, rows: seq<Row>, log: seq<Action>, more: seq<Action>, from: nat)
    requires MarksAreSafe(env, rows, log, from) && NoNewMarks(log, more)
    ensures MarksAreSafe(env, rows, more, from)
  {
  }

  lemma ClassifyKeepsHeldBelow(env: Env, s: Pass, item: Item)
    requires HeldBelowParent(s) && NameIsCanonical(item.name)
    requires s.ignoredParent == "" ==> s.toIgnore == []
    requires s.stop.Running? && s.ignoredParent != "" ==> IsParent(item.name, s.ignoredParent)
    requires s.ignoredParent == "" || NameIsCanonical(s.ignoredParent)
    ensures HeldBelowParent(Classify(env, s, item))
    ensures var r := Classify(env, s, item); r.ignoredParent == "" || NameIsCanonical(r.ignoredParent)
  {
    var r := Classify(env, s, item);
    forall j | 0 <= j < |r.toIgnore|
      ensures UnderParent(r.toIgnore[j], r.ignoredParent)
    {
      if j < |s.toIgnore| {
        assert UnderParent(s.toIgnore[j], s.ignoredParent);
      }
    }
  }

  lemma HeldStaysSafe(env: Env, rows: seq<Row>, t: nat, s: Pass, r: Pass)
    requires t < |rows| && rows[t].Row? && s.stop.Running? && HeldIsSafe(env, rows, t, s.toIgnore)
    requires r == Classify(env, s, rows[t].item) && NameIsCanonical(rows[t].item.name)
    requires s.ignoredParent == "" ==> s.toIgnore == []
    requires NamesCanonical(rows) && PreOrder(rows)
    ensures HeldIsSafe(env, rows, t + 1, r.toIgnore)
  {
    forall j | 0 <= j < |r.toIgnore|
      ensures IsRow(rows, t + 1, r.toIgnore[j]) && NoLiveBelow(env, rows, r.toIgnore[j].name, t + 1)
    {
      assert !Live(env, rows[t].item);
      if j < |s.toIgnore| {
        assert r.toIgnore[j] == s.toIgnore[j];
        assert IsRow(rows, t, s.toIgnore[j]) && NoLiveBelow(env, rows, s.toIgnore[j].name, t);
      } else {
        assert rows[t] == Row(r.toIgnore[j]);
        assert forall u: nat :: u <= t && rows[u].Row? && IsParent(rows[u].item.name, rows[t].item.name) ==>
               Below(rows, u, t);
      }
    }
  }

  /** Safety only depends on the variables, the log and whether the pass still runs. */
  lemma SafeFrame(env: Env, rows: seq<Row>, t: nat, from: nat, s: Pass, u: Pass)
    requires t <= |rows| && Safe(env, rows, t, from, s)
    requires u.toIgnore == s.toIgnore && u.ignoredParent == s.ignoredParent && u.log == s.log
    requires u.stop.Running? ==> s.stop.Running?
    ensures Safe(env, rows, t, from, u)
  {
  }

  lemma ScanItemIsSafe(env: Env, rows: seq<Row>, t: nat, from: nat, s: Pass)
    requires NamesCanonical(rows) && PreOrder(rows) && t < |rows| && rows[t].Row?
    requires Safe(env, rows, t, from, s)
    ensures Safe(env, rows, t + 1, from, ScanItem(env, s, rows[t].item))
  {
    var u := FlushIfFull(env, Check(env, s, false));
    SafeFrame(env, rows, t, from, s, u);
    LeaveParentIsSafe(env, rows, t, from, u);
    ClassifyIsSafe(env, rows, t, from, LeaveParent(env, u, rows[t].item.name));
  }

  /** Every state of a pass over a pre-ordered listing is safe. */
  lemma {:induction false} ScanRowsIsSafe(env: Env, rows: seq<Row>, t: nat, from: nat, s: Pass)
    requires NamesCanonical(rows) && PreOrder(rows) && t <= |rows|
    requires Safe(env, rows, 0, from, s)
    ensures Safe(env, rows, t, from, ScanRows(env, s, rows[..t]))
  {
    if t == 0 {
      assert rows[..0] == [];
    } else {
      ScanRowsIsSafe(env, rows, t - 1, from, s);
      assert rows[..t][..t - 1] == rows[..t - 1];
      if rows[t - 1].Row? {
        ScanItemIsSafe(env, rows, t - 1, from, ScanRows(env, s, rows[..t - 1]));
      } else {
        var before := ScanRows(env, s, rows[..t - 1]);
        var after := ScanRows(env, s, rows[..t]);
        assert after.toIgnore == before.toIgnore && after.log == before.log && !after.stop.Running?;
      }
    }
  }

  /** One listing in pre-order: nothing marked late has anything live below it, however the batch
      and the context behave, and wherever an earlier listing left the highest ignored directory. */
  lemma ListingIsSafe(env: Env, rows: seq<Row>, s: Pass)
    requires NamesCanonical(rows) && PreOrder(rows)
    requires s.stop.Running? ==> s.toIgnore == []
    requires HeldBelowParent(s) && (s.ignoredParent == "" || NameIsCanonical(s.ignoredParent))
    ensures var r := EndListing(env, ScanRows(env, s, rows));
            && MarksAreSafe(env, rows, r.log, |s.log|)
            && (r.stop.Running? ==> r.toIgnore == [])
            && HeldBelowParent(r) && (r.ignoredParent == "" || NameIsCanonical(r.ignoredParent))
  {
    assert Safe(env, rows, 0, |s.log|, s);
    ScanRowsIsSafe(env, rows, |rows|, |s.log|, s);
    assert rows[..|rows|] == rows;
    var t := Check(env, ScanRows(env, s, rows), true);
    SafeFrame(env, rows, |rows|, |s.log|, ScanRows(env, s, rows), t);
    MarkAllIsSafe(env, rows, |rows|, |s.log|, t);
    MarkAllAppends(env, t, t.toIgnore);
  }

  /** The whole pass over pre-ordered listings. */
  lemma {:induction false} PassIsSafe(env: Env, listings: seq<seq<Row>>, l: nat)
    requires forall i :: 0 <= i < |listings| ==> NamesCanonical(listings[i]) && PreOrder(listings[i])
    requires l < |listings|
    ensures var before, after := ScanListings(env, START, listings[..l]), ScanListings(env, START, listings[..l + 1]);
            MarksAreSafe(env, listings[l], after.log, |before.log|)
    ensures var after := ScanListings(env, START, listings[..l + 1]);
            && (after.stop.Running? ==> after.toIgnore == [])
            && HeldBelowParent(after) && (after.ignoredParent == "" || NameIsCanonical(after.ignoredParent))
  {
    assert listings[..l + 1][..l] == listings[..l];
    if l == 0 {
      assert listings[..0] == [];
    } else {
      PassIsSafe(env, listings, l - 1);
    }
    ListingIsSafe(env, listings[l], ScanListings(env, START, listings[..l]));
  }

  // ---------------------------------------------------------------- pre-order is exactly what is needed

  /** A database listing: canonical names, each once. */
  ghost predicate ListingNames(names: seq<string>) {
    && (forall i :: 0 <= i < |names| ==> NameIsCanonical(names[i]))
    && (forall i, j :: 0 <= i < j < |names| ==> names[i] != names[j])
  }

  ghost predicate PreOrderNames(names: seq<string>) {
    forall i: nat, u: nat :: i < |names| && u < |names| && IsParent(names[u], names[i]) ==>
      i < u && forall w: nat :: i < w <= u ==> IsParent(names[w], names[i])
  }

  ghost predicate RowsNamed(rows: seq<Row>, names: seq<string>) {
    |rows| == |names| && forall k :: 0 <= k < |rows| ==> rows[k].Row? && rows[k].item.name == names[k]
  }

  ghost function ListingLog(env: Env, rows: seq<Row>): seq<Action> {
    EndListing(env, ScanRows(env, START, rows)).log
  }

  /** Whatever the items are and whatever happens, the pass is safe on these names. */
  ghost predicate AlwaysSafe(names: seq<string>) {
    forall env: Env, rows: seq<Row> :: RowsNamed(rows, names) ==> MarksAreSafe(env, rows, ListingLog(env, rows), 0)
  }

  /** Only item `i` is new among the ignored, and only the name `u` is not ignored. */
  function ProbeRow(names: seq<string>, i: nat, k: nat): Row
    requires k < |names|
  {
    Row(Item(names[k], true, k != i, false, false, false, false))
  }

  function ProbeRows(names: seq<string>, i: nat): (rows: seq<Row>)
    ensures |rows| == |names| && forall k :: 0 <= k < |names| ==> rows[k] == ProbeRow(names, i, k)
  {
    seq(|names|, k requires 0 <= k < |names| => ProbeRow(names, i, k))
  }

  function ProbeEnv(live: string): Env {
    Env(name => name != live, _ => false, false, _ => NoGlobal, _ => Accepted, _ => false, _ => false)
  }

  /** Something between an item and one below it is elsewhere, or the order is reversed. */
  ghost predicate Broken(names: seq<string>, i: nat, u: nat) {
    && i < |names| && u < |names| && IsParent(names[u], names[i])
    && (u < i || exists w: nat :: i < w < u && !IsParent(names[w], names[i]))
  }

  ghost predicate HeldOrMarked(names: seq<string>, i: nat, t: nat, s: Pass)
    requires i < t <= |names|
  {
    && s.stop.Running?
    && (|| (&& s.ignoredParent == names[i] && |s.toIgnore| == 1 && s.toIgnore[0].name == names[i]
            && forall w: nat :: i < w < t ==> IsParent(names[w], names[i]))
        || (s.toIgnore == [] && s.ignoredParent == "" && Ignore(names[i], true) in s.log))
  }

  lemma {:induction false} ProbeBefore(names: seq<string>, i: nat, u: nat, t: nat)
    requires ListingNames(names) && Broken(names, i, u) && t <= i
    ensures var s := ScanRows(ProbeEnv(names[u]), START, ProbeRows(names, i)[..t]);
            s.stop.Running? && s.toIgnore == [] && s.ignoredParent == ""
  {
    var rows := ProbeRows(names, i);
    if t == 0 {
      assert rows[..0] == [];
    } else {
      ProbeBefore(names, i, u, t - 1);
      assert rows[..t][..t - 1] == rows[..t - 1] && rows[..t][t - 1] == ProbeRow(names, i, t - 1);
    }
  }

  lemma ProbeStep(names: seq<string>, i: nat, u: nat, t: nat, s: Pass)
    requires ListingNames(names) && Broken(names, i, u) && i < t < |names| && HeldOrMarked(names, i, t, s)
    ensures HeldOrMarked(names, i, t + 1, ScanItem(ProbeEnv(names[u]), s, ProbeRow(names, i, t).item))
  {
    var env, item := ProbeEnv(names[u]), ProbeRow(names, i, t).item;
    var v := FlushIfFull(env, Check(env, s, false));
    assert v.toIgnore == s.toIgnore && v.ignoredParent == s.ignoredParent && v.log == s.log && v.stop.Running?;
    var r := LeaveParent(env, v, item.name);
    EmptyIsNotCanonical();
    if s.ignoredParent == names[i] && !IsParent(names[t], names[i]) {
      MarkOne(env, v, s.toIgnore[0]);
      assert s.toIgnore == [s.toIgnore[0]];
      assert Ignore(names[i], true) in r.log;
    }
    assert names[t] == names[u] ==> t == u;
  }

  lemma MarkOne(env: Env, s: Pass, item: Item)
    requires s.stop.Running? && (forall k :: env.update(k) == Accepted && !env.flushFails(k))
    ensures var r := MarkAll(env, s, [item]);
            r.stop.Running? && Ignore(item.name, true) in r.log
  {
  }

  lemma ProbeHolds(names: seq<string>, i: nat, u: nat, s: Pass)
    requires ListingNames(names) && Broken(names, i, u)
    requires s.stop.Running? && s.toIgnore == [] && s.ignoredParent == ""
    ensures HeldOrMarked(names, i, i + 1, ScanItem(ProbeEnv(names[u]), s, ProbeRow(names, i, i).item))
  {
  }

  lemma {:induction false} ProbeAfter(names: seq<string>, i: nat, u: nat, t: nat) returns (s: Pass)
    requires ListingNames(names) && Broken(names, i, u) && i < t <= |names|
    ensures s == ScanRows(ProbeEnv(names[u]), START, ProbeRows(names, i)[..t])
    ensures HeldOrMarked(names, i, t, s)
  {
    var env, rows := ProbeEnv(names[u]), ProbeRows(names, i);
    ScanRowsLast(env, START, rows, t);
    var before: Pass;
    if t == i + 1 {
      ProbeBefore(names, i, u, i);
      before := ScanRows(env, START, rows[..i]);
      ProbeHolds(names, i, u, before);
    } else {
      before := ProbeAfter(names, i, u, t - 1);
      ProbeStep(names, i, u, t - 1, before);
    }
    s := ScanItem(env, before, rows[t - 1].item);
  }

  lemma ScanRowsLast(env: Env, s: Pass, rows: seq<Row>, t: nat)
    requires 0 < t <= |rows| && rows[t - 1].Row?
    ensures ScanRows(env, s, rows[..t]) == ScanItem(env, ScanRows(env, s, rows[..t - 1]), rows[t - 1].item)
  {
    assert rows[..t][..t - 1] == rows[..t - 1] && rows[..t][t - 1] == rows[t - 1];
  }

  lemma ProbeIsMarked(names: seq<string>, i: nat, u: nat)
    requires ListingNames(names) && Broken(names, i, u)
    ensures Ignore(names[i], true) in ListingLog(ProbeEnv(names[u]), ProbeRows(names, i))
  {
    var env, rows := ProbeEnv(names[u]), ProbeRows(names, i);
    var s := ProbeAfter(names, i, u, |names|);
    assert rows[..|names|] == rows;
    var t := Check(env, s, true);
    assert t.toIgnore == s.toIgnore && t.log == s.log && t.stop.Running?;
    if s.toIgnore != [] {
      assert s.toIgnore == [s.toIgnore[0]];
      MarkOne(env, t, s.toIgnore[0]);
    } else {
      assert MarkAll(env, t, t.toIgnore) == t;
    }
  }

  /** Outside pre-order there is a folder state in which a directory with something live below it
      is marked ignored. */
  lemma BrokenOrderIsUnsafe(names: seq<string>, i: nat, u: nat)
    requires ListingNames(names) && Broken(names, i, u)
    ensures !AlwaysSafe(names)
  {
    var env, rows := ProbeEnv(names[u]), ProbeRows(names, i);
    ProbeIsMarked(names, i, u);
    var log := ListingLog(env, rows);
    var k: nat :| k < |log| && log[k] == Ignore(names[i], true);
    assert rows[u] == ProbeRow(names, i, u) && i != u;
    assert Live(env, rows[u].item);
    assert !NoLiveBelow(env, rows, names[i], |rows|);
    assert RowsNamed(rows, names);
  }

  lemma RowsInPreOrder(rows: seq<Row>, names: seq<string>)
    requires RowsNamed(rows, names) && PreOrderNames(names) && ListingNames(names)
    ensures NamesCanonical(rows) && PreOrder(rows)
  {
  }

  lemma NotPreOrderIsBroken(names: seq<string>) returns (i: nat, u: nat)
    requires !PreOrderNames(names)
    ensures Broken(names, i, u)
  {
    i, u :| i < |names| && u < |names| && IsParent(names[u], names[i])
            && !(i < u && forall w: nat :: i < w <= u ==> IsParent(names[w], names[i]));
    if i < u {
      var w: nat :| i < w <= u && !IsParent(names[w], names[i]);
      assert w != u;
    }
  }

  /** The exact law: the pass is safe for every folder state if and only if the listing is in tree
      pre-order. */
  lemma SafeIffPreOrder(names: seq<string>)
    requires ListingNames(names)
    ensures AlwaysSafe(names) <==> PreOrderNames(names)
  {
    if PreOrderNames(names) {
      forall env: Env, rows: seq<Row> | RowsNamed(rows, names)
        ensures MarksAreSafe(env, rows, ListingLog(env, rows), 0)
      {
        RowsInPreOrder(rows, names);
        ListingIsSafe(env, rows, START);
      }
    } else {
      var i, u := NotPreOrderIsBroken(names);
      BrokenOrderIsUnsafe(names, i, u);
    }
  }

  /** Byte order is not tree pre-order: "a.b" sorts between
      "a" and "a/c". */
  lemma ByteOrderIsNotPreOrder()
    ensures ListingNames(["a", "a.b", "a/c"]) && !AlwaysSafe(["a", "a.b", "a/c"])
  {
    var names := ["a", "a.b", "a/c"];
    ByteOrderedNames();
    assert names[1][1] == '.' && names[2][1] == SEP && |names[0]| == 1;
    assert IsParent(names[2], names[0]) && !IsParent(names[1], names[0]);
    BrokenOrderIsUnsafe(names, 0, 2);
  }

  lemma ByteOrderedNames()
    ensures ListingNames(["a", "a.b", "a/c"])
  {
    var names := ["a", "a.b", "a/c"];
    SplitOfName("a");
    SplitOfName("a.b");
    SplitOfName("c");
    SplitAtSep("a", "c");
    assert "a" + [SEP] + "c" == "a/c";
    assert names[0] != names[1] && names[0] != names[2] && names[1][1] != names[2][1];
  }

  // ---------------------------------------------------------------- what else the pass requests

  function ImmediateActions(log: seq<Action>): seq<Action> {
    if log == [] then []
    else
      var before := ImmediateActions(log[..|log| - 1]);
      var a := log[|log| - 1];
      if a.Ignore? && a.deferred then before else before + [a]
  }

  /** What an item asks for on its own, whatever the order of the listing. */
  function OwnActions(env: Env, item: Item): seq<Action> {
    if NewlyIgnored(env, item) && !item.isDirectory then [Ignore(item.name, false)]
    else if Tracked(env, item) && env.gone(item.name) then [Delete(item.name, item.shouldConflict)]
    else if env.ignored(item.name) || Tracked(env, item) || !item.isDeleted || !item.receiveOnlyChanged then []
    else if !env.receiveOnlyFolder || env.global(item.name).GlobalDeleted? then [ClearReceiveOnly(item.name)]
    else if env.global(item.name).GlobalReceiveOnlyChanged? then [Drop(item.name)]
    else []
  }

  function OwnActionsOf(env: Env, rows: seq<Row>): seq<Action> {
    if rows == [] then []
    else
      OwnActionsOf(env, rows[..|rows| - 1])
      + match rows[|rows| - 1] { case RowError => [] case Row(item) => OwnActions(env, item) }
  }

  lemma ImmediateOfAppended(log: seq<Action>, a: Action)
    ensures ImmediateActions(log + [a])
            == if a.Ignore? && a.deferred then ImmediateActions(log) else ImmediateActions(log) + [a]
  {
  }

  lemma {:induction false} MarkAllAddsNothingElse(env: Env, s: Pass, items: seq<Item>)
    ensures ImmediateActions(MarkAll(env, s, items).log) == ImmediateActions(s.log)
    ensures MarkAll(env, s, items).stop.Running? ==> s.stop.Running?
    decreases |items|
  {
    if items != [] {
      ImmediateOfAppended(s.log, Ignore(items[0].name, true));
      MarkAllAddsNothingElse(env, FlushIfFull(env, Update(env, s, Ignore(items[0].name, true))), items[1..]);
    }
  }

  lemma ClassifyActs(env: Env, s: Pass, item: Item)
    requires Classify(env, s, item).stop.Running?
    ensures s.stop.Running? && Classify(env, s, item).log == s.log + OwnActions(env, item)
  {
  }

  lemma ImmediateOfOwn(log: seq<Action>, env: Env, item: Item)
    ensures ImmediateActions(log + OwnActions(env, item)) == ImmediateActions(log) + OwnActions(env, item)
  {
    var own := OwnActions(env, item);
    if own == [] {
      assert log + own == log && ImmediateActions(log) + own == ImmediateActions(log);
    } else {
      assert own == [own[0]];
      ImmediateOfAppended(log, own[0]);
    }
  }

  lemma ScanItemActs(env: Env, s: Pass, item: Item)
    requires ScanItem(env, s, item).stop.Running?
    ensures s.stop.Running?
    ensures ImmediateActions(ScanItem(env, s, item).log) == ImmediateActions(s.log) + OwnActions(env, item)
  {
    var u := FlushIfFull(env, Check(env, s, false));
    var v := LeaveParent(env, u, item.name);
    ClassifyActs(env, v, item);
    MarkAllAddsNothingElse(env, u, u.toIgnore);
    ImmediateOfOwn(v.log, env, item);
  }

  /** Holding directories back neither loses, nor repeats, nor reorders any other request: those of
      a listing scanned to its end are the concatenation of what each item asks for. */
  lemma {:induction false} ImmediateActionsExact(env: Env, s: Pass, rows: seq<Row>)
    requires ScanRows(env, s, rows).stop.Running?
    ensures s.stop.Running?
    ensures ImmediateActions(ScanRows(env, s, rows).log) == ImmediateActions(s.log) + OwnActionsOf(env, rows)
  {
    if rows != [] {
      var n := |rows| - 1;
      ScanItemActs(env, ScanRows(env, s, rows[..n]), rows[n].item);
      ImmediateActionsExact(env, s, rows[..n]);
    }
  }

  // ---------------------------------------------------------------- nothing held back is forgotten

  predicate NewDirectory(env: Env, rows: seq<Row>, i: nat) {
    i < |rows| && rows[i].Row? && NewlyIgnored(env, rows[i].item) && rows[i].item.isDirectory
  }

  predicate AtOrBelow(rows: seq<Row>, i: nat, p: nat)
    requires i < |rows| && p < |rows|
  {
    i == p || Below(rows, i, p)
  }

  predicate DistinctNames(rows: seq<Row>) {
    forall i, j :: 0 <= i < j < |rows| && rows[i].Row? && rows[j].Row? ==> rows[i].item.name != rows[j].item.name
  }

  /** Something live further down is below a newly ignored directory that the item is in, too. */
  ghost predicate OutvotedByRow(env: Env, rows: seq<Row>, t: nat, i: nat)
    requires i < t <= |rows|
  {
    exists p: nat, u: nat :: p <= i < u < t && NewDirectory(env, rows, p) && AtOrBelow(rows, i, p)
                             && rows[u].Row? && Live(env, rows[u].item) && Below(rows, u, p)
  }

  /** ... or below the directory that an earlier listing left as the highest ignored one. */
  ghost predicate OutvotedByLeft(env: Env, rows: seq<Row>, t: nat, i: nat, left: string)
    requires i < t <= |rows|
  {
    && left != "" && rows[i].Row? && IsParent(rows[i].item.name, left)
    && exists u: nat :: i < u < t && LiveBelow(env, rows, u, left)
  }

  predicate LiveBelow(env: Env, rows: seq<Row>, u: nat, name: string)
    requires u < |rows|
  {
    rows[u].Row? && Live(env, rows[u].item) && IsParent(rows[u].item.name, name)
  }

  ghost predicate Outvoted(env: Env, rows: seq<Row>, t: nat, i: nat, left: string)
    requires i < t <= |rows|
  {
    OutvotedByRow(env, rows, t, i) || OutvotedByLeft(env, rows, t, i, left)
  }

  lemma StaysOutvoted(env: Env, rows: seq<Row>, t: nat, i: nat, left: string)
    requires i < t < |rows| && Outvoted(env, rows, t, i, left)
    ensures Outvoted(env, rows, t + 1, i, left)
  {
  }

  ghost predicate Accounted(env: Env, rows: seq<Row>, t: nat, s: Pass, i: nat, left: string)
    requires i < t <= |rows| && rows[i].Row?
  {
    rows[i].item in s.toIgnore || Ignore(rows[i].item.name, true) in s.log || Outvoted(env, rows, t, i, left)
  }

  /** What is held back is a directory of the listing and what is below it. */
  ghost predicate HeldUnder(env: Env, rows: seq<Row>, t: nat, s: Pass, p: nat)
    requires t <= |rows|
  {
    && p < t && NewDirectory(env, rows, p) && rows[p].item.name == s.ignoredParent
    && forall i: nat :: i < t && rows[i].Row? && rows[i].item in s.toIgnore ==> p <= i && AtOrBelow(rows, i, p)
  }

  /** What is held back is below the directory an earlier listing left. */
  ghost predicate HeldUnderLeft(rows: seq<Row>, t: nat, s: Pass, left: string)
    requires t <= |rows|
  {
    && left != "" && s.ignoredParent == left
    && forall i: nat :: i < t && rows[i].Row? && rows[i].item in s.toIgnore ==> IsParent(rows[i].item.name, left)
  }

  ghost predicate HeldSomewhere(env: Env, rows: seq<Row>, t: nat, s: Pass, left: string)
    requires t <= |rows|
  {
    HeldUnderLeft(rows, t, s, left) || exists p: nat :: HeldUnder(env, rows, t, s, p)
  }

  ghost predicate AllAccounted(env: Env, rows: seq<Row>, t: nat, s: Pass, left: string)
    requires t <= |rows|
  {
    && (forall i: nat :: i < t && NewDirectory(env, rows, i) ==> Accounted(env, rows, t, s, i, left))
    && (s.ignoredParent == "" ==> s.toIgnore == [])
    && (s.ignoredParent != "" ==> HeldSomewhere(env, rows, t, s, left))
    && (forall d :: d in s.toIgnore ==> exists i: nat :: i < t && rows[i] == Row(d))
  }

  lemma {:induction false} MarkAllMarks(env: Env, s: Pass, items: seq<Item>)
    requires MarkAll(env, s, items).stop.Running?
    ensures forall j :: 0 <= j < |items| ==> Ignore(items[j].name, true) in MarkAll(env, s, items).log
    decreases |items|
  {
    if items != [] {
      var u := FlushIfFull(env, Update(env, s, Ignore(items[0].name, true)));
      MarkAllMarks(env, u, items[1..]);
      MarkAllAppends(env, u, items[1..]);
      MarkAllAddsNothingElse(env, u, items[1..]);
      var r := MarkAll(env, s, items);
      assert r.log[|s.log|] == Ignore(items[0].name, true);
      assert forall j :: 1 <= j < |items| ==> items[j] == items[1..][j - 1];
    }
  }

  lemma LeaveParentAccounts(env: Env, rows: seq<Row>, t: nat, s: Pass, name: string, left: string)
    requires t <= |rows| && AllAccounted(env, rows, t, s, left) && LeaveParent(env, s, name).stop.Running?
    ensures AllAccounted(env, rows, t, LeaveParent(env, s, name), left)
  {
    var r := LeaveParent(env, s, name);
    MarkAllAppends(env, s, s.toIgnore);
    if r != s {
      MarkAllMarks(env, s, s.toIgnore);
      forall i: nat | i < t && NewDirectory(env, rows, i)
        ensures Accounted(env, rows, t, r, i, left)
      {
        assert Accounted(env, rows, t, s, i, left);
        if Ignore(rows[i].item.name, true) in s.log {
          var k :| 0 <= k < |s.log| && s.log[k] == Ignore(rows[i].item.name, true);
          assert r.log[k] == s.log[k];
        }
      }
    }
  }

  /** A step over an item that leaves the held directories as they are keeps them accounted for. */
  lemma AccountsGrow(env: Env, rows: seq<Row>, t: nat, s: Pass, r: Pass, left: string)
    requires t < |rows| && AllAccounted(env, rows, t, s, left)
    requires r.toIgnore == s.toIgnore && r.ignoredParent == s.ignoredParent && s.log <= r.log
    requires !NewDirectory(env, rows, t)
    requires DistinctNames(rows)
    ensures AllAccounted(env, rows, t + 1, r, left)
  {
    forall i: nat | i < t + 1 && NewDirectory(env, rows, i)
      ensures Accounted(env, rows, t + 1, r, i, left)
    {
      assert Accounted(env, rows, t, s, i, left);
      if Outvoted(env, rows, t, i, left) { StaysOutvoted(env, rows, t, i, left); }
    }
    if s.ignoredParent != "" && !HeldUnderLeft(rows, t, s, left) {
      var p: nat :| HeldUnder(env, rows, t, s, p);
      assert HeldUnder(env, rows, t + 1, r, p);
    }
  }

  lemma NewDirectoryAccounts(env: Env, rows: seq<Row>, t: nat, s: Pass, left: string)
    requires t < |rows| && AllAccounted(env, rows, t, s, left) && s.stop.Running? && NewDirectory(env, rows, t)
    requires s.ignoredParent != "" ==> IsParent(rows[t].item.name, s.ignoredParent)
    requires DistinctNames(rows) && rows[t].item.name != ""
    ensures AllAccounted(env, rows, t + 1, Classify(env, s, rows[t].item), left)
  {
    var r := Classify(env, s, rows[t].item);
    assert r.toIgnore == s.toIgnore + [rows[t].item];
    forall i: nat | i < t + 1 && NewDirectory(env, rows, i)
      ensures Accounted(env, rows, t + 1, r, i, left)
    {
      if i < t {
        assert Accounted(env, rows, t, s, i, left);
        if Outvoted(env, rows, t, i, left) { StaysOutvoted(env, rows, t, i, left); }
      }
    }
    if s.ignoredParent == "" {
      assert HeldUnder(env, rows, t + 1, r, t);
    } else if HeldUnderLeft(rows, t, s, left) {
      assert HeldUnderLeft(rows, t + 1, r, left);
    } else {
      var p: nat :| HeldUnder(env, rows, t, s, p);
      assert Below(rows, t, p);
      assert HeldUnder(env, rows, t + 1, r, p);
    }
  }

  lemma LiveAccounts(env: Env, rows: seq<Row>, t: nat, s: Pass, left: string)
    requires t < |rows| && AllAccounted(env, rows, t, s, left) && s.stop.Running?
    requires rows[t].Row? && Live(env, rows[t].item)
    requires s.ignoredParent != "" ==> IsParent(rows[t].item.name, s.ignoredParent)
    ensures AllAccounted(env, rows, t + 1, Classify(env, s, rows[t].item), left)
  {
    var r := Classify(env, s, rows[t].item);
    forall i: nat | i < t + 1 && NewDirectory(env, rows, i)
      ensures Accounted(env, rows, t + 1, r, i, left)
    {
      assert Accounted(env, rows, t, s, i, left);
      if Outvoted(env, rows, t, i, left) { StaysOutvoted(env, rows, t, i, left); }
      if rows[i].item in s.toIgnore {
        if HeldUnderLeft(rows, t, s, left) {
          assert LiveBelow(env, rows, t, left);
          assert OutvotedByLeft(env, rows, t + 1, i, left);
        } else {
          var p: nat :| HeldUnder(env, rows, t, s, p);
          assert Below(rows, t, p);
          assert OutvotedByRow(env, rows, t + 1, i);
        }
      }
    }
  }

  lemma ClassifyAccounts(env: Env, rows: seq<Row>, t: nat, v: Pass, left: string)
    requires t < |rows| && rows[t].Row? && DistinctNames(rows) && rows[t].item.name != ""
    requires AllAccounted(env, rows, t, v, left) && v.stop.Running?
    requires v.ignoredParent != "" ==> IsParent(rows[t].item.name, v.ignoredParent)
    requires Classify(env, v, rows[t].item).stop.Running?
    ensures AllAccounted(env, rows, t + 1, Classify(env, v, rows[t].item), left)
  {
    if NewDirectory(env, rows, t) {
      NewDirectoryAccounts(env, rows, t, v, left);
    } else if Live(env, rows[t].item) {
      LiveAccounts(env, rows, t, v, left);
    } else {
      var r := Classify(env, v, rows[t].item);
      ClassifyActs(env, v, rows[t].item);
      assert v.log <= r.log && r.toIgnore == v.toIgnore && r.ignoredParent == v.ignoredParent;
      AccountsGrow(env, rows, t, v, r, left);
    }
  }

  lemma ScanItemAccounts(env: Env, rows: seq<Row>, t: nat, s: Pass, left: string)
    requires t < |rows| && rows[t].Row? && DistinctNames(rows) && rows[t].item.name != ""
    requires AllAccounted(env, rows, t, s, left) && ScanItem(env, s, rows[t].item).stop.Running?
    ensures s.stop.Running? && AllAccounted(env, rows, t + 1, ScanItem(env, s, rows[t].item), left)
  {
    var item := rows[t].item;
    var u := FlushIfFull(env, Check(env, s, false));
    var v := LeaveParent(env, u, item.name);
    ClassifyActs(env, v, item);
    MarkAllAddsNothingElse(env, u, u.toIgnore);
    MarkAllAppends(env, u, u.toIgnore);
    AccountsFrame(env, rows, t, s, u, left);
    LeaveParentAccounts(env, rows, t, u, item.name, left);
    ClassifyAccounts(env, rows, t, v, left);
  }

  lemma AccountsFrame(env: Env, rows: seq<Row>, t: nat, s: Pass, u: Pass, left: string)
    requires t <= |rows| && AllAccounted(env, rows, t, s, left)
    requires u.toIgnore == s.toIgnore && u.ignoredParent == s.ignoredParent && u.log == s.log
    ensures AllAccounted(env, rows, t, u, left)
  {
    forall i: nat | i < t && NewDirectory(env, rows, i)
      ensures Accounted(env, rows, t, u, i, left)
    {
      assert Accounted(env, rows, t, s, i, left);
    }
    if s.ignoredParent != "" && !HeldUnderLeft(rows, t, s, left) {
      var p: nat :| HeldUnder(env, rows, t, s, p);
      assert HeldUnder(env, rows, t, u, p);
    }
  }

  lemma {:induction false} ScanRowsAccounts(env: Env, rows: seq<Row>, t: nat, s: Pass, left: string)
    requires NamesCanonical(rows) && DistinctNames(rows) && t <= |rows|
    requires s.toIgnore == [] && s.ignoredParent == left && ScanRows(env, s, rows[..t]).stop.Running?
    ensures AllAccounted(env, rows, t, ScanRows(env, s, rows[..t]), left)
  {
    if t == 0 {
      assert rows[..0] == [];
    } else {
      EmptyIsNotCanonical();
      assert rows[..t][..t - 1] == rows[..t - 1];
      ImmediateActionsExact(env, s, rows[..t]);
      ScanRowsLast(env, s, rows, t);
      var before := ScanRows(env, s, rows[..t - 1]);
      StoppedStays(env, before, rows[t - 1].item);
      ScanRowsAccounts(env, rows, t - 1, s, left);
      ScanItemAccounts(env, rows, t - 1, before, left);
    }
  }

  lemma StoppedStays(env: Env, s: Pass, item: Item)
    requires ScanItem(env, s, item).stop.Running?
    ensures s.stop.Running?
  {
  }

  /** In a listing scanned to its end, every directory that became ignored is marked, unless
      something live comes later below it, or below a newly ignored directory it is in, or below the
      highest ignored directory of an earlier listing if it is in that. */
  lemma NewDirectoryMarkedUnlessOutvoted(env: Env, rows: seq<Row>, s: Pass, i: nat)
    requires NamesCanonical(rows) && DistinctNames(rows) && NewDirectory(env, rows, i)
    requires s.toIgnore == []
    requires EndListing(env, ScanRows(env, s, rows)).stop.Running?
    ensures || Ignore(rows[i].item.name, true) in EndListing(env, ScanRows(env, s, rows)).log
            || Outvoted(env, rows, |rows|, i, s.ignoredParent)
  {
    assert rows[..|rows|] == rows;
    var u := ScanRows(env, s, rows);
    var t := Check(env, u, true);
    MarkAllAddsNothingElse(env, t, t.toIgnore);
    ScanRowsAccounts(env, rows, |rows|, s, s.ignoredParent);
    MarkAllMarks(env, t, t.toIgnore);
    MarkAllAppends(env, t, t.toIgnore);
    assert Accounted(env, rows, |rows|, u, i, s.ignoredParent);
    var r := EndListing(env, u);
    if Ignore(rows[i].item.name, true) in u.log {
      var k :| 0 <= k < |u.log| && u.log[k] == Ignore(rows[i].item.name, true);
      assert r.log[k] == u.log[k];
    }
  }

  lemma RunningListings(env: Env, listings: seq<seq<Row>>)
    requires ScanListings(env, START, listings).stop.Running?
    ensures ScanListings(env, START, listings).toIgnore == []
    ensures listings != [] ==> ScanListings(env, START, listings[..|listings| - 1]).stop.Running?
  {
    if listings != [] {
      var before, rows := ScanListings(env, START, listings[..|listings| - 1]), listings[|listings| - 1];
      var t := Check(env, ScanRows(env, before, rows), true);
      MarkAllAddsNothingElse(env, t, t.toIgnore);
      ImmediateActionsExact(env, before, rows);
    }
  }

  /** The same in every listing of a pass. */
  lemma PassMarksNewDirectories(env: Env, listings: seq<seq<Row>>, l: nat, i: nat)
    requires l < |listings| && NamesCanonical(listings[l]) && DistinctNames(listings[l])
             && NewDirectory(env, listings[l], i)
    requires ScanListings(env, START, listings[..l + 1]).stop.Running?
    ensures var before, after := ScanListings(env, START, listings[..l]), ScanListings(env, START, listings[..l + 1]);
            || Ignore(listings[l][i].item.name, true) in after.log
            || Outvoted(env, listings[l], |listings[l]|, i, before.ignoredParent)
  {
    assert listings[..l + 1][..l] == listings[..l];
    RunningListings(env, listings[..l + 1]);
    RunningListings(env, listings[..l]);
    NewDirectoryMarkedUnlessOutvoted(env, listings[l], ScanListings(env, START, listings[..l]), i);
  }
}
