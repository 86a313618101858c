/** The ring buffer behind a buffered subscription (lib/events/events.go) agrees with the plain history
    of the events delivered to it. */
module EventRing {
  import opened EventLogger

  /** The ID in an unfilled slot. */
  const NO_EVENT := Event(0, 0, 0, 0)

  function Newer(s: seq<Event>, id: int): seq<Event> {
    if s == [] then [] else (if s[0].id > id then [s[0]] else []) + Newer(s[1..], id)
  }

  function Min(a: nat, b: nat): nat { if a < b then a else b }

  /** The last n events. */
  function Last(history: seq<Event>, n: nat): seq<Event> {
    history[|history| - Min(|history|, n)..]
  }

  /** The current ID: that of the event delivered last. */
  function Current(history: seq<Event>): int {
    if history == [] then 0 else history[|history| - 1].id
  }

  function Unfilled(n: nat): seq<Event> {
    if n == 0 then [] else [NO_EVENT] + Unfilled(n - 1)
  }

  /** All slots of a ring of n, the one to be overwritten first in front. */
  function Slots(history: seq<Event>, n: nat): seq<Event> {
    Unfilled(n - Min(|history|, n)) + Last(history, n)
  }

  /** The events come numbered as a subscription numbers them. */
  ghost predicate Numbered(history: seq<Event>) {
    && (forall i :: 0 <= i < |history| ==> history[i].id > 0)
    && (forall i, j :: 0 <= i < j < |history| ==> history[i].id < history[j].id)
  }

  lemma {:induction false} UnfilledAre(n: nat)
    ensures |Unfilled(n)| == n && forall i :: 0 <= i < n ==> Unfilled(n)[i] == NO_EVENT
  {
    if n > 0 { UnfilledAre(n - 1); }
  }

  lemma {:induction false} NewerJoins(s: seq<Event>, t: seq<Event>, id: int)
    ensures Newer(s + t, id) == Newer(s, id) + Newer(t, id)
  {
    if s == [] {
      assert s + t == t;
    } else {
      assert (s + t)[1..] == s[1..] + t;
      NewerJoins(s[1..], t, id);
    }
  }

  lemma {:induction false} NewerOfUnfilled(n: nat, id: int)
    ensures Newer(Unfilled(n), id) == if id >= 0 then [] else Unfilled(n)
  {
    if n > 0 {
      assert Unfilled(n)[1..] == Unfilled(n - 1);
      NewerOfUnfilled(n - 1, id);
    }
  }

  function Rotated(s: seq<Event>, k: nat): seq<Event>
    requires k <= |s|
  {
    s[k..] + s[..k]
  }

  /** Writing at the front slot and moving on shifts the slots by one. */
  lemma Rotates(s: seq<Event>, k: nat, e: Event)
    requires k < |s|
    ensures (k + 1) % |s| < |s|
    ensures Rotated(s[k := e], (k + 1) % |s|) == Rotated(s, k)[1..] + [e]
  {
    var t, k' := s[k := e], (k + 1) % |s|;
    if k + 1 == |s| {
      assert k' == 0;
      assert t == s[..k] + [e];
      assert Rotated(s, k)[1..] == s[..k];
      assert Rotated(t, 0) == t;
    } else {
      assert k' == k + 1;
      assert t[k + 1..] == s[k + 1..] && t[..k + 1] == s[..k] + [e];
      assert Rotated(s, k)[1..] == s[k + 1..] + s[..k];
      assert s[k + 1..] + (s[..k] + [e]) == s[k + 1..] + s[..k] + [e];
    }
  }

  class BufferedSubscription {
    const buf: array<Event>
    var next: nat
    var cur: int
    ghost var history: seq<Event>

    ghost predicate Valid()
      reads this, buf
    {
      && buf.Length > 0 && next < buf.Length
      && cur == Current(history)
      && buf[next..] + buf[..next] == Slots(history, buf.Length)
    }

    constructor (size: nat)
      requires size > 0
      ensures Valid() && fresh(buf) && buf.Length == size && history == []
    {
      buf := new Event[size](_ => NO_EVENT);
      next, cur, history := 0, 0, [];
      new;
      UnfilledAre(size);
      assert buf[0..] + buf[..0] == Unfilled(size) + [];
    }

    /** One turn of the polling loop. */
    method Deliver(ev: Event)
      requires Valid()
      modifies `next, `cur, `history, buf
      ensures Valid() && history == old(history) + [ev]
    {
      ghost var was := buf[..];
      Rotates(was, next, ev);
      SlotsShift(history, ev, buf.Length);
      assert Rotated(was, next) == buf[next..] + buf[..next];
      buf[next] := ev;
      assert buf[..] == was[next := ev];
      next := (next + 1) % buf.Length;
      assert Rotated(buf[..], next) == buf[next..] + buf[..next];
      cur := ev.id;
      history := history + [ev];
    }

    /** One of the two loops at the end of Since. */
    method CollectRange(lo: nat, hi: nat, id: int, into: seq<Event>) returns (r: seq<Event>)
      requires lo <= hi <= buf.Length
      ensures r == into + Newer(buf[lo..hi], id)
    {
      r := into;
      for i := lo to hi
        invariant r == into + Newer(buf[lo..i], id)
      {
        NewerSnoc(buf[lo..i], buf[i], id);
        assert buf[lo..i + 1] == buf[lo..i] + [buf[i]];
        if buf[i].id > id {
          r := r + [buf[i]];
        }
      }
    }

    /** What the two loops at the end of Since append. */
    method Collect(id: int, into: seq<Event>) returns (r: seq<Event>)
      requires Valid()
      ensures r == into + Newer(Slots(history, buf.Length), id)
    {
      r := CollectRange(next, buf.Length, id, into);
      r := CollectRange(0, next, id, r);
      assert buf[next..buf.Length] == buf[next..] && buf[0..next] == buf[..next];
      NewerJoins(buf[next..], buf[..next], id);
    }

    /** The polling loop while Since waits without the lock. */
    method DeliverAll(events: seq<Event>)
      requires Valid()
      modifies `next, `cur, `history, buf
      ensures Valid() && history == old(history) + events
    {
      for j := 0 to |events|
        invariant Valid() && history == old(history) + events[..j]
      {
        Deliver(events[j]);
        assert events[..j + 1] == events[..j] + [events[j]];
      }
      assert events[..|events|] == events;
    }

    /** Since, with what is delivered before each of its wake-ups; it times out when those run out.
        Before it has the lock again some more events may come, which it then does not look at. */
    method Since(id: int, into: seq<Event>, wakeups: seq<seq<Event>>, late: seq<Event>)
        returns (r: seq<Event>, timedOut: bool)
      requires Valid()
      modifies `next, `cur, `history, buf
      ensures Valid() && old(history) <= history
      ensures timedOut ==> r == into && exists seen :: history == seen + late && id >= Current(seen)
      ensures !timedOut ==> id < Current(history) && r == into + Newer(Slots(history, buf.Length), id)
    {
      var k := 0;
      while id >= cur
        invariant Valid() && old(history) <= history && k <= |wakeups|
        decreases |wakeups| - k
      {
        if k == |wakeups| {
          ghost var seen := history;
          DeliverAll(late);
          assert history == seen + late;
          return into, true;
        }
        DeliverAll(wakeups[k]);
        k := k + 1;
      }
      r := Collect(id, into);
      timedOut := false;
    }
  }

  lemma NewerSnoc(s: seq<Event>, e: Event, id: int)
    ensures Newer(s + [e], id) == Newer(s, id) + if e.id > id then [e] else []
  {
    NewerJoins(s, [e], id);
    assert [e][1..] == [];
  }

  /** Delivering drops the front slot and appends the event. */
  lemma SlotsShift(history: seq<Event>, ev: Event, n: nat)
    requires n > 0
    ensures |Slots(history, n)| == n && Slots(history + [ev], n) == Slots(history, n)[1..] + [ev]
  {
    var k := |history|;
    UnfilledAre(n - Min(k, n));
    UnfilledAre(n - Min(k + 1, n));
    if k < n {
      assert Last(history, n) == history && Last(history + [ev], n) == history + [ev];
      assert Unfilled(n - k)[1..] == Unfilled(n - k - 1);
      assert Slots(history, n)[1..] == Unfilled(n - k - 1) + history;
    } else {
      assert Slots(history, n) == history[k - n..];
      assert Last(history + [ev], n) == history[k - n + 1..] + [ev];
    }
  }

  // ---------------------------------------------------------------- what a caller gets

  /** What Since appends. */
  function Appended(history: seq<Event>, n: nat, id: int): seq<Event> { Newer(Slots(history, n), id) }

  /** For a ring of n: exactly those of the last n events that are newer, unless the ID is negative while
      slots are unfilled, when those come along. */
  lemma SinceIsExact(history: seq<Event>, n: nat, id: int)
    requires n > 0
    ensures Appended(history, n, id)
            == (if id >= 0 then [] else Unfilled(n - Min(|history|, n))) + Newer(Last(history, n), id)
    ensures Appended(history, n, id) == Newer(Last(history, n), id) <==> id >= 0 || |history| >= n
  {
    var u := Unfilled(n - Min(|history|, n));
    UnfilledAre(n - Min(|history|, n));
    NewerJoins(u, Last(history, n), id);
    NewerOfUnfilled(n - Min(|history|, n), id);
    if id < 0 && |history| < n {
      assert |Appended(history, n, id)| == |u| + |Newer(Last(history, n), id)|;
    }
    assert [] + Newer(Last(history, n), id) == Newer(Last(history, n), id);
  }

  lemma {:induction false} NewerMembers(s: seq<Event>, id: int)
    ensures forall e :: e in Newer(s, id) <==> e in s && e.id > id
  {
    if s != [] {
      assert s == [s[0]] + s[1..];
      NewerMembers(s[1..], id);
    }
  }

  lemma NumberedTail(s: seq<Event>)
    requires Numbered(s) && s != []
    ensures Numbered(s[1..]) && forall e :: e in s[1..] ==> e.id > s[0].id
  {
  }

  lemma NumberedCons(e: Event, s: seq<Event>)
    requires e.id > 0 && Numbered(s) && forall x :: x in s ==> x.id > e.id
    ensures Numbered([e] + s)
  {
  }

  lemma {:induction false} NewerStaysNumbered(s: seq<Event>, id: int)
    requires Numbered(s)
    ensures Numbered(Newer(s, id))
  {
    if s != [] {
      var m := Newer(s[1..], id);
      NumberedTail(s);
      NewerStaysNumbered(s[1..], id);
      NewerMembers(s[1..], id);
      assert [] + m == m;
      NumberedCons(s[0], m);
    }
  }

  lemma LastIsNumbered(history: seq<Event>, n: nat)
    requires Numbered(history)
    ensures Numbered(Last(history, n))
  {
  }

  /** With a proper ID, Since appends exactly those of the last n events that are newer, oldest first
      and strictly increasing, and at least one when it did not time out. */
  lemma SinceAgreesWithHistory(history: seq<Event>, n: nat, id: nat)
    requires Numbered(history) && n > 0
    ensures var r := Appended(history, n, id);
            && (forall e :: e in r <==> e in Last(history, n) && e.id > id)
            && Numbered(r)
            && (id < Current(history) ==> r != [])
  {
    var last := Last(history, n);
    SinceIsExact(history, n, id);
    NewerMembers(last, id);
    LastIsNumbered(history, n);
    NewerStaysNumbered(last, id);
    if id < Current(history) {
      assert last[|last| - 1] == history[|history| - 1];
      assert history[|history| - 1] in last;
    }
  }

  lemma {:induction false} NewerNone(s: seq<Event>, id: int)
    requires forall e :: e in s ==> e.id <= id
    ensures Newer(s, id) == []
  {
    if s != [] {
      assert s[0] in s;
      NewerNone(s[1..], id);
    }
  }

  lemma {:induction false} NewerAll(s: seq<Event>, id: int)
    requires forall e :: e in s ==> e.id > id
    ensures Newer(s, id) == s
  {
    if s != [] {
      assert s[0] in s;
      NewerAll(s[1..], id);
      assert s == [s[0]] + s[1..];
    }
  }

  lemma AroundCurrent(known: seq<Event>, more: seq<Event>)
    requires Numbered(known + more)
    ensures Current(known) >= 0
    ensures forall e :: e in known ==> e.id <= Current(known)
    ensures forall e :: e in more ==> e.id > Current(known)
  {
    var h := known + more;
    assert forall i :: 0 <= i < |known| ==> h[i] == known[i];
    if known != [] { assert h[|known| - 1].id > 0; }
    forall e | e in known
      ensures e.id <= Current(known)
    {
      var i :| 0 <= i < |known| && known[i] == e;
      if i < |known| - 1 { assert h[i].id < h[|known| - 1].id; }
    }
    forall e | e in more
      ensures e.id > Current(known)
    {
      var j :| 0 <= j < |more| && more[j] == e;
      assert h[|known| + j] == e && e.id > 0;
    }
  }

  /** A caller who passes on the ID of the last event it knows misses nothing and sees nothing twice,
      as long as no more events came than the ring holds. */
  lemma PollingSeesAll(known: seq<Event>, more: seq<Event>, n: nat)
    requires Numbered(known + more) && |more| <= n && n > 0
    ensures Appended(known + more, n, Current(known)) == more
  {
    var h, id := known + more, Current(known);
    AroundCurrent(known, more);
    SinceIsExact(h, n, id);
    var from := |h| - Min(|h|, n);
    var older := known[from..];
    assert Last(h, n) == older + more;
    NewerJoins(older, more, id);
    NewerNone(older, id);
    NewerAll(more, id);
    assert [] + more == more;
  }

  /** What the logger delivers on a channel is numbered as the ring needs it. */
  lemma ChannelIsNumbered(ops: seq<Op>, sub: SubID)
    requires sub in Run(ops).got
    ensures Numbered(Run(ops).got[sub])
  {
    NumberingUnderChurn(ops, sub);
    OffersInOrder(ops, sub);
    DeliveredIncreases(Offered(ops, sub));
    var got := Run(ops).got[sub];
    forall i | 0 <= i < |got| ensures got[i].id > 0 { assert got[i] in got; }
  }
}
