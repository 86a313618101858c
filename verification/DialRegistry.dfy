/** The registry of next dial times (nextDialRegistry in lib/connections/service.go): forced redials of
    a device whose connections keep dropping are rate limited. */
module DialRegistry {
  type Device = nat
  type Time = int

  const SECOND := 1_000_000_000
  const MINUTE := 60 * SECOND
  const COOL_DOWN_INTERVAL := 2 * MINUTE
  const COOL_DOWN_DELAY := 5 * MINUTE
  const COOL_DOWN_MAX_ATTEMPTS := 3
  const STD_SLEEP := MINUTE
  const ZERO_TIME: Time := 0

  datatype NextDial = NextDial(nextDial: map<string, Time>, start: Time, attempts: nat)

  type Registry = map<Device, NextDial>

  // ---------------------------------------------------------------- the operations on values

  function Get(r: Registry, d: Device, addr: string): Time {
    if d in r && addr in r[d].nextDial then r[d].nextDial[addr] else ZERO_TIME
  }

  function Set(r: Registry, d: Device, addr: string, next: Time): Registry {
    var dev := if d in r then r[d] else NextDial(map[], ZERO_TIME, 0);
    r[d := dev.(nextDial := dev.nextDial[addr := next])]
  }

  function Redial(r: Registry, d: Device, now: Time): Registry {
    if d !in r then r[d := NextDial(map[], now, 1)]
    else
      var dev := r[d];
      if dev.attempts == 0 then r[d := NextDial(map[], now, 1)]
      else if now < dev.start + COOL_DOWN_INTERVAL then
        if dev.attempts >= COOL_DOWN_MAX_ATTEMPTS then r
        else r[d := NextDial(map[], dev.start, dev.attempts + 1)]
      else if dev.attempts >= COOL_DOWN_MAX_ATTEMPTS && now < dev.start + COOL_DOWN_DELAY then r
      else r - {d}
  }

  function Fresh(nextDial: map<string, Time>, now: Time): map<string, Time> {
    map addr | addr in nextDial && nextDial[addr] >= now :: nextDial[addr]
  }

  /** Whether cleaning up forgets the forced redials of a device. */
  predicate CooledDown(dev: NextDial, now: Time) {
    dev.attempts == 0 ||
    now > dev.start + (if dev.attempts >= COOL_DOWN_MAX_ATTEMPTS then COOL_DOWN_DELAY else COOL_DOWN_INTERVAL)
  }

  predicate Forgotten(dev: NextDial, now: Time) {
    Fresh(dev.nextDial, now) == map[] && CooledDown(dev, now)
  }

  /** A device that is kept keeps its attempts, cooled down or not. */
  function Cleanup(r: Registry, now: Time): Registry {
    map d | d in r && !Forgotten(r[d], now) :: r[d].(nextDial := Fresh(r[d].nextDial, now))
  }

  predicate Due(nextDial: map<string, Time>, now: Time, addr: string, sleep: int) {
    addr in nextDial && nextDial[addr] >= now && sleep == nextDial[addr] - now
  }

  ghost predicate NoneEarlier(nextDial: map<string, Time>, now: Time, sleep: int) {
    forall addr :: addr in nextDial && nextDial[addr] >= now ==> sleep <= nextDial[addr] - now
  }

  /** The sleep is the time to the earliest dial that is not overdue, clamped. */
  ghost predicate IsSleep(r: Registry, now: Time, sleep: int) {
    && sleep <= STD_SLEEP
    && (forall d :: d in r ==> NoneEarlier(r[d].nextDial, now, sleep))
    && (sleep == STD_SLEEP || exists d, addr :: d in r && Due(r[d].nextDial, now, addr, sleep))
  }

  /** The cleanup of the devices that are not still to do. */
  ghost function CleanedExcept(r: Registry, todo: set<Device>, now: Time): Registry {
    map d | d in r && (d in todo || !Forgotten(r[d], now)) ::
      if d in todo then r[d] else r[d].(nextDial := Fresh(r[d].nextDial, now))
  }

  lemma CleanedNext(r: Registry, todo: set<Device>, d: Device, now: Time)
    requires d in todo && d in r
    ensures d in CleanedExcept(r, todo, now) && CleanedExcept(r, todo, now)[d] == r[d]
    ensures var dev := r[d].(nextDial := Fresh(r[d].nextDial, now));
            CleanedExcept(r, todo - {d}, now)
            == if Forgotten(r[d], now) then CleanedExcept(r, todo, now) - {d} else CleanedExcept(r, todo, now)[d := dev]
  {
  }

  // ---------------------------------------------------------------- the registry

  class NextDialRegistry {
    var devices: Registry

    constructor ()
      ensures devices == map[]
    {
      devices := map[];
    }

    method SetNext(d: Device, addr: string, next: Time)
      modifies this
      ensures devices == Set(old(devices), d, addr, next)
    {
      if d !in devices {
        devices := devices[d := NextDial(map[], ZERO_TIME, 0)];
      }
      devices := devices[d := devices[d].(nextDial := devices[d].nextDial[addr := next])];
    }

    method RedialDevice(d: Device, now: Time)
      modifies this
      ensures devices == Redial(old(devices), d, now)
    {
      if d !in devices {
        devices := devices[d := NextDial(map[], now, 1)];
        return;
      }
      var dev := devices[d];
      if dev.attempts == 0 || now < dev.start + COOL_DOWN_INTERVAL {
        if dev.attempts >= COOL_DOWN_MAX_ATTEMPTS {
          return;
        }
        if dev.attempts == 0 {
          dev := dev.(start := now);
        }
        dev := dev.(attempts := dev.attempts + 1);
        dev := dev.(nextDial := map[]);
        devices := devices[d := dev];
        return;
      }
      if dev.attempts >= COOL_DOWN_MAX_ATTEMPTS && now < dev.start + COOL_DOWN_DELAY {
        return;
      }
      devices := devices - {d};
    }

    /** The inner loop of the cleanup: drops overdue dials of one device, lowers the sleep to the
        earliest of the others. */
    static method CleanDials(nextDial: map<string, Time>, now: Time, sleep: int)
        returns (kept: map<string, Time>, less: int)
      ensures kept == Fresh(nextDial, now)
      ensures less <= sleep && NoneEarlier(nextDial, now, less)
      ensures less == sleep || exists addr :: Due(nextDial, now, addr, less)
    {
      kept, less := nextDial, sleep;
      var todo := nextDial.Keys;
      while todo != {}
        invariant todo <= nextDial.Keys
        invariant kept == map a | a in nextDial && (a in todo || nextDial[a] >= now) :: nextDial[a]
        invariant less <= sleep
                  && (forall a :: a in nextDial && a !in todo && nextDial[a] >= now ==> less <= nextDial[a] - now)
        invariant less == sleep || exists a :: Due(nextDial, now, a, less)
        decreases |todo|
      {
        var addr :| addr in todo;
        todo := todo - {addr};
        var next := nextDial[addr];
        if next < now {
          kept := kept - {addr};
        } else if next - now < less {
          less := next - now;
          assert Due(nextDial, now, addr, less);
        }
      }
    }

    method SleepDurationAndCleanup(now: Time) returns (sleep: int)
      modifies this
      ensures devices == Cleanup(old(devices), now)
      ensures IsSleep(old(devices), now, sleep)
    {
      sleep := STD_SLEEP;
      ghost var was := devices;
      var todo := devices.Keys;
      while todo != {}
        invariant todo <= was.Keys
        invariant devices == CleanedExcept(was, todo, now)
        invariant sleep <= STD_SLEEP
        invariant forall d :: d in was && d !in todo ==> NoneEarlier(was[d].nextDial, now, sleep)
        invariant sleep == STD_SLEEP || exists d, addr :: d in was && Due(was[d].nextDial, now, addr, sleep)
        decreases |todo|
      {
        var d :| d in todo;
        CleanedNext(was, todo, d, now);
        todo := todo - {d};
        var dev := devices[d];
        var kept, less := CleanDials(dev.nextDial, now, sleep);
        sleep := less;
        var gone := CleanDevice(dev, kept, now);
        if gone {
          devices := devices - {d};
        } else {
          devices := devices[d := dev.(nextDial := kept)];
        }
      }
    }

    /** Whether the cleanup deletes a device of which it kept these dials. The attempts are reset on a
        copy of the entry. */
    static method CleanDevice(dev: NextDial, kept: map<string, Time>, now: Time) returns (gone: bool)
      requires kept == Fresh(dev.nextDial, now)
      ensures gone == Forgotten(dev, now)
    {
      var attempts := dev.attempts;
      if attempts > 0 {
        var interval := COOL_DOWN_INTERVAL;
        if attempts >= COOL_DOWN_MAX_ATTEMPTS {
          interval := COOL_DOWN_DELAY;
        }
        if now > dev.start + interval {
          attempts := 0;
        }
      }
      gone := kept == map[] && attempts == 0;
    }
  }

  // ---------------------------------------------------------------- runs

  datatype Op = SetOp(d: Device, addr: string, next: Time) | RedialOp(d: Device) | CleanupOp

  datatype Event = Event(time: Time, op: Op)

  function Apply(r: Registry, e: Event): Registry {
    match e.op
    case SetOp(d, addr, next) => Set(r, d, addr, next)
    case RedialOp(d) => Redial(r, d, e.time)
    case CleanupOp => Cleanup(r, e.time)
  }

  function Run(r: Registry, events: seq<Event>): Registry {
    if events == [] then r else Apply(Run(r, events[..|events| - 1]), events[|events| - 1])
  }

  predicate InOrder(events: seq<Event>) {
    forall i, j :: 0 <= i < j < |events| ==> events[i].time <= events[j].time
  }

  /** A forced redial goes through when it changes the registry. */
  predicate Clears(r: Registry, d: Device, e: Event) {
    e.op == RedialOp(d) && Redial(r, d, e.time) != r
  }

  function Count(r: Registry, events: seq<Event>, d: Device): nat {
    if events == [] then 0
    else
      var before := events[..|events| - 1];
      Count(r, before, d) + if Clears(Run(r, before), d, events[|events| - 1]) then 1 else 0
  }

  /** A forced redial that goes through leaves the device without dial times and everybody else as they
      were; one that does not is one during a cool-down. The device is forgotten when its epoch is over. */
  lemma RedialClears(r: Registry, d: Device, now: Time)
    ensures forall o :: o != d ==> ((o in Redial(r, d, now)) == (o in r)) && (o in r ==> Redial(r, d, now)[o] == r[o])
    ensures Redial(r, d, now) != r ==> forall addr :: Get(Redial(r, d, now), d, addr) == ZERO_TIME
    ensures Redial(r, d, now) == r <==>
      d in r && r[d].attempts >= 3 && now < r[d].start + 5 * MINUTE
    ensures d !in Redial(r, d, now) <==>
      && d in r && r[d].attempts > 0 && now >= r[d].start + 2 * MINUTE
      && (r[d].attempts < 3 || now >= r[d].start + 5 * MINUTE)
  {
  }

  // ---------------------------------------------------------------- dial times

  /** After a cleanup an address has a dial time exactly if it had one that is not overdue, and it is the
      same one. */
  lemma CleanupKeepsUpcoming(r: Registry, now: Time, d: Device, addr: string)
    ensures var c := Cleanup(r, now); var upcoming := d in r && addr in r[d].nextDial && r[d].nextDial[addr] >= now;
            && (d in c && addr in c[d].nextDial <==> upcoming)
            && (upcoming ==> c[d].nextDial[addr] == r[d].nextDial[addr])
            && Get(c, d, addr) == if upcoming then r[d].nextDial[addr] else 0
  {
    if d in r && addr in r[d].nextDial && r[d].nextDial[addr] >= now {
      assert addr in Fresh(r[d].nextDial, now);
      assert Fresh(r[d].nextDial, now) != map[];
    }
  }

  /** A device is forgotten exactly if all its dials are overdue and it has no forced redials to count:
      none since two minutes, or five after three of them. One that is kept keeps what is counted. */
  lemma CleanupForgetsIff(r: Registry, now: Time, d: Device)
    ensures d !in r ==> d !in Cleanup(r, now)
    ensures d in r ==>
      (d !in Cleanup(r, now) <==>
        && (forall addr :: addr in r[d].nextDial ==> r[d].nextDial[addr] < now)
        && (r[d].attempts == 0
            || now - r[d].start > if r[d].attempts >= 3 then 300_000_000_000 else 120_000_000_000))
    ensures d in Cleanup(r, now) ==>
      Cleanup(r, now)[d].start == r[d].start && Cleanup(r, now)[d].attempts == r[d].attempts
  {
    if d in r {
      var upcoming := Fresh(r[d].nextDial, now);
      if upcoming != map[] {
        var addr :| addr in upcoming;
        assert addr in r[d].nextDial && r[d].nextDial[addr] >= now;
      } else {
        forall addr | addr in r[d].nextDial ensures r[d].nextDial[addr] < now { assert addr !in upcoming; }
      }
    }
  }

  /** The sleep in plain numbers: never negative, never over a minute, never past an upcoming dial, and
      a minute or just the time to one. */
  lemma SleepIs(r: Registry, now: Time, sleep: int)
    requires IsSleep(r, now, sleep)
    ensures 0 <= sleep <= 60_000_000_000
    ensures forall d, addr :: d in r && addr in r[d].nextDial && r[d].nextDial[addr] >= now ==>
              now + sleep <= r[d].nextDial[addr]
    ensures sleep == 60_000_000_000
         || exists d, addr :: d in r && addr in r[d].nextDial && r[d].nextDial[addr] == now + sleep
  {
    forall d, addr | d in r && addr in r[d].nextDial && r[d].nextDial[addr] >= now
      ensures now + sleep <= r[d].nextDial[addr]
    {
      assert NoneEarlier(r[d].nextDial, now, sleep);
    }
    if sleep != STD_SLEEP {
      var d, addr :| d in r && Due(r[d].nextDial, now, addr, sleep);
      assert addr in r[d].nextDial && r[d].nextDial[addr] == now + sleep;
    }
  }

  /** The dial time of an address by the history alone: the one set last, unless a forced redial of the
      device went through since, or a cleanup found it overdue. Zero for none. */
  function DialTime(events: seq<Event>, d: Device, addr: string): Time {
    if events == [] then 0
    else
      var before, e := events[..|events| - 1], events[|events| - 1];
      match e.op
      case SetOp(o, a, next) => if o == d && a == addr then next else DialTime(before, d, addr)
      case RedialOp(o) => if Clears(Run(map[], before), d, e) then 0 else DialTime(before, d, addr)
      case CleanupOp => if DialTime(before, d, addr) < e.time then 0 else DialTime(before, d, addr)
  }

  /** Setting a time sets that one and no other. */
  lemma GetAfterSet(r: Registry, d: Device, addr: string, next: Time, o: Device, a: string)
    ensures Get(Set(r, d, addr, next), o, a) == if o == d && a == addr then next else Get(r, o, a)
  {
  }

  /** The registry shows the history, as long as the clock is past zero. */
  lemma {:induction false} GetShowsHistory(events: seq<Event>, d: Device, addr: string)
    requires forall i :: 0 <= i < |events| ==> events[i].time > 0
    ensures Get(Run(map[], events), d, addr) == DialTime(events, d, addr)
  {
    if events != [] {
      var before, e := events[..|events| - 1], events[|events| - 1];
      var r := Run(map[], before);
      GetShowsHistory(before, d, addr);
      match e.op {
        case SetOp(o, a, next) => GetAfterSet(r, o, a, next, d, addr);
        case RedialOp(o) => RedialClears(r, o, e.time);
        case CleanupOp => CleanupKeepsUpcoming(r, e.time, d, addr);
      }
    }
  }

  // ---------------------------------------------------------------- one device

  /** What the registry knows of the forced redials of a device. */
  datatype Epoch = NoEpoch | Epoch(start: Time, attempts: nat)

  function EpochOf(r: Registry, d: Device): Epoch {
    if d in r && r[d].attempts > 0 then Epoch(r[d].start, r[d].attempts) else NoEpoch
  }

  /** An epoch may only start, count, and end. */
  lemma EpochStep(r: Registry, e: Event, d: Device)
    ensures var a := EpochOf(r, d); var b := EpochOf(Apply(r, e), d);
            if Clears(r, d, e) then
              && (a.NoEpoch? ==> b == Epoch(e.time, 1))
              && (a.Epoch? && e.time < a.start + 2 * MINUTE ==> a.attempts < 3 && b == Epoch(a.start, a.attempts + 1))
              && (a.Epoch? && e.time >= a.start + 2 * MINUTE ==>
                  (a.attempts < 3 || e.time >= a.start + 5 * MINUTE) && b == NoEpoch)
            else
              || b == a
              || (a.Epoch? && b == NoEpoch && e.time > a.start + (if a.attempts >= 3 then 5 else 2) * MINUTE)
  {
  }

  lemma RunSnoc(r: Registry, events: seq<Event>, e: Event, d: Device)
    ensures Run(r, events + [e]) == Apply(Run(r, events), e)
    ensures Count(r, events + [e], d) == Count(r, events, d) + if Clears(Run(r, events), d, e) then 1 else 0
  {
  }

  lemma {:induction false} RunJoins(r: Registry, before: seq<Event>, after: seq<Event>, d: Device)
    ensures Run(r, before + after) == Run(Run(r, before), after)
    ensures Count(r, before + after, d) == Count(r, before, d) + Count(Run(r, before), after, d)
  {
    if after == [] {
      assert before + after == before;
    } else {
      var rest := after[..|after| - 1];
      assert before + after == (before + rest) + [after[|after| - 1]];
      RunSnoc(r, before + rest, after[|after| - 1], d);
      RunJoins(r, before, rest, d);
    }
  }

  /** The times of a run that begins no earlier than `from` and ends no later than `to`. */
  predicate Within(events: seq<Event>, from: Time, to: Time) {
    InOrder(events) && forall i :: 0 <= i < |events| ==> from <= events[i].time <= to
  }

  // ---------------------------------------------------------------- the cool-down

  /** While a device cools down, nothing forces a redial, whatever else happens. */
  lemma {:induction false} CoolDownHolds(r: Registry, events: seq<Event>, d: Device)
    requires EpochOf(r, d).Epoch? && r[d].attempts >= 3
    requires forall i :: 0 <= i < |events| ==> events[i].time < r[d].start + 5 * MINUTE
    ensures Count(r, events, d) == 0
    ensures EpochOf(Run(r, events), d) == EpochOf(r, d)
  {
    if events != [] {
      var before := events[..|events| - 1];
      CoolDownHolds(r, before, d);
      EpochStep(Run(r, before), events[|events| - 1], d);
    }
  }

  /** The redials that went through since the epoch of a device began, which was with the first of them. */
  ghost predicate EpochBegan(events: seq<Event>, d: Device, k: nat) {
    var b := EpochOf(Run(map[], events), d);
    && b.Epoch? && k < |events|
    && events[k] == Event(b.start, RedialOp(d))
    && Count(map[], events, d) == Count(map[], events[..k], d) + b.attempts
    && b.attempts <= 3
  }

  /** The attempts of an epoch are the forced redials that went through since it started. */
  lemma {:induction false} AttemptsCount(events: seq<Event>, d: Device) returns (k: nat)
    requires EpochOf(Run(map[], events), d).Epoch?
    ensures EpochBegan(events, d, k)
  {
    var before, e := events[..|events| - 1], events[|events| - 1];
    var r := Run(map[], before);
    EpochStep(r, e, d);
    if EpochOf(r, d).NoEpoch? {
      k := |events| - 1;
    } else {
      k := AttemptsCount(before, d);
      assert events[..k] == before[..k];
    }
  }

  /** A third forced redial in an epoch that began at time s: none goes through before s + 5 min. */
  lemma ThirdClearBlocks(before: seq<Event>, after: seq<Event>, d: Device, k: nat)
    requires EpochBegan(before, d, k)
    requires Count(map[], before, d) == Count(map[], before[..k], d) + 3
    requires forall i :: 0 <= i < |after| ==> after[i].time < before[k].time + 5 * MINUTE
    ensures Count(map[], before + after, d) == Count(map[], before, d)
  {
    CoolDownHolds(Run(map[], before), after, d);
    RunJoins(map[], before, after, d);
  }

  // ---------------------------------------------------------------- the rate

  /** Whole cool-down intervals in a span of time. */
  function Intervals(span: int): int { span / COOL_DOWN_INTERVAL }

  /** The most redials of a device that go through in a span of time. */
  function MostRedials(span: int): int {
    3 * Intervals(span) + if span % COOL_DOWN_INTERVAL == 0 then 4 else 5
  }

  /** What n redials since time w say about the epoch after them. */
  predicate Paid(b: Epoch, w: Time, now: Time, n: nat) {
    match b
    case NoEpoch => n <= MostRedials(now - w) - 3
    case Epoch(s, a) =>
      && 1 <= a <= 3 && s <= now
      && if s < w then n < a && (n > 0 ==> w < s + COOL_DOWN_INTERVAL)
         else n <= MostRedials(s - w) - 3 + a
  }

  lemma MostRedialsGrow(span: nat, more: nat, n: nat)
    requires more >= span + n * COOL_DOWN_INTERVAL
    ensures MostRedials(more) >= MostRedials(span) + 3 * n
  {
  }

  lemma {:induction false} AttemptsBounded(events: seq<Event>, d: Device, now: Time)
    requires InOrder(events) && (events != [] ==> events[|events| - 1].time <= now)
    ensures var b := EpochOf(Run(map[], events), d); b.Epoch? ==> 1 <= b.attempts <= 3 && b.start <= now
  {
    if events != [] {
      var before := events[..|events| - 1];
      AttemptsBounded(before, d, events[|events| - 1].time);
      EpochStep(Run(map[], before), events[|events| - 1], d);
    }
  }

  /** An epoch that ends at `now` has paid for what it let through. */
  lemma EpochPays(s: Time, a: nat, w: Time, last: Time, now: Time, n: nat)
    requires Paid(Epoch(s, a), w, last, n) && w <= last <= now
    requires now >= s + (if a >= 3 then 5 else 2) * MINUTE
    ensures n + 1 <= MostRedials(now - w) - 3
  {
  }

  lemma StepPays(r: Registry, e: Event, d: Device, w: Time, last: Time, n: nat)
    requires Paid(EpochOf(r, d), w, last, n) && w <= last <= e.time
    ensures Paid(EpochOf(Apply(r, e), d), w, e.time, if Clears(r, d, e) then n + 1 else n)
  {
    var a := EpochOf(r, d);
    var b := EpochOf(Apply(r, e), d);
    EpochStep(r, e, d);
    if a.Epoch? {
      if b.NoEpoch? { EpochPays(a.start, a.attempts, w, last, e.time, n); }
    } else {
      MostRedialsGrow(last - w, e.time - w, 0);
    }
  }

  lemma {:induction false} WindowPays(r: Registry, window: seq<Event>, d: Device, w: Time, now: Time)
    requires Within(window, w, now) && w <= now
    requires var b := EpochOf(r, d); b.Epoch? ==> 1 <= b.attempts <= 3 && b.start <= w
    ensures var last := if window == [] then w else window[|window| - 1].time;
            Paid(EpochOf(Run(r, window), d), w, last, Count(r, window, d))
  {
    if window == [] {
      assert MostRedials(0) == 4;
    } else {
      var rest := window[..|window| - 1];
      WindowPays(r, rest, d, w, now);
      var last := if rest == [] then w else rest[|rest| - 1].time;
      StepPays(Run(r, rest), window[|window| - 1], d, w, last, Count(r, rest, d));
    }
  }

  /** A window of events after a run, both in order of time. */
  predicate WindowAfter(before: seq<Event>, window: seq<Event>, w: Time, span: nat) {
    InOrder(before) && (|before| > 0 ==> before[|before| - 1].time <= w) && Within(window, w, w + span)
  }

  /** Three forced redials of a device for every cool-down interval, and four or five more, is the most
      that goes through in a span of time, whatever interleaving of dials, redials and cleanups. */
  lemma RedialRate(before: seq<Event>, window: seq<Event>, d: Device, w: Time, span: nat)
    requires WindowAfter(before, window, w, span)
    ensures Count(Run(map[], before), window, d) <= MostRedials(span)
  {
    var r := Run(map[], before);
    AttemptsBounded(before, d, w);
    WindowPays(r, window, d, w, w + span);
    var b := EpochOf(Run(r, window), d);
    var last := if window == [] then w else window[|window| - 1].time;
    MostRedialsGrow(last - w, span, 0);
    MostRedialsGrow(0, span, 0);
    if b.Epoch? && b.start >= w { MostRedialsGrow(b.start - w, span, 0); }
  }

  // ---------------------------------------------------------------- the rate is exact

  function Twice(t: Time, d: Device): seq<Event> { [Event(t, RedialOp(d)), Event(t, RedialOp(d))] }

  function Thrice(t: Time, d: Device): seq<Event> { Twice(t, d) + [Event(t, RedialOp(d))] }

  /** Three redials at the end of every interval: the one that ends an epoch and two of the next. */
  function Rounds(d: Device, n: nat): seq<Event> {
    if n == 0 then [] else Rounds(d, n - 1) + Thrice(n * COOL_DOWN_INTERVAL, d)
  }

  /** Rounds and a last burst of four. */
  function Burst(d: Device, n: nat): seq<Event> {
    Rounds(d, n + 1) + [Event((n + 1) * COOL_DOWN_INTERVAL, RedialOp(d))]
  }

  lemma TwiceFromNoEpoch(r: Registry, t: Time, d: Device)
    requires EpochOf(r, d).NoEpoch?
    ensures EpochOf(Run(r, Twice(t, d)), d) == Epoch(t, 2) && Count(r, Twice(t, d), d) == 2
  {
    var e := Event(t, RedialOp(d));
    var none: seq<Event> := [];
    assert none + [e] == [e] && [e] + [e] == Twice(t, d);
    RunSnoc(r, none, e, d);
    RunSnoc(r, [e], e, d);
    assert EpochOf(Apply(r, e), d) == Epoch(t, 1);
  }

  lemma ThriceEndsAnEpoch(r: Registry, s: Time, t: Time, d: Device)
    requires EpochOf(r, d) == Epoch(s, 2) && t >= s + COOL_DOWN_INTERVAL
    ensures EpochOf(Run(r, Thrice(t, d)), d) == Epoch(t, 2) && Count(r, Thrice(t, d), d) == 3
  {
    var e := Event(t, RedialOp(d));
    assert Thrice(t, d) == [e] + Twice(t, d);
    var none: seq<Event> := [];
    assert none + [e] == [e];
    RunSnoc(r, none, e, d);
    TwiceFromNoEpoch(Apply(r, e), t, d);
    RunJoins(r, [e], Twice(t, d), d);
  }

  lemma {:induction false} RoundsLetThreeThrough(r: Registry, d: Device, n: nat)
    requires EpochOf(r, d) == Epoch(0, 2)
    ensures EpochOf(Run(r, Rounds(d, n)), d) == Epoch(n * COOL_DOWN_INTERVAL, 2)
    ensures Count(r, Rounds(d, n), d) == 3 * n
  {
    if n > 0 {
      RoundsLetThreeThrough(r, d, n - 1);
      ThriceEndsAnEpoch(Run(r, Rounds(d, n - 1)), (n - 1) * COOL_DOWN_INTERVAL, n * COOL_DOWN_INTERVAL, d);
      RunJoins(r, Rounds(d, n - 1), Thrice(n * COOL_DOWN_INTERVAL, d), d);
    }
  }

  lemma BurstCount(r: Registry, d: Device, n: nat)
    requires EpochOf(r, d) == Epoch(0, 2)
    ensures Count(r, Burst(d, n), d) == 3 * n + 4
  {
    var last := Event((n + 1) * COOL_DOWN_INTERVAL, RedialOp(d));
    RoundsLetThreeThrough(r, d, n + 1);
    RunSnoc(r, Rounds(d, n + 1), last, d);
    EpochStep(Run(r, Rounds(d, n + 1)), last, d);
  }

  lemma WithinJoins(a: seq<Event>, b: seq<Event>, from: Time, mid: Time, to: Time)
    requires Within(a, from, mid) && Within(b, mid, to) && from <= mid <= to
    ensures Within(a + b, from, to)
  {
  }

  lemma ThriceWithin(d: Device, from: Time, t: Time)
    requires from <= t
    ensures Within(Thrice(t, d), from, t)
  {
  }

  lemma {:induction false} RoundsWithin(d: Device, n: nat)
    ensures Within(Rounds(d, n), COOL_DOWN_INTERVAL, n * COOL_DOWN_INTERVAL)
  {
    if n == 1 {
      ThriceWithin(d, COOL_DOWN_INTERVAL, COOL_DOWN_INTERVAL);
      assert Rounds(d, 0) == [];
      assert Rounds(d, 1) == Thrice(COOL_DOWN_INTERVAL, d);
    } else if n > 1 {
      RoundsWithin(d, n - 1);
      var mid, to := (n - 1) * COOL_DOWN_INTERVAL, n * COOL_DOWN_INTERVAL;
      ThriceWithin(d, mid, to);
      WithinJoins(Rounds(d, n - 1), Thrice(to, d), COOL_DOWN_INTERVAL, mid, to);
    }
  }

  lemma BurstWithin(d: Device, n: nat)
    ensures Within(Burst(d, n), COOL_DOWN_INTERVAL, (n + 1) * COOL_DOWN_INTERVAL)
  {
    RoundsWithin(d, n + 1);
    var to := (n + 1) * COOL_DOWN_INTERVAL;
    WithinJoins(Rounds(d, n + 1), [Event(to, RedialOp(d))], COOL_DOWN_INTERVAL, to, to);
  }

  lemma ReachedOnWholeIntervals(d: Device, n: nat)
    ensures WindowAfter(Twice(0, d), Burst(d, n), COOL_DOWN_INTERVAL, n * COOL_DOWN_INTERVAL)
    ensures Count(Run(map[], Twice(0, d)), Burst(d, n), d) == 3 * n + 4
  {
    BurstWithin(d, n);
    TwiceFromNoEpoch(map[], 0, d);
    BurstCount(Run(map[], Twice(0, d)), d, n);
  }

  /** One redial long ago, another just before its interval is over, and then a burst. */
  lemma ReachedWithOneMore(d: Device, n: nat)
    ensures var before, first := [Event(0, RedialOp(d))], [Event(COOL_DOWN_INTERVAL - 1, RedialOp(d))];
            && WindowAfter(before, first + Burst(d, n), COOL_DOWN_INTERVAL - 1, n * COOL_DOWN_INTERVAL + 1)
            && Count(Run(map[], before), first + Burst(d, n), d) == 3 * n + 5
  {
    var e, first := Event(0, RedialOp(d)), Event(COOL_DOWN_INTERVAL - 1, RedialOp(d));
    BurstWithin(d, n);
    WithinJoins([first], Burst(d, n), COOL_DOWN_INTERVAL - 1, COOL_DOWN_INTERVAL, (n + 1) * COOL_DOWN_INTERVAL);
    var r := OneRedial(map[], e, d);
    var r1 := OneRedial(r, first, d);
    BurstCount(r1, d, n);
    RunJoins(r, [first], Burst(d, n), d);
  }

  lemma OneRedial(r: Registry, e: Event, d: Device) returns (next: Registry)
    requires e.op == RedialOp(d)
    requires EpochOf(r, d).Epoch? ==> e.time < r[d].start + COOL_DOWN_INTERVAL && r[d].attempts < 3
    ensures next == Run(r, [e]) && Count(r, [e], d) == 1
    ensures EpochOf(next, d)
            == if EpochOf(r, d).NoEpoch? then Epoch(e.time, 1) else Epoch(r[d].start, r[d].attempts + 1)
  {
    next := Run(r, [e]);
    var none: seq<Event> := [];
    assert none + [e] == [e];
    RunSnoc(r, none, e, d);
    EpochStep(r, e, d);
  }

  lemma WiderWindow(before: seq<Event>, window: seq<Event>, w: Time, span: nat, wider: nat)
    requires WindowAfter(before, window, w, span) && span <= wider
    ensures WindowAfter(before, window, w, wider)
  {
  }

  /** For every span some run lets that many redials through. */
  lemma RateIsReached(d: Device, span: nat) returns (before: seq<Event>, window: seq<Event>, w: Time)
    ensures WindowAfter(before, window, w, span)
    ensures Count(Run(map[], before), window, d) == MostRedials(span)
  {
    var n := Intervals(span);
    if span % COOL_DOWN_INTERVAL == 0 {
      before, window, w := Twice(0, d), Burst(d, n), COOL_DOWN_INTERVAL;
      ReachedOnWholeIntervals(d, n);
      WiderWindow(before, window, w, n * COOL_DOWN_INTERVAL, span);
    } else {
      var first := [Event(COOL_DOWN_INTERVAL - 1, RedialOp(d))];
      before, window, w := [Event(0, RedialOp(d))], first + Burst(d, n), COOL_DOWN_INTERVAL - 1;
      ReachedWithOneMore(d, n);
      WiderWindow(before, window, w, n * COOL_DOWN_INTERVAL + 1, span);
    }
  }

  /** A bound of four redials for every started interval. */
  ghost predicate FourPerInterval(d: Device, span: nat) {
    forall before, window, w :: WindowAfter(before, window, w, span)
      ==> Count(Run(map[], before), window, d) <= 4 * (Intervals(span) + 1)
  }

  /** It holds for an instant and for spans of an interval or more; below two minutes a fifth redial can
      go through. */
  lemma FourPerIntervalIff(d: Device, span: nat)
    ensures FourPerInterval(d, span) <==> span == 0 || span >= COOL_DOWN_INTERVAL
  {
    if span == 0 || span >= COOL_DOWN_INTERVAL {
      forall before, window, w | WindowAfter(before, window, w, span)
        ensures Count(Run(map[], before), window, d) <= 4 * (Intervals(span) + 1)
      {
        RedialRate(before, window, d, w, span);
      }
    } else {
      var before, window, w := RateIsReached(d, span);
      assert MostRedials(span) == 5;
    }
  }
}
