/** The event logger (lib/events/events.go): every subscription gets its own gap-counting numbers,
    however subscriptions come and go. */
module EventLogger {
  import opened Options
  import opened Slices

  /** The order of creation stands for the identity of a subscription. */
  type SubID = nat

  /** Each event has one type, a mask is a set of types. */
  type EventType = nat

  datatype Event = Event(id: int, globalID: int, kind: EventType, data: nat)

  /** What the logger knows of its subscriptions: the next ID of the live ones, the mask of all ever
      made, and what each got on its channel. */
  datatype State = State(
    next: map<SubID, int>, masks: map<SubID, set<EventType>>, got: map<SubID, seq<Event>>,
    sent: nat, made: nat)

  predicate Wants(s: State, sub: SubID, kind: EventType) {
    sub in s.next && sub in s.masks && kind in s.masks[sub]
  }

  function Subscribed(s: State, mask: set<EventType>): State {
    State(s.next[s.made := 1], s.masks[s.made := mask], s.got[s.made := []], s.sent, s.made + 1)
  }

  function Unsubscribed(s: State, sub: SubID): State {
    s.(next := s.next - {sub})
  }

  function NextAfter(s: State, sub: SubID, kind: EventType): int
    requires sub in s.next
  {
    if Wants(s, sub, kind) then s.next[sub] + 1 else s.next[sub]
  }

  /** What a subscription has got once an event was sent; it is dropped for those not ready in time. */
  function GotAfter(s: State, sub: SubID, kind: EventType, data: nat, ready: set<SubID>): seq<Event>
    requires sub in s.got
  {
    if Wants(s, sub, kind) && sub in ready then s.got[sub] + [Event(s.next[sub], s.sent + 1, kind, data)]
    else s.got[sub]
  }

  function Sent(s: State, kind: EventType, data: nat, ready: set<SubID>): State {
    State(
      map sub | sub in s.next :: NextAfter(s, sub, kind),
      s.masks,
      map sub | sub in s.got :: GotAfter(s, sub, kind, data, ready),
      s.sent + 1, s.made)
  }

  // ---------------------------------------------------------------- the parallel arrays

  ghost predicate Distinct(subs: seq<SubID>) {
    forall i, j :: 0 <= i < j < |subs| ==> subs[i] != subs[j]
  }

  /** The arrays hold the map, one pair at each position. */
  ghost predicate Holds(subs: seq<SubID>, ids: seq<int>, next: map<SubID, int>) {
    && |subs| == |ids| && Distinct(subs)
    && (forall i :: 0 <= i < |subs| ==> subs[i] in next && next[subs[i]] == ids[i])
    && (forall s: SubID :: s in next ==> s in subs)
  }

  lemma SwapOutDistinct(subs: seq<SubID>, i: nat)
    requires Distinct(subs) && i < |subs|
    ensures Distinct(SwapOut(subs, i))
    ensures forall s :: s in SwapOut(subs, i) <==> s in subs && s != subs[i]
  {
    var vs, last := SwapOut(subs, i), |subs| - 1;
    forall s | s in subs && s != subs[i]
      ensures s in vs
    {
      var j :| 0 <= j < |subs| && subs[j] == s;
      assert vs[if j == last then i else j] == s;
    }
  }

  lemma SwapOutHolds(subs: seq<SubID>, ids: seq<int>, next: map<SubID, int>, i: nat)
    requires Holds(subs, ids, next) && i < |subs|
    ensures Holds(SwapOut(subs, i), SwapOut(ids, i), next - {subs[i]})
  {
    SwapOutDistinct(subs, i);
    var vs, ns, last := SwapOut(subs, i), SwapOut(ids, i), |subs| - 1;
    forall k | 0 <= k < |vs|
      ensures vs[k] in next && vs[k] != subs[i] && next[vs[k]] == ns[k]
    {
      assert vs[k] in vs;
      var from := if k == i then last else k;
      assert vs[k] == subs[from] && ns[k] == ids[from];
    }
  }

  lemma AppendHolds(subs: seq<SubID>, ids: seq<int>, next: map<SubID, int>, s: SubID, id: int)
    requires Holds(subs, ids, next) && s !in next
    ensures Holds(subs + [s], ids + [id], next[s := id])
  {
  }

  class Logger {
    var subs: seq<SubID>
    var nextSubscriptionIDs: seq<int>
    var nextGlobalID: nat
    var masks: map<SubID, set<EventType>>
    var channels: map<SubID, seq<Event>>
    var made: nat
    ghost var next: map<SubID, int>

    ghost predicate Valid()
      reads this
    {
      && Holds(subs, nextSubscriptionIDs, next)
      && (forall s: SubID :: s in masks <==> s < made)
      && (forall s: SubID :: s in channels <==> s < made)
      && (forall s: SubID :: s in next ==> s < made)
    }

    ghost function Now(): State
      reads this
    {
      State(next, masks, channels, nextGlobalID, made)
    }

    constructor ()
      ensures Valid() && Now() == Initial()
    {
      subs, nextSubscriptionIDs, nextGlobalID, masks, channels, made, next := [], [], 0, map[], map[], 0, map[];
    }

    method Subscribe(mask: set<EventType>) returns (s: SubID)
      requires Valid()
      modifies this
      ensures Valid() && Now() == Subscribed(old(Now()), mask) && s == old(made)
    {
      s := made;
      AppendHolds(subs, nextSubscriptionIDs, next, s, 1);
      made := made + 1;
      masks := masks[s := mask];
      channels := channels[s := []];
      subs := subs + [s];
      nextSubscriptionIDs := nextSubscriptionIDs + [1];
      next := next[s := 1];
    }

    /** The last pair takes the place of the i-th. */
    method RemoveAt(i: nat)
      requires i < |subs| && Holds(subs, nextSubscriptionIDs, next)
      modifies `subs, `nextSubscriptionIDs, `next
      ensures Holds(subs, nextSubscriptionIDs, next) && next == old(next) - {old(subs)[i]}
    {
      SwapOutHolds(subs, nextSubscriptionIDs, next, i);
      var last := |subs| - 1;
      next := next - {subs[i]};
      subs := subs[i := subs[last]];
      subs := subs[..last];
      nextSubscriptionIDs := nextSubscriptionIDs[i := nextSubscriptionIDs[last]];
      nextSubscriptionIDs := nextSubscriptionIDs[..last];
    }

    method Unsubscribe(s: SubID)
      requires Valid()
      modifies `subs, `nextSubscriptionIDs, `next
      ensures Valid() && Now() == Unsubscribed(old(Now()), s)
    {
      for i := 0 to |subs|
        invariant unchanged(this)
        invariant s !in subs[..i]
      {
        if subs[i] == s {
          RemoveAt(i);
          return;
        }
        assert subs[..i + 1] == subs[..i] + [subs[i]];
      }
      assert subs[..|subs|] == subs;
      assert s !in next;
      assert next - {s} == next;
    }

    /** Numbers the event for the i-th subscription and offers it. */
    method Offer(i: nat, e: Event, ready: set<SubID>)
      requires i < |subs| == |nextSubscriptionIDs| && subs[i] in masks && subs[i] in channels
      modifies `nextSubscriptionIDs, `channels
      ensures var s := subs[i]; var id := old(nextSubscriptionIDs)[i]; var wants := e.kind in masks[s];
              && nextSubscriptionIDs
                   == (if wants then old(nextSubscriptionIDs)[i := id + 1] else old(nextSubscriptionIDs))
              && channels
                 == if wants && s in ready then old(channels)[s := old(channels)[s] + [e.(id := id)]]
                    else old(channels)
    {
      var s := subs[i];
      if e.kind in masks[s] {
        var offered := e.(id := nextSubscriptionIDs[i]);
        nextSubscriptionIDs := nextSubscriptionIDs[i := nextSubscriptionIDs[i] + 1];
        if s in ready {
          channels := channels[s := channels[s] + [offered]];
        }
      }
    }

    method OfferNext(i: nat, e: Event, ready: set<SubID>, ghost was: State)
      requires i < |subs| && Distinct(subs) && e.globalID == was.sent + 1 && masks == was.masks
      requires PartlySent(was, subs, i, e, ready, nextSubscriptionIDs, channels)
      modifies `nextSubscriptionIDs, `channels
      ensures PartlySent(was, subs, i + 1, e, ready, nextSubscriptionIDs, channels)
    {
      ghost var ids, got := nextSubscriptionIDs, channels;
      Offer(i, e, ready);
      OneMoreSent(was, subs, i, e, ready, ids, got, nextSubscriptionIDs, channels);
    }

    method OfferAll(e: Event, ready: set<SubID>, ghost was: State)
      requires Distinct(subs) && e.globalID == was.sent + 1 && masks == was.masks
      requires PartlySent(was, subs, 0, e, ready, nextSubscriptionIDs, channels)
      modifies `nextSubscriptionIDs, `channels
      ensures PartlySent(was, subs, |subs|, e, ready, nextSubscriptionIDs, channels)
    {
      for i := 0 to |subs|
        invariant PartlySent(was, subs, i, e, ready, nextSubscriptionIDs, channels)
      {
        OfferNext(i, e, ready, was);
      }
    }

    method SendEvent(kind: EventType, data: nat, ready: set<SubID>)
      requires Valid()
      modifies `nextGlobalID, `nextSubscriptionIDs, `channels, `next
      ensures Valid() && Now() == Sent(old(Now()), kind, data, ready)
    {
      ghost var was := Now();
      nextGlobalID := nextGlobalID + 1;
      var e := Event(0, nextGlobalID, kind, data);
      OfferAll(e, ready, was);
      AllSent(was, subs, e, ready, nextSubscriptionIDs, channels);
      next := Sent(was, kind, data, ready).next;
    }
  }

  /** The next IDs when the first i subscriptions were offered an event. */
  ghost predicate Numbered(was: State, subs: seq<SubID>, i: nat, e: Event, ids: seq<int>) {
    && i <= |subs| == |ids|
    && (forall j :: 0 <= j < |subs| ==> subs[j] in was.next)
    && (forall j :: 0 <= j < |subs| ==> ids[j] == if j < i then NextAfter(was, subs[j], e.kind) else was.next[subs[j]])
  }

  /** The channels then. */
  ghost predicate Filled(was: State, subs: seq<SubID>, i: nat, e: Event, ready: set<SubID>,
      channels: map<SubID, seq<Event>>) {
    && i <= |subs| && channels.Keys == was.got.Keys
    && (forall s :: s in channels ==>
        channels[s] == if s in subs[..i] then GotAfter(was, s, e.kind, e.data, ready) else was.got[s])
  }

  ghost predicate PartlySent(was: State, subs: seq<SubID>, i: nat, e: Event, ready: set<SubID>, ids: seq<int>,
      channels: map<SubID, seq<Event>>) {
    && (forall j :: 0 <= j < |subs| ==> subs[j] in was.masks && subs[j] in was.got)
    && Numbered(was, subs, i, e, ids)
    && Filled(was, subs, i, e, ready, channels)
  }

  lemma OneMoreSent(was: State, subs: seq<SubID>, i: nat, e: Event, ready: set<SubID>, ids: seq<int>,
      channels: map<SubID, seq<Event>>, newIDs: seq<int>, newChannels: map<SubID, seq<Event>>)
    requires i < |subs| && Distinct(subs) && PartlySent(was, subs, i, e, ready, ids, channels)
    requires e.globalID == was.sent + 1
    requires var s := subs[i]; var wants := e.kind in was.masks[s];
             && newIDs == (if wants then ids[i := ids[i] + 1] else ids)
             && newChannels
                == (if wants && s in ready then channels[s := channels[s] + [e.(id := ids[i])]] else channels)
    ensures PartlySent(was, subs, i + 1, e, ready, newIDs, newChannels)
  {
    var s := subs[i];
    assert Wants(was, s, e.kind) <==> e.kind in was.masks[s];
    OneMoreNumbered(was, subs, i, e, ids, newIDs);
    assert s !in subs[..i];
    OneMoreFilled(was, subs, i, e, ready, channels, newChannels);
  }

  lemma OneMoreNumbered(was: State, subs: seq<SubID>, i: nat, e: Event, ids: seq<int>, newIDs: seq<int>)
    requires i < |subs| && Numbered(was, subs, i, e, ids)
    requires newIDs == if Wants(was, subs[i], e.kind) then ids[i := ids[i] + 1] else ids
    ensures Numbered(was, subs, i + 1, e, newIDs)
  {
  }

  lemma OneMoreFilled(was: State, subs: seq<SubID>, i: nat, e: Event, ready: set<SubID>,
      channels: map<SubID, seq<Event>>, newChannels: map<SubID, seq<Event>>)
    requires i < |subs| && subs[i] !in subs[..i] && subs[i] in was.next && subs[i] in was.got
             && Filled(was, subs, i, e, ready, channels)
    requires e.globalID == was.sent + 1
    requires var s := subs[i];
             newChannels
             == if Wants(was, s, e.kind) && s in ready then channels[s := channels[s] + [e.(id := was.next[s])]]
                else channels
    ensures Filled(was, subs, i + 1, e, ready, newChannels)
  {
  }

  lemma AllSent(was: State, subs: seq<SubID>, e: Event, ready: set<SubID>, ids: seq<int>,
      channels: map<SubID, seq<Event>>)
    requires PartlySent(was, subs, |subs|, e, ready, ids, channels) && Distinct(subs)
    requires forall s: SubID :: s in was.next ==> s in subs
    ensures Holds(subs, ids, Sent(was, e.kind, e.data, ready).next)
    ensures channels == Sent(was, e.kind, e.data, ready).got
  {
    assert subs[..|subs|] == subs;
    forall s | s in channels
      ensures channels[s] == GotAfter(was, s, e.kind, e.data, ready)
    {
      if s !in subs { assert !Wants(was, s, e.kind); }
    }
  }

  // ---------------------------------------------------------------- runs

  datatype Op =
    | Subscribe(mask: set<EventType>) | Unsubscribe(sub: SubID)
    | Send(kind: EventType, data: nat, ready: set<SubID>)

  function Initial(): State { State(map[], map[], map[], 0, 0) }

  function Step(s: State, op: Op): State {
    match op
    case Subscribe(mask) => Subscribed(s, mask)
    case Unsubscribe(sub) => Unsubscribed(s, sub)
    case Send(kind, data, ready) => Sent(s, kind, data, ready)
  }

  function Run(ops: seq<Op>): State {
    if ops == [] then Initial() else Step(Run(ops[..|ops| - 1]), ops[|ops| - 1])
  }

  // The history of a run, without the state of the logger.

  function Subscriptions(ops: seq<Op>): nat {
    if ops == [] then 0 else Subscriptions(ops[..|ops| - 1]) + if ops[|ops| - 1].Subscribe? then 1 else 0
  }

  function Sends(ops: seq<Op>): nat {
    if ops == [] then 0 else Sends(ops[..|ops| - 1]) + if ops[|ops| - 1].Send? then 1 else 0
  }

  /** The mask of a live subscription: it was made and not removed since. */
  function Live(ops: seq<Op>, sub: SubID): Option<set<EventType>> {
    if ops == [] then None
    else
      var before := ops[..|ops| - 1];
      match ops[|ops| - 1]
      case Subscribe(mask) => if sub == Subscriptions(before) then Some(mask) else Live(before, sub)
      case Unsubscribe(u) => if u == sub then None else Live(before, sub)
      case Send(_, _, _) => Live(before, sub)
  }

  /** An event that a subscription was meant to get, and whether it took it in time. */
  datatype Offer = Offer(globalID: nat, kind: EventType, data: nat, taken: bool)

  predicate IsOffered(ops: seq<Op>, sub: SubID, op: Op) {
    op.Send? && Live(ops, sub).Some? && op.kind in Live(ops, sub).value
  }

  /** All events with a matching type sent while the subscription was live. */
  function Offered(ops: seq<Op>, sub: SubID): seq<Offer> {
    if ops == [] then []
    else
      var before, op := ops[..|ops| - 1], ops[|ops| - 1];
      Offered(before, sub) +
      if IsOffered(before, sub, op) then [Offer(Sends(before) + 1, op.kind, op.data, sub in op.ready)] else []
  }

  /** What is delivered of them: those taken, numbered by their place among all. */
  function Delivered(offers: seq<Offer>): seq<Event> {
    if offers == [] then []
    else
      var o := offers[|offers| - 1];
      Delivered(offers[..|offers| - 1]) + if o.taken then [Event(|offers|, o.globalID, o.kind, o.data)] else []
  }

  function Dropped(offers: seq<Offer>): nat {
    if offers == [] then 0 else Dropped(offers[..|offers| - 1]) + if offers[|offers| - 1].taken then 0 else 1
  }

  /** What the state of the logger says of one subscription. */
  ghost predicate Agrees(s: State, ops: seq<Op>, sub: SubID) {
    && (sub in s.masks <==> sub < s.made)
    && (sub in s.got <==> sub < s.made)
    && (sub >= s.made ==> sub !in s.next && Live(ops, sub).None? && Offered(ops, sub) == [])
    && (sub in s.next <==> Live(ops, sub).Some?)
    && (sub in s.next ==>
        sub < s.made && Live(ops, sub) == Some(s.masks[sub]) && s.next[sub] == |Offered(ops, sub)| + 1)
    && (sub < s.made ==> s.got[sub] == Delivered(Offered(ops, sub)))
  }

  lemma {:induction false} Counts(ops: seq<Op>)
    ensures Run(ops).made == Subscriptions(ops) && Run(ops).sent == Sends(ops)
  {
    if ops != [] { Counts(ops[..|ops| - 1]); }
  }

  lemma SendAgrees(s: State, before: seq<Op>, ops: seq<Op>, sub: SubID)
    requires ops != [] && ops[..|ops| - 1] == before && ops[|ops| - 1].Send?
    requires Agrees(s, before, sub) && s.sent == Sends(before)
    ensures Agrees(Step(s, ops[|ops| - 1]), ops, sub)
  {
    var op := ops[|ops| - 1];
    assert Live(ops, sub) == Live(before, sub);
    assert IsOffered(before, sub, op) <==> Wants(s, sub, op.kind);
    var offers := Offered(ops, sub);
    if IsOffered(before, sub, op) {
      assert offers[..|offers| - 1] == Offered(before, sub);
    } else {
      assert offers == Offered(before, sub);
    }
  }

  lemma ChangeAgrees(s: State, before: seq<Op>, ops: seq<Op>, sub: SubID)
    requires ops != [] && ops[..|ops| - 1] == before && !ops[|ops| - 1].Send?
    requires Agrees(s, before, sub) && s.made == Subscriptions(before)
    ensures Agrees(Step(s, ops[|ops| - 1]), ops, sub)
  {
    assert Offered(ops, sub) == Offered(before, sub);
  }

  lemma {:induction false} HistoryAgrees(ops: seq<Op>, sub: SubID)
    ensures Agrees(Run(ops), ops, sub)
  {
    if ops != [] {
      var before := ops[..|ops| - 1];
      HistoryAgrees(before, sub);
      Counts(before);
      if ops[|ops| - 1].Send? {
        SendAgrees(Run(before), before, ops, sub);
      } else {
        ChangeAgrees(Run(before), before, ops, sub);
      }
    }
  }

  ghost predicate Increasing(s: seq<Event>) {
    forall i, j :: 0 <= i < j < |s| ==> s[i].id < s[j].id && s[i].globalID < s[j].globalID
  }

  lemma {:induction false} DeliveredIncreases(offers: seq<Offer>)
    requires forall i, j :: 0 <= i < j < |offers| ==> offers[i].globalID < offers[j].globalID
    ensures Increasing(Delivered(offers))
    ensures forall e :: e in Delivered(offers) ==>
            1 <= e.id <= |offers| && e.globalID == offers[e.id - 1].globalID && offers[e.id - 1].taken
    ensures |Delivered(offers)| + Dropped(offers) == |offers|
  {
    if offers != [] {
      var init := offers[..|offers| - 1];
      DeliveredIncreases(init);
      var d := Delivered(init);
      forall i | 0 <= i < |d| ensures d[i].id < |offers| && d[i].globalID < offers[|offers| - 1].globalID {
        assert d[i] in d;
      }
    }
  }

  lemma {:induction false} TakenIsDelivered(offers: seq<Offer>, k: nat)
    requires k < |offers| && offers[k].taken
    ensures Event(k + 1, offers[k].globalID, offers[k].kind, offers[k].data) in Delivered(offers)
  {
    if k < |offers| - 1 {
      TakenIsDelivered(offers[..|offers| - 1], k);
    }
  }

  lemma {:induction false} OffersInOrder(ops: seq<Op>, sub: SubID)
    ensures forall i, j :: 0 <= i < j < |Offered(ops, sub)| ==>
            Offered(ops, sub)[i].globalID < Offered(ops, sub)[j].globalID
    ensures forall i :: 0 <= i < |Offered(ops, sub)| ==> Offered(ops, sub)[i].globalID <= Sends(ops)
  {
    if ops != [] {
      OffersInOrder(ops[..|ops| - 1], sub);
    }
  }

  /** Over any run: a live subscription's next ID counts what was delivered to it and dropped; what it
      got are exactly the events it was offered and took, numbered by their place among all it was
      offered, so a missing number is a dropped event; and both numbers strictly increase. */
  lemma NumberingUnderChurn(ops: seq<Op>, sub: SubID)
    ensures var s := Run(ops); var offers := Offered(ops, sub);
            && (sub in s.next <==> Live(ops, sub).Some?)
            && (sub in s.next ==> s.next[sub] - 1 == |Delivered(offers)| + Dropped(offers))
            && (sub in s.got ==> s.got[sub] == Delivered(offers) && Increasing(s.got[sub]))
            && (sub in s.got ==> forall k :: 0 <= k < |offers| ==>
                (offers[k].taken <==> exists e :: e in s.got[sub] && e.id == k + 1))
  {
    HistoryAgrees(ops, sub);
    OffersInOrder(ops, sub);
    var offers := Offered(ops, sub);
    DeliveredIncreases(offers);
    forall k | 0 <= k < |offers|
      ensures offers[k].taken <==> exists e :: e in Delivered(offers) && e.id == k + 1
    {
      if offers[k].taken { TakenIsDelivered(offers, k); }
    }
  }
}
