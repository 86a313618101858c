/** The session tokens (lib/api/tokenmanager.go): a map with expiry times and eviction by expiry is an
    LRU list, when tokens expire at all. */
module TokenStore {
  import opened Sorting

  type Token = nat

  /** Nanoseconds; the clock is read up to three times by an operation: before looking at a token, when
      giving it life, and when saving. */
  type Time = nat
  datatype Clock = Clock(look: Time, touch: Time, save: Time)

  datatype Limits = Limits(lifetime: int, maxItems: int)

  type Tokens = map<Token, int>

  function NewExpiry(lim: Limits, touch: Time): int { if lim.lifetime <= 0 then 0 else touch + lim.lifetime }

  predicate Expired(expiry: int, now: Time) { expiry != 0 && expiry < now }

  function Live(m: Tokens, now: Time): Tokens {
    map t | t in m && !Expired(m[t], now) :: m[t]
  }

  /** r is n of the entries of a map, such that no other is fresher. */
  ghost predicate FreshestOf(m: Tokens, n: nat, r: Tokens) {
    && r.Keys <= m.Keys && (forall t :: t in r ==> r[t] == m[t])
    && |r| == n
    && (forall t, u :: t in r && u in m && u !in r ==> m[u] <= m[t])
  }

  /** What saving may leave of a map: the live tokens, of too many of them the freshest. Among tokens
      with the same expiry any may go, as the order of a map is arbitrary. */
  ghost predicate Saved(m: Tokens, lim: Limits, now: Time, r: Tokens) {
    var live := Live(m, now);
    if lim.maxItems > 0 && |live| > lim.maxItems then FreshestOf(live, lim.maxItems, r) else r == live
  }

  datatype Op = Check(token: Token) | New(token: Token) | Delete(token: Token)

  /** What an operation may do. */
  ghost predicate Does(lim: Limits, m: Tokens, op: Op, c: Clock, r: Tokens) {
    match op
    case Check(t) =>
      if t !in m then r == m
      else if Expired(m[t], c.look) then Saved(m, lim, c.save, r)
      else Saved(m[t := NewExpiry(lim, c.touch)], lim, c.save, r)
    case New(t) => Saved(m[t := NewExpiry(lim, c.touch)], lim, c.save, r)
    case Delete(t) => Saved(m - {t}, lim, c.save, r)
  }

  // ---------------------------------------------------------------- the manager

  datatype TokenExpiry = TokenExpiry(token: Token, expiry: int)

  predicate ExpiryLe(a: TokenExpiry, b: TokenExpiry) { a.expiry <= b.expiry }

  /** The list holds every token of the map once. */
  ghost predicate Lists(s: seq<TokenExpiry>, m: Tokens) {
    && (forall i :: 0 <= i < |s| ==> s[i].token in m && s[i].expiry == m[s[i].token])
    && (forall t: Token :: t in m ==> TokenExpiry(t, m[t]) in s)
    && (forall i, j :: 0 <= i < j < |s| ==> s[i].token != s[j].token)
  }

  class TokenManager {
    const limits: Limits
    var tokens: Tokens

    constructor (limits: Limits, stored: Tokens)
      ensures this.limits == limits && tokens == stored
    {
      this.limits, tokens := limits, stored;
    }

    method Check(token: Token, c: Clock) returns (ok: bool)
      modifies `tokens
      ensures Does(limits, old(tokens), Op.Check(token), c, tokens)
      ensures ok <==> token in old(tokens) && !Expired(old(tokens)[token], c.look)
    {
      if token !in tokens {
        return false;
      }
      if Expired(tokens[token], c.look) {
        SaveLocked(c.save);
        return false;
      }
      tokens := tokens[token := NewExpiry(limits, c.touch)];
      SaveLocked(c.save);
      ok := true;
    }

    /** With the random string the new token is. */
    method New(token: Token, c: Clock)
      modifies `tokens
      ensures Does(limits, old(tokens), Op.New(token), c, tokens)
    {
      tokens := tokens[token := NewExpiry(limits, c.touch)];
      SaveLocked(c.save);
    }

    method Delete(token: Token, c: Clock)
      modifies `tokens
      ensures Does(limits, old(tokens), Op.Delete(token), c, tokens)
    {
      tokens := tokens - {token};
      SaveLocked(c.save);
    }

    method RemoveExpired(now: Time)
      modifies `tokens
      ensures tokens == Live(old(tokens), now)
    {
      ghost var was := tokens;
      var todo := tokens.Keys;
      while todo != {}
        invariant todo <= was.Keys
        invariant tokens == map t | t in was && (t in todo || !Expired(was[t], now)) :: was[t]
        decreases |todo|
      {
        var token :| token in todo;
        todo := todo - {token};
        if Expired(tokens[token], now) {
          tokens := tokens - {token};
        }
      }
    }

    /** The tokens with their expiry times, in the arbitrary order of a map. */
    method List() returns (s: seq<TokenExpiry>)
      ensures Lists(s, tokens)
    {
      s := [];
      var todo := tokens.Keys;
      while todo != {}
        invariant todo <= tokens.Keys
        invariant forall i :: 0 <= i < |s| ==>
                  s[i].token in tokens && s[i].token !in todo && s[i].expiry == tokens[s[i].token]
        invariant forall t: Token :: t in tokens && t !in todo ==> TokenExpiry(t, tokens[t]) in s
        invariant forall i, j :: 0 <= i < j < |s| ==> s[i].token != s[j].token
        decreases |todo|
      {
        var token :| token in todo;
        todo := todo - {token};
        s := s + [TokenExpiry(token, tokens[token])];
      }
    }

    method RemoveAll(s: seq<TokenExpiry>)
      modifies `tokens
      ensures tokens == old(tokens) - TokensIn(s)
    {
      for i := 0 to |s|
        invariant tokens == old(tokens) - TokensIn(s[..i])
      {
        assert s[..i + 1] == s[..i] + [s[i]];
        assert TokensIn(s[..i + 1]) == TokensIn(s[..i]) + {s[i].token};
        tokens := tokens - {s[i].token};
      }
      assert s[..|s|] == s;
    }

    /** Removes the oldest tokens where there are too many. */
    method Evict()
      requires 0 < limits.maxItems < |tokens|
      modifies `tokens
      ensures FreshestOf(old(tokens), limits.maxItems, tokens)
    {
      var list := List();
      ListsAll(list, tokens);
      SortedLists(list, tokens);
      var sorted := Sort(ExpiryLe, list);
      var n := |sorted| - limits.maxItems;
      OldestEvicted(sorted, tokens, n);
      RemoveAll(sorted[..n]);
    }

    method SaveLocked(now: Time)
      modifies `tokens
      ensures Saved(old(tokens), limits, now, tokens)
    {
      RemoveExpired(now);
      if limits.maxItems > 0 && |tokens| > limits.maxItems {
        Evict();
      }
    }
  }

  function TokensIn(s: seq<TokenExpiry>): set<Token> {
    set e | e in s :: e.token
  }

  lemma {:induction false} TokensCount(s: seq<TokenExpiry>)
    requires forall i, j :: 0 <= i < j < |s| ==> s[i].token != s[j].token
    ensures |TokensIn(s)| == |s|
  {
    if s != [] {
      var init, last := s[..|s| - 1], s[|s| - 1];
      TokensCount(init);
      assert s == init + [last];
      assert TokensIn(s) == TokensIn(init) + {last.token};
      assert last.token !in TokensIn(init);
    }
  }

  lemma ListsAll(s: seq<TokenExpiry>, m: Tokens)
    requires Lists(s, m)
    ensures TokensIn(s) == m.Keys && |s| == |m|
  {
    TokensCount(s);
    assert TokensIn(s) == m.Keys;
    assert |m| == |m.Keys|;
  }

  lemma SortedLists(s: seq<TokenExpiry>, m: Tokens)
    requires Lists(s, m)
    ensures var r := Sort(ExpiryLe, s); Lists(r, m) && Sorted(ExpiryLe, r) && |r| == |s|
  {
    var r := Sort(ExpiryLe, s);
    SortSorts(ExpiryLe, s);
    forall e ensures e in r <==> e in s { SortMembers(ExpiryLe, s, e); }
    forall i | 0 <= i < |r| ensures r[i].token in m && r[i].expiry == m[r[i].token] { assert r[i] in s; }
    assert Unique(s);
    forall i, j | 0 <= i < j < |r|
      ensures r[i].token != r[j].token
    {
      UniqueOnce(s, r[i]);
      if r[i] == r[j] { TwiceCounts(r, i, j); }
    }
  }

  lemma OldestEvicted(s: seq<TokenExpiry>, live: Tokens, n: nat)
    requires Lists(s, live) && Sorted(ExpiryLe, s) && n <= |s|
    ensures FreshestOf(live, |s| - n, live - TokensIn(s[..n]))
  {
    var gone, r := TokensIn(s[..n]), live - TokensIn(s[..n]);
    ListsAll(s, live);
    TokensCount(s[..n]);
    assert gone <= live.Keys;
    assert r.Keys == live.Keys - gone;
    assert |r| == |r.Keys| == |s| - n;
    forall t, u | t in r && u in live && u !in r
      ensures live[u] <= live[t]
    {
      OlderInFront(s, live, n, t, u);
    }
  }

  lemma OlderInFront(s: seq<TokenExpiry>, live: Tokens, n: nat, t: Token, u: Token)
    requires Lists(s, live) && Sorted(ExpiryLe, s) && n <= |s|
    requires t in live && t !in TokensIn(s[..n]) && u in live && u in TokensIn(s[..n])
    ensures live[u] <= live[t]
  {
  }

  // ---------------------------------------------------------------- the LRU list

  /** An entry of the list, which is ordered by when they were last touched. */
  datatype Entry = Entry(token: Token, touched: int)

  function Without(s: seq<Entry>, t: Token): seq<Entry> {
    if s == [] then [] else (if s[0].token == t then [] else [s[0]]) + Without(s[1..], t)
  }

  function Unexpired(s: seq<Entry>, lifetime: int, now: Time): seq<Entry> {
    if s == [] then [] else (if s[0].touched + lifetime < now then [] else [s[0]]) + Unexpired(s[1..], lifetime, now)
  }

  function Capped(s: seq<Entry>, max: nat): seq<Entry> {
    if |s| > max then s[|s| - max..] else s
  }

  function Kept(lim: Limits, s: seq<Entry>, now: Time): seq<Entry>
    requires lim.maxItems > 0
  {
    Capped(Unexpired(s, lim.lifetime, now), lim.maxItems)
  }

  function Touched(s: seq<Entry>, t: Token, now: Time): seq<Entry> { Without(s, t) + [Entry(t, now)] }

  predicate Has(s: seq<Entry>, t: Token) { exists i :: 0 <= i < |s| && s[i].token == t }

  predicate HasLive(lim: Limits, s: seq<Entry>, t: Token, now: Time) {
    exists i :: 0 <= i < |s| && s[i].token == t && s[i].touched + lim.lifetime >= now
  }

  /** A list of at most maxItems tokens, touched by New and successful Check. */
  function LruStep(lim: Limits, s: seq<Entry>, op: Op, c: Clock): seq<Entry>
    requires lim.maxItems > 0
  {
    match op
    case Check(t) =>
      if !Has(s, t) then s
      else if !HasLive(lim, s, t, c.look) then Kept(lim, s, c.save)
      else Kept(lim, Touched(s, t, c.touch), c.save)
    case New(t) => Kept(lim, Touched(s, t, c.touch), c.save)
    case Delete(t) => Kept(lim, Without(s, t), c.save)
  }

  function Lru(lim: Limits, ops: seq<(Op, Clock)>): seq<Entry>
    requires lim.maxItems > 0
  {
    if ops == [] then [] else LruStep(lim, Lru(lim, ops[..|ops| - 1]), ops[|ops| - 1].0, ops[|ops| - 1].1)
  }

  // ---------------------------------------------------------------- refinement

  ghost predicate Ascending(s: seq<Entry>) {
    forall i, j :: 0 <= i < j < |s| ==> s[i].touched < s[j].touched
  }

  function Entries(s: seq<Entry>): set<Entry> { set e | e in s }

  function Others(entries: set<Entry>, t: Token): set<Entry> { set e | e in entries && e.token != t }

  function Alive(entries: set<Entry>, lifetime: int, now: Time): set<Entry> {
    set e | e in entries && e.touched + lifetime >= now
  }

  /** The map holds these entries, each until its lifetime after it was touched. */
  ghost predicate Matches(m: Tokens, entries: set<Entry>, lifetime: int) {
    && (forall e :: e in entries ==> e.token in m && m[e.token] == e.touched + lifetime && e.touched >= 0)
    && (forall t: Token :: t in m ==> Entry(t, m[t] - lifetime) in entries)
  }

  ghost predicate Represents(m: Tokens, s: seq<Entry>, lifetime: int) {
    Matches(m, Entries(s), lifetime) && Ascending(s)
  }

  // The list.

  lemma AscendingTail(s: seq<Entry>)
    requires Ascending(s) && s != []
    ensures Ascending(s[1..]) && forall e :: e in s[1..] ==> s[0].touched < e.touched
    ensures Entries(s) == {s[0]} + Entries(s[1..])
  {
  }

  lemma AscendingCons(e: Entry, s: seq<Entry>)
    requires Ascending(s) && forall x :: x in Entries(s) ==> e.touched < x.touched
    ensures Ascending([e] + s) && Entries([e] + s) == {e} + Entries(s)
  {
  }

  lemma AscendingSnoc(s: seq<Entry>, e: Entry)
    requires Ascending(s) && forall x :: x in Entries(s) ==> x.touched < e.touched
    ensures Ascending(s + [e]) && Entries(s + [e]) == Entries(s) + {e}
  {
  }

  /** Nothing outside a selection of entries is fresher than anything in it; and strictly so. */
  ghost predicate Freshest(all: set<Entry>, sel: set<Entry>) {
    forall e, f :: e in all && e !in sel && f in sel ==> e.touched <= f.touched
  }

  ghost predicate StrictlyFreshest(all: set<Entry>, sel: set<Entry>) {
    forall e, f :: e in all && e !in sel && f in sel ==> e.touched < f.touched
  }

  lemma AscendingBack(s: seq<Entry>, n: nat)
    requires Ascending(s) && n <= |s|
    ensures Ascending(s[n..]) && Entries(s[n..]) <= Entries(s) && StrictlyFreshest(Entries(s), Entries(s[n..]))
  {
  }

  lemma {:induction false} EntriesCount(s: seq<Entry>)
    requires Ascending(s)
    ensures |Entries(s)| == |s|
  {
    if s != [] {
      AscendingTail(s);
      EntriesCount(s[1..]);
      assert s[0] !in Entries(s[1..]);
    }
  }

  lemma {:induction false} WithoutKeeps(s: seq<Entry>, t: Token)
    requires Ascending(s)
    ensures Ascending(Without(s, t)) && Entries(Without(s, t)) == Others(Entries(s), t)
  {
    if s != [] {
      AscendingTail(s);
      WithoutKeeps(s[1..], t);
      var w := Without(s[1..], t);
      assert [] + w == w;
      if s[0].token != t { AscendingCons(s[0], w); }
    }
  }

  lemma {:induction false} UnexpiredKeeps(s: seq<Entry>, lifetime: int, now: Time)
    requires Ascending(s)
    ensures Ascending(Unexpired(s, lifetime, now))
            && Entries(Unexpired(s, lifetime, now)) == Alive(Entries(s), lifetime, now)
  {
    if s != [] {
      AscendingTail(s);
      UnexpiredKeeps(s[1..], lifetime, now);
      var u := Unexpired(s[1..], lifetime, now);
      assert [] + u == u;
      if s[0].touched + lifetime >= now { AscendingCons(s[0], u); }
    }
  }

  // The map.

  lemma TouchMatches(m: Tokens, entries: set<Entry>, lifetime: int, t: Token, now: Time)
    requires Matches(m, entries, lifetime)
    ensures Matches(m[t := now + lifetime], Others(entries, t) + {Entry(t, now)}, lifetime)
  {
  }

  lemma DeleteMatches(m: Tokens, entries: set<Entry>, lifetime: int, t: Token)
    requires Matches(m, entries, lifetime)
    ensures Matches(m - {t}, Others(entries, t), lifetime)
  {
  }

  lemma LiveMatches(m: Tokens, entries: set<Entry>, lifetime: int, now: Time)
    requires Matches(m, entries, lifetime) && lifetime > 0
    ensures Matches(Live(m, now), Alive(entries, lifetime, now), lifetime)
  {
  }

  lemma {:induction false} MatchesCount(m: Tokens, entries: set<Entry>, lifetime: int)
    requires Matches(m, entries, lifetime)
    ensures |m| == |entries|
    decreases entries
  {
    if entries == {} {
      assert m == map[];
    } else {
      var e :| e in entries;
      MatchesLess(m, entries, lifetime, e);
      MatchesCount(m - {e.token}, entries - {e}, lifetime);
      assert (m - {e.token}).Keys == m.Keys - {e.token};
      assert |m - {e.token}| == |(m - {e.token}).Keys| && |m| == |m.Keys|;
    }
  }

  lemma MatchesLess(m: Tokens, entries: set<Entry>, lifetime: int, e: Entry)
    requires Matches(m, entries, lifetime) && e in entries
    ensures Matches(m - {e.token}, entries - {e}, lifetime)
  {
  }

  lemma {:induction false} SubsetOfSameSize<T>(a: set<T>, b: set<T>)
    requires a <= b && |a| == |b|
    ensures a == b
  {
    if a != {} {
      var x :| x in a;
      SubsetOfSameSize(a - {x}, b - {x});
    }
  }

  /** The entries of a map. */
  function EntriesOf(m: Tokens, lifetime: int): set<Entry> { set t | t in m :: Entry(t, m[t] - lifetime) }

  lemma EntriesOfMatch(m: Tokens, entries: set<Entry>, lifetime: int, r: Tokens)
    requires Matches(m, entries, lifetime) && r.Keys <= m.Keys && forall t :: t in r ==> r[t] == m[t]
    ensures Matches(r, EntriesOf(r, lifetime), lifetime) && EntriesOf(r, lifetime) <= entries
  {
  }

  /** Two selections of the same size, one of the freshest, one of the strictly freshest, agree. */
  lemma SameSelection(all: set<Entry>, a: set<Entry>, b: set<Entry>)
    requires a <= all && b <= all && |a| == |b| && Freshest(all, a) && StrictlyFreshest(all, b)
    ensures a == b
  {
    if b <= a {
      SubsetOfSameSize(b, a);
    } else if a <= b {
      SubsetOfSameSize(a, b);
    } else {
      var e :| e in b && e !in a;
      var f :| f in a && f !in b;
      assert false;
    }
  }

  lemma FreshestSelected(m: Tokens, entries: set<Entry>, lifetime: int, max: nat, r: Tokens)
    requires Matches(m, entries, lifetime) && FreshestOf(m, max, r)
    ensures Matches(r, EntriesOf(r, lifetime), lifetime)
    ensures EntriesOf(r, lifetime) <= entries && |EntriesOf(r, lifetime)| == max
    ensures Freshest(entries, EntriesOf(r, lifetime))
  {
    EntriesOfMatch(m, entries, lifetime, r);
    MatchesCount(r, EntriesOf(r, lifetime), lifetime);
    forall e, f | e in entries && e !in EntriesOf(r, lifetime) && f in EntriesOf(r, lifetime)
      ensures e.touched <= f.touched
    {
      FresherStays(m, entries, lifetime, max, r, e, f);
    }
  }

  lemma FresherStays(m: Tokens, entries: set<Entry>, lifetime: int, max: nat, r: Tokens, e: Entry, f: Entry)
    requires Matches(m, entries, lifetime) && FreshestOf(m, max, r)
    requires e in entries && e !in EntriesOf(r, lifetime) && f in EntriesOf(r, lifetime)
    ensures e.touched <= f.touched
  {
  }

  /** The freshest tokens of the map are the back of the list. */
  lemma FreshestRefines(m: Tokens, s: seq<Entry>, lifetime: int, max: nat, r: Tokens)
    requires Represents(m, s, lifetime) && |s| >= max && FreshestOf(m, max, r)
    ensures Represents(r, s[|s| - max..], lifetime)
  {
    AscendingBack(s, |s| - max);
    EntriesCount(s[|s| - max..]);
    FreshestSelected(m, Entries(s), lifetime, max, r);
    SameSelection(Entries(s), EntriesOf(r, lifetime), Entries(s[|s| - max..]));
  }

  // The operations.

  lemma HasIff(m: Tokens, s: seq<Entry>, lim: Limits, t: Token, now: Time)
    requires Represents(m, s, lim.lifetime) && lim.lifetime > 0
    ensures Has(s, t) <==> t in m
    ensures HasLive(lim, s, t, now) <==> t in m && !Expired(m[t], now)
  {
  }

  ghost predicate AllBefore(s: seq<Entry>, now: Time) { forall e :: e in Entries(s) ==> e.touched < now }

  lemma TouchRefines(m: Tokens, s: seq<Entry>, lifetime: int, t: Token, now: Time, n: Tokens)
    requires Represents(m, s, lifetime) && AllBefore(s, now) && n == m[t := now + lifetime]
    ensures Represents(n, Touched(s, t, now), lifetime)
  {
    WithoutKeeps(s, t);
    AscendingSnoc(Without(s, t), Entry(t, now));
    TouchMatches(m, Entries(s), lifetime, t, now);
  }

  lemma DeleteRefines(m: Tokens, s: seq<Entry>, lifetime: int, t: Token)
    requires Represents(m, s, lifetime)
    ensures Represents(m - {t}, Without(s, t), lifetime)
  {
    WithoutKeeps(s, t);
    DeleteMatches(m, Entries(s), lifetime, t);
  }

  lemma LiveRefines(m: Tokens, s: seq<Entry>, lifetime: int, now: Time)
    requires Represents(m, s, lifetime) && lifetime > 0
    ensures Represents(Live(m, now), Unexpired(s, lifetime, now), lifetime)
  {
    UnexpiredKeeps(s, lifetime, now);
    LiveMatches(m, Entries(s), lifetime, now);
  }

  lemma RepresentsCount(m: Tokens, s: seq<Entry>, lifetime: int)
    requires Represents(m, s, lifetime)
    ensures |m| == |s|
  {
    EntriesCount(s);
    MatchesCount(m, Entries(s), lifetime);
  }

  lemma SaveRefines(lim: Limits, m: Tokens, s: seq<Entry>, now: Time, r: Tokens)
    requires lim.lifetime > 0 && lim.maxItems > 0
    requires Represents(m, s, lim.lifetime) && Saved(m, lim, now, r)
    ensures Represents(r, Kept(lim, s, now), lim.lifetime)
  {
    LiveRefines(m, s, lim.lifetime, now);
    var live, u := Live(m, now), Unexpired(s, lim.lifetime, now);
    RepresentsCount(live, u, lim.lifetime);
    if |u| > lim.maxItems { CapRefines(live, u, lim.lifetime, lim.maxItems, r); }
  }

  lemma CapRefines(live: Tokens, s: seq<Entry>, lifetime: int, max: nat, r: Tokens)
    requires Represents(live, s, lifetime) && |s| > max && FreshestOf(live, max, r)
    ensures Represents(r, Capped(s, max), lifetime)
  {
    FreshestRefines(live, s, lifetime, max, r);
  }

  lemma TouchAndSaveRefines(lim: Limits, m: Tokens, s: seq<Entry>, t: Token, c: Clock, r: Tokens)
    requires lim.lifetime > 0 && lim.maxItems > 0 && AllBefore(s, c.touch)
    requires Represents(m, s, lim.lifetime) && Saved(m[t := NewExpiry(lim, c.touch)], lim, c.save, r)
    ensures Represents(r, Kept(lim, Touched(s, t, c.touch), c.save), lim.lifetime)
  {
    var n := m[t := NewExpiry(lim, c.touch)];
    TouchRefines(m, s, lim.lifetime, t, c.touch, n);
    SaveRefines(lim, n, Touched(s, t, c.touch), c.save, r);
  }

  lemma DeleteAndSaveRefines(lim: Limits, m: Tokens, s: seq<Entry>, t: Token, c: Clock, r: Tokens)
    requires lim.lifetime > 0 && lim.maxItems > 0
    requires Represents(m, s, lim.lifetime) && Saved(m - {t}, lim, c.save, r)
    ensures Represents(r, Kept(lim, Without(s, t), c.save), lim.lifetime)
  {
    DeleteRefines(m, s, lim.lifetime, t);
    SaveRefines(lim, m - {t}, Without(s, t), c.save, r);
  }

  lemma CheckRefines(lim: Limits, m: Tokens, s: seq<Entry>, t: Token, c: Clock, r: Tokens)
    requires lim.lifetime > 0 && lim.maxItems > 0 && AllBefore(s, c.touch)
    requires Represents(m, s, lim.lifetime) && Does(lim, m, Check(t), c, r)
    ensures Represents(r, LruStep(lim, s, Check(t), c), lim.lifetime)
  {
    HasIff(m, s, lim, t, c.look);
    if t in m {
      if Expired(m[t], c.look) {
        SaveRefines(lim, m, s, c.save, r);
      } else {
        TouchAndSaveRefines(lim, m, s, t, c, r);
      }
    }
  }

  lemma StepRefines(lim: Limits, m: Tokens, s: seq<Entry>, op: Op, c: Clock, r: Tokens)
    requires lim.lifetime > 0 && lim.maxItems > 0 && AllBefore(s, c.touch)
    requires Represents(m, s, lim.lifetime) && Does(lim, m, op, c, r)
    ensures Represents(r, LruStep(lim, s, op, c), lim.lifetime)
  {
    match op
    case Check(t) => CheckRefines(lim, m, s, t, c, r);
    case New(t) => TouchAndSaveRefines(lim, m, s, t, c, r);
    case Delete(t) => DeleteAndSaveRefines(lim, m, s, t, c, r);
  }

  /** A run from an empty store: the operations, and the map before and after each. */
  ghost predicate IsRun(lim: Limits, ops: seq<(Op, Clock)>, ms: seq<Tokens>) {
    && |ms| == |ops| + 1 && ms[0] == map[]
    && forall i :: 0 <= i < |ops| ==> Does(lim, ms[i], ops[i].0, ops[i].1, ms[i + 1])
  }

  ghost predicate Advancing(ops: seq<(Op, Clock)>) {
    forall i, j :: 0 <= i < j < |ops| ==> ops[i].1.touch < ops[j].1.touch
  }

  lemma KeptEntries(lim: Limits, s: seq<Entry>, now: Time)
    requires lim.maxItems > 0 && Ascending(s)
    ensures |Kept(lim, s, now)| <= lim.maxItems && Entries(Kept(lim, s, now)) <= Entries(s)
  {
    UnexpiredKeeps(s, lim.lifetime, now);
    var u := Unexpired(s, lim.lifetime, now);
    if |u| > lim.maxItems { AscendingBack(u, |u| - lim.maxItems); }
  }

  lemma LruStepEntries(lim: Limits, s: seq<Entry>, op: Op, c: Clock)
    requires lim.maxItems > 0 && Ascending(s) && AllBefore(s, c.touch) && |s| <= lim.maxItems
    ensures |LruStep(lim, s, op, c)| <= lim.maxItems
    ensures Entries(LruStep(lim, s, op, c)) <= Entries(s) + {Entry(op.token, c.touch)}
  {
    var t := op.token;
    WithoutKeeps(s, t);
    AscendingSnoc(Without(s, t), Entry(t, c.touch));
    KeptEntries(lim, s, c.save);
    KeptEntries(lim, Touched(s, t, c.touch), c.save);
    KeptEntries(lim, Without(s, t), c.save);
  }

  lemma {:induction false} RunRepresents(lim: Limits, ops: seq<(Op, Clock)>, ms: seq<Tokens>)
    requires lim.lifetime > 0 && lim.maxItems > 0 && Advancing(ops) && IsRun(lim, ops, ms)
    ensures Represents(ms[|ops|], Lru(lim, ops), lim.lifetime)
    ensures |Lru(lim, ops)| <= lim.maxItems
    ensures forall e :: e in Entries(Lru(lim, ops)) ==> ops != [] && e.touched <= ops[|ops| - 1].1.touch
  {
    if ops != [] {
      var before := ops[..|ops| - 1];
      assert IsRun(lim, before, ms[..|ops|]);
      RunRepresents(lim, before, ms[..|ops|]);
      var s, last := Lru(lim, before), ops[|ops| - 1];
      forall e | e in Entries(s) ensures e.touched < last.1.touch { assert before[|before| - 1] == ops[|ops| - 2]; }
      StepRefines(lim, ms[|ops| - 1], s, last.0, last.1, ms[|ops|]);
      LruStepEntries(lim, s, last.0, last.1);
    }
  }

  /** With a positive lifetime and limit and a clock that advances between operations, the store is an
      LRU list of that capacity after every operation of every run. */
  lemma StoreIsLru(lim: Limits, ops: seq<(Op, Clock)>, ms: seq<Tokens>, k: nat)
    requires lim.lifetime > 0 && lim.maxItems > 0 && Advancing(ops) && IsRun(lim, ops, ms) && k <= |ops|
    ensures Represents(ms[k], Lru(lim, ops[..k]), lim.lifetime)
    ensures |ms[k]| == |Lru(lim, ops[..k])| <= lim.maxItems
  {
    RunRepresents(lim, ops[..k], ms[..k + 1]);
    RepresentsCount(ms[k], Lru(lim, ops[..k]), lim.lifetime);
  }

  lemma FreshestIsLast(s: seq<Entry>, e: Entry)
    requires Ascending(s) && e in Entries(s) && forall x :: x in Entries(s) ==> x.touched <= e.touched
    ensures s[|s| - 1] == e
  {
  }

  /** The freshest entry stays, if it has not expired. */
  lemma FreshestIsKept(lim: Limits, s: seq<Entry>, e: Entry, now: Time)
    requires lim.maxItems > 0 && Ascending(s) && e in Entries(s) && e.touched + lim.lifetime >= now
    requires forall x :: x in Entries(s) ==> x.touched <= e.touched
    ensures e in Entries(Kept(lim, s, now))
  {
    UnexpiredKeeps(s, lim.lifetime, now);
    var u := Unexpired(s, lim.lifetime, now);
    FreshestIsLast(u, e);
    var c := Capped(u, lim.maxItems);
    assert c[|c| - 1] == e;
  }

  /** So a token survives its own creation, unless saving it took longer than its lifetime. */
  lemma NewSurvives(lim: Limits, ops: seq<(Op, Clock)>, ms: seq<Tokens>, k: nat)
    requires lim.lifetime > 0 && lim.maxItems > 0 && Advancing(ops) && IsRun(lim, ops, ms) && k < |ops|
    requires ops[k].0.New? && ops[k].1.save <= ops[k].1.touch + lim.lifetime
    ensures ops[k].0.token in ms[k + 1]
  {
    var t, c := ops[k].0.token, ops[k].1;
    var s := Lru(lim, ops[..k]);
    RunRepresents(lim, ops[..k], ms[..k + 1]);
    forall e | e in Entries(s) ensures e.touched < c.touch { assert ops[..k][k - 1] == ops[k - 1]; }
    WithoutKeeps(s, t);
    AscendingSnoc(Without(s, t), Entry(t, c.touch));
    FreshestIsKept(lim, Touched(s, t, c.touch), Entry(t, c.touch), c.save);
    StepRefines(lim, ms[k], s, ops[k].0, c, ms[k + 1]);
  }

  // ---------------------------------------------------------------- tokens that never expire

  ghost predicate Forever(m: Tokens) { forall t :: t in m ==> m[t] == 0 }

  lemma ForeverIsLive(m: Tokens, now: Time)
    requires Forever(m)
    ensures Live(m, now) == m
  {
  }

  lemma OneMore(m: Tokens, t: Token)
    requires t !in m
    ensures |m[t := 0]| == |m| + 1
  {
  }

  lemma AnyMayGo(m: Tokens, t: Token, max: nat)
    requires Forever(m) && |m| == max && t !in m
    ensures FreshestOf(m[t := 0], max, m)
  {
  }

  lemma ForeverStays(lim: Limits, m: Tokens, t: Token, c: Clock, r: Tokens)
    requires lim.lifetime <= 0 && lim.maxItems > 0
    requires Forever(m) && |m| <= lim.maxItems && t !in m && Does(lim, m, New(t), c, r)
    ensures Forever(r) && |r| <= lim.maxItems
    ensures |m| < lim.maxItems ==> t in r
  {
    var n := m[t := 0];
    OneMore(m, t);
    assert Forever(n);
    ForeverIsLive(n, c.save);
  }

  /** Tokens that never expire all have expiry 0: then a new token is sure to survive its creation
      exactly if there is room for it. */
  lemma ForeverSurvivesIffRoom(lim: Limits, m: Tokens, t: Token, c: Clock)
    requires lim.lifetime <= 0 && lim.maxItems > 0
    requires Forever(m) && |m| <= lim.maxItems && t !in m
    ensures (forall r :: Does(lim, m, New(t), c, r) ==> t in r) <==> |m| < lim.maxItems
  {
    if |m| < lim.maxItems {
      forall r | Does(lim, m, New(t), c, r) ensures t in r { ForeverStays(lim, m, t, c, r); }
    } else {
      OneMore(m, t);
      assert Forever(m[t := 0]);
      ForeverIsLive(m[t := 0], c.save);
      AnyMayGo(m, t, lim.maxItems);
      assert Does(lim, m, New(t), c, m);
    }
  }
}
