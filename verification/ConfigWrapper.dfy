/** The configuration as changed through its queue (lib/config/wrapper.go): every reachable
    configuration is in normal form, and a change is committed whole or not at all. */
module ConfigWrapper {
  import opened Options
  import opened Sorting
  import opened DeviceLists
  import opened FolderSharing
  import opened ConfigPrepare

  const MAX_MODIFICATIONS := 1000

  /** What a caller may do to a copy of the configuration. */
  datatype Change =
    | Custom(fn: Configuration -> Configuration) | RemoveDevice(id: DeviceID) | RemoveFolder(folder: string)

  /** Subscribers; some verify a configuration before it is committed. */
  datatype Subscriber = Committer | Verifier(accepts: (Configuration, Configuration) -> bool)

  function WithoutDevice(s: seq<Device>, id: DeviceID): seq<Device> {
    if s == [] then [] else if s[0].id == id then s[1..] else [s[0]] + WithoutDevice(s[1..], id)
  }

  function WithoutFolder(s: seq<Folder>, id: string): seq<Folder> {
    if s == [] then [] else if s[0].id == id then s[1..] else [s[0]] + WithoutFolder(s[1..], id)
  }

  function Changed(cfg: Configuration, c: Change): Configuration {
    match c
    case Custom(fn) => fn(cfg)
    case RemoveDevice(id) => cfg.(devices := WithoutDevice(cfg.devices, id))
    case RemoveFolder(id) => cfg.(folders := WithoutFolder(cfg.folders, id))
  }

  predicate Accepted(from: Configuration, to: Configuration, subs: seq<Subscriber>) {
    forall i :: 0 <= i < |subs| && subs[i].Verifier? ==> subs[i].accepts(from, to)
  }

  function Replaced(from: Configuration, to: Configuration, self: Self, subs: seq<Subscriber>): Result<Configuration> {
    match Prepare(to, self)
    case Err(e) => Err(e)
    case Ok(p) => if Accepted(from, p, subs) then Ok(p) else Err(Rejected)
  }

  /** The configuration after a change was served, and the error its caller gets. */
  datatype Served = Served(cfg: Configuration, err: Option<Error>)

  function Serve(cfg: Configuration, c: Change, self: Self, subs: seq<Subscriber>): Served {
    var to := Changed(cfg, c);
    if to == cfg then Served(cfg, None)
    else match Replaced(cfg, to, self, subs)
      case Err(e) => Served(cfg, Some(e))
      case Ok(p) => Served(p, None)
  }

  // ---------------------------------------------------------------- one change

  /** A change is refused exactly when its folders are unacceptable or a subscriber rejects what was
      prepared from it, and leaves no trace; else the configuration becomes what was prepared from it. */
  lemma CommittedWholeOrNotAtAll(cfg: Configuration, c: Change, self: Self, subs: seq<Subscriber>)
    requires Normal(cfg, self)
    ensures var s := Serve(cfg, c, self, subs); var to := Changed(cfg, c);
            && (s.err.Some? ==> s.cfg == cfg)
            && (s.err.None? ==> Prepare(to, self) == Ok(s.cfg))
            && (s.err.None? <==>
                || to == cfg
                || (Acceptable(to.folders) && Prepare(to, self).Ok? && Accepted(cfg, Prepare(to, self).value, subs)))
            && Normal(s.cfg, self)
  {
    var to := Changed(cfg, c);
    PreparedIsNormalForm(to, self);
    NormalFormIffPrepared(cfg, self);
  }

  lemma NormalTail(s: seq<Device>)
    requires NormalDeviceList(s) && s != []
    ensures NormalDeviceList(s[1..]) && forall d :: d in s[1..] ==> s[0].id < d.id
    ensures forall d :: d in s <==> d == s[0] || d in s[1..]
  {
  }

  lemma NormalCons(d: Device, s: seq<Device>)
    requires NormalDeviceList(s) && d.id != EMPTY_ID && forall e :: e in s ==> d.id < e.id
    ensures NormalDeviceList([d] + s)
  {
  }

  lemma {:induction false} WithoutDeviceHas(s: seq<Device>, id: DeviceID)
    requires NormalDeviceList(s)
    ensures NormalDeviceList(WithoutDevice(s, id))
    ensures forall d :: d in WithoutDevice(s, id) <==> d in s && d.id != id
  {
    if s != [] {
      NormalTail(s);
      if s[0].id != id {
        assert s[0] in s;
        WithoutDeviceHas(s[1..], id);
        NormalCons(s[0], WithoutDevice(s[1..], id));
      }
    }
  }

  lemma HasIffMember(s: seq<Device>, id: DeviceID)
    ensures HasDevice(s, id) <==> exists d :: d in s && d.id == id
  {
  }

  /** Once the removal of a device is committed the device is gone, and with it every mention in a
      folder, unless it is this device, which comes back. */
  lemma RemovedDeviceIsGone(cfg: Configuration, id: DeviceID, self: Self, subs: seq<Subscriber>)
    requires Normal(cfg, self) && Serve(cfg, RemoveDevice(id), self, subs).err.None?
    ensures var s := Serve(cfg, RemoveDevice(id), self, subs).cfg;
            && (HasDevice(s.devices, id) <==> id == self.id && id != EMPTY_ID)
            && (id != self.id ==> forall f :: f in s.folders ==> !Names(f.devices, id))
            && (forall o :: o != id ==> (HasDevice(s.devices, o) <==> HasDevice(cfg.devices, o)))
  {
    var s := Serve(cfg, RemoveDevice(id), self, subs).cfg;
    var to := Changed(cfg, RemoveDevice(id));
    CommittedWholeOrNotAtAll(cfg, RemoveDevice(id), self, subs);
    PreparedIsNormalForm(to, self);
    WithoutDeviceHas(cfg.devices, id);
    forall o
      ensures HasDevice(to.devices, o) <==> HasDevice(cfg.devices, o) && o != id
    {
      HasIffMember(to.devices, o);
      HasIffMember(cfg.devices, o);
    }
    EmptyIsNotThere(cfg);
    forall f | f in s.folders && id != self.id
      ensures !Names(f.devices, id)
    {
      if Names(f.devices, id) { FoldersNameExisting(s, self, f, id); }
    }
  }

  lemma EmptyIsNotThere(cfg: Configuration)
    requires NormalDeviceList(cfg.devices)
    ensures !HasDevice(cfg.devices, EMPTY_ID)
  {
  }

  // ---------------------------------------------------------------- what a removal leaves alone

  function Unshared(s: seq<FolderDevice>, id: DeviceID): seq<FolderDevice> {
    if s == [] then [] else (if s[0].id == id then [] else [s[0]]) + Unshared(s[1..], id)
  }

  lemma AscendingTail(s: seq<FolderDevice>)
    requires Ascending(s) && s != []
    ensures Ascending(s[1..]) && forall d :: d in s[1..] ==> s[0].id < d.id
    ensures forall d :: d in s <==> d == s[0] || d in s[1..]
  {
  }

  lemma {:induction false} UnsharedHas(s: seq<FolderDevice>, id: DeviceID)
    requires Ascending(s)
    ensures Ascending(Unshared(s, id))
    ensures forall d :: d in Unshared(s, id) <==> d in s && d.id != id
  {
    if s != [] {
      AscendingTail(s);
      UnsharedHas(s[1..], id);
    }
  }

  lemma FirstIsMember(s: seq<FolderDevice>)
    ensures s != [] ==> s[0] in s
  {
  }

  /** Ascending lists with the same entries are the same. */
  lemma {:induction false} AscendingAgree(s: seq<FolderDevice>, t: seq<FolderDevice>)
    requires Ascending(s) && Ascending(t) && forall d :: d in s <==> d in t
    ensures s == t
  {
    FirstIsMember(s);
    FirstIsMember(t);
    if s != [] {
      AscendingTail(s);
      AscendingTail(t);
      assert s[0] == t[0];
      AscendingAgree(s[1..], t[1..]);
      assert s == [s[0]] + s[1..] && t == [t[0]] + t[1..];
    }
  }

  /** Preparing a folder's devices once one device is gone from the configuration only unshares it. */
  lemma UnsharingIsExact(s: seq<FolderDevice>, id: DeviceID, myID: DeviceID, existing: map<DeviceID, Device>,
      fewer: map<DeviceID, Device>, encrypted: bool)
    requires Known(myID, existing) && Known(myID, fewer) && id != myID
    requires NormalDevices(s, myID, existing, encrypted)
    requires forall o :: o in fewer <==> o in existing && o != id
    requires forall o :: o in fewer ==> fewer[o] == existing[o]
    ensures PrepareDevices(s, myID, fewer, encrypted) == Unshared(s, id)
  {
    var r, c, u := PrepareDevices(s, myID, fewer, encrypted), Candidates(s, myID, fewer), Unshared(s, id);
    PreparedDevices(s, myID, fewer, encrypted);
    UnsharedHas(s, id);
    forall d | d in r
      ensures d in u
    {
      CandidateIsNamed(s, myID, fewer, d);
      var i :| 0 <= i < |s| && s[i].id == d.id;
      OnlyEntry(s, myID, fewer, s[i], d);
    }
    forall d | d in u
      ensures d in r
    {
      assert d in s && d.id in fewer && MayShare(fewer, encrypted, d);
      assert FolderDeviceID(d) in IDs(s, FolderDeviceID) * fewer.Keys;
      var e :| e in c && FolderDeviceID(e) == d.id;
      OnlyEntry(s, myID, fewer, d, e);
    }
    AscendingAgree(r, u);
  }

  /** The candidate for an ID that an ascending list names is the entry of the list. */
  lemma OnlyEntry(s: seq<FolderDevice>, myID: DeviceID, fewer: map<DeviceID, Device>, d: FolderDevice, e: FolderDevice)
    requires Ascending(s) && d in s && d.id in fewer && e in Candidates(s, myID, fewer) && e.id == d.id
    ensures e == d
  {
    var x := Existing(s, FolderDeviceID, fewer.Keys, 0);
    var u := Distinct(x, FolderDeviceID, {}, 0);
    ExistingMembers(s, fewer);
    DistinctKeeps(x, FolderDeviceID, {}, 0);
    assert u[0..] == u && x[0..] == x;
    WithDeviceIDs(u, myID);
    NamesIffID(u, myID);
    assert d in x;
    assert FolderDeviceID(d) in IDs(u, FolderDeviceID);
    assert e in s;
    AscendingKeys(s, d, e);
  }

  /** A candidate that may be shared with is named, when the list lacks this device only where it may not be. */
  lemma CandidateIsNamed(s: seq<FolderDevice>, myID: DeviceID, fewer: map<DeviceID, Device>, d: FolderDevice)
    requires d in Candidates(s, myID, fewer)
    requires d == Bare(myID) && myID != EMPTY_ID ==> Names(s, myID)
    ensures Names(s, d.id)
  {
    CandidatesAre(s, myID, fewer);
    assert FolderDeviceID(d) in IDs(Candidates(s, myID, fewer), FolderDeviceID);
    NamesIffID(s, d.id);
    if d in s { assert FolderDeviceID(d) in IDs(s, FolderDeviceID); }
  }

  lemma AscendingKeys(s: seq<FolderDevice>, d: FolderDevice, e: FolderDevice)
    requires Ascending(s) && d in s && e in s && d.id == e.id
    ensures d == e
  {
  }

  lemma ByIDWithout(s: seq<Device>, id: DeviceID)
    requires NormalDeviceList(s)
    ensures forall o :: o in ByID(WithoutDevice(s, id)) <==> o in ByID(s) && o != id
    ensures forall o :: o in ByID(WithoutDevice(s, id)) ==> ByID(WithoutDevice(s, id))[o] == ByID(s)[o]
  {
    var w := WithoutDevice(s, id);
    WithoutDeviceHas(s, id);
    ByIDHas(s);
    ByIDHas(w);
    forall o
      ensures o in ByID(w) <==> o in ByID(s) && o != id
    {
      HasIffMember(s, o);
      HasIffMember(w, o);
    }
    forall o | o in ByID(w)
      ensures ByID(w)[o] == ByID(s)[o]
    {
      SameDevice(s, ByID(w)[o], ByID(s)[o]);
    }
  }

  lemma SameDevice(s: seq<Device>, d: Device, e: Device)
    requires NormalDeviceList(s) && d in s && e in s && d.id == e.id
    ensures d == e
  {
  }

  function UnshareAll(fs: seq<Folder>, id: DeviceID): seq<Folder> {
    seq(|fs|, i requires 0 <= i < |fs| => fs[i].(devices := Unshared(fs[i].devices, id)))
  }

  lemma FoldersUnshared(fs: seq<Folder>, id: DeviceID, myID: DeviceID, existing: map<DeviceID, Device>,
      fewer: map<DeviceID, Device>)
    requires Known(myID, existing) && Known(myID, fewer) && id != myID
    requires NormalFolders(fs, myID, existing)
    requires forall o :: o in fewer <==> o in existing && o != id
    requires forall o :: o in fewer ==> fewer[o] == existing[o]
    ensures PrepareFolders(fs, myID, fewer) == Ok(UnshareAll(fs, id))
  {
    var us := UnshareAll(fs, id);
    forall i, j | 0 <= i < j < |fs| ensures fs[i].id != fs[j].id {
      assert !FolderLe(fs[j], fs[i]) && FolderLe(fs[i], fs[j]);
    }
    forall i | 0 <= i < |fs| ensures fs[i].id != "" && fs[i].path != "" && PrepareFolder(fs[i], myID, fewer) == us[i] {
      assert fs[i] in fs;
      UnsharingIsExact(fs[i].devices, id, myID, existing, fewer, fs[i].encrypted);
    }
    EachPrepared(fs, {}, myID, fewer);
    assert Acceptable(fs) && Unseen(fs, {});
    var each := PrepareEach(fs, {}, myID, fewer).value;
    assert each == us;
    FolderLeIsLinear();
    forall i, j | 0 <= i < j < |us| ensures FolderLe(us[i], us[j]) && !FolderLe(us[j], us[i]) {
      assert FolderLe(fs[i], fs[j]) && !FolderLe(fs[j], fs[i]);
    }
    SortOfStrictlySorted(FolderLe, us);
  }

  /** Removing another device takes it off the device list and off every folder, and changes nothing
      else: no entry, no order, no setting. */
  lemma RemovalIsExact(cfg: Configuration, id: DeviceID, self: Self)
    requires Normal(cfg, self) && id != self.id
    ensures Prepare(Changed(cfg, RemoveDevice(id)), self)
         == Ok(Configuration(WithoutDevice(cfg.devices, id), UnshareAll(cfg.folders, id), cfg.settings))
  {
    var w := WithoutDevice(cfg.devices, id);
    WithoutDeviceHas(cfg.devices, id);
    HasIffMember(w, self.id);
    HasIffMember(cfg.devices, self.id);
    assert EnsureMyDevice(w, self) == w;
    NormalDeviceListIsKept(w);
    ByIDWithout(cfg.devices, id);
    FoldersUnshared(cfg.folders, id, self.id, ByID(cfg.devices), ByID(w));
  }

  /** The same in plain terms. */
  lemma DeviceRemovalTouchesNothingElse(cfg: Configuration, id: DeviceID, self: Self, subs: seq<Subscriber>)
    requires Normal(cfg, self) && id != self.id && Serve(cfg, RemoveDevice(id), self, subs).err.None?
    ensures var s := Serve(cfg, RemoveDevice(id), self, subs).cfg;
            && s.settings == cfg.settings
            && (forall d :: d in s.devices <==> d in cfg.devices && d.id != id)
            && |s.folders| == |cfg.folders|
            && (forall i :: 0 <= i < |s.folders| ==>
                  s.folders[i] == cfg.folders[i].(devices := s.folders[i].devices))
            && (forall i, d :: 0 <= i < |s.folders| ==>
                  (d in s.folders[i].devices <==> d in cfg.folders[i].devices && d.id != id))
  {
    RemovalIsExact(cfg, id, self);
    WithoutDeviceHas(cfg.devices, id);
    var all := UnshareAll(cfg.folders, id);
    forall i | 0 <= i < |all|
      ensures forall d :: d in all[i].devices <==> d in cfg.folders[i].devices && d.id != id
    {
      assert cfg.folders[i] in cfg.folders;
      UnsharedHas(cfg.folders[i].devices, id);
    }
    if Changed(cfg, RemoveDevice(id)) == cfg {
      NormalFormIffPrepared(cfg, self);
      assert Configuration(WithoutDevice(cfg.devices, id), all, cfg.settings) == cfg;
    }
  }

  lemma FoldersTail(s: seq<Folder>)
    requires StrictlySorted(FolderLe, s) && s != []
    ensures StrictlySorted(FolderLe, s[1..])
    ensures forall f :: f in s[1..] ==> FolderLe(s[0], f) && !FolderLe(f, s[0]) && f.id != s[0].id
    ensures forall f :: f in s <==> f == s[0] || f in s[1..]
  {
  }

  lemma FoldersCons(f: Folder, s: seq<Folder>)
    requires StrictlySorted(FolderLe, s) && forall g :: g in s ==> FolderLe(f, g) && !FolderLe(g, f)
    ensures StrictlySorted(FolderLe, [f] + s)
  {
  }

  lemma {:induction false} WithoutFolderHas(s: seq<Folder>, id: string)
    requires StrictlySorted(FolderLe, s)
    ensures StrictlySorted(FolderLe, WithoutFolder(s, id))
    ensures forall f :: f in WithoutFolder(s, id) <==> f in s && f.id != id
  {
    if s != [] {
      FoldersTail(s);
      if s[0].id != id {
        WithoutFolderHas(s[1..], id);
        FoldersCons(s[0], WithoutFolder(s[1..], id));
      }
    }
  }

  /** Removing a folder leaves a normal form, so it is never refused but by a subscriber. */
  lemma FolderRemovalIsNormal(cfg: Configuration, id: string, self: Self)
    requires Normal(cfg, self)
    ensures var to := Changed(cfg, RemoveFolder(id)); Normal(to, self) && Prepare(to, self) == Ok(to)
  {
    WithoutFolderHas(cfg.folders, id);
    NormalFormIffPrepared(Changed(cfg, RemoveFolder(id)), self);
  }

  /** Once the removal of a folder is committed, no folder has its ID, every other folder is there as it
      was, in the same order, and devices and settings are untouched. */
  lemma RemovedFolderIsGone(cfg: Configuration, id: string, self: Self, subs: seq<Subscriber>)
    requires Normal(cfg, self) && Serve(cfg, RemoveFolder(id), self, subs).err.None?
    ensures var s := Serve(cfg, RemoveFolder(id), self, subs).cfg;
            && (forall f :: f in s.folders <==> f in cfg.folders && f.id != id)
            && s.devices == cfg.devices && s.settings == cfg.settings
            && InOrderOf(s.folders, cfg.folders)
  {
    var s := Serve(cfg, RemoveFolder(id), self, subs).cfg;
    FolderRemovalIsNormal(cfg, id, self);
    WithoutFolderHas(cfg.folders, id);
    SortedInOrder(s.folders, cfg.folders);
  }

  /** What both lists have comes in the same order in both. */
  ghost predicate InOrderOf(s: seq<Folder>, t: seq<Folder>) {
    forall i: nat, j: nat, k: nat, l: nat :: i < j < |s| && k < |t| && l < |t| && s[i] == t[k] && s[j] == t[l] ==> k < l
  }

  lemma SortedInOrder(s: seq<Folder>, t: seq<Folder>)
    requires StrictlySorted(FolderLe, s) && StrictlySorted(FolderLe, t)
    ensures InOrderOf(s, t)
  {
    forall i: nat, j: nat, k: nat, l: nat | i < j < |s| && k < |t| && l < |t| && s[i] == t[k] && s[j] == t[l]
      ensures k < l
    {
      assert FolderLe(s[i], s[j]) && !FolderLe(s[j], s[i]);
    }
  }

  /** Any subscriber that verifies can reject a removal, and nothing else can. */
  lemma FolderRemovalRefusedIff(cfg: Configuration, id: string, self: Self, subs: seq<Subscriber>)
    requires Normal(cfg, self)
    ensures var r := Serve(cfg, RemoveFolder(id), self, subs);
            var to := Changed(cfg, RemoveFolder(id));
            r.err.Some? <==>
              && (exists f :: f in cfg.folders && f.id == id)
              && exists i :: 0 <= i < |subs| && subs[i].Verifier? && !subs[i].accepts(cfg, to)
  {
    FolderRemovalIsNormal(cfg, id, self);
    WithoutFolderHas(cfg.folders, id);
    if forall f :: f in cfg.folders ==> f.id != id { WithoutNone(cfg.folders, id); }
  }

  lemma {:induction false} WithoutNone(s: seq<Folder>, id: string)
    requires forall f :: f in s ==> f.id != id
    ensures WithoutFolder(s, id) == s
  {
    if s != [] {
      assert s[0] in s;
      WithoutNone(s[1..], id);
    }
  }

  /** A change that alters the configuration is rejected exactly if one of the verifying subscribers does
      not accept going from the configuration there is to what was prepared. */
  lemma VerifiersDecide(cfg: Configuration, c: Change, self: Self, subs: seq<Subscriber>)
    ensures var to := Changed(cfg, c);
            Serve(cfg, c, self, subs).err == Some(Rejected) <==>
              && to != cfg && Prepare(to, self).Ok?
              && exists i :: 0 <= i < |subs| && subs[i].Verifier? && !subs[i].accepts(cfg, Prepare(to, self).value)
  {
    PrepareNeverRejects(Changed(cfg, c), self);
  }

  lemma PrepareNeverRejects(cfg: Configuration, self: Self)
    ensures Prepare(cfg, self) != Err(Rejected)
  {
    SelfIsKnown(cfg, self);
    EachNeverRejects(cfg.folders, {}, self.id, ByID(Devices(cfg, self)));
  }

  lemma {:induction false} EachNeverRejects(fs: seq<Folder>, seen: set<string>, myID: DeviceID,
      existing: map<DeviceID, Device>)
    requires Known(myID, existing)
    ensures PrepareEach(fs, seen, myID, existing) != Err(Rejected)
  {
    if fs != [] { EachNeverRejects(fs[1..], seen + {fs[0].id}, myID, existing); }
  }

  /** What a caller makes of its copy of the configuration is prepared and committed; a copy left as it is
      changes nothing. */
  lemma CustomChangeIsApplied(cfg: Configuration, fn: Configuration -> Configuration, self: Self, subs: seq<Subscriber>)
    requires Serve(cfg, Custom(fn), self, subs).err.None?
    ensures var s := Serve(cfg, Custom(fn), self, subs).cfg;
            if fn(cfg) == cfg then s == cfg else Prepare(fn(cfg), self) == Ok(s)
  {
  }

  // ---------------------------------------------------------------- runs

  datatype Outcome = Outcome(change: Change, subs: seq<Subscriber>, err: Option<Error>)

  /** `log` only watches: what was served, and before which subscribers. */
  datatype State = State(cfg: Configuration, queue: seq<Change>, subs: seq<Subscriber>, log: seq<Outcome>)

  datatype Event = Submit(change: Change) | ServeNext | Subscribe(sub: Subscriber) | Unsubscribe(k: nat)

  ghost function Step(s: State, e: Event, self: Self): State {
    match e
    case Submit(c) => if |s.queue| >= MAX_MODIFICATIONS then s else s.(queue := s.queue + [c])
    case ServeNext =>
      if s.queue == [] then s
      else
        var r := Serve(s.cfg, s.queue[0], self, s.subs);
        State(r.cfg, s.queue[1..], s.subs, s.log + [Outcome(s.queue[0], s.subs, r.err)])
    case Subscribe(sub) => s.(subs := s.subs + [sub])
    case Unsubscribe(k) => if k < |s.subs| then s.(subs := s.subs[..k] + s.subs[k + 1..]) else s
  }

  ghost function Run(cfg: Configuration, events: seq<Event>, self: Self): State {
    if events == [] then State(cfg, [], [], [])
    else Step(Run(cfg, events[..|events| - 1], self), events[|events| - 1], self)
  }

  /** The changes that found room in the queue, in the order they came. */
  ghost function Submitted(cfg: Configuration, events: seq<Event>, self: Self): seq<Change> {
    if events == [] then []
    else
      var before, e := events[..|events| - 1], events[|events| - 1];
      Submitted(cfg, before, self)
      + if e.Submit? && |Run(cfg, before, self).queue| < MAX_MODIFICATIONS then [e.change] else []
  }

  function Replay(cfg: Configuration, log: seq<Outcome>, self: Self): Configuration {
    if log == [] then cfg
    else
      var last := log[|log| - 1];
      Serve(Replay(cfg, log[..|log| - 1], self), last.change, self, last.subs).cfg
  }

  function Changes(log: seq<Outcome>): seq<Change> {
    seq(|log|, i requires 0 <= i < |log| => log[i].change)
  }

  /** From a configuration in normal form only normal forms are reached; the queue is bounded; what was
      submitted is served once, in that order, and nothing but serving it changed the configuration. */
  lemma {:induction false} ReachableIsNormal(cfg: Configuration, events: seq<Event>, self: Self)
    requires Normal(cfg, self)
    ensures var s := Run(cfg, events, self);
            && Normal(s.cfg, self)
            && |s.queue| <= MAX_MODIFICATIONS
            && Submitted(cfg, events, self) == Changes(s.log) + s.queue
            && s.cfg == Replay(cfg, s.log, self)
  {
    if events != [] {
      var before, e := events[..|events| - 1], events[|events| - 1];
      ReachableIsNormal(cfg, before, self);
      StepIsNormal(cfg, Run(cfg, before, self), e, self);
      StepServes(Run(cfg, before, self), e, self);
    }
  }

  lemma StepIsNormal(cfg: Configuration, s: State, e: Event, self: Self)
    requires Normal(s.cfg, self) && s.cfg == Replay(cfg, s.log, self) && |s.queue| <= MAX_MODIFICATIONS
    ensures var t := Step(s, e, self);
            Normal(t.cfg, self) && t.cfg == Replay(cfg, t.log, self) && |t.queue| <= MAX_MODIFICATIONS
  {
    if e.ServeNext? && s.queue != [] {
      CommittedWholeOrNotAtAll(s.cfg, s.queue[0], self, s.subs);
      var t := Step(s, e, self);
      assert t.log[..|t.log| - 1] == s.log;
    }
  }

  lemma StepServes(s: State, e: Event, self: Self)
    ensures var t := Step(s, e, self);
            Changes(t.log) + t.queue
              == Changes(s.log) + s.queue + (if e.Submit? && |s.queue| < MAX_MODIFICATIONS then [e.change] else [])
  {
  }

  // ---------------------------------------------------------------- the wrapper

  class Wrapper {
    const self: Self
    var cfg: Configuration
    var queue: seq<Change>
    var subs: seq<Subscriber>
    ghost var log: seq<Outcome>

    ghost function Now(): State
      reads this
    {
      State(cfg, queue, subs, log)
    }

    constructor (cfg: Configuration, self: Self)
      ensures this.self == self && Now() == State(cfg, [], [], [])
    {
      this.self := self;
      this.cfg, queue, subs, log := cfg, [], [], [];
    }

    /** Queues a change, or refuses it. */
    method ModifyQueued(c: Change) returns (err: Option<Error>)
      modifies `queue
      ensures Now() == Step(old(Now()), Submit(c), self)
      ensures err == if |old(queue)| < MAX_MODIFICATIONS then None else Some(TooManyModifications)
    {
      if |queue| >= MAX_MODIFICATIONS {
        return Some(TooManyModifications);
      }
      queue := queue + [c];
      err := None;
    }

    method Replace(to: Configuration) returns (err: Option<Error>)
      modifies `cfg
      ensures match Replaced(old(cfg), to, self, subs)
              case Err(e) => cfg == old(cfg) && err == Some(e)
              case Ok(p) => cfg == p && err.None?
    {
      var from := cfg;
      var prepared := PrepareConfiguration(to, self);
      if prepared.Err? {
        return Some(prepared.error);
      }
      for i := 0 to |subs|
        invariant forall j :: 0 <= j < i && subs[j].Verifier? ==> subs[j].accepts(from, prepared.value)
        invariant cfg == from
      {
        if subs[i].Verifier? && !subs[i].accepts(from, prepared.value) {
          return Some(Rejected);
        }
      }
      cfg := prepared.value;
      err := None;
    }

    /** One round of Serve: the change at the head of the queue. */
    method ServeNext() returns (err: Option<Error>)
      requires queue != []
      modifies this
      ensures Now() == Step(old(Now()), Event.ServeNext, self)
      ensures err == Serve(old(cfg), old(queue)[0], self, old(subs)).err
    {
      var c := queue[0];
      queue := queue[1..];
      var to := Changed(cfg, c);
      err := None;
      if to != cfg {
        err := Replace(to);
      }
      log := log + [Outcome(c, subs, err)];
    }
  }
}
