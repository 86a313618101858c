/** Preparing a configuration (Configuration.prepare and what it calls in lib/config/config.go), as far
    as devices and folders go: the normal forms are exactly the configurations it leaves alone. */
module ConfigPrepare {
  import opened Sorting
  import opened DeviceLists
  import opened FolderSharing

  datatype Folder = Folder(id: string, path: string, devices: seq<FolderDevice>, encrypted: bool)

  /** `settings` stands for everything else in the configuration. */
  datatype Configuration = Configuration(devices: seq<Device>, folders: seq<Folder>, settings: nat)

  /** This device: its ID, empty when unknown, and the host name it is given. */
  datatype Self = Self(id: DeviceID, name: string)

  datatype Error =
    | FolderIDEmpty | FolderPathEmpty(folder: string) | FolderIDDuplicate(folder: string)
    | Rejected | TooManyModifications

  datatype Result<T> = Ok(value: T) | Err(error: Error)

  // ---------------------------------------------------------------- the device list

  predicate HasDevice(s: seq<Device>, id: DeviceID) {
    exists i :: 0 <= i < |s| && s[i].id == id
  }

  function EnsureMyDevice(s: seq<Device>, self: Self): seq<Device> {
    if self.id == EMPTY_ID || HasDevice(s, self.id) then s else s + [Device(self.id, self.name, false)]
  }

  predicate DeviceLe(a: Device, b: Device) { a.id <= b.id }

  function PrepareDeviceList(s: seq<Device>): seq<Device> {
    Sort(DeviceLe, Distinct(s, IDOf, {EMPTY_ID}, 0))
  }

  /** The map a list of devices is looked up through. */
  function ByID(s: seq<Device>): map<DeviceID, Device> {
    if s == [] then map[] else ByID(s[..|s| - 1])[s[|s| - 1].id := s[|s| - 1]]
  }

  lemma {:induction false} ByIDHas(s: seq<Device>)
    ensures forall id :: id in ByID(s) <==> HasDevice(s, id)
    ensures forall id :: id in ByID(s) ==> ByID(s)[id] in s && ByID(s)[id].id == id
  {
    if s != [] {
      var init, last := s[..|s| - 1], s[|s| - 1];
      ByIDHas(init);
      forall id
        ensures HasDevice(s, id) <==> HasDevice(init, id) || id == last.id
      {
        if HasDevice(init, id) {
          var i :| 0 <= i < |init| && init[i].id == id;
          assert s[i].id == id;
        }
        assert s[|s| - 1] == last;
      }
    }
  }

  /** The device list in normal form: the IDs ascend and none is empty. */
  ghost predicate NormalDeviceList(s: seq<Device>) {
    StrictlySorted(DeviceLe, s) && forall d :: d in s ==> d.id != EMPTY_ID
  }

  lemma DeviceLeIsLinear()
    ensures Linear(DeviceLe)
  {
  }

  lemma DistinctDevices(s: seq<Device>)
    requires DistinctIDs(s, IDOf)
    ensures Unique(s) && NoTies(DeviceLe, s)
  {
  }

  /** Preparing keeps one entry for every ID but the empty one, and puts them in order. */
  lemma DeviceListPrepared(s: seq<Device>)
    ensures var r := PrepareDeviceList(s);
            && NormalDeviceList(r)
            && (forall d :: d in r ==> d in s)
            && (forall id :: HasDevice(r, id) <==> HasDevice(s, id) && id != EMPTY_ID)
  {
    var u := Distinct(s, IDOf, {EMPTY_ID}, 0);
    var r := Sort(DeviceLe, u);
    DistinctKeeps(s, IDOf, {EMPTY_ID}, 0);
    assert u[0..] == u && s[0..] == s;
    DeviceLeIsLinear();
    DistinctDevices(u);
    SortSorts(DeviceLe, u);
    SortWithoutTies(DeviceLe, u, r);
    forall d ensures d in r <==> d in u { SortMembers(DeviceLe, u, d); }
    forall d | d in r ensures d.id != EMPTY_ID { assert IDOf(d) in IDs(u, IDOf); }
    forall id
      ensures HasDevice(r, id) <==> HasDevice(s, id) && id != EMPTY_ID
    {
      HasIffID(s, id);
      HasIffID(u, id);
      HasIffID(r, id);
      assert IDs(r, IDOf) == IDs(u, IDOf);
    }
  }

  lemma HasIffID(s: seq<Device>, id: DeviceID)
    ensures HasDevice(s, id) <==> id in IDs(s, IDOf)
  {
    if id in IDs(s, IDOf) {
      var d :| d in s && IDOf(d) == id;
    }
    if HasDevice(s, id) {
      var i :| 0 <= i < |s| && s[i].id == id;
      assert IDOf(s[i]) == id && s[i] in s;
    }
  }

  lemma NormalDeviceListIsKept(s: seq<Device>)
    requires NormalDeviceList(s)
    ensures PrepareDeviceList(s) == s
  {
    DeviceLeIsLinear();
    forall i, j | 0 <= i < j < |s| ensures IDOf(s[i]) != IDOf(s[j]) { assert !DeviceLe(s[j], s[i]); }
    forall j | 0 <= j < |s| ensures IDOf(s[j]) !in {EMPTY_ID} { assert s[j] in s; }
    DistinctOfDistinct(s, IDOf, {EMPTY_ID}, 0);
    SortOfStrictlySorted(DeviceLe, s);
  }

  // ---------------------------------------------------------------- the folders

  function PrepareFolder(f: Folder, myID: DeviceID, existing: map<DeviceID, Device>): Folder
    requires Known(myID, existing)
  {
    f.(devices := PrepareDevices(f.devices, myID, existing, f.encrypted))
  }

  function CheckFolder(f: Folder, seen: set<string>): Result<()> {
    if f.id == "" then Err(FolderIDEmpty)
    else if f.path == "" then Err(FolderPathEmpty(f.id))
    else if f.id in seen then Err(FolderIDDuplicate(f.id))
    else Ok(())
  }

  /** The folders after the first `seen` of them, in their order. */
  function PrepareEach(fs: seq<Folder>, seen: set<string>, myID: DeviceID,
      existing: map<DeviceID, Device>): Result<seq<Folder>>
    requires Known(myID, existing)
  {
    if fs == [] then Ok([])
    else match CheckFolder(fs[0], seen)
      case Err(e) => Err(e)
      case Ok(_) =>
        match PrepareEach(fs[1..], seen + {fs[0].id}, myID, existing)
        case Err(e) => Err(e)
        case Ok(rest) => Ok([PrepareFolder(fs[0], myID, existing)] + rest)
  }

  predicate FolderLe(a: Folder, b: Folder) { LexLe(a.id, b.id) }

  function PrepareFolders(fs: seq<Folder>, myID: DeviceID, existing: map<DeviceID, Device>): Result<seq<Folder>>
    requires Known(myID, existing)
  {
    match PrepareEach(fs, {}, myID, existing)
    case Err(e) => Err(e)
    case Ok(r) => Ok(Sort(FolderLe, r))
  }

  /** What a folder list has to be like. */
  ghost predicate Acceptable(fs: seq<Folder>) {
    && (forall i :: 0 <= i < |fs| ==> fs[i].id != "" && fs[i].path != "")
    && (forall i, j :: 0 <= i < j < |fs| ==> fs[i].id != fs[j].id)
  }

  ghost predicate Unseen(fs: seq<Folder>, seen: set<string>) {
    forall i :: 0 <= i < |fs| ==> fs[i].id !in seen
  }

  ghost predicate PreparedOneByOne(fs: seq<Folder>, r: seq<Folder>, myID: DeviceID, existing: map<DeviceID, Device>)
    requires Known(myID, existing)
  {
    |r| == |fs| && forall i :: 0 <= i < |fs| ==> r[i] == PrepareFolder(fs[i], myID, existing)
  }

  lemma AcceptableTail(fs: seq<Folder>, seen: set<string>)
    requires fs != []
    ensures Acceptable(fs) && Unseen(fs, seen) <==>
            CheckFolder(fs[0], seen).Ok? && Acceptable(fs[1..]) && Unseen(fs[1..], seen + {fs[0].id})
  {
  }

  lemma {:induction false} EachPrepared(fs: seq<Folder>, seen: set<string>, myID: DeviceID,
      existing: map<DeviceID, Device>)
    requires Known(myID, existing)
    ensures var r := PrepareEach(fs, seen, myID, existing);
            && (r.Ok? <==> Acceptable(fs) && Unseen(fs, seen))
            && (r.Ok? ==> PreparedOneByOne(fs, r.value, myID, existing))
  {
    if fs != [] {
      AcceptableTail(fs, seen);
      EachPrepared(fs[1..], seen + {fs[0].id}, myID, existing);
    }
  }

  lemma FolderLeIsLinear()
    ensures Linear(FolderLe)
  {
    LexIsLinear();
  }

  lemma AcceptableHasNoTies(fs: seq<Folder>)
    requires Acceptable(fs)
    ensures Unique(fs) && NoTies(FolderLe, fs)
  {
    forall i, j | 0 <= i < |fs| && 0 <= j < |fs| && FolderLe(fs[i], fs[j]) && FolderLe(fs[j], fs[i])
      ensures fs[i] == fs[j]
    {
      LexTotal(fs[i].id, fs[j].id);
    }
  }

  /** The folder list in normal form. */
  ghost predicate NormalFolders(fs: seq<Folder>, myID: DeviceID, existing: map<DeviceID, Device>)
    requires Known(myID, existing)
  {
    && StrictlySorted(FolderLe, fs)
    && (forall f :: f in fs ==> f.id != "" && f.path != "" && NormalDevices(f.devices, myID, existing, f.encrypted))
  }

  lemma FoldersPrepared(fs: seq<Folder>, myID: DeviceID, existing: map<DeviceID, Device>)
    requires Known(myID, existing)
    ensures var r := PrepareFolders(fs, myID, existing);
            && (r.Ok? <==> Acceptable(fs))
            && (r.Ok? ==> NormalFolders(r.value, myID, existing))
            && (r.Ok? ==> forall f :: f in r.value <==>
                exists i :: 0 <= i < |fs| && f == PrepareFolder(fs[i], myID, existing))
  {
    EachPrepared(fs, {}, myID, existing);
    assert Unseen(fs, {});
    if Acceptable(fs) {
      var each := PrepareEach(fs, {}, myID, existing).value;
      var r := Sort(FolderLe, each);
      assert Acceptable(each);
      AcceptableHasNoTies(each);
      FolderLeIsLinear();
      SortSorts(FolderLe, each);
      SortWithoutTies(FolderLe, each, r);
      forall f
        ensures f in r <==> exists i :: 0 <= i < |fs| && f == PrepareFolder(fs[i], myID, existing)
      {
        SortMembers(FolderLe, each, f);
        if f in each {
          var i :| 0 <= i < |each| && each[i] == f;
          assert f == PrepareFolder(fs[i], myID, existing);
        }
        if i :| 0 <= i < |fs| && f == PrepareFolder(fs[i], myID, existing) {
          assert each[i] == f;
        }
      }
      forall f | f in r
        ensures f.id != "" && f.path != "" && NormalDevices(f.devices, myID, existing, f.encrypted)
      {
        var i :| 0 <= i < |fs| && f == PrepareFolder(fs[i], myID, existing);
        PreparedIsNormal(fs[i].devices, myID, existing, fs[i].encrypted);
      }
    }
  }

  lemma NormalFoldersAreKept(fs: seq<Folder>, myID: DeviceID, existing: map<DeviceID, Device>)
    requires Known(myID, existing) && NormalFolders(fs, myID, existing)
    ensures PrepareFolders(fs, myID, existing) == Ok(fs)
  {
    FolderLeIsLinear();
    SortOfStrictlySorted(FolderLe, fs);
    forall i, j | 0 <= i < j < |fs| ensures fs[i].id != fs[j].id {
      assert !FolderLe(fs[j], fs[i]) && FolderLe(fs[i], fs[j]);
    }
    forall i | 0 <= i < |fs|
      ensures fs[i].id != "" && fs[i].path != "" && PrepareFolder(fs[i], myID, existing) == fs[i]
    {
      assert fs[i] in fs;
      NormalIffPrepared(fs[i].devices, myID, existing, fs[i].encrypted);
    }
    EachPrepared(fs, {}, myID, existing);
    assert Acceptable(fs) && Unseen(fs, {});
    var each := PrepareEach(fs, {}, myID, existing).value;
    assert each == fs;
  }

  // ---------------------------------------------------------------- the configuration

  function Devices(cfg: Configuration, self: Self): seq<Device> {
    PrepareDeviceList(EnsureMyDevice(cfg.devices, self))
  }

  lemma SelfIsKnown(cfg: Configuration, self: Self)
    ensures Known(self.id, ByID(Devices(cfg, self)))
    ensures forall id :: HasDevice(Devices(cfg, self), id) <==>
            id != EMPTY_ID && (HasDevice(cfg.devices, id) || id == self.id)
  {
    var s := EnsureMyDevice(cfg.devices, self);
    forall id
      ensures id != EMPTY_ID ==> (HasDevice(s, id) <==> HasDevice(cfg.devices, id) || id == self.id)
    {
      HasIffID(s, id);
      HasIffID(cfg.devices, id);
      if s != cfg.devices {
        assert s[|s| - 1].id == self.id;
        assert IDs(s, IDOf) == IDs(cfg.devices, IDOf) + {self.id} by {
          assert s[|s| - 1] in s && IDOf(s[|s| - 1]) == self.id;
        }
      }
    }
    DeviceListPrepared(s);
    ByIDHas(Devices(cfg, self));
  }

  function Prepare(cfg: Configuration, self: Self): Result<Configuration> {
    var devices := Devices(cfg, self);
    SelfIsKnown(cfg, self);
    match PrepareFolders(cfg.folders, self.id, ByID(devices))
    case Err(e) => Err(e)
    case Ok(folders) => Ok(cfg.(devices := devices, folders := folders))
  }

  /** Unique, non-empty and sorted device IDs with this device among them, unique and sorted folder IDs,
      and every folder shared as it should be with existing devices only. */
  ghost predicate Normal(cfg: Configuration, self: Self) {
    && NormalDeviceList(cfg.devices)
    && (self.id == EMPTY_ID || HasDevice(cfg.devices, self.id))
    && Known(self.id, ByID(cfg.devices))
    && NormalFolders(cfg.folders, self.id, ByID(cfg.devices))
  }

  /** Preparing refuses exactly the configurations with an empty folder ID or path or two folders with
      one ID, and otherwise delivers a normal form. */
  lemma PreparedIsNormalForm(cfg: Configuration, self: Self)
    ensures Prepare(cfg, self).Ok? <==> Acceptable(cfg.folders)
    ensures Prepare(cfg, self).Ok? ==> Normal(Prepare(cfg, self).value, self)
    ensures Prepare(cfg, self).Ok? ==>
              forall id :: HasDevice(Prepare(cfg, self).value.devices, id) <==>
                id != EMPTY_ID && (HasDevice(cfg.devices, id) || id == self.id)
  {
    SelfIsKnown(cfg, self);
    DeviceListPrepared(EnsureMyDevice(cfg.devices, self));
    FoldersPrepared(cfg.folders, self.id, ByID(Devices(cfg, self)));
  }

  /** The normal forms are the configurations that preparing leaves alone. */
  lemma NormalFormIffPrepared(cfg: Configuration, self: Self)
    ensures Normal(cfg, self) <==> Prepare(cfg, self) == Ok(cfg)
  {
    if Normal(cfg, self) {
      assert EnsureMyDevice(cfg.devices, self) == cfg.devices;
      NormalDeviceListIsKept(cfg.devices);
      NormalFoldersAreKept(cfg.folders, self.id, ByID(cfg.devices));
    } else {
      PreparedIsNormalForm(cfg, self);
    }
  }

  /** In a normal form folders name only devices of the configuration. */
  lemma FoldersNameExisting(cfg: Configuration, self: Self, f: Folder, id: DeviceID)
    requires Normal(cfg, self) && f in cfg.folders && Names(f.devices, id)
    ensures HasDevice(cfg.devices, id) && id != EMPTY_ID
  {
    ByIDHas(cfg.devices);
    var i :| 0 <= i < |f.devices| && f.devices[i].id == id;
    assert f.devices[i] in f.devices;
    var j :| 0 <= j < |cfg.devices| && cfg.devices[j].id == id;
    assert cfg.devices[j] in cfg.devices;
  }

  ghost function FolderIDs(fs: seq<Folder>): set<string> {
    set f | f in fs :: f.id
  }

  /** The error is that of the first folder with one. */
  lemma {:induction false} FirstErrorWins(fs: seq<Folder>, seen: set<string>, k: nat, myID: DeviceID,
      existing: map<DeviceID, Device>)
    requires Known(myID, existing) && k < |fs|
    requires Acceptable(fs[..k]) && Unseen(fs[..k], seen)
    ensures var check := CheckFolder(fs[k], seen + FolderIDs(fs[..k]));
            check.Err? ==> PrepareEach(fs, seen, myID, existing) == Err(check.error)
  {
    if k > 0 {
      var before, rest := fs[..k], fs[1..];
      AcceptableTail(before, seen);
      assert before[1..] == rest[..k - 1];
      FirstErrorWins(rest, seen + {fs[0].id}, k - 1, myID, existing);
      assert before == [fs[0]] + rest[..k - 1];
      assert FolderIDs(before) == {fs[0].id} + FolderIDs(rest[..k - 1]);
      assert seen + FolderIDs(before) == seen + {fs[0].id} + FolderIDs(rest[..k - 1]);
    } else {
      assert seen + FolderIDs(fs[..k]) == seen;
    }
  }

  /** ... which is, for an empty ID, an empty path, or an ID that an earlier folder has: */
  lemma FirstErrorIs(cfg: Configuration, self: Self, k: nat)
    requires k < |cfg.folders| && Acceptable(cfg.folders[..k])
    ensures var f, e := cfg.folders[k], Prepare(cfg, self);
            && (f.id == "" ==> e == Err(FolderIDEmpty))
            && (f.id != "" && f.path == "" ==> e == Err(FolderPathEmpty(f.id)))
            && (f.id != "" && f.path != "" && (exists j :: 0 <= j < k && cfg.folders[j].id == f.id) ==>
                e == Err(FolderIDDuplicate(f.id)))
  {
    var fs, f := cfg.folders, cfg.folders[k];
    SelfIsKnown(cfg, self);
    assert Unseen(fs[..k], {});
    FirstErrorWins(fs, {}, k, self.id, ByID(Devices(cfg, self)));
    if j :| 0 <= j < k && fs[j].id == f.id {
      assert fs[..k][j] == fs[j];
      assert f.id in FolderIDs(fs[..k]);
    }
  }

  /** The devices are those there were, and if this one was missing an entry with its ID and name that is
      trusted; settings stay. */
  lemma OwnDeviceIsAdded(cfg: Configuration, self: Self)
    requires Prepare(cfg, self).Ok?
    ensures var p := Prepare(cfg, self).value; var own := Device(self.id, self.name, false);
            var missing := self.id != 0 && forall d :: d in cfg.devices ==> d.id != self.id;
            && (missing ==> own in p.devices)
            && (forall d :: d in p.devices ==> d in cfg.devices || (missing && d == own))
            && p.settings == cfg.settings
  {
    var s := EnsureMyDevice(cfg.devices, self);
    DeviceListPrepared(s);
    HasIffID(cfg.devices, self.id);
    if self.id != 0 && !HasDevice(cfg.devices, self.id) {
      assert s[|s| - 1].id == self.id;
      var r := PrepareDeviceList(s);
      assert HasDevice(r, self.id) <==> HasDevice(s, self.id);
      var i :| 0 <= i < |r| && r[i].id == self.id;
      assert r[i] in s;
      assert forall d :: d in cfg.devices ==> IDOf(d) in IDs(cfg.devices, IDOf);
    } else if self.id != 0 {
      var i :| 0 <= i < |cfg.devices| && cfg.devices[i].id == self.id;
      assert cfg.devices[i] in cfg.devices;
    }
  }

  /** Folders keep all but their device lists, and none is lost or made up. */
  lemma FoldersKeepTheRest(cfg: Configuration, self: Self)
    requires Prepare(cfg, self).Ok?
    ensures var p := Prepare(cfg, self).value; Known(self.id, ByID(p.devices))
    ensures var p := Prepare(cfg, self).value;
            forall id, path, devices, encrypted :: Folder(id, path, devices, encrypted) in p.folders <==>
              exists before :: Folder(id, path, before, encrypted) in cfg.folders
                               && devices == PrepareDevices(before, self.id, ByID(p.devices), encrypted)
  {
    SelfIsKnown(cfg, self);
    var p := Prepare(cfg, self).value;
    FoldersPrepared(cfg.folders, self.id, ByID(p.devices));
    forall id, path, devices, encrypted
      ensures Folder(id, path, devices, encrypted) in p.folders <==>
              exists before :: Folder(id, path, before, encrypted) in cfg.folders
                               && devices == PrepareDevices(before, self.id, ByID(p.devices), encrypted)
    {
      var f := Folder(id, path, devices, encrypted);
      if f in p.folders {
        var i :| 0 <= i < |cfg.folders| && f == PrepareFolder(cfg.folders[i], self.id, ByID(p.devices));
        assert Folder(id, path, cfg.folders[i].devices, encrypted) == cfg.folders[i];
      }
      if before :| Folder(id, path, before, encrypted) in cfg.folders
                   && devices == PrepareDevices(before, self.id, ByID(p.devices), encrypted) {
        var i :| 0 <= i < |cfg.folders| && cfg.folders[i] == Folder(id, path, before, encrypted);
        assert f == PrepareFolder(cfg.folders[i], self.id, ByID(p.devices));
      }
    }
  }

  // ---------------------------------------------------------------- the loops

  method EnsureMyDeviceIn(devices: seq<Device>, self: Self) returns (r: seq<Device>)
    ensures r == EnsureMyDevice(devices, self)
  {
    if self.id == EMPTY_ID {
      return devices;
    }
    for i := 0 to |devices|
      invariant forall j :: 0 <= j < i ==> devices[j].id != self.id
    {
      if devices[i].id == self.id {
        return devices;
      }
    }
    r := devices + [Device(self.id, self.name, false)];
  }

  method PrepareDeviceListOf(devices: seq<Device>) returns (r: seq<Device>, existing: map<DeviceID, Device>)
    ensures r == PrepareDeviceList(devices) && existing == ByID(r)
  {
    var a := new Device[|devices|](i requires 0 <= i < |devices| => devices[i]);
    assert a[..] == devices;
    var count := EnsureNoDuplicateOrEmptyIDDevices(a);
    r := Sort(DeviceLe, a[..count]);
    existing := map[];
    for i := 0 to |r|
      invariant existing == ByID(r[..i])
    {
      existing := existing[r[i].id := r[i]];
      assert r[..i + 1][..i] == r[..i];
    }
    assert r[..|r|] == r;
  }

  function Prepend<T>(done: seq<T>, r: Result<seq<T>>): Result<seq<T>> {
    match r case Err(e) => Err(e) case Ok(rest) => Ok(done + rest)
  }

  method PrepareFoldersIn(fs: seq<Folder>, myID: DeviceID, existing: map<DeviceID, Device>)
      returns (r: Result<seq<Folder>>)
    requires Known(myID, existing)
    ensures r == PrepareFolders(fs, myID, existing)
  {
    var done: seq<Folder> := [];
    var seen: set<string> := {};
    assert fs[0..] == fs;
    assert forall rest: seq<Folder> :: [] + rest == rest;
    for i := 0 to |fs|
      invariant PrepareEach(fs, {}, myID, existing) == Prepend(done, PrepareEach(fs[i..], seen, myID, existing))
    {
      var folder := fs[i];
      assert fs[i..][0] == folder && fs[i..][1..] == fs[i + 1..];
      if folder.id == "" {
        return Err(FolderIDEmpty);
      }
      if folder.path == "" {
        return Err(FolderPathEmpty(folder.id));
      }
      if folder.id in seen {
        return Err(FolderIDDuplicate(folder.id));
      }
      var f := new FolderConfiguration(folder.id, folder.path, folder.encrypted, folder.devices);
      f.Prepare(myID, existing);
      seen := seen + {folder.id};
      assert forall rest: seq<Folder> ::
             done + ([PrepareFolder(folder, myID, existing)] + rest)
               == done + [PrepareFolder(folder, myID, existing)] + rest;
      done := done + [Folder(f.id, f.path, f.devices, f.receiveEncrypted)];
    }
    assert done + [] == done;
    r := Ok(Sort(FolderLe, done));
  }

  method PrepareConfiguration(cfg: Configuration, self: Self) returns (r: Result<Configuration>)
    ensures r == Prepare(cfg, self)
  {
    SelfIsKnown(cfg, self);
    var devices := EnsureMyDeviceIn(cfg.devices, self);
    var existing;
    devices, existing := PrepareDeviceListOf(devices);
    var folders := PrepareFoldersIn(cfg.folders, self.id, existing);
    match folders {
      case Err(e) => r := Err(e);
      case Ok(fs) => r := Ok(cfg.(devices := devices, folders := fs));
    }
  }
}
