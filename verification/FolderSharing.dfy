/** What preparing a folder makes of the devices it is shared with (FolderConfiguration.prepare in
    lib/config/folderconfiguration.go). */
module FolderSharing {
  import opened Sorting
  import opened DeviceLists
  import opened Slices

  predicate IDLe(a: FolderDevice, b: FolderDevice) { a.id <= b.id }

  predicate Names(s: seq<FolderDevice>, id: DeviceID) {
    exists i :: 0 <= i < |s| && s[i].id == id
  }

  function Bare(id: DeviceID): FolderDevice { FolderDevice(id, EMPTY_ID, "") }

  function WithDevice(s: seq<FolderDevice>, myID: DeviceID): seq<FolderDevice> {
    if myID == EMPTY_ID || Names(s, myID) then s else s + [Bare(myID)]
  }

  method EnsureDevicePresent(devices: seq<FolderDevice>, myID: DeviceID) returns (r: seq<FolderDevice>)
    ensures r == WithDevice(devices, myID)
  {
    if myID == EMPTY_ID {
      return devices;
    }
    for i := 0 to |devices|
      invariant forall j :: 0 <= j < i ==> devices[j].id != myID
    {
      if devices[i].id == myID {
        return devices;
      }
    }
    r := devices + [Bare(myID)];
  }

  /** The entries that sharing is decided on: one for each device. */
  function Candidates(devs: seq<FolderDevice>, myID: DeviceID, existing: map<DeviceID, Device>): seq<FolderDevice> {
    WithDevice(Distinct(Existing(devs, FolderDeviceID, existing.Keys, 0), FolderDeviceID, {}, 0), myID)
  }

  ghost predicate AllExist(s: seq<FolderDevice>, existing: map<DeviceID, Device>) {
    forall d :: d in s ==> d.id in existing
  }

  predicate Known(myID: DeviceID, existing: map<DeviceID, Device>) { myID == EMPTY_ID || myID in existing }

  function PrepareDevices(devs: seq<FolderDevice>, myID: DeviceID, existing: map<DeviceID, Device>,
      encrypted: bool): seq<FolderDevice>
    requires Known(myID, existing)
  {
    CandidatesAre(devs, myID, existing);
    Sort(IDLe, Trusting(Candidates(devs, myID, existing), existing, encrypted))
  }

  lemma ExistingMembers(devs: seq<FolderDevice>, existing: map<DeviceID, Device>)
    ensures var e := Existing(devs, FolderDeviceID, existing.Keys, 0);
            && (forall d :: d in e <==> d in devs && d.id in existing)
            && IDs(e, FolderDeviceID) == IDs(devs, FolderDeviceID) * existing.Keys
  {
    var e := Existing(devs, FolderDeviceID, existing.Keys, 0);
    ExistingKeeps(devs, FolderDeviceID, existing.Keys, 0);
    forall d
      ensures d in e <==> d in devs && d.id in existing
    {
      CountMembers(e, d);
      CountMembers(devs, d);
      assert multiset(e)[d] == if FolderDeviceID(d) in existing.Keys then multiset(devs)[d] else 0;
    }
  }

  lemma NamesIffID(s: seq<FolderDevice>, id: DeviceID)
    ensures Names(s, id) <==> id in IDs(s, FolderDeviceID)
  {
    if id in IDs(s, FolderDeviceID) {
      var d :| d in s && FolderDeviceID(d) == id;
    }
    if Names(s, id) {
      var i :| 0 <= i < |s| && s[i].id == id;
      assert FolderDeviceID(s[i]) == id && s[i] in s;
    }
  }

  lemma WithDeviceIDs(s: seq<FolderDevice>, myID: DeviceID)
    requires DistinctIDs(s, FolderDeviceID)
    ensures var r := WithDevice(s, myID);
            && DistinctIDs(r, FolderDeviceID)
            && IDs(r, FolderDeviceID) == IDs(s, FolderDeviceID) + (if myID == EMPTY_ID then {} else {myID})
            && (forall d :: d in r <==> d in s || (d == Bare(myID) && myID != EMPTY_ID && !Names(s, myID)))
  {
    NamesIffID(s, myID);
    var r := WithDevice(s, myID);
    if r != s {
      assert IDs(r, FolderDeviceID) == IDs(s, FolderDeviceID) + {myID} by {
        assert FolderDeviceID(Bare(myID)) == myID && Bare(myID) in r;
      }
    }
  }

  /** One entry for every existing device in the list and for this device, each taken from the list
      unless it is this device's and was missing. */
  lemma CandidatesAre(devs: seq<FolderDevice>, myID: DeviceID, existing: map<DeviceID, Device>)
    ensures var c := Candidates(devs, myID, existing);
            && DistinctIDs(c, FolderDeviceID)
            && IDs(c, FolderDeviceID)
                 == IDs(devs, FolderDeviceID) * existing.Keys + (if myID == EMPTY_ID then {} else {myID})
            && (forall d :: d in c ==> d in devs || (d == Bare(myID) && !(myID in existing && Names(devs, myID))))
            && (Known(myID, existing) ==> AllExist(c, existing))
  {
    var e := Existing(devs, FolderDeviceID, existing.Keys, 0);
    var u := Distinct(e, FolderDeviceID, {}, 0);
    ExistingMembers(devs, existing);
    DistinctKeeps(e, FolderDeviceID, {}, 0);
    assert u[0..] == u && e[0..] == e;
    WithDeviceIDs(u, myID);
    NamesIffID(u, myID);
    NamesIffID(devs, myID);
    var c := WithDevice(u, myID);
    forall d | d in c && Known(myID, existing)
      ensures d.id in existing
    {
      assert FolderDeviceID(d) in IDs(c, FolderDeviceID);
    }
  }

  lemma IDLeIsLinear()
    ensures Linear(IDLe)
  {
  }

  lemma {:induction false} TrustingMembers(s: seq<FolderDevice>, existing: map<DeviceID, Device>, encrypted: bool)
    requires AllExist(s, existing)
    ensures forall d :: d in Trusting(s, existing, encrypted) <==> d in s && MayShare(existing, encrypted, d)
    ensures DistinctIDs(s, FolderDeviceID) ==> DistinctIDs(Trusting(s, existing, encrypted), FolderDeviceID)
  {
    if s != [] {
      assert s == [s[0]] + s[1..];
      TrustingMembers(s[1..], existing, encrypted);
      var t := Trusting(s[1..], existing, encrypted);
      if DistinctIDs(s, FolderDeviceID) {
        forall j | 0 <= j < |t| ensures t[j].id != s[0].id {
          assert t[j] in s[1..];
          var k :| 0 <= k < |s[1..]| && s[1..][k] == t[j];
          assert FolderDeviceID(s[0]) != FolderDeviceID(s[k + 1]);
        }
      }
    }
  }

  lemma DistinctHasNoTies(s: seq<FolderDevice>)
    requires DistinctIDs(s, FolderDeviceID)
    ensures NoTies(IDLe, s) && Unique(s)
  {
  }

  ghost predicate Ascending(s: seq<FolderDevice>) {
    forall i, j :: 0 <= i < j < |s| ==> s[i].id < s[j].id
  }

  /** However a list with distinct IDs is sorted by ID, the IDs ascend and the result is the same. */
  lemma SortedByID(s: seq<FolderDevice>, t: seq<FolderDevice>)
    requires DistinctIDs(s, FolderDeviceID)
    requires multiset(t) == multiset(s) && Sorted(IDLe, t)
    ensures Ascending(t) && t == Sort(IDLe, s)
  {
    IDLeIsLinear();
    DistinctHasNoTies(s);
    SortWithoutTies(IDLe, s, t);
    forall i, j | 0 <= i < j < |t| ensures t[i].id < t[j].id { assert !IDLe(t[j], t[i]); }
  }

  /** The normal form: the IDs ascend, so every device is listed once; listed are exactly the candidates
      that the folder may be shared with, and the candidates are the existing devices of the list and
      this device. */
  lemma PreparedDevices(devs: seq<FolderDevice>, myID: DeviceID, existing: map<DeviceID, Device>, encrypted: bool)
    requires Known(myID, existing)
    ensures var r := PrepareDevices(devs, myID, existing, encrypted); var c := Candidates(devs, myID, existing);
            && Ascending(r) && AllExist(c, existing)
            && (forall d :: d in r <==> d in c && MayShare(existing, encrypted, d))
            && IDs(c, FolderDeviceID)
                 == IDs(devs, FolderDeviceID) * existing.Keys + (if myID == EMPTY_ID then {} else {myID})
            && (forall d :: d in c ==> d in devs || (d == Bare(myID) && !(myID in existing && Names(devs, myID))))
  {
    var c := Candidates(devs, myID, existing);
    CandidatesAre(devs, myID, existing);
    TrustingMembers(c, existing, encrypted);
    var t := Trusting(c, existing, encrypted);
    IDLeIsLinear();
    SortSorts(IDLe, t);
    SortedByID(t, Sort(IDLe, t));
    forall d
      ensures d in Sort(IDLe, t) <==> d in t
    {
      SortMembers(IDLe, t, d);
    }
  }

  /** Every entry for a device has a password, or every one has none. */
  ghost predicate AllEntries(devs: seq<FolderDevice>, id: DeviceID, password: bool) {
    forall d :: d in devs && d.id == id ==> (d.password != "") == password
  }

  /** Where passwords do not matter the IDs decide alone: all existing devices of the list, and this one. */
  lemma PreparedIDs(devs: seq<FolderDevice>, myID: DeviceID, existing: map<DeviceID, Device>, encrypted: bool,
      id: DeviceID)
    requires Known(myID, existing) && id in existing
    requires encrypted || !existing[id].untrusted
          || ((id != myID || Names(devs, id)) && AllEntries(devs, id, true))
    ensures Names(PrepareDevices(devs, myID, existing, encrypted), id) <==>
            Names(devs, id) || (id == myID && myID != EMPTY_ID)
  {
    var r, c := PrepareDevices(devs, myID, existing, encrypted), Candidates(devs, myID, existing);
    PreparedDevices(devs, myID, existing, encrypted);
    NamesIffID(r, id);
    NamesIffID(devs, id);
    if id in IDs(c, FolderDeviceID) {
      var d :| d in c && FolderDeviceID(d) == id;
      assert MayShare(existing, encrypted, d);
      assert d in r;
      assert FolderDeviceID(d) in IDs(r, FolderDeviceID);
    }
    forall d | d in r ensures FolderDeviceID(d) in IDs(c, FolderDeviceID) { assert d in c; }
  }

  /** An untrusted device without any password is never listed, unless the folder is encrypted here. */
  lemma UntrustedIsUnshared(devs: seq<FolderDevice>, myID: DeviceID, existing: map<DeviceID, Device>, id: DeviceID)
    requires Known(myID, existing) && id in existing && existing[id].untrusted
    requires AllEntries(devs, id, false)
    ensures !Names(PrepareDevices(devs, myID, existing, false), id)
  {
    var r := PrepareDevices(devs, myID, existing, false);
    PreparedDevices(devs, myID, existing, false);
    forall i | 0 <= i < |r| ensures r[i].id != id { assert r[i] in r; }
  }

  lemma {:induction false} ExistingKeepsFront(s: seq<FolderDevice>, ids: set<DeviceID>, i: nat)
    requires i <= |s|
    ensures var r := Existing(s, FolderDeviceID, ids, i); |r| >= i && r[..i] == s[..i]
    decreases |s| - i
  {
    if i < |s| {
      if s[i].id in ids {
        ExistingKeepsFront(s, ids, i + 1);
        assert s[..i] == s[..i + 1][..i];
      } else {
        SwapOutKeepsFront(s, i);
        ExistingKeepsFront(SwapOut(s, i), ids, i);
      }
    }
  }

  /** Of several entries for a device the first one counts if it is first in the list. */
  lemma FirstEntryCounts(devs: seq<FolderDevice>, myID: DeviceID, existing: map<DeviceID, Device>, encrypted: bool)
    requires Known(myID, existing) && devs != [] && devs[0].id in existing
    ensures Names(PrepareDevices(devs, myID, existing, encrypted), devs[0].id) <==>
            MayShare(existing, encrypted, devs[0])
  {
    var c, r, first := Candidates(devs, myID, existing), PrepareDevices(devs, myID, existing, encrypted), devs[0];
    var e := Existing(devs, FolderDeviceID, existing.Keys, 0);
    ExistingKeepsFront(devs, existing.Keys, 1);
    assert e[..1] == devs[..1];
    assert e[0] == e[..1][0] == devs[..1][0] == first;
    DistinctKeeps(e, FolderDeviceID, {} + {first.id}, 1);
    var u := Distinct(e, FolderDeviceID, {}, 0);
    assert u[0] == u[..1][0] == e[..1][0] == first;
    assert c[0] == first;
    CandidatesAre(devs, myID, existing);
    PreparedDevices(devs, myID, existing, encrypted);
    if MayShare(existing, encrypted, first) { assert first in r; }
    if Names(r, first.id) {
      var i :| 0 <= i < |r| && r[i].id == first.id;
      assert r[i] in c;
      var k :| 0 <= k < |c| && c[k] == r[i];
      assert FolderDeviceID(c[k]) == FolderDeviceID(c[0]);
      assert k == 0;
    }
  }

  /** The same entries in any order share the folder with a device or do not. */
  ghost predicate OrderIrrelevant(devs: seq<FolderDevice>, myID: DeviceID, existing: map<DeviceID, Device>,
      id: DeviceID)
    requires Known(myID, existing)
  {
    forall s, t | multiset(s) == multiset(devs) && multiset(t) == multiset(devs) ::
      Names(PrepareDevices(s, myID, existing, false), id) <==> Names(PrepareDevices(t, myID, existing, false), id)
  }

  /** Brings an entry to the front. */
  lemma ToFront(devs: seq<FolderDevice>, d: FolderDevice) returns (s: seq<FolderDevice>)
    requires d in devs
    ensures multiset(s) == multiset(devs) && s != [] && s[0] == d
  {
    var i :| 0 <= i < |devs| && devs[i] == d;
    s := [d] + (devs[..i] + devs[i + 1..]);
    assert devs == devs[..i] + ([d] + devs[i + 1..]);
  }

  lemma SameEntries(devs: seq<FolderDevice>, s: seq<FolderDevice>, id: DeviceID)
    requires multiset(s) == multiset(devs)
    ensures forall d :: d in s <==> d in devs
    ensures Names(s, id) <==> Names(devs, id)
    ensures forall p :: AllEntries(s, id, p) <==> AllEntries(devs, id, p)
  {
    forall d
      ensures d in s <==> d in devs
    {
      CountMembers(s, d);
      CountMembers(devs, d);
    }
    NamesIffID(s, id);
    NamesIffID(devs, id);
    assert IDs(s, FolderDeviceID) == IDs(devs, FolderDeviceID);
  }

  /** A folder that is not encrypted here: the order of its entries decides whether it stays shared with
      an untrusted device exactly if the device has both an entry with a password and one without. */
  lemma OrderDecidesIff(devs: seq<FolderDevice>, myID: DeviceID, existing: map<DeviceID, Device>, id: DeviceID)
    requires Known(myID, existing) && id in existing && existing[id].untrusted
    ensures OrderIrrelevant(devs, myID, existing, id) <==> AllEntries(devs, id, true) || AllEntries(devs, id, false)
  {
    if AllEntries(devs, id, false) {
      forall s | multiset(s) == multiset(devs)
        ensures !Names(PrepareDevices(s, myID, existing, false), id)
      {
        SameEntries(devs, s, id);
        UntrustedIsUnshared(s, myID, existing, id);
      }
    } else if AllEntries(devs, id, true) {
      forall s | multiset(s) == multiset(devs)
        ensures Names(PrepareDevices(s, myID, existing, false), id)
      {
        SameEntries(devs, s, id);
        assert Names(s, id);
        PreparedIDs(s, myID, existing, false, id);
      }
    } else {
      var a :| a in devs && a.id == id && a.password != "";
      var b :| b in devs && b.id == id && b.password == "";
      var s := ToFront(devs, a);
      var t := ToFront(devs, b);
      FirstEntryCounts(s, myID, existing, false);
      FirstEntryCounts(t, myID, existing, false);
    }
  }

  /** The shortest such list. */
  lemma OrderDecides()
    ensures var existing := map[1 := Device(1, "", true)];
            var a, b := FolderDevice(1, 0, "secret"), FolderDevice(1, 0, "");
            && PrepareDevices([a, b], EMPTY_ID, existing, false) == [a]
            && PrepareDevices([b, a], EMPTY_ID, existing, false) == []
  {
    var existing := map[1 := Device(1, "", true)];
    var a, b := FolderDevice(1, 0, "secret"), FolderDevice(1, 0, "");
    FirstOfTwo(a, b, existing);
    FirstOfTwo(b, a, existing);
  }

  lemma FirstOfTwo(a: FolderDevice, b: FolderDevice, existing: map<DeviceID, Device>)
    requires a.id == b.id && a.id in existing
    ensures PrepareDevices([a, b], EMPTY_ID, existing, false) == if MayShare(existing, false, a) then [a] else []
  {
    var s := [a, b];
    ExistingOfExisting(s, FolderDeviceID, existing.Keys, 0);
    assert SwapOut(s, 1) == [a];
    assert Distinct(s, FolderDeviceID, {}, 0) == Distinct(s, FolderDeviceID, {a.id}, 1)
           == Distinct([a], FolderDeviceID, {a.id}, 1) == [a] by {
      assert {} + {a.id} == {a.id};
    }
    assert Candidates(s, EMPTY_ID, existing) == [a];
    var one := [a];
    assert one[1..] == [];
    assert Trusting(one, existing, false) == if MayShare(existing, false, a) then [a] else [];
    assert Sort(IDLe, one) == Insert(IDLe, a, Sort(IDLe, one[1..])) == [a];
  }

  /** Entries are taken from the list as they are; only this device may be added, with no introducer and
      no password, where it is missing and may be shared with. */
  lemma EntriesAreTaken(devs: seq<FolderDevice>, myID: DeviceID, existing: map<DeviceID, Device>, encrypted: bool)
    requires Known(myID, existing)
    ensures var r := PrepareDevices(devs, myID, existing, encrypted); var own := FolderDevice(myID, 0, "");
            var missing := myID != 0 && forall d :: d in devs ==> d.id != myID;
            && (forall d :: d in r ==> d in devs || (missing && d == own))
            && (missing && (encrypted || !existing[myID].untrusted) ==> own in r)
  {
    var r, c := PrepareDevices(devs, myID, existing, encrypted), Candidates(devs, myID, existing);
    PreparedDevices(devs, myID, existing, encrypted);
    CandidatesAre(devs, myID, existing);
    NamesIffMember(devs, myID);
    if myID != 0 && !Names(devs, myID) {
      assert myID in IDs(c, FolderDeviceID);
      var d :| d in c && FolderDeviceID(d) == myID;
      assert d == FolderDevice(myID, 0, "");
      assert encrypted || !existing[myID].untrusted ==> d in r;
    }
    if myID == 0 { NoEmptyCandidate(devs, existing); }
  }

  lemma NamesIffMember(devs: seq<FolderDevice>, id: DeviceID)
    ensures Names(devs, id) <==> exists d :: d in devs && d.id == id
  {
  }

  lemma NoEmptyCandidate(devs: seq<FolderDevice>, existing: map<DeviceID, Device>)
    ensures forall d :: d in Candidates(devs, EMPTY_ID, existing) ==> d in devs
  {
    var e := Existing(devs, FolderDeviceID, existing.Keys, 0);
    ExistingMembers(devs, existing);
    DistinctKeeps(e, FolderDeviceID, {}, 0);
    var u := Distinct(e, FolderDeviceID, {}, 0);
    assert u[0..] == u && e[0..] == e;
  }

  // ---------------------------------------------------------------- preparing twice

  lemma {:induction false} TrustingOfTrusted(s: seq<FolderDevice>, existing: map<DeviceID, Device>, encrypted: bool)
    requires AllExist(s, existing) && forall d :: d in s ==> MayShare(existing, encrypted, d)
    ensures Trusting(s, existing, encrypted) == s
  {
    if s != [] {
      assert s == [s[0]] + s[1..];
      TrustingOfTrusted(s[1..], existing, encrypted);
    }
  }

  lemma {:induction false} TrustingJoins(s: seq<FolderDevice>, t: seq<FolderDevice>, existing: map<DeviceID, Device>,
      encrypted: bool)
    requires AllExist(s, existing) && AllExist(t, existing) && AllExist(s + t, existing)
    ensures Trusting(s + t, existing, encrypted) == Trusting(s, existing, encrypted) + Trusting(t, existing, encrypted)
  {
    if s == [] {
      assert s + t == t;
    } else {
      assert (s + t)[1..] == s[1..] + t;
      assert AllExist(s[1..] + t, existing) by { assert forall d :: d in s[1..] + t ==> d in s + t; }
      TrustingJoins(s[1..], t, existing, encrypted);
      var first := if MayShare(existing, encrypted, s[0]) then [s[0]] else [];
      var rest, last := Trusting(s[1..], existing, encrypted), Trusting(t, existing, encrypted);
      assert first + (rest + last) == (first + rest) + last;
    }
  }

  /** A list in normal form: ascending, existing, allowed, and with this device unless it may not be. */
  ghost predicate NormalDevices(s: seq<FolderDevice>, myID: DeviceID, existing: map<DeviceID, Device>, encrypted: bool)
    requires Known(myID, existing)
  {
    && Ascending(s) && AllExist(s, existing)
    && (forall d :: d in s ==> MayShare(existing, encrypted, d))
    && (myID == EMPTY_ID || Names(s, myID) || !MayShare(existing, encrypted, Bare(myID)))
  }

  lemma PreparedIsNormal(devs: seq<FolderDevice>, myID: DeviceID, existing: map<DeviceID, Device>, encrypted: bool)
    requires Known(myID, existing)
    ensures NormalDevices(PrepareDevices(devs, myID, existing, encrypted), myID, existing, encrypted)
  {
    var r, c := PrepareDevices(devs, myID, existing, encrypted), Candidates(devs, myID, existing);
    PreparedDevices(devs, myID, existing, encrypted);
    if myID != EMPTY_ID && MayShare(existing, encrypted, Bare(myID)) {
      assert myID in IDs(c, FolderDeviceID);
      var d :| d in c && FolderDeviceID(d) == myID;
      assert MayShare(existing, encrypted, d) && d in r;
      assert FolderDeviceID(d) in IDs(r, FolderDeviceID);
      NamesIffID(r, myID);
    }
  }

  /** The normal forms are the lists that preparing leaves alone. */
  lemma NormalIffPrepared(s: seq<FolderDevice>, myID: DeviceID, existing: map<DeviceID, Device>, encrypted: bool)
    requires Known(myID, existing)
    ensures NormalDevices(s, myID, existing, encrypted) <==> PrepareDevices(s, myID, existing, encrypted) == s
  {
    if NormalDevices(s, myID, existing, encrypted) {
      ExistingOfExisting(s, FolderDeviceID, existing.Keys, 0);
      DistinctOfDistinct(s, FolderDeviceID, {}, 0);
      var c := WithDevice(s, myID);
      assert Candidates(s, myID, existing) == c;
      TrustingOfTrusted(s, existing, encrypted);
      if c != s {
        assert AllExist(c, existing);
        TrustingJoins(s, [Bare(myID)], existing, encrypted);
        assert [Bare(myID)][1..] == [];
      }
      assert s + [] == s;
      assert DistinctIDs(s, FolderDeviceID);
      SortedByID(s, s);
    } else {
      PreparedIsNormal(s, myID, existing, encrypted);
    }
  }

  /** Preparing a second time changes nothing. */
  lemma PreparingTwice(devs: seq<FolderDevice>, myID: DeviceID, existing: map<DeviceID, Device>, encrypted: bool)
    requires Known(myID, existing)
    ensures var r := PrepareDevices(devs, myID, existing, encrypted); PrepareDevices(r, myID, existing, encrypted) == r
  {
    PreparedIsNormal(devs, myID, existing, encrypted);
    NormalIffPrepared(PrepareDevices(devs, myID, existing, encrypted), myID, existing, encrypted);
  }

  // ---------------------------------------------------------------- the folder

  class FolderConfiguration {
    var id: string
    var path: string
    var receiveEncrypted: bool
    var devices: seq<FolderDevice>

    constructor (id: string, path: string, receiveEncrypted: bool, devices: seq<FolderDevice>)
      ensures this.id == id && this.path == path && this.receiveEncrypted == receiveEncrypted && this.devices == devices
    {
      this.id, this.path, this.receiveEncrypted, this.devices := id, path, receiveEncrypted, devices;
    }

    method Prepare(myID: DeviceID, existing: map<DeviceID, Device>)
      requires Known(myID, existing)
      modifies `devices
      ensures devices == PrepareDevices(old(devices), myID, existing, receiveEncrypted)
    {
      var list := devices;
      CandidatesAre(list, myID, existing);
      var a := new FolderDevice[|list|](i requires 0 <= i < |list| => list[i]);
      assert a[..] == list;
      var count := EnsureExistingDevices(a, existing);
      count := EnsureNoDuplicateFolderDevices(a, count);
      var present := EnsureDevicePresent(a[..count], myID);
      assert present == Candidates(list, myID, existing);
      var b := new FolderDevice[|present|](i requires 0 <= i < |present| => present[i]);
      assert b[..] == present;
      count := EnsureNoUntrustedTrustingSharing(b, existing, receiveEncrypted);
      devices := Sort(IDLe, b[..count]);
    }
  }
}
