/** The device lists of a configuration (lib/config/config.go, lib/config/folderconfiguration.go,
    lib/sliceutil/sliceutil.go): the loops that remove entries in place, and the normal form that
    preparing a folder gives its list. */
module DeviceLists {
  import opened Slices

  /** A device ID; the order of the numbers is the byte order of the IDs, 0 is the empty one. */
  type DeviceID = nat

  const EMPTY_ID: DeviceID := 0

  datatype FolderDevice = FolderDevice(id: DeviceID, introducedBy: DeviceID, password: string)

  datatype Device = Device(id: DeviceID, name: string, untrusted: bool)

  // ---------------------------------------------------------------- removal by swapping

  function Existing<T>(s: seq<T>, key: T -> DeviceID, ids: set<DeviceID>, i: nat): seq<T>
    requires i <= |s|
    decreases |s| - i
  {
    if i == |s| then s
    else if key(s[i]) in ids then Existing(s, key, ids, i + 1)
    else Existing(SwapOut(s, i), key, ids, i)
  }

  function Distinct<T>(s: seq<T>, key: T -> DeviceID, seen: set<DeviceID>, i: nat): seq<T>
    requires i <= |s|
    decreases |s| - i
  {
    if i == |s| then s
    else if key(s[i]) in seen then Distinct(SwapOut(s, i), key, seen, i)
    else Distinct(s, key, seen + {key(s[i])}, i + 1)
  }

  ghost function IDs<T(!new)>(s: seq<T>, key: T -> DeviceID): set<DeviceID> {
    set x | x in s :: key(x)
  }

  ghost predicate DistinctIDs<T>(s: seq<T>, key: T -> DeviceID) {
    forall i, j :: 0 <= i < j < |s| ==> key(s[i]) != key(s[j])
  }

  /** The entries left are those with an existing ID, as often as they were there. */
  lemma {:induction false} ExistingKeeps<T(!new)>(s: seq<T>, key: T -> DeviceID, ids: set<DeviceID>, i: nat)
    requires i <= |s|
    requires forall j :: 0 <= j < i ==> key(s[j]) in ids
    ensures forall x :: multiset(Existing(s, key, ids, i))[x] == if key(x) in ids then multiset(s)[x] else 0
    decreases |s| - i
  {
    if i == |s| {
      forall x
        ensures multiset(s)[x] == if key(x) in ids then multiset(s)[x] else 0
      {
        assert x in s <==> x in multiset(s);
      }
    } else if key(s[i]) in ids {
      ExistingKeeps(s, key, ids, i + 1);
    } else {
      SwapOutRemoves(s, i);
      SwapOutMembers(s, i);
      var t := SwapOut(s, i);
      forall j | 0 <= j < i ensures key(t[j]) in ids { assert t[..i][j] == s[..i][j]; }
      ExistingKeeps(t, key, ids, i);
    }
  }

  /** What is left of s from position i on: entries of s, each ID once and none of those seen before. */
  ghost predicate Deduplicated<T(!new)>(r: seq<T>, s: seq<T>, key: T -> DeviceID, seen: set<DeviceID>) {
    && DistinctIDs(r, key)
    && IDs(r, key) == IDs(s, key) - seen
    && (forall x :: x in r ==> x in s)
  }

  lemma DropSwapped<T(!new)>(s: seq<T>, key: T -> DeviceID, seen: set<DeviceID>, i: nat)
    requires i < |s| && key(s[i]) in seen
    ensures IDs(SwapOut(s, i)[i..], key) - seen == IDs(s[i..], key) - seen
  {
    SwapOutMembers(s, i);
    var t := SwapOut(s, i);
    forall d | d in IDs(s[i..], key) && d !in seen
      ensures d in IDs(t[i..], key)
    {
      var x :| x in s[i..] && key(x) == d;
      var j :| 0 <= j < |s[i..]| && s[i..][j] == x;
      if j == |s| - 1 - i { assert t[i..][0] == x; } else { assert t[i..][j] == x; }
    }
  }

  lemma {:induction false} DistinctKeeps<T(!new)>(s: seq<T>, key: T -> DeviceID, seen: set<DeviceID>, i: nat)
    requires i <= |s|
    ensures var r := Distinct(s, key, seen, i);
            |r| >= i && r[..i] == s[..i] && Deduplicated(r[i..], s[i..], key, seen)
    decreases |s| - i
  {
    var r := Distinct(s, key, seen, i);
    if i == |s| {
    } else if key(s[i]) in seen {
      SwapOutMembers(s, i);
      DropSwapped(s, key, seen, i);
      DistinctKeeps(SwapOut(s, i), key, seen, i);
    } else {
      DistinctKeeps(s, key, seen + {key(s[i])}, i + 1);
      assert r[..i] == r[..i + 1][..i] == s[..i + 1][..i] == s[..i];
      assert r[i] == r[..i + 1][i] == s[..i + 1][i] == s[i];
      ConsDeduplicated(s[i], r[i + 1..], s[i + 1..], key, seen);
      assert r[i..] == [s[i]] + r[i + 1..] && s[i..] == [s[i]] + s[i + 1..];
    }
  }

  lemma ConsDeduplicated<T(!new)>(x: T, r: seq<T>, s: seq<T>, key: T -> DeviceID, seen: set<DeviceID>)
    requires Deduplicated(r, s, key, seen + {key(x)}) && key(x) !in seen
    ensures Deduplicated([x] + r, [x] + s, key, seen)
  {
    forall j | 0 <= j < |r| ensures key(r[j]) != key(x) { assert key(r[j]) in IDs(r, key); }
    assert IDs([x] + r, key) == IDs(r, key) + {key(x)};
    assert IDs([x] + s, key) == IDs(s, key) + {key(x)};
  }

  lemma {:induction false} ExistingOfExisting<T(!new)>(s: seq<T>, key: T -> DeviceID, ids: set<DeviceID>, i: nat)
    requires i <= |s| && forall x :: x in s ==> key(x) in ids
    ensures Existing(s, key, ids, i) == s
    decreases |s| - i
  {
    if i < |s| { ExistingOfExisting(s, key, ids, i + 1); }
  }

  lemma {:induction false} DistinctOfDistinct<T(!new)>(s: seq<T>, key: T -> DeviceID, seen: set<DeviceID>, i: nat)
    requires i <= |s| && DistinctIDs(s, key) && forall j :: i <= j < |s| ==> key(s[j]) !in seen
    ensures Distinct(s, key, seen, i) == s
    decreases |s| - i
  {
    if i < |s| { DistinctOfDistinct(s, key, seen + {key(s[i])}, i + 1); }
  }

  lemma {:induction false} ExistingSkips<T(!new)>(s: seq<T>, key: T -> DeviceID, ids: set<DeviceID>, i: nat, k: nat)
    requires i <= k <= |s| && forall j :: i <= j < k ==> key(s[j]) in ids
    ensures Existing(s, key, ids, i) == Existing(s, key, ids, k)
    decreases k - i
  {
    if i < k { ExistingSkips(s, key, ids, i + 1, k); }
  }

  /** The last entry takes the place of the first one without an existing ID. */
  lemma FirstStrangerIsReplaced<T(!new)>(s: seq<T>, key: T -> DeviceID, ids: set<DeviceID>, k: nat)
    requires k < |s| && key(s[k]) !in ids && forall j :: 0 <= j < k ==> key(s[j]) in ids
    ensures Existing(s, key, ids, 0) == Existing(s[k := s[|s| - 1]][..|s| - 1], key, ids, 0)
  {
    ExistingSkips(s, key, ids, 0, k);
    var t := s[k := s[|s| - 1]][..|s| - 1];
    ExistingSkips(t, key, ids, 0, k);
  }

  lemma {:induction false} DistinctSkips<T(!new)>(s: seq<T>, key: T -> DeviceID, seen: set<DeviceID>, i: nat, k: nat)
    requires i <= k <= |s| && DistinctIDs(s[..k], key) && forall j :: i <= j < k ==> key(s[j]) !in seen
    ensures Distinct(s, key, seen, i) == Distinct(s, key, seen + IDs(s[i..k], key), k)
    decreases k - i
  {
    if i < k {
      forall j | i + 1 <= j < k
        ensures key(s[j]) !in seen + {key(s[i])}
      {
        assert s[..k][i] == s[i] && s[..k][j] == s[j];
      }
      DistinctSkips(s, key, seen + {key(s[i])}, i + 1, k);
      assert s[i..k] == [s[i]] + s[i + 1..k];
      assert IDs(s[i..k], key) == {key(s[i])} + IDs(s[i + 1..k], key);
      assert seen + {key(s[i])} + IDs(s[i + 1..k], key) == seen + IDs(s[i..k], key);
    } else {
      assert seen + IDs(s[i..k], key) == seen;
    }
  }

  /** The last entry takes the place of the first one whose ID was met before or is excluded. */
  lemma FirstRepeatIsReplaced<T(!new)>(s: seq<T>, key: T -> DeviceID, seen: set<DeviceID>, k: nat)
    requires k < |s| && (key(s[k]) in seen || exists j :: 0 <= j < k && key(s[j]) == key(s[k]))
    requires DistinctIDs(s[..k], key) && forall j :: 0 <= j < k ==> key(s[j]) !in seen
    ensures Distinct(s, key, seen, 0) == Distinct(s[k := s[|s| - 1]][..|s| - 1], key, seen, 0)
  {
    var t := s[k := s[|s| - 1]][..|s| - 1];
    DistinctSkips(s, key, seen, 0, k);
    assert t[..k] == s[..k];
    forall j | 0 <= j < k ensures key(t[j]) !in seen { assert t[j] == s[j]; }
    DistinctSkips(t, key, seen, 0, k);
    assert t[0..k] == s[0..k];
    if j :| 0 <= j < k && key(s[j]) == key(s[k]) { assert s[0..k][j] == s[j] && s[j] in s[0..k]; }
  }

  function FolderDeviceID(d: FolderDevice): DeviceID { d.id }

  function IDOf(d: Device): DeviceID { d.id }

  method EnsureExistingDevices(devices: array<FolderDevice>, existing: map<DeviceID, Device>) returns (count: nat)
    modifies devices
    ensures count <= devices.Length
    ensures devices[..count] == Existing(old(devices[..]), FolderDeviceID, existing.Keys, 0)
  {
    count := devices.Length;
    var i := 0;
    assert devices[..count] == devices[..];
    while i < count
      invariant i <= count <= devices.Length
      invariant Existing(devices[..count], FolderDeviceID, existing.Keys, i)
                == Existing(old(devices[..]), FolderDeviceID, existing.Keys, 0)
      decreases count - i
    {
      if devices[i].id !in existing {
        ghost var was := devices[..count];
        devices[i] := devices[count - 1];
        count := count - 1;
        assert devices[..count] == SwapOut(was, i);
        continue;
      }
      i := i + 1;
    }
  }

  /** Works on the first n entries, which is what the loop before it left. */
  method EnsureNoDuplicateFolderDevices(devices: array<FolderDevice>, n: nat) returns (count: nat)
    requires n <= devices.Length
    modifies devices
    ensures count <= n
    ensures devices[..count] == Distinct(old(devices[..n]), FolderDeviceID, {}, 0)
  {
    count := n;
    var i := 0;
    var seen: set<DeviceID> := {};
    while i < count
      invariant i <= count <= n
      invariant Distinct(devices[..count], FolderDeviceID, seen, i)
                == Distinct(old(devices[..n]), FolderDeviceID, {}, 0)
      decreases count - i
    {
      var id := devices[i].id;
      if id in seen {
        ghost var was := devices[..count];
        devices[i] := devices[count - 1];
        count := count - 1;
        assert devices[..count] == SwapOut(was, i);
        continue;
      }
      seen := seen + {id};
      i := i + 1;
    }
  }

  method EnsureNoDuplicateOrEmptyIDDevices(devices: array<Device>) returns (count: nat)
    modifies devices
    ensures count <= devices.Length
    ensures devices[..count] == Distinct(old(devices[..]), IDOf, {EMPTY_ID}, 0)
  {
    count := devices.Length;
    var i := 0;
    var seen: set<DeviceID> := {};
    assert devices[..count] == devices[..];
    assert {} + {EMPTY_ID} == {EMPTY_ID};
    while i < count
      invariant i <= count <= devices.Length
      invariant Distinct(devices[..count], IDOf, seen + {EMPTY_ID}, i)
                == Distinct(old(devices[..]), IDOf, {EMPTY_ID}, 0)
      decreases count - i
    {
      var id := devices[i].id;
      if id in seen || id == EMPTY_ID {
        ghost var was := devices[..count];
        devices[i] := devices[count - 1];
        count := count - 1;
        assert devices[..count] == SwapOut(was, i);
        continue;
      }
      assert seen + {id} + {EMPTY_ID} == seen + {EMPTY_ID} + {id};
      seen := seen + {id};
      i := i + 1;
    }
  }

  // ---------------------------------------------------------------- removal that keeps the order

  /** Removes the i-th of the first n elements and zeroes the slot that becomes free. */
  method RemoveAndZero<T>(s: array<T>, n: nat, i: nat, zero: T)
    requires i < n <= s.Length
    modifies s
    ensures s[..i] == old(s[..i]) && s[i..n - 1] == old(s[i + 1..n])
    ensures s[n - 1] == zero && s[n..] == old(s[n..])
  {
    var k := i;
    while k < n - 1
      invariant i <= k <= n - 1
      invariant s[..i] == old(s[..i])
      invariant forall j :: i <= j < k ==> s[j] == old(s[j + 1])
      invariant s[k + 1..] == old(s[k + 1..])
    {
      s[k] := s[k + 1];
      k := k + 1;
    }
    assert k == n - 1 && s[k + 1..] == s[n..];
    s[n - 1] := zero;
    ghost var moved, was := s[i..n - 1], old(s[i + 1..n]);
    forall j | 0 <= j < |moved|
      ensures moved[j] == was[j]
    {
      assert s[i + j] == old(s[i + j + 1]);
    }
    assert s[n..] == old(s[n..]);
  }

  /** Whether a folder may be shared with a device as the entry says. */
  predicate MayShare(existing: map<DeviceID, Device>, encrypted: bool, d: FolderDevice)
    requires d.id in existing
  {
    d.password != "" || encrypted || !existing[d.id].untrusted
  }

  function Trusting(s: seq<FolderDevice>, existing: map<DeviceID, Device>, encrypted: bool): seq<FolderDevice>
    requires forall d :: d in s ==> d.id in existing
  {
    if s == [] then []
    else (if MayShare(existing, encrypted, s[0]) then [s[0]] else []) + Trusting(s[1..], existing, encrypted)
  }

  lemma TrustingHead(before: seq<FolderDevice>, s: seq<FolderDevice>, existing: map<DeviceID, Device>, encrypted: bool)
    requires s != [] && forall d :: d in s ==> d.id in existing
    ensures s[0].id in existing && forall d :: d in s[1..] ==> d.id in existing
    ensures before + Trusting(s, existing, encrypted)
         == (if MayShare(existing, encrypted, s[0]) then before + [s[0]] else before)
           + Trusting(s[1..], existing, encrypted)
  {
  }

  method EnsureNoUntrustedTrustingSharing(devices: array<FolderDevice>, existing: map<DeviceID, Device>,
      encrypted: bool) returns (count: nat)
    requires forall d :: d in devices[..] ==> d.id in existing
    modifies devices
    ensures count <= devices.Length
    ensures devices[..count] == Trusting(old(devices[..]), existing, encrypted)
  {
    count := devices.Length;
    var i := 0;
    ghost var rest := devices[..];
    ghost var result := Trusting(rest, existing, encrypted);
    while i < count
      invariant 0 <= i <= count <= devices.Length && rest == devices[i..count]
      invariant forall d :: d in rest ==> d.id in existing
      invariant devices[..i] + Trusting(rest, existing, encrypted) == result
      decreases count - i
    {
      var dev := devices[i];
      assert rest[0] == dev;
      TrustingHead(devices[..i], rest, existing, encrypted);
      if dev.password != "" || encrypted {
        i := i + 1;
        assert devices[..i] == devices[..i - 1] + [dev];
      } else if existing[dev.id].untrusted {
        assert rest[1..] == devices[i + 1..count];
        RemoveAndZero(devices, count, i, FolderDevice(EMPTY_ID, EMPTY_ID, ""));
        count := count - 1;
      } else {
        i := i + 1;
        assert devices[..i] == devices[..i - 1] + [dev];
      }
      rest := rest[1..];
      assert rest == devices[i..count];
    }
    assert devices[..count] == devices[..i] + [];
  }
}
