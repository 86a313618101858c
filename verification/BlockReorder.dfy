/** The order in which the blocks of a file are pulled (lib/model/blockpullreorderer.go): devices that
    agree on who shares a folder start on different parts of the file. */
module BlockReorder {
  import opened Sorting

  type DeviceID = nat

  // ---------------------------------------------------------------- chunks

  /** Division rounding up, as the source computes it. */
  function CeilDiv(count: nat, parts: nat): nat
    requires parts > 0
  {
    (count + parts - 1) / parts
  }

  /** Consecutive parts of a size, the last as long as what is left. */
  function Chunks<T>(blocks: seq<T>, size: nat): seq<seq<T>>
    requires blocks != [] ==> size > 0
  {
    if blocks == [] then []
    else if |blocks| <= size then [blocks]
    else [blocks[..size]] + Chunks(blocks[size..], size)
  }

  function Flatten<T>(parts: seq<seq<T>>): seq<T> {
    if parts == [] then [] else parts[0] + Flatten(parts[1..])
  }

  lemma {:induction false} FlattenJoins<T>(a: seq<seq<T>>, b: seq<seq<T>>)
    ensures Flatten(a + b) == Flatten(a) + Flatten(b)
  {
    if a == [] {
      assert a + b == b;
    } else {
      assert (a + b)[1..] == a[1..] + b;
      FlattenJoins(a[1..], b);
    }
  }

  lemma CeilDivBounds(count: nat, parts: nat)
    requires parts > 0
    ensures CeilDiv(count, parts) * parts >= count
    ensures count > 0 ==> CeilDiv(count, parts) > 0 && (CeilDiv(count, parts) - 1) * parts < count
  {
  }

  /** The parts are nonempty, at most `size` long, the first ones exactly, and together the blocks. */
  lemma {:induction false} ChunksAre<T>(blocks: seq<T>, size: nat)
    requires blocks != [] ==> size > 0
    ensures var parts := Chunks(blocks, size);
            && Flatten(parts) == blocks
            && (forall k :: 0 <= k < |parts| ==> 0 < |parts[k]| <= size)
            && (forall k :: 0 <= k < |parts| - 1 ==> |parts[k]| == size)
  {
    if blocks == [] {
    } else if |blocks| <= size {
      assert [blocks][1..] == [];
      assert blocks + [] == blocks;
    } else {
      var rest := Chunks(blocks[size..], size);
      ChunksAre(blocks[size..], size);
      var parts := Chunks(blocks, size);
      assert parts[1..] == rest;
      assert blocks == blocks[..size] + blocks[size..];
    }
  }

  lemma {:induction false} ChunksFill<T>(blocks: seq<T>, size: nat)
    requires blocks != [] ==> size > 0
    ensures Chunks(blocks, size) != [] ==> (|Chunks(blocks, size)| - 1) * size < |blocks|
  {
    if |blocks| > size {
      var n := |Chunks(blocks[size..], size)|;
      ChunksFill(blocks[size..], size);
      assert |Chunks(blocks, size)| == n + 1;
      assert n * size == (n - 1) * size + size;
    }
  }

  lemma FewerParts(k: nat, size: nat, count: nat, parts: nat)
    requires k * size < count <= size * parts
    ensures k < parts
  {
  }

  /** Splitting for a number of parts yields no more than that. */
  lemma ChunkCount<T>(blocks: seq<T>, parts: nat)
    requires parts > 0
    ensures blocks != [] ==> CeilDiv(|blocks|, parts) > 0
    ensures |Chunks(blocks, CeilDiv(|blocks|, parts))| <= parts
  {
    CeilDivBounds(|blocks|, parts);
    var size := CeilDiv(|blocks|, parts);
    ChunksFill(blocks, size);
    var n := |Chunks(blocks, size)|;
    if n > 0 { FewerParts(n - 1, size, |blocks|, parts); }
  }

  function Split<T>(blocks: seq<T>, partCount: nat): seq<seq<T>> {
    if partCount == 0 then [blocks]
    else
      CeilDivBounds(|blocks|, partCount);
      Chunks(blocks, CeilDiv(|blocks|, partCount))
  }

  method Chunk<T>(blocks: seq<T>, partCount: nat) returns (parts: seq<seq<T>>)
    ensures parts == Split(blocks, partCount)
  {
    if partCount == 0 {
      return [blocks];
    }
    var count := |blocks|;
    var chunkSize := (count + partCount - 1) / partCount;
    CeilDivBounds(count, partCount);
    parts := [];
    var i := 0;
    assert blocks[0..] == blocks;
    while i < count
      invariant 0 <= i <= count || (i < count + chunkSize && blocks[count..] == [])
      invariant parts + Chunks(blocks[if i < count then i else count..], chunkSize) == Split(blocks, partCount)
      decreases count - i
    {
      var end := i + chunkSize;
      if end > count {
        end := count;
      }
      NextChunk(parts, blocks, i, chunkSize);
      parts := parts + [blocks[i..end]];
      i := i + chunkSize;
    }
    assert parts + [] == parts;
  }

  lemma NextChunk<T>(parts: seq<seq<T>>, blocks: seq<T>, i: nat, size: nat)
    requires i < |blocks| && size > 0
    ensures var end := if i + size > |blocks| then |blocks| else i + size;
            parts + Chunks(blocks[i..], size) == parts + [blocks[i..end]] + Chunks(blocks[end..], size)
  {
    var end := if i + size > |blocks| then |blocks| else i + size;
    var rest := blocks[i..];
    if |rest| <= size {
      assert blocks[i..end] == rest && blocks[end..] == [];
      assert parts + [rest] + [] == parts + [rest];
    } else {
      assert rest[..size] == blocks[i..end] && rest[size..] == blocks[end..];
      assert parts + ([rest[..size]] + Chunks(rest[size..], size))
             == parts + [rest[..size]] + Chunks(rest[size..], size);
    }
  }

  // ---------------------------------------------------------------- the reordering

  /** The chunk a device starts with; with fewer chunks than devices the last ones have none. */
  function Own<T>(parts: seq<seq<T>>, k: nat): seq<T> {
    if k < |parts| then parts[k] else []
  }

  /** All indexes below n but one. */
  function OtherIndexes(n: nat, k: nat): seq<nat> {
    if n == 0 then [] else OtherIndexes(n - 1, k) + if n - 1 == k then [] else [n - 1]
  }

  predicate Within(order: seq<nat>, n: nat) { forall i :: 0 <= i < |order| ==> order[i] < n }

  function InOrder<T>(parts: seq<seq<T>>, order: seq<nat>): seq<T>
    requires Within(order, |parts|)
  {
    if order == [] then [] else InOrder(parts, order[..|order| - 1]) + parts[order[|order| - 1]]
  }

  lemma {:induction false} OthersWithin(n: nat, k: nat)
    ensures Within(OtherIndexes(n, k), n)
  {
    if n > 0 { OthersWithin(n - 1, k); }
  }

  lemma PermutedWithin(a: seq<nat>, b: seq<nat>, n: nat)
    requires multiset(a) == multiset(b) && Within(b, n)
    ensures Within(a, n)
  {
    forall i | 0 <= i < |a| ensures a[i] < n { assert a[i] in multiset(b); }
  }

  /** The blocks of the first n parts, each as often as an order names it. */
  ghost function BlocksUpTo<T>(parts: seq<seq<T>>, order: multiset<nat>, n: nat): multiset<T>
    requires n <= |parts|
  {
    if n == 0 then multiset{} else BlocksUpTo(parts, order, n - 1) + Times(multiset(parts[n - 1]), order[n - 1])
  }

  ghost function Times<T>(m: multiset<T>, n: nat): multiset<T> {
    if n == 0 then multiset{} else Times(m, n - 1) + m
  }

  lemma {:induction false} OneMoreTime<T>(parts: seq<seq<T>>, order: multiset<nat>, n: nat, k: nat)
    requires n <= |parts|
    ensures BlocksUpTo(parts, order + multiset{k}, n)
            == BlocksUpTo(parts, order, n) + if k < n then multiset(parts[k]) else multiset{}
  {
    if n > 0 {
      var o, p := order + multiset{k}, multiset(parts[n - 1]);
      OneMoreTime(parts, order, n - 1, k);
      if k == n - 1 {
        assert o[n - 1] == order[n - 1] + 1;
        assert Times(p, o[n - 1]) == Times(p, order[n - 1]) + p;
      } else {
        assert o[n - 1] == order[n - 1];
        var own := if k < n then multiset(parts[k]) else multiset{};
        SumsAgree(BlocksUpTo(parts, order, n - 1), own, BlocksUpTo(parts, o, n - 1), Times(p, order[n - 1]));
      }
    }
  }

  lemma {:induction false} InOrderCounts<T>(parts: seq<seq<T>>, order: seq<nat>)
    requires Within(order, |parts|)
    ensures multiset(InOrder(parts, order)) == BlocksUpTo(parts, multiset(order), |parts|)
  {
    if order == [] {
      NoBlocks(parts, |parts|);
    } else {
      var init, k := order[..|order| - 1], order[|order| - 1];
      assert order == init + [k];
      InOrderCounts(parts, init);
      OneMoreTime(parts, multiset(init), |parts|, k);
    }
  }

  lemma {:induction false} NoBlocks<T>(parts: seq<seq<T>>, n: nat)
    requires n <= |parts|
    ensures BlocksUpTo(parts, multiset{}, n) == multiset{}
  {
    if n > 0 { NoBlocks(parts, n - 1); }
  }

  /** Taking the parts in another order permutes the blocks. */
  lemma OrderPermutes<T>(parts: seq<seq<T>>, a: seq<nat>, b: seq<nat>)
    requires Within(a, |parts|) && Within(b, |parts|) && multiset(a) == multiset(b)
    ensures multiset(InOrder(parts, a)) == multiset(InOrder(parts, b))
  {
    InOrderCounts(parts, a);
    InOrderCounts(parts, b);
  }

  lemma FlattenSnoc<T>(parts: seq<seq<T>>, p: seq<T>)
    ensures Flatten(parts + [p]) == Flatten(parts) + p
  {
    FlattenJoins(parts, [p]);
    assert [p][1..] == [];
    assert p + [] == p;
  }

  lemma InOrderSnoc<T>(parts: seq<seq<T>>, order: seq<nat>, k: nat)
    requires Within(order, |parts|) && k < |parts|
    ensures Within(order + [k], |parts|) && InOrder(parts, order + [k]) == InOrder(parts, order) + parts[k]
  {
  }

  lemma SumsAgree<T>(a: multiset<T>, own: multiset<T>, whole: multiset<T>, p: multiset<T>)
    requires a + own == whole
    ensures (a + p) + own == whole + p
  {
  }

  /** The blocks of the first n parts, without the k-th. */
  ghost function Others<T>(parts: seq<seq<T>>, k: nat, n: nat): multiset<T>
    requires n <= |parts|
  {
    OthersWithin(n, k);
    multiset(InOrder(parts, OtherIndexes(n, k)))
  }

  /** The blocks of the k-th, if it is among them. */
  ghost function OwnAmong<T>(parts: seq<seq<T>>, k: nat, n: nat): multiset<T>
    requires n <= |parts|
  {
    if k < n then multiset(parts[k]) else multiset{}
  }

  lemma OneMorePart<T>(parts: seq<seq<T>>, k: nat, n: nat)
    requires n < |parts|
    ensures Others(parts, k, n + 1) + OwnAmong(parts, k, n + 1)
            == Others(parts, k, n) + OwnAmong(parts, k, n) + multiset(parts[n])
  {
    var indexes := OtherIndexes(n, k);
    OthersWithin(n, k);
    OthersWithin(n + 1, k);
    if n == k {
      assert OtherIndexes(n + 1, k) == indexes;
    } else {
      InOrderSnoc(parts, indexes, n);
      SumsAgree(Others(parts, k, n), OwnAmong(parts, k, n), Others(parts, k, n) + OwnAmong(parts, k, n),
          multiset(parts[n]));
    }
  }

  lemma OneMoreFlattened<T>(parts: seq<seq<T>>, n: nat)
    requires n < |parts|
    ensures multiset(Flatten(parts[..n + 1])) == multiset(Flatten(parts[..n])) + multiset(parts[n])
  {
    assert parts[..n + 1] == parts[..n] + [parts[n]];
    FlattenSnoc(parts[..n], parts[n]);
  }

  /** All parts but one, and that one, are the whole. */
  lemma {:induction false} OwnAndOthers<T>(parts: seq<seq<T>>, k: nat, n: nat)
    requires n <= |parts|
    ensures Others(parts, k, n) + OwnAmong(parts, k, n) == multiset(Flatten(parts[..n]))
  {
    if n > 0 {
      OwnAndOthers(parts, k, n - 1);
      OneMoreFlattened(parts, n - 1);
      OneMorePart(parts, k, n - 1);
    }
  }

  // ---------------------------------------------------------------- the reorderer

  predicate IDLe(a: DeviceID, b: DeviceID) { a <= b }

  function FirstIndex(s: seq<DeviceID>, id: DeviceID): nat
    ensures FirstIndex(s, id) <= |s|
  {
    if s == [] || s[0] == id then 0 else 1 + FirstIndex(s[1..], id)
  }

  /** A device's place among all devices, by ID. */
  function Rank(id: DeviceID, others: seq<DeviceID>): nat { FirstIndex(Sort(IDLe, others + [id]), id) }

  lemma {:induction false} FirstIndexIs(s: seq<DeviceID>, id: DeviceID, k: nat)
    requires k < |s| && s[k] == id && forall j :: 0 <= j < k ==> s[j] != id
    ensures FirstIndex(s, id) == k
  {
    if k > 0 { FirstIndexIs(s[1..], id, k - 1); }
  }

  /** A shuffle returns what it is given in some order. */
  ghost predicate Shuffles(shuffle: seq<nat> -> seq<nat>) {
    forall s: seq<nat> :: multiset(shuffle(s)) == multiset(s)
  }

  class StandardReorderer {
    const myIndex: nat
    const count: nat
    const shuffle: seq<nat> -> seq<nat>

    constructor (id: DeviceID, otherDevices: seq<DeviceID>, shuffle: seq<nat> -> seq<nat>)
      ensures myIndex == Rank(id, otherDevices) && count == |otherDevices| + 1 && this.shuffle == shuffle
    {
      var allDevices := otherDevices + [id];
      ghost var unsorted := allDevices;
      allDevices := Sort(IDLe, allDevices);
      assert Linear(IDLe);
      SortSorts(IDLe, unsorted);
      SortMembers(IDLe, unsorted, id);
      assert unsorted[|otherDevices|] == id;
      var i := 0;
      while i < |allDevices| && allDevices[i] != id
        invariant i <= |allDevices| && forall j :: 0 <= j < i ==> allDevices[j] != id
      {
        i := i + 1;
      }
      FirstIndexIs(allDevices, id, i);
      myIndex := i;
      count := |allDevices|;
      this.shuffle := shuffle;
    }

    method AllOtherIndexes(n: nat) returns (indexes: seq<nat>)
      ensures indexes == OtherIndexes(n, myIndex)
    {
      indexes := [];
      for i := 0 to n
        invariant indexes == OtherIndexes(i, myIndex)
      {
        if i != myIndex {
          indexes := indexes + [i];
        }
      }
    }

    method ReorderChunks<T>(chunks: seq<seq<T>>) returns (r: seq<T>)
      requires Within(shuffle(OtherIndexes(|chunks|, myIndex)), |chunks|)
      ensures r == Own(chunks, myIndex) + InOrder(chunks, shuffle(OtherIndexes(|chunks|, myIndex)))
    {
      r := [];
      if myIndex < |chunks| {
        r := r + chunks[myIndex];
      }
      var indexes := AllOtherIndexes(|chunks|);
      indexes := shuffle(indexes);
      r := AppendChunks(r, chunks, indexes);
    }

    /** The device's own chunk first, then the others as the shuffle orders them. */
    method Reorder<T>(blocks: seq<T>) returns (r: seq<T>)
      requires count > 0 && Shuffles(shuffle)
      ensures multiset(r) == multiset(blocks)
      ensures var parts := Split(blocks, count); var order := shuffle(OtherIndexes(|parts|, myIndex));
              Within(order, |parts|) && r == Own(parts, myIndex) + InOrder(parts, order)
    {
      ghost var parts := Split(blocks, count);
      ReorderPermutes(parts, myIndex, shuffle(OtherIndexes(|parts|, myIndex)));
      SplitIs(blocks, count);
      if |blocks| == 0 {
        return blocks;
      }
      var chunks := Chunk(blocks, count);
      r := ReorderChunks(chunks);
    }
  }

  method AppendChunks<T>(blocks: seq<T>, chunks: seq<seq<T>>, indexes: seq<nat>) returns (r: seq<T>)
    requires Within(indexes, |chunks|)
    ensures r == blocks + InOrder(chunks, indexes)
  {
    r := blocks;
    for k := 0 to |indexes|
      invariant r == blocks + InOrder(chunks, indexes[..k])
    {
      InOrderSnoc(chunks, indexes[..k], indexes[k]);
      assert indexes[..k + 1] == indexes[..k] + [indexes[k]];
      r := r + chunks[indexes[k]];
    }
    assert indexes[..|indexes|] == indexes;
  }

  /** The split is the blocks again, in at most as many parts as there are devices. */
  lemma SplitIs<T>(blocks: seq<T>, count: nat)
    requires count > 0
    ensures Flatten(Split(blocks, count)) == blocks && |Split(blocks, count)| <= count
    ensures blocks == [] ==> Split(blocks, count) == []
  {
    ChunkCount(blocks, count);
    ChunksAre(blocks, CeilDiv(|blocks|, count));
  }

  /** One's own chunk first and the others in whatever order are a permutation of the whole. */
  lemma ReorderPermutes<T>(parts: seq<seq<T>>, k: nat, shuffled: seq<nat>)
    requires multiset(shuffled) == multiset(OtherIndexes(|parts|, k))
    ensures Within(shuffled, |parts|)
    ensures multiset(Own(parts, k) + InOrder(parts, shuffled)) == multiset(Flatten(parts))
    ensures parts == [] ==> Own(parts, k) + InOrder(parts, shuffled) == []
  {
    var others := OtherIndexes(|parts|, k);
    OthersWithin(|parts|, k);
    PermutedWithin(shuffled, others, |parts|);
    OrderPermutes(parts, shuffled, others);
    OwnAndOthers(parts, k, |parts|);
    assert parts[..|parts|] == parts;
    assert |shuffled| == |multiset(shuffled)|;
  }

  // ---------------------------------------------------------------- the partition

  ghost predicate Ascending(devices: seq<DeviceID>) {
    forall j, k :: 0 <= j < k < |devices| ==> devices[j] < devices[k]
  }

  lemma RankInSorted(id: DeviceID, others: seq<DeviceID>, sorted: seq<DeviceID>, i: nat)
    requires Sorted(IDLe, sorted) && multiset(sorted) == multiset(others + [id])
    requires i < |sorted| && sorted[i] == id && forall j :: 0 <= j < i ==> sorted[j] != id
    ensures Rank(id, others) == i
  {
    assert Linear(IDLe);
    SortSorts(IDLe, others + [id]);
    SortedIsUnique(IDLe, sorted, Sort(IDLe, others + [id]));
    FirstIndexIs(sorted, id, i);
  }

  /** A device finds its own place among all devices, in whatever order it lists the others, and whether
      or not it lists itself among them. */
  lemma RankIsPosition(devices: seq<DeviceID>, i: nat, others: seq<DeviceID>)
    requires i < |devices| && Ascending(devices)
    requires multiset(others + [devices[i]]) == multiset(devices) || multiset(others) == multiset(devices)
    ensures Rank(devices[i], others) == i
  {
    if multiset(others) == multiset(devices) {
      RankAmongAll(devices, i, others);
    } else {
      RankInSorted(devices[i], others, devices, i);
    }
  }

  lemma RankAmongAll(devices: seq<DeviceID>, i: nat, others: seq<DeviceID>)
    requires i < |devices| && Ascending(devices) && multiset(others) == multiset(devices)
    ensures Rank(devices[i], others) == i
  {
    var id := devices[i];
    var sorted := Doubled(devices, i);
    DoubledIsSorted(devices, i);
    DoubledCounts(devices, i);
    RankInSorted(id, others, sorted, i);
  }

  /** With the i-th device once more. */
  function Doubled(devices: seq<DeviceID>, i: nat): seq<DeviceID>
    requires i < |devices|
  {
    devices[..i + 1] + devices[i..]
  }

  lemma DoubledIsSorted(devices: seq<DeviceID>, i: nat)
    requires i < |devices| && Ascending(devices)
    ensures Sorted(IDLe, Doubled(devices, i)) && Doubled(devices, i)[i] == devices[i]
    ensures forall j :: 0 <= j < i ==> Doubled(devices, i)[j] != devices[i]
  {
    var r := Doubled(devices, i);
    forall j, k | 0 <= j < k < |r|
      ensures r[j] <= r[k]
    {
      var j', k' := if j <= i then j else j - 1, if k <= i then k else k - 1;
      assert r[j] == devices[j'] && r[k] == devices[k'];
    }
  }

  lemma DoubledCounts(devices: seq<DeviceID>, i: nat)
    requires i < |devices|
    ensures multiset(Doubled(devices, i)) == multiset(devices) + multiset{devices[i]}
  {
    assert devices[..i + 1] == devices[..i] + [devices[i]];
    assert devices == devices[..i] + devices[i..];
  }

  /** What a device fetches first that passes these others to the reorderer. */
  function FirstFetched<T>(blocks: seq<T>, id: DeviceID, others: seq<DeviceID>): seq<T> {
    Own(Split(blocks, |others| + 1), Rank(id, others))
  }

  /** What the devices fetch first, each with its own list of others. */
  function Starts<T>(blocks: seq<T>, devices: seq<DeviceID>, others: DeviceID -> seq<DeviceID>): seq<seq<T>> {
    if devices == [] then []
    else
      var init, last := devices[..|devices| - 1], devices[|devices| - 1];
      Starts(blocks, init, others) + [FirstFetched(blocks, last, others(last))]
  }

  /** All others without the device itself. */
  ghost predicate ListOthers(devices: seq<DeviceID>, others: DeviceID -> seq<DeviceID>) {
    forall id :: id in devices ==> multiset(others(id) + [id]) == multiset(devices)
  }

  /** All devices, as a folder passes them: the list it is shared with has the device itself in it. */
  ghost predicate ListAll(devices: seq<DeviceID>, others: DeviceID -> seq<DeviceID>) {
    forall id :: id in devices ==> multiset(others(id)) == multiset(devices)
  }

  function FirstParts<T>(parts: seq<seq<T>>, n: nat): seq<seq<T>> { parts[..if n < |parts| then n else |parts|] }

  lemma FetchesOwn<T>(blocks: seq<T>, devices: seq<DeviceID>, i: nat, others: seq<DeviceID>, count: nat)
    requires i < |devices| && Ascending(devices)
    requires (count == |devices| && multiset(others + [devices[i]]) == multiset(devices))
          || (count == |devices| + 1 && multiset(others) == multiset(devices))
    ensures FirstFetched(blocks, devices[i], others) == Own(Split(blocks, count), i)
  {
    RankIsPosition(devices, i, others);
    assert |multiset(others)| == |others| && |multiset(others + [devices[i]])| == |others| + 1;
    assert |multiset(devices)| == |devices|;
  }

  /** The first n parts, as the devices' own. */
  function Owns<T>(parts: seq<seq<T>>, n: nat): seq<seq<T>> {
    if n == 0 then [] else Owns(parts, n - 1) + [Own(parts, n - 1)]
  }

  lemma {:induction false} OwnsFlatten<T>(parts: seq<seq<T>>, n: nat)
    ensures Flatten(Owns(parts, n)) == Flatten(FirstParts(parts, n))
  {
    if n > 0 {
      OwnsFlatten(parts, n - 1);
      FlattenSnoc(Owns(parts, n - 1), Own(parts, n - 1));
      if n <= |parts| {
        FlattenSnoc(parts[..n - 1], parts[n - 1]);
        assert parts[..n] == parts[..n - 1] + [parts[n - 1]];
      }
    }
  }

  /** With or without itself among the others, each device starts with the part at its place. */
  lemma {:induction false} StartsAreOwns<T>(blocks: seq<T>, devices: seq<DeviceID>, n: nat,
      others: DeviceID -> seq<DeviceID>, count: nat)
    requires n <= |devices| && Ascending(devices)
    requires (count == |devices| && ListOthers(devices, others)) || (count == |devices| + 1 && ListAll(devices, others))
    ensures Starts(blocks, devices[..n], others) == Owns(Split(blocks, count), n)
  {
    if n > 0 {
      var id := devices[n - 1];
      StartsAreOwns(blocks, devices, n - 1, others, count);
      assert devices[..n][..n - 1] == devices[..n - 1] && devices[..n][n - 1] == id && id in devices;
      FetchesOwn(blocks, devices, n - 1, others(id), count);
    }
  }

  /** Where every device lists the others without itself, what the devices fetch first is, in the order
      of their IDs, the whole file. */
  lemma OthersPartitionTheFile<T>(blocks: seq<T>, devices: seq<DeviceID>, others: DeviceID -> seq<DeviceID>)
    requires devices != [] && Ascending(devices) && ListOthers(devices, others)
    ensures Flatten(Starts(blocks, devices, others)) == blocks
  {
    var n := |devices|;
    assert devices[..n] == devices;
    StartsAreOwns(blocks, devices, n, others, n);
    OwnsFlatten(Split(blocks, n), n);
    SplitIs(blocks, n);
    WholeFirst(Split(blocks, n), n);
  }

  lemma WholeFirst<T>(parts: seq<seq<T>>, n: nat)
    requires |parts| <= n
    ensures FirstParts(parts, n) == parts
  {
  }

  lemma {:induction false} ChunksCover<T>(blocks: seq<T>, size: nat)
    requires blocks != [] ==> size > 0
    ensures |blocks| <= |Chunks(blocks, size)| * size
  {
    if |blocks| > size {
      var k := |Chunks(blocks[size..], size)|;
      ChunksCover(blocks[size..], size);
      assert |Chunks(blocks, size)| == k + 1;
      assert (k + 1) * size == k * size + size;
    }
  }

  lemma ProductsOrdered(a: nat, b: nat, size: nat)
    requires a <= b
    ensures a * size <= b * size
  {
  }

  /** When the parts are at most n. */
  lemma AtMostParts<T>(blocks: seq<T>, size: nat, n: nat)
    requires blocks != [] ==> size > 0
    ensures |Chunks(blocks, size)| <= n <==> |blocks| <= n * size
  {
    var k := |Chunks(blocks, size)|;
    ChunksCover(blocks, size);
    ChunksFill(blocks, size);
    if k <= n { ProductsOrdered(k, n, size); } else { ProductsOrdered(n, k - 1, size); }
  }

  /** The chunks are no larger than they have to be: any smaller size makes too many. */
  lemma SmallerSizeMakesMore<T>(blocks: seq<T>, parts: nat, size: nat)
    requires blocks != [] && parts > 0 && 0 < size < CeilDiv(|blocks|, parts)
    ensures |Chunks(blocks, size)| > parts
  {
    CeilDivBounds(|blocks|, parts);
    ProductsOrdered(size, CeilDiv(|blocks|, parts) - 1, parts);
    AtMostParts(blocks, size, parts);
  }

  /** The blocks are the first n parts and one more, if there is one. */
  lemma SplitForOneMore<T>(blocks: seq<T>, n: nat)
    ensures var parts := Split(blocks, n + 1);
            && blocks == Flatten(FirstParts(parts, n)) + Own(parts, n)
            && (Own(parts, n) == [] <==> |parts| <= n)
            && (|parts| <= n <==> |blocks| <= n * CeilDiv(|blocks|, n + 1))
  {
    var parts := Split(blocks, n + 1);
    SplitIs(blocks, n + 1);
    CeilDivBounds(|blocks|, n + 1);
    AtMostParts(blocks, CeilDiv(|blocks|, n + 1), n);
    if |parts| <= n {
      assert parts[..|parts|] == parts && blocks + [] == blocks;
    } else {
      assert parts == parts[..n] + [parts[n]];
      FlattenSnoc(parts[..n], parts[n]);
      ChunksAre(blocks, CeilDiv(|blocks|, n + 1));
    }
  }

  /** A folder passes all its devices, so that each splits for one device more than there is, and the
      last of n + 1 parts is nobody's first. What they fetch first is the whole file exactly if the
      first n parts are. */
  lemma FolderPartitionsTheFileIff<T>(blocks: seq<T>, devices: seq<DeviceID>, others: DeviceID -> seq<DeviceID>)
    requires devices != [] && Ascending(devices) && ListAll(devices, others)
    ensures var n := |devices|; var parts := Split(blocks, n + 1);
            var starts := Flatten(Starts(blocks, devices, others));
            && blocks == starts + Own(parts, n)
            && (starts == blocks <==> |parts| <= n)
            && (starts == blocks <==> |blocks| <= n * CeilDiv(|blocks|, n + 1))
  {
    var n := |devices|;
    assert devices[..n] == devices;
    StartsAreOwns(blocks, devices, n, others, n + 1);
    OwnsFlatten(Split(blocks, n + 1), n);
    SplitForOneMore(blocks, n);
    EqualIffNothingMore(Flatten(Starts(blocks, devices, others)), Own(Split(blocks, n + 1), n), blocks);
  }

  lemma EqualIffNothingMore<T>(a: seq<T>, b: seq<T>, whole: seq<T>)
    requires whole == a + b
    ensures a == whole <==> b == []
  {
    assert |whole| == |a| + |b|;
  }

  /** Two devices and three blocks: nobody starts with the third. */
  lemma FolderLeavesAPart(others: DeviceID -> seq<DeviceID>)
    requires others(1) == [1, 2] && others(2) == [1, 2]
    ensures Flatten(Starts([10, 11, 12], [1, 2], others)) == [10, 11]
  {
    var blocks, devices := [10, 11, 12], [1, 2];
    FolderPartitionsTheFileIff(blocks, devices, others);
    var parts := Split(blocks, 3);
    assert blocks[..1] == [10] && blocks[1..] == [11, 12] && [11, 12][..1] == [11] && [11, 12][1..] == [12];
    assert parts == [[10], [11], [12]];
    var starts := Flatten(Starts(blocks, devices, others));
    assert starts + [12] == [10, 11] + [12];
    assert starts == (starts + [12])[..|starts|];
  }
}
