/**
  The image builder `mkfs/src/main.rs`: a bitmap sector allocator, linked sector chains and
  a packed directory.  The directory scan of the host is a list of names and contents.
*/
module Mkfs {
  import opened Wrappers
  import opened SfsLayout

  // ---------------------------------------------------------------- the bitmap

  predicate Bit(b: bv8, k: nat)
    requires k < 8
  {
    b & ((1 as bv8) << k) != 0
  }

  predicate Used(bm: seq<bv8>, s: nat)
    requires s < 8 * |bm|
  {
    Bit(bm[s / 8], s % 8)
  }

  lemma SetBit(b: bv8, k: nat, j: nat)
    requires k < 8 && j < 8
    ensures Bit(b | ((1 as bv8) << k), j) <==> j == k || Bit(b, j)
  {
  }

  lemma FullByte(b: bv8)
    ensures b == 0xFF <==> forall k: nat | k < 8 :: Bit(b, k)
  {
    if forall k: nat | k < 8 :: Bit(b, k) {
      assert Bit(b, 0) && Bit(b, 1) && Bit(b, 2) && Bit(b, 3) && Bit(b, 4) && Bit(b, 5) && Bit(b, 6) && Bit(b, 7);
    }
    if b == 0xFF {
      forall k: nat | k < 8 ensures Bit(b, k) {
        assert k == 0 || k == 1 || k == 2 || k == 3 || k == 4 || k == 5 || k == 6 || k == 7;
      }
    }
  }

  /** Sets one bit and no other. */
  ghost predicate Marked(before: seq<bv8>, after: seq<bv8>, s: nat) {
    && |after| == |before|
    && forall t: nat | t < 8 * |before| :: Used(after, t) <==> t == s || Used(before, t)
  }

  lemma MarkByte(bm: seq<bv8>, i: nat, k: nat)
    requires i < |bm| && k < 8
    ensures Marked(bm, bm[i := bm[i] | ((1 as bv8) << k)], 8 * i + k)
  {
    var after := bm[i := bm[i] | ((1 as bv8) << k)];
    forall t: nat | t < 8 * |bm| ensures Used(after, t) <==> t == 8 * i + k || Used(bm, t) {
      SetBit(bm[i], k, t % 8);
    }
  }

  ghost predicate LowestFree(bm: seq<bv8>, r: nat) {
    r < 8 * |bm| && !Used(bm, r) && forall s: nat | s < r :: Used(bm, s)
  }

  ghost predicate AllUsed(bm: seq<bv8>) {
    forall s: nat | s < 8 * |bm| :: Used(bm, s)
  }

  /** The bit scan of one byte that is not full. */
  method LowestClear(b: bv8) returns (k: nat)
    requires b != 0xFF
    ensures k < 8 && !Bit(b, k) && forall j: nat | j < k :: Bit(b, j)
  {
    FullByte(b);
    k := 0;
    while b & ((1 as bv8) << k) != 0
      invariant k < 8 && forall j: nat | j < k :: Bit(b, j)
      decreases 8 - k
    {
      assert Bit(b, k);
      assert k == 7 ==> forall j: nat | j < 8 :: Bit(b, j);
      k := k + 1;
    }
  }

  /** Sets bit k of byte i in place. */
  method Mark(bitmap: array<bv8>, i: nat, k: nat)
    requires i < bitmap.Length && k < 8
    modifies bitmap
    ensures Marked(old(bitmap[..]), bitmap[..], 8 * i + k)
  {
    ghost var before := bitmap[..];
    MarkByte(before, i, k);
    bitmap[i] := bitmap[i] | ((1 as bv8) << k);
    assert bitmap[..] == before[i := before[i] | ((1 as bv8) << k)];
  }

  lemma FirstClear(bm: seq<bv8>, i: nat, k: nat)
    requires i < |bm| && k < 8 && !Bit(bm[i], k) && forall j: nat | j < k :: Bit(bm[i], j)
    requires forall s: nat | s < 8 * i :: Used(bm, s)
    ensures LowestFree(bm, 8 * i + k)
  {
    forall s: nat | s < 8 * i + k ensures Used(bm, s) {
      if s >= 8 * i { assert s / 8 == i; }
    }
    assert (8 * i + k) / 8 == i && (8 * i + k) % 8 == k;
  }

  /** `find_free_sector`: marks and returns the lowest free sector. */
  method FindFreeSector(bitmap: array<bv8>) returns (r: Option<nat>)
    modifies bitmap
    ensures r.Some? ==> LowestFree(old(bitmap[..]), r.value) && Marked(old(bitmap[..]), bitmap[..], r.value)
    ensures r.None? ==> bitmap[..] == old(bitmap[..]) && AllUsed(bitmap[..])
  {
    for i := 0 to bitmap.Length
      invariant bitmap[..] == old(bitmap[..])
      invariant forall s: nat | s < 8 * i :: Used(bitmap[..], s)
    {
      if bitmap[i] != 0xFF {
        var k := LowestClear(bitmap[i]);
        FirstClear(bitmap[..], i, k);
        Mark(bitmap, i, k);
        return Some(8 * i + k);
      }
      FullByte(bitmap[i]);
      UsedThrough(bitmap[..], i);
    }
    return None;
  }

  lemma UsedThrough(bm: seq<bv8>, i: nat)
    requires i < |bm|
    requires forall s: nat | s < 8 * i :: Used(bm, s)
    requires forall j: nat | j < 8 :: Bit(bm[i], j)
    ensures forall s: nat | s < 8 * (i + 1) :: Used(bm, s)
  {
    forall s: nat | s < 8 * (i + 1) ensures Used(bm, s) {
      if s >= 8 * i { assert s / 8 == i; }
    }
  }

  /** `secs` were free, are now used, nothing else changed, and every sector still free lies above them. */
  ghost predicate Taken(before: seq<bv8>, after: seq<bv8>, secs: seq<nat>) {
    && |after| == |before|
    && (forall i, j | 0 <= i < j < |secs| :: secs[i] < secs[j])
    && (forall j | 0 <= j < |secs| :: secs[j] < 8 * |before| && !Used(before, secs[j]))
    && (forall t: nat | t < 8 * |before| :: Used(after, t) <==> Used(before, t) || t in secs)
    && (forall t: nat, j | t < 8 * |before| && !Used(after, t) && 0 <= j < |secs| :: secs[j] < t)
  }

  lemma TakeOne(b0: seq<bv8>, b1: seq<bv8>, b2: seq<bv8>, secs: seq<nat>, r: nat)
    requires Taken(b0, b1, secs) && Marked(b1, b2, r)
    requires LowestFree(b1, r)
    ensures Taken(b0, b2, secs + [r])
  {
    var more := secs + [r];
    assert forall t :: t in more <==> t in secs || t == r;
    assert forall t: nat | t < 8 * |b0| && !Used(b2, t) :: !Used(b1, t) && t > r;
  }

  /** The first sectors of the chain hold `parts` and no sector outside the chain has changed. */
  ghost predicate Written(f0: seq<u8>, f: seq<u8>, secs: seq<nat>, parts: seq<seq<u8>>) {
    && |parts| <= |secs|
    && |f| >= |f0|
    && (forall t: nat | t !in secs :: Sector(f, t) == Sector(f0, t))
    && (forall j | 0 <= j < |parts| :: SECTOR_SIZE * (secs[j] + 1) <= |f| && Sector(f, secs[j]) == parts[j])
  }

  lemma WriteNext(f0: seq<u8>, f: seq<u8>, secs: seq<nat>, extra: seq<nat>, parts: seq<seq<u8>>, d: seq<u8>)
    requires Written(f0, f, secs, parts) && |secs| == |parts| + 1 && |d| == SECTOR_SIZE
    requires forall j | 0 <= j < |parts| :: secs[j] < secs[|parts|]
    ensures Written(f0, WriteAt(f, secs[|parts|] * SECTOR_SIZE, d), secs + extra, parts + [d])
  {
    SectorWrite(f, secs[|parts|], d);
    WrittenNext(f0, f, WriteAt(f, secs[|parts|] * SECTOR_SIZE, d), secs, extra, parts, d);
  }

  lemma WrittenNext(f0: seq<u8>, f: seq<u8>, g: seq<u8>, secs: seq<nat>, extra: seq<nat>, parts: seq<seq<u8>>, d: seq<u8>)
    requires Written(f0, f, secs, parts) && |secs| == |parts| + 1
    requires forall j | 0 <= j < |parts| :: secs[j] < secs[|parts|]
    requires |g| >= |f| && SECTOR_SIZE * (secs[|parts|] + 1) <= |g|
    requires forall t: nat :: Sector(g, t) == if t == secs[|parts|] then d else Sector(f, t)
    ensures Written(f0, g, secs + extra, parts + [d])
  {
    forall t: nat | t !in secs + extra ensures Sector(g, t) == Sector(f0, t) {
      assert t !in secs && secs[|parts|] in secs;
    }
    var ss, ps := secs + extra, parts + [d];
    forall j | 0 <= j < |ps| ensures SECTOR_SIZE * (ss[j] + 1) <= |g| && Sector(g, ss[j]) == ps[j] {
      assert ss[j] == secs[j];
    }
  }

  /** The parts are the data sectors of the file, each pointing at its successor. */
  ghost predicate Linked(parts: seq<seq<u8>>, secs: seq<nat>, data: seq<u8>) {
    |parts| <= |secs| && forall j | 0 <= j < |parts| :: parts[j] == DataSector(NextOf(secs, j), Chunk(data, j))
  }

  lemma LinkNext(parts: seq<seq<u8>>, secs: seq<nat>, extra: seq<nat>, data: seq<u8>)
    requires Linked(parts, secs, data) && |secs| == |parts| + 1
    ensures Linked(parts + [DataSector(HeadOf(extra), Chunk(data, |parts|))], secs + extra, data)
  {
    assert forall j | 0 <= j < |parts| :: NextOf(secs + extra, j) == NextOf(secs, j);
    assert NextOf(secs + extra, |parts|) == HeadOf(extra);
  }

  /** A chain under construction: allocated sectors, written parts. */
  ghost predicate Building(b0: seq<bv8>, b: seq<bv8>, f0: seq<u8>, f: seq<u8>, secs: seq<nat>,
                           parts: seq<seq<u8>>, data: seq<u8>) {
    Taken(b0, b, secs) && Written(f0, f, secs, parts) && Linked(parts, secs, data)
  }

  /** What `write_data` leaves behind when it succeeds. */
  ghost predicate Stored(f: seq<u8>, secs: seq<nat>, data: seq<u8>) {
    && ChainHolds(f, secs, data)
    && forall j | 0 <= j < |secs| :: SECTOR_SIZE * (secs[j] + 1) <= |f|
  }

  ghost predicate SameOutside(f0: seq<u8>, f: seq<u8>, secs: seq<nat>) {
    |f| >= |f0| && forall t: nat | t !in secs :: Sector(f, t) == Sector(f0, t)
  }

  lemma Built(b0: seq<bv8>, b: seq<bv8>, f0: seq<u8>, f: seq<u8>, secs: seq<nat>, parts: seq<seq<u8>>, data: seq<u8>)
    requires Building(b0, b, f0, f, secs, parts, data)
    ensures SameOutside(f0, f, secs)
    ensures |secs| == |parts| == SectorsFor(|data|) ==> Stored(f, secs, data)
  {
  }

  // ---------------------------------------------------------------- the image

  /** The loop's variables: what is left of the data and the sector that takes its first chunk. */
  ghost predicate ChainState(secs: seq<nat>, p: nat, data: seq<u8>, remaining: seq<u8>, current: nat) {
    && |secs| > 0 && |secs| == p + (if remaining == [] then 0 else 1) && p <= SectorsFor(|data|)
    && remaining == Rest(data, p) && (remaining != [] ==> secs[p] == current)
  }

  lemma ChainNext(secs: seq<nat>, p: nat, data: seq<u8>, remaining: seq<u8>, current: nat,
                  rest: seq<u8>, next: nat, extra: seq<nat>)
    requires ChainState(secs, p, data, remaining, current) && remaining != [] && rest == Rest(data, p + 1)
    requires if rest == [] then extra == [] && next == 0 else extra == [next]
    ensures ChainState(secs + extra, p + 1, data, rest, next) && |rest| < |remaining| && (secs + extra)[0] == secs[0]
  {
    ChunkRest(data, p);
    ChunkRest(data, p + 1);
  }

  class Image {
    var file: seq<u8>
    const bitmap: array<bv8>

    constructor (file: seq<u8>, bitmap: array<bv8>)
      ensures this.file == file && this.bitmap == bitmap
    {
      this.file := file;
      this.bitmap := bitmap;
    }

    /** One sector of `write_data`: the next pointer, the chunk, and zero padding if it is partial. */
    method WriteSector(current: nat, next: nat, chunk: seq<u8>)
      requires |chunk| <= PAYLOAD
      modifies this
      ensures file == WriteAt(old(file), current * SECTOR_SIZE, DataSector(next, chunk))
    {
      var off := current * SECTOR_SIZE;
      WriteJoin(file, off, LE32(next), chunk);
      WriteJoin(file, off, LE32(next) + chunk, Zeros(PAYLOAD - |chunk|));
      file := WriteAt(file, off, LE32(next));
      file := WriteAt(file, off + 4, chunk);
      if |chunk| < PAYLOAD {
        file := WriteAt(file, off + 4 + |chunk|, Zeros(PAYLOAD - |chunk|));
      } else {
        assert LE32(next) + chunk + [] == LE32(next) + chunk;
      }
    }

    /** Extends a chain under construction by the lowest free sector. */
    method ExtendChain(ghost b0: seq<bv8>, ghost secs: seq<nat>) returns (r: Option<nat>)
      requires Taken(b0, bitmap[..], secs)
      modifies bitmap
      ensures r.Some? ==> Taken(b0, bitmap[..], secs + [r.value])
      ensures r.None? ==> Taken(b0, bitmap[..], secs) && AllUsed(bitmap[..])
    {
      ghost var b1 := bitmap[..];
      r := FindFreeSector(bitmap);
      if r.Some? {
        TakeOne(b0, b1, bitmap[..], secs, r.value);
      }
    }

    /** One round of the `write_data` loop: allocate the successor unless this is the last chunk, then write. */
    method WriteChunk(ghost b0: seq<bv8>, ghost f0: seq<u8>, ghost data: seq<u8>, ghost secs: seq<nat>,
                      ghost parts: seq<seq<u8>>, current: nat, chunk: seq<u8>, last: bool)
        returns (next: Option<nat>, ghost extra: seq<nat>)
      requires Building(b0, bitmap[..], f0, file, secs, parts, data)
      requires |secs| == |parts| + 1 && secs[|parts|] == current && chunk == Chunk(data, |parts|)
      modifies this, bitmap
      ensures next.Some? ==>
        && (if last then extra == [] && next.value == 0 else extra == [next.value])
        && Building(b0, bitmap[..], f0, file, secs + extra, parts + [DataSector(next.value, chunk)], data)
      ensures next.None? ==> !last && Building(b0, bitmap[..], f0, file, secs, parts, data) && AllUsed(bitmap[..])
    {
      next, extra := Some(0), [];
      if !last {
        next := ExtendChain(b0, secs);
        if next.None? {
          return;
        }
        extra := [next.value];
      } else {
        assert secs + extra == secs;
      }
      WriteNext(f0, file, secs, extra, parts, DataSector(next.value, chunk));
      LinkNext(parts, secs, extra, data);
      WriteSector(current, next.value, chunk);
    }

    /** `write_data`: stores the bytes in a fresh chain of the lowest free sectors; `None` is "Disk full". */
    method WriteData(data: seq<u8>) returns (head: Option<nat>, ghost secs: seq<nat>)
      modifies this, bitmap
      ensures Taken(old(bitmap[..]), bitmap[..], secs)
      ensures SameOutside(old(file), file, secs)
      ensures head.Some? ==> head.value == HeadOf(secs) && Stored(file, secs, data)
      ensures head.None? ==> |secs| < SectorsFor(|data|) && AllUsed(bitmap[..])
    {
      secs := [];
      if data == [] {
        return Some(0), [];
      }
      var remaining := data;
      ghost var b0, f0, parts := bitmap[..], file, [];
      head := ExtendChain(b0, []);
      if head.None? {
        return;
      }
      var current := head.value;
      secs := secs + [current];
      ChunkRest(data, 0);
      while remaining != []
        invariant Building(b0, bitmap[..], f0, file, secs, parts, data)
        invariant ChainState(secs, |parts|, data, remaining, current) && head == Some(secs[0])
        decreases |remaining|
      {
        ghost var p := |parts|;
        var rest, next;
        ghost var extra;
        rest, next, extra, parts := NextChunk(b0, f0, data, secs, parts, remaining, current);
        if next.None? {
          Built(b0, bitmap[..], f0, file, secs, parts, data);
          return None, secs;
        }
        ChainNext(secs, p, data, remaining, current, rest, next.value, extra);
        secs, remaining, current := secs + extra, rest, next.value;
      }
      ChunkRest(data, |parts|);
      Built(b0, bitmap[..], f0, file, secs, parts, data);
    }

    /** One turn of the loop: the next chunk is split off, linked and written. */
    method NextChunk(ghost b0: seq<bv8>, ghost f0: seq<u8>, ghost data: seq<u8>, ghost secs: seq<nat>,
                     ghost parts: seq<seq<u8>>, remaining: seq<u8>, current: nat)
        returns (rest: seq<u8>, next: Option<nat>, ghost extra: seq<nat>, ghost parts': seq<seq<u8>>)
      requires Building(b0, bitmap[..], f0, file, secs, parts, data)
      requires ChainState(secs, |parts|, data, remaining, current) && remaining != []
      modifies this, bitmap
      ensures rest == Rest(data, |parts| + 1)
      ensures next.Some? ==> Building(b0, bitmap[..], f0, file, secs + extra, parts', data) && |parts'| == |parts| + 1
      ensures next.Some? ==> if rest == [] then extra == [] && next.value == 0 else extra == [next.value]
      ensures next.None? ==> Building(b0, bitmap[..], f0, file, secs, parts', data) && |parts'| == |parts|
      ensures next.None? ==> rest != [] && AllUsed(bitmap[..])
    {
      var chunkLen := Min(|remaining|, PAYLOAD);
      var chunk := remaining[..chunkLen];
      ChunkRest(data, |parts|);
      rest := remaining[chunkLen..];
      next, extra := WriteChunk(b0, f0, data, secs, parts, current, chunk, rest == []);
      parts' := if next.Some? then parts + [DataSector(next.value, chunk)] else parts;
    }

    /** `write_dir_entry`: the zero-padded name, the size and the head sector, little-endian. */
    method WriteDirEntry(idx: nat, name: seq<u8>, size: nat, head: nat)
      requires |name| <= 64
      modifies this
      ensures file == WriteAt(old(file), EntryOffset(idx), EntryBytes(name, size, head))
    {
      var sector := SEC_DIR_START + idx / ENTRIES_PER_SECTOR;
      var offset := sector * SECTOR_SIZE + (idx % ENTRIES_PER_SECTOR) * DIR_ENTRY_SIZE;
      var nameBytes := name + Zeros(64 - |name|);
      WriteJoin(file, offset, nameBytes, LE32(size));
      WriteJoin(file, offset, nameBytes + LE32(size), LE32(head));
      file := WriteAt(file, offset, nameBytes);
      file := WriteAt(file, offset + 64, LE32(size));
      file := WriteAt(file, offset + 68, LE32(head));
    }
  }

  // ---------------------------------------------------------------- building a whole image

  datatype HostFile = HostFile(name: seq<u8>, data: seq<u8>)

  /** Files whose path is longer than 63 bytes are skipped. */
  function Kept(files: seq<HostFile>): seq<HostFile> {
    if files == [] then []
    else
      var last := files[|files| - 1];
      Kept(files[..|files| - 1]) + (if |last.name| <= MAX_NAME then [last] else [])
  }

  /** A list with one more file. */
  lemma KeptLast(files: seq<HostFile>, x: HostFile)
    ensures Kept(files + [x]) == Kept(files) + if |x.name| <= 63 then [x] else []
  {
    assert (files + [x])[..|files|] == files;
  }

  /** Exactly the files with names of up to 63 bytes are kept, in order. */
  lemma {:induction false} KeptIs(a: seq<HostFile>, b: seq<HostFile>)
    ensures Kept(a + b) == Kept(a) + Kept(b)
    ensures |b| == 1 ==> Kept(b) == if |b[0].name| <= 63 then b else []
  {
    if b == [] {
      assert a + b == a;
    } else {
      var most, x := b[..|b| - 1], b[|b| - 1];
      KeptIs(a, most);
      KeptLast(a + most, x);
      assert a + b == a + most + [x];
    }
  }

  ghost predicate InChains(chains: seq<seq<nat>>, s: nat) {
    exists i :: 0 <= i < |chains| && s in chains[i]
  }

  /** The used sectors are exactly 0..128 and those of the chains, which share none. */
  ghost predicate Allocated(bm: seq<bv8>, chains: seq<seq<nat>>) {
    && 8 * |bm| == BITMAP_SECTORS
    && (forall s: nat | s < BITMAP_SECTORS :: Used(bm, s) <==> s < SEC_DATA_START || InChains(chains, s))
    && (forall i, j | 0 <= i < |chains| && 0 <= j < |chains[i]| :: SEC_DATA_START <= chains[i][j] < BITMAP_SECTORS)
    && (forall i, j, k | 0 <= i < |chains| && 0 <= j < k < |chains[i]| :: chains[i][j] < chains[i][k])
    && (forall h, i, s | 0 <= h < i < |chains| && s in chains[h] :: s !in chains[i])
  }

  lemma AllocateChain(b0: seq<bv8>, b1: seq<bv8>, chains: seq<seq<nat>>, secs: seq<nat>)
    requires Allocated(b0, chains) && Taken(b0, b1, secs)
    ensures Allocated(b1, chains + [secs])
    ensures forall h, s | 0 <= h < |chains| && s in chains[h] :: s !in secs
    ensures forall j | 0 <= j < |secs| :: secs[j] >= SEC_DATA_START
  {
    var more := chains + [secs];
    forall s: nat | s < BITMAP_SECTORS
      ensures Used(b1, s) <==> s < SEC_DATA_START || InChains(more, s)
    {
      if InChains(chains, s) {
        var i :| 0 <= i < |chains| && s in chains[i];
        assert s in more[i];
      }
      if s in secs { assert s in more[|chains|]; }
      if InChains(more, s) {
        var i :| 0 <= i < |more| && s in more[i];
        assert i < |chains| ==> s in chains[i];
      }
    }
    forall j | 0 <= j < |secs| ensures SEC_DATA_START <= secs[j] < BITMAP_SECTORS {
      assert !Used(b0, secs[j]);
    }
    forall h, s | 0 <= h < |chains| && s in chains[h] ensures s !in secs {
      assert InChains(chains, s);
      assert SEC_DATA_START <= s < BITMAP_SECTORS;
      assert Used(b0, s);
    }
  }

  /** Entries 0..n describe the files; the others are still empty. */
  ghost predicate Directory(f: seq<u8>, files: seq<HostFile>, chains: seq<seq<nat>>) {
    && |chains| == |files| <= MAX_FILES
    && (forall i | 0 <= i < |files| ::
          |files[i].name| <= MAX_NAME &&
          EntryAt(f, i) == EntryBytes(files[i].name, |files[i].data|, HeadOf(chains[i])))
    && (forall i | |files| <= i < MAX_FILES :: ByteAt(f, EntryOffset(i)) == 0)
  }

  ghost predicate Contents(f: seq<u8>, files: seq<HostFile>, chains: seq<seq<nat>>) {
    |chains| == |files| && forall i | 0 <= i < |files| :: Stored(f, chains[i], files[i].data)
  }

  /** A new chain disturbs no earlier file. */
  lemma ContentsKept(f: seq<u8>, g: seq<u8>, files: seq<HostFile>, chains: seq<seq<nat>>, secs: seq<nat>)
    requires Contents(f, files, chains) && SameOutside(f, g, secs)
    requires forall i, s | 0 <= i < |chains| && s in chains[i] :: s !in secs
    ensures Contents(g, files, chains)
  {
    forall i | 0 <= i < |files| ensures Stored(g, chains[i], files[i].data) {
      assert Stored(f, chains[i], files[i].data);
      assert forall j | 0 <= j < |chains[i]| :: chains[i][j] in chains[i];
      ChainFrame(f, g, chains[i], files[i].data);
    }
  }

  /** A new chain disturbs no directory entry. */
  lemma DirectoryKept(f: seq<u8>, g: seq<u8>, files: seq<HostFile>, chains: seq<seq<nat>>)
    requires Directory(f, files, chains)
    requires forall t: nat | SEC_DIR_START <= t < SEC_DATA_START :: Sector(g, t) == Sector(f, t)
    ensures Directory(g, files, chains)
  {
    forall i | 0 <= i < MAX_FILES
      ensures EntryAt(g, i) == EntryAt(f, i) && ByteAt(g, EntryOffset(i)) == ByteAt(f, EntryOffset(i))
    {
      EntryInSector(f, i);
      EntryInSector(g, i);
    }
  }

  /** One more file: its chain is written, then its entry. */
  lemma FileAdded(f: seq<u8>, g: seq<u8>, files: seq<HostFile>, chains: seq<seq<nat>>, x: HostFile, secs: seq<nat>)
    requires Directory(f, files, chains) && Contents(f, files, chains)
    requires |files| < MAX_FILES && |x.name| <= MAX_NAME
    requires SameOutside(f, g, secs) && Stored(g, secs, x.data)
    requires forall j | 0 <= j < |secs| :: secs[j] >= SEC_DATA_START
    requires forall i, s | 0 <= i < |chains| && s in chains[i] :: s !in secs
    requires forall i, j | 0 <= i < |chains| && 0 <= j < |chains[i]| :: chains[i][j] >= SEC_DATA_START
    ensures
      var h := WriteAt(g, EntryOffset(|files|), EntryBytes(x.name, |x.data|, HeadOf(secs)));
      Directory(h, files + [x], chains + [secs]) && Contents(h, files + [x], chains + [secs])
  {
    var h := WriteAt(g, EntryOffset(|files|), EntryBytes(x.name, |x.data|, HeadOf(secs)));
    ContentsKept(f, g, files, chains, secs);
    DirectoryKept(f, g, files, chains);
    EntryWrite(g, |files|, EntryBytes(x.name, |x.data|, HeadOf(secs)));
    var fs, cs := files + [x], chains + [secs];
    forall i | 0 <= i < |fs| ensures Stored(h, cs[i], fs[i].data) {
      assert Stored(g, cs[i], fs[i].data);
      ChainFrame(g, h, cs[i], fs[i].data);
    }
  }

  // ---------------------------------------------------------------- exact layout

  /** Sectors 0..n are used and no other: what a lowest-first allocator that never frees keeps. */
  ghost predicate FilledTo(bm: seq<bv8>, n: nat) {
    && 8 * |bm| == BITMAP_SECTORS && n <= BITMAP_SECTORS
    && forall s: nat | s < BITMAP_SECTORS :: Used(bm, s) <==> s < n
  }

  function Consecutive(n: nat, k: nat): seq<nat> { seq(k, i requires 0 <= i => n + i) }

  /** Taking the lowest free sectors of a filled prefix takes the next ones, in order. */
  lemma {:induction false} TakenRun(b0: seq<bv8>, b1: seq<bv8>, n: nat, secs: seq<nat>, k: nat)
    requires FilledTo(b0, n) && Taken(b0, b1, secs) && k <= |secs|
    ensures forall j | 0 <= j < k :: secs[j] == n + j
  {
    if k > 0 {
      TakenRun(b0, b1, n, secs, k - 1);
      var j := k - 1;
      assert !Used(b0, secs[j]) && (j > 0 ==> secs[j - 1] < secs[j]);
      assert n + j <= secs[j] < BITMAP_SECTORS;
      assert Used(b1, n + j); // what is still free lies above secs[j]
      var i :| 0 <= i < |secs| && secs[i] == n + j;
      assert i >= j;
    }
  }

  lemma TakenFills(b0: seq<bv8>, b1: seq<bv8>, n: nat, secs: seq<nat>)
    requires FilledTo(b0, n) && Taken(b0, b1, secs)
    ensures secs == Consecutive(n, |secs|)
    ensures FilledTo(b1, n + |secs|)
    ensures AllUsed(b1) ==> n + |secs| == BITMAP_SECTORS
  {
    TakenRun(b0, b1, n, secs, |secs|);
    if |secs| > 0 { assert secs[|secs| - 1] < BITMAP_SECTORS; }
    forall s: nat | s < BITMAP_SECTORS ensures Used(b1, s) <==> s < n + |secs| {
      if n <= s < n + |secs| { assert secs[s - n] == s; }
    }
    if n + |secs| < BITMAP_SECTORS { assert !Used(b1, n + |secs|); }
  }

  /** Sectors needed by a list of files. */
  function TotalSectors(files: seq<HostFile>): nat {
    if files == [] then 0
    else TotalSectors(files[..|files| - 1]) + SectorsFor(|files[|files| - 1].data|)
  }

  lemma TotalSnoc(files: seq<HostFile>, x: HostFile)
    ensures TotalSectors(files + [x]) == TotalSectors(files) + SectorsFor(|x.data|)
  {
    assert (files + [x])[..|files|] == files;
  }

  lemma KeptSnoc(files: seq<HostFile>, n: nat)
    requires n < |files|
    ensures Kept(files[..n + 1]) == Kept(files[..n]) + (if |files[n].name| <= MAX_NAME then [files[n]] else [])
  {
    assert files[..n + 1][..n] == files[..n];
  }

  lemma {:induction false} KeptGrows(files: seq<HostFile>, n: nat)
    requires n <= |files|
    ensures TotalSectors(Kept(files[..n])) <= TotalSectors(Kept(files))
    ensures |Kept(files[..n])| <= |Kept(files)|
    decreases |files| - n
  {
    if n == |files| {
      assert files[..n] == files;
    } else {
      KeptSnoc(files, n);
      KeptGrows(files, n + 1);
      TotalSnoc(Kept(files[..n]), files[n]);
      assert Kept(files[..n]) + [] == Kept(files[..n]);
    }
  }

  // ---------------------------------------------------------------- the finished image

  function BitmapBytes(bm: seq<bv8>): seq<u8> {
    seq(|bm|, i requires 0 <= i < |bm| => bm[i] as int as u8)
  }

  /** The bitmap as it lies in sectors 1..64. */
  function DiskBitmap(f: seq<u8>): seq<bv8> {
    seq(SEC_MAP_COUNT * SECTOR_SIZE, i requires 0 <= i => ByteAt(f, SECTOR_SIZE * SEC_MAP_START + i) as bv8)
  }

  /** "SFS1" as a little-endian word, then the number of sectors. */
  ghost predicate Superblock(f: seq<u8>, sizeMb: nat) {
    Bytes(f, 0, 8) == [0x31, 0x53, 0x46, 0x53] + LE32(2048 * sizeMb)
  }

  /** Superblock, bitmap, directory and file contents of a finished image. */
  ghost predicate GoodImage(f: seq<u8>, sizeMb: nat, files: seq<HostFile>, chains: seq<seq<nat>>) {
    && |f| >= 1048576 * sizeMb
    && Superblock(f, sizeMb)
    && Allocated(DiskBitmap(f), chains)
    && Directory(f, files, chains)
    && Contents(f, files, chains)
  }

  lemma BitmapWritten(f: seq<u8>, bm: seq<bv8>)
    requires 8 * |bm| == BITMAP_SECTORS
    ensures
      var g := WriteAt(f, SECTOR_SIZE * SEC_MAP_START, BitmapBytes(bm));
      && DiskBitmap(g) == bm
      && Bytes(g, 0, 8) == Bytes(f, 0, 8)
      && (forall t: nat | t >= SEC_DIR_START :: Sector(g, t) == Sector(f, t))
  {
    var off := SECTOR_SIZE * SEC_MAP_START;
    var d := BitmapBytes(bm);
    var g := WriteAt(f, off, d);
    WriteFrame(f, off, d, 0, 8);
    forall i | 0 <= i < |bm| ensures DiskBitmap(g)[i] == bm[i] {
      assert ByteAt(g, off + i) == d[i];
      assert (bm[i] as int as u8) as bv8 == bm[i];
    }
    forall t: nat | t >= SEC_DIR_START ensures Sector(g, t) == Sector(f, t) {
      WriteFrame(f, off, d, SECTOR_SIZE * t, SECTOR_SIZE);
    }
  }

  /** Step 2 of `main`: a bitmap with the 129 system sectors marked. */
  method ReservedBitmap() returns (bitmap: array<bv8>)
    ensures fresh(bitmap) && FilledTo(bitmap[..], SEC_DATA_START)
  {
    bitmap := new bv8[SEC_MAP_COUNT * SECTOR_SIZE](_ => 0);
    forall s: nat | s < BITMAP_SECTORS ensures !Used(bitmap[..], s) {
      assert bitmap[..][s / 8] == 0;
    }
    for i := 0 to SEC_DATA_START
      invariant FilledTo(bitmap[..], i)
    {
      var byteIdx, bitIdx := i / 8, i % 8;
      if byteIdx < bitmap.Length {
        ghost var before := bitmap[..];
        Mark(bitmap, byteIdx, bitIdx);
        FillNext(before, bitmap[..], i);
      }
    }
  }

  lemma FillNext(b0: seq<bv8>, b1: seq<bv8>, n: nat)
    requires FilledTo(b0, n) && Marked(b0, b1, n) && n < BITMAP_SECTORS
    ensures FilledTo(b1, n + 1)
  {
  }

  /** What holds between two files of the import loops. */
  ghost predicate Importing(f: seq<u8>, bm: seq<bv8>, sizeMb: nat, files: seq<HostFile>, chains: seq<seq<nat>>) {
    && |f| >= 1048576 * sizeMb
    && Superblock(f, sizeMb)
    && FilledTo(bm, SEC_DATA_START + TotalSectors(files))
    && Allocated(bm, chains)
    && Directory(f, files, chains)
    && Contents(f, files, chains)
  }

  /** The superblock outlives every later write. */
  lemma SuperblockKept(f: seq<u8>, g: seq<u8>, secs: seq<nat>, n: nat, e: seq<u8>)
    requires SameOutside(f, g, secs) && |e| == DIR_ENTRY_SIZE
    requires forall j | 0 <= j < |secs| :: secs[j] >= SEC_DATA_START
    ensures Bytes(WriteAt(g, EntryOffset(n), e), 0, 8) == Bytes(f, 0, 8)
  {
    assert Sector(g, 0) == Sector(f, 0);
    SubBytes(f, 0, SECTOR_SIZE, 0, 8);
    SubBytes(g, 0, SECTOR_SIZE, 0, 8);
    EntryInDirectory(n);
    WriteFrame(g, EntryOffset(n), e, 0, 8);
  }

  lemma ImportOne(f: seq<u8>, g: seq<u8>, b0: seq<bv8>, b1: seq<bv8>, sizeMb: nat, files: seq<HostFile>,
                  chains: seq<seq<nat>>, x: HostFile, secs: seq<nat>)
    requires Importing(f, b0, sizeMb, files, chains)
    requires |files| < MAX_FILES && |x.name| <= MAX_NAME
    requires Taken(b0, b1, secs) && SameOutside(f, g, secs) && Stored(g, secs, x.data)
    ensures Importing(WriteAt(g, EntryOffset(|files|), EntryBytes(x.name, |x.data|, HeadOf(secs))), b1, sizeMb,
                      files + [x], chains + [secs])
  {
    var e := EntryBytes(x.name, |x.data|, HeadOf(secs));
    AllocateChain(b0, b1, chains, secs);
    ImportFills(b0, b1, files, x, secs);
    FileAdded(f, g, files, chains, x, secs);
    SuperblockKept(f, g, secs, |files|, e);
  }

  lemma ImportFills(b0: seq<bv8>, b1: seq<bv8>, files: seq<HostFile>, x: HostFile, secs: seq<nat>)
    requires FilledTo(b0, SEC_DATA_START + TotalSectors(files)) && Taken(b0, b1, secs)
    requires |secs| == SectorsFor(|x.data|)
    ensures FilledTo(b1, SEC_DATA_START + TotalSectors(files + [x]))
  {
    TakenFills(b0, b1, SEC_DATA_START + TotalSectors(files), secs);
    TotalSnoc(files, x);
  }

  lemma SuperblockWritten(z: seq<u8>, sizeMb: nat)
    ensures
      var f := WriteAt(WriteAt(z, 0, LE32(MAGIC)), 4, LE32(2048 * sizeMb));
      Superblock(f, sizeMb) && |f| >= |z| && forall i: nat | i >= 8 :: ByteAt(f, i) == ByteAt(z, i)
  {
    WriteJoin(z, 0, LE32(MAGIC), LE32(2048 * sizeMb));
    WriteFrame(z, 0, LE32(MAGIC) + LE32(2048 * sizeMb), 0, 0);
    assert LE32(MAGIC) == [0x31, 0x53, 0x46, 0x53];
  }

  lemma EmptyImage(sizeMb: nat, bm: seq<bv8>)
    requires FilledTo(bm, SEC_DATA_START)
    ensures
      var f := WriteAt(WriteAt(Zeros(1048576 * sizeMb), 0, LE32(MAGIC)), 4, LE32(2048 * sizeMb));
      Importing(f, bm, sizeMb, [], [])
  {
    SuperblockWritten(Zeros(1048576 * sizeMb), sizeMb);
    forall i | 0 <= i < MAX_FILES ensures EntryOffset(i) >= 8 {
      EntryInDirectory(i);
    }
  }

  lemma FinishImage(f: seq<u8>, bm: seq<bv8>, sizeMb: nat, files: seq<HostFile>, chains: seq<seq<nat>>)
    requires Importing(f, bm, sizeMb, files, chains)
    ensures GoodImage(WriteAt(f, SECTOR_SIZE * SEC_MAP_START, BitmapBytes(bm)), sizeMb, files, chains)
  {
    var g := WriteAt(f, SECTOR_SIZE * SEC_MAP_START, BitmapBytes(bm));
    BitmapWritten(f, bm);
    DirectoryKept(f, g, files, chains);
    forall i | 0 <= i < |files| ensures Stored(g, chains[i], files[i].data) {
      assert Stored(f, chains[i], files[i].data);
      assert forall j | 0 <= j < |chains[i]| :: chains[i][j] >= SEC_DATA_START;
      ChainFrame(f, g, chains[i], files[i].data);
    }
  }

  /** A full directory names the first 448 files, whatever was written after it. */
  ghost predicate DirFull(f: seq<u8>, sizeMb: nat, files: seq<HostFile>) {
    && |f| >= 1048576 * sizeMb && |files| >= MAX_FILES && Superblock(f, sizeMb)
    && forall i | 0 <= i < MAX_FILES ::
         |files[i].name| <= MAX_NAME && EntryAt(f, i)[..64] == files[i].name + Zeros(64 - |files[i].name|)
  }

  lemma DirectoryFull(f: seq<u8>, bm: seq<bv8>, sizeMb: nat, files: seq<HostFile>, chains: seq<seq<nat>>)
    requires Importing(f, bm, sizeMb, files, chains) && |files| == MAX_FILES
    ensures DirFull(f, sizeMb, files)
  {
    forall i | 0 <= i < MAX_FILES
      ensures |files[i].name| <= MAX_NAME && EntryAt(f, i)[..64] == files[i].name + Zeros(64 - |files[i].name|)
    {
      assert EntryAt(f, i) == EntryBytes(files[i].name, |files[i].data|, HeadOf(chains[i]));
    }
  }

  /** Nothing outside the directory sectors disturbs a full directory. */
  lemma DirFullKept(f: seq<u8>, g: seq<u8>, sizeMb: nat, files: seq<HostFile>, more: seq<HostFile>)
    requires DirFull(f, sizeMb, files) && files <= more && |g| >= |f| && Bytes(g, 0, 8) == Bytes(f, 0, 8)
    requires forall t: nat | SEC_DIR_START <= t < SEC_DATA_START :: Sector(g, t) == Sector(f, t)
    ensures DirFull(g, sizeMb, more)
  {
    forall i | 0 <= i < MAX_FILES ensures EntryAt(g, i) == EntryAt(f, i) && more[i] == files[i] {
      EntryInSector(f, i);
      EntryInSector(g, i);
    }
  }

  /** An entry past the directory lands in data sectors. */
  lemma LateEntry(f: seq<u8>, n: nat, e: seq<u8>)
    requires |e| == DIR_ENTRY_SIZE && n >= MAX_FILES
    ensures
      var g := WriteAt(f, EntryOffset(n), e);
      && |g| >= |f| && Bytes(g, 0, 8) == Bytes(f, 0, 8)
      && forall t: nat | t < SEC_DATA_START :: Sector(g, t) == Sector(f, t)
  {
    var g := WriteAt(f, EntryOffset(n), e);
    assert EntryOffset(n) >= SECTOR_SIZE * SEC_DATA_START;
    WriteFrame(f, EntryOffset(n), e, 0, 8);
    forall t: nat | t < SEC_DATA_START ensures Sector(g, t) == Sector(f, t) {
      WriteFrame(f, EntryOffset(n), e, SECTOR_SIZE * t, SECTOR_SIZE);
    }
  }

  lemma LateFile(f: seq<u8>, g: seq<u8>, sizeMb: nat, files: seq<HostFile>, x: HostFile, secs: seq<nat>, head: nat)
    requires DirFull(f, sizeMb, files) && SameOutside(f, g, secs) && |x.name| <= MAX_NAME
    requires forall j | 0 <= j < |secs| :: secs[j] >= SEC_DATA_START
    ensures DirFull(WriteAt(g, EntryOffset(|files|), EntryBytes(x.name, |x.data|, head)), sizeMb, files + [x])
  {
    var e := EntryBytes(x.name, |x.data|, head);
    LateEntry(g, |files|, e);
    SuperblockKept(f, g, secs, |files|, e);
    DirFullKept(f, WriteAt(g, EntryOffset(|files|), e), sizeMb, files, files + [x]);
  }

  /** The files kept so far and what they left behind; past 448 entries only bitmap and directory are promised. */
  ghost predicate Progress(f: seq<u8>, bm: seq<bv8>, sizeMb: nat, files: seq<HostFile>, chains: seq<seq<nat>>) {
    && FilledTo(bm, SEC_DATA_START + TotalSectors(files))
    && (|files| <= MAX_FILES ==> Importing(f, bm, sizeMb, files, chains))
    && (|files| >= MAX_FILES ==> DirFull(f, sizeMb, files))
  }

  /** What the finished image holds: everything up to 448 files, the first 448 names beyond. */
  ghost predicate BuiltImage(f: seq<u8>, sizeMb: nat, files: seq<HostFile>, chains: seq<seq<nat>>) {
    && (|files| <= MAX_FILES ==> GoodImage(f, sizeMb, files, chains))
    && (|files| >= MAX_FILES ==> DirFull(f, sizeMb, files))
  }

  lemma FinishBuilt(f: seq<u8>, bm: seq<bv8>, sizeMb: nat, files: seq<HostFile>, chains: seq<seq<nat>>)
    requires Progress(f, bm, sizeMb, files, chains)
    ensures BuiltImage(WriteAt(f, SECTOR_SIZE * SEC_MAP_START, BitmapBytes(bm)), sizeMb, files, chains)
  {
    var g := WriteAt(f, SECTOR_SIZE * SEC_MAP_START, BitmapBytes(bm));
    if |files| <= MAX_FILES {
      FinishImage(f, bm, sizeMb, files, chains);
    }
    if |files| >= MAX_FILES {
      BitmapWritten(f, bm);
      DirFullKept(f, g, sizeMb, files, files);
    }
  }

  /** One file of an import loop: its data, then its directory entry; `false` is "Disk full". */
  method Import(img: Image, dirIdx: nat, x: HostFile, ghost sizeMb: nat, ghost files: seq<HostFile>, ghost chains: seq<seq<nat>>)
      returns (ok: bool, ghost secs: seq<nat>)
    requires Progress(img.file, img.bitmap[..], sizeMb, files, chains) && dirIdx == |files|
    requires |x.name| <= MAX_NAME
    modifies img, img.bitmap
    ensures ok ==> Progress(img.file, img.bitmap[..], sizeMb, files + [x], chains + [secs])
    ensures !ok ==> SEC_DATA_START + TotalSectors(files + [x]) > BITMAP_SECTORS
  {
    ghost var f0, b0 := img.file, img.bitmap[..];
    var head;
    head, secs := img.WriteData(x.data);
    if head.None? {
      TakenFills(b0, img.bitmap[..], SEC_DATA_START + TotalSectors(files), secs);
      TotalSnoc(files, x);
      return false, secs;
    }
    Imported(f0, img.file, b0, img.bitmap[..], sizeMb, files, chains, x, secs);
    img.WriteDirEntry(dirIdx, x.name, |x.data|, head.value);
    return true, secs;
  }

  /** A file with its entry written extends what has been imported, within the directory and beyond. */
  lemma Imported(f: seq<u8>, g: seq<u8>, b0: seq<bv8>, b1: seq<bv8>, sizeMb: nat, files: seq<HostFile>,
                 chains: seq<seq<nat>>, x: HostFile, secs: seq<nat>)
    requires Progress(f, b0, sizeMb, files, chains) && |x.name| <= MAX_NAME
    requires Taken(b0, b1, secs) && SameOutside(f, g, secs) && Stored(g, secs, x.data)
    ensures Progress(WriteAt(g, EntryOffset(|files|), EntryBytes(x.name, |x.data|, HeadOf(secs))), b1, sizeMb,
                     files + [x], chains + [secs])
  {
    var h := WriteAt(g, EntryOffset(|files|), EntryBytes(x.name, |x.data|, HeadOf(secs)));
    ImportFills(b0, b1, files, x, secs);
    if |files| < MAX_FILES {
      ImportOne(f, g, b0, b1, sizeMb, files, chains, x, secs);
      if |files| + 1 == MAX_FILES {
        DirectoryFull(h, b1, sizeMb, files + [x], chains + [secs]);
      }
    } else {
      TakenFills(b0, b1, SEC_DATA_START + TotalSectors(files), secs);
      LateFile(f, g, sizeMb, files, x, secs, HeadOf(secs));
    }
  }

  /**
    `main` and its import loops.  The build succeeds exactly when the kept files need no more
    sectors than the bitmap has left; with at most 448 of them the image is good.
  */
  method Build(sizeMb: nat, files: seq<HostFile>) returns (image: Option<seq<u8>>, ghost chains: seq<seq<nat>>)
    ensures image.Some? <==> SEC_DATA_START + TotalSectors(Kept(files)) <= BITMAP_SECTORS
    ensures image.Some? ==> BuiltImage(image.value, sizeMb, Kept(files), chains)
  {
    var f := Zeros(1048576 * sizeMb);
    f := WriteAt(f, 0, LE32(MAGIC));
    f := WriteAt(f, 4, LE32(2048 * sizeMb));
    var bitmap := ReservedBitmap();
    EmptyImage(sizeMb, bitmap[..]);
    var img := new Image(f, bitmap);
    var dirIdx := 0;
    chains := [];
    for n := 0 to |files|
      invariant fresh(bitmap) && fresh(img) && img.bitmap == bitmap
      invariant dirIdx == |Kept(files[..n])|
      invariant Progress(img.file, bitmap[..], sizeMb, Kept(files[..n]), chains)
    {
      KeptSnoc(files, n);
      if |files[n].name| <= MAX_NAME {
        var ok, secs := Import(img, dirIdx, files[n], sizeMb, Kept(files[..n]), chains);
        if !ok {
          KeptGrows(files, n + 1);
          return None, chains;
        }
        chains := chains + [secs];
        dirIdx := dirIdx + 1;
      } else {
        assert Kept(files[..n]) + [] == Kept(files[..n]);
      }
    }
    assert files[..|files|] == files;
    FinishBuilt(img.file, bitmap[..], sizeMb, Kept(files), chains);
    f := WriteAt(img.file, SECTOR_SIZE * SEC_MAP_START, BitmapBytes(bitmap[..]));
    return Some(f), chains;
  }
}
