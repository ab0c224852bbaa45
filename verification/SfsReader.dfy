/**
  The kernel's reader of SFS images, `find_entry_pos`, `find_entry` and `read_file` of
  `kernel/src/lock/state/fs.rs`, and the proof that it reads back what `Mkfs.Build` wrote.
*/
module SfsReader {
  import opened Wrappers
  import opened SfsLayout
  import Mkfs

  /** The block device: a sector past the end of the image is an error. */
  function ReadSector(f: seq<u8>, s: nat): Option<seq<u8>> {
    if SECTOR_SIZE * (s + 1) <= |f| then Some(Sector(f, s)) else None
  }

  lemma MagicBytes(b: seq<u8>)
    requires |b| == 4
    ensures FromLE32(b) == MAGIC <==> b == [0x31, 0x53, 0x46, 0x53]
  {
    var n := b[1] as nat + 256 * (b[2] as nat + 256 * b[3] as nat);
    var m := b[2] as nat + 256 * b[3] as nat;
    assert FromLE32(b) == b[0] as nat + 256 * n && n == b[1] as nat + 256 * m;
  }

  /** `FileSystemState::init`: accepts a device that starts with the magic word, and caches the first bitmap sector. */
  method Mount(f: seq<u8>) returns (bitmap: Option<seq<u8>>)
    ensures bitmap.Some? <==> |f| >= 1024 && f[..4] == [0x31, 0x53, 0x46, 0x53]
    ensures bitmap.Some? ==> bitmap.value == f[512..1024]
  {
    var buf := ReadSector(f, 0);
    if buf.None? {
      return None;
    }
    assert buf.value[..4] == f[..4];
    MagicBytes(buf.value[..4]);
    var magic := FromLE32(buf.value[..4]);
    if magic != MAGIC {
      return None;
    }
    bitmap := ReadSector(f, SEC_MAP_START);
    assert bitmap.Some? ==> bitmap.value == f[512..1024];
  }

  /** The kernel mounts every image the builder finishes, however many files it holds. */
  lemma BuiltMounts(f: seq<u8>, sizeMb: nat, files: seq<Mkfs.HostFile>, chains: seq<seq<nat>>)
    requires Mkfs.BuiltImage(f, sizeMb, files, chains) && sizeMb > 0
    ensures |f| >= 1024 && f[..4] == [0x31, 0x53, 0x46, 0x53]
  {
    assert Mkfs.Superblock(f, sizeMb);
    assert f[..4] == Bytes(f, 0, 8)[..4];
  }

  predicate Matches(e: seq<u8>, name: seq<u8>)
    requires |e| == DIR_ENTRY_SIZE
  {
    e[0] != 0 && EntryName(e) == name
  }

  /** The first directory entry from index k on that carries the name. */
  function Find(f: seq<u8>, name: seq<u8>, k: nat): (r: Option<nat>)
    ensures r.Some? ==> k <= r.value < MAX_FILES
    decreases MAX_FILES - k
  {
    if k >= MAX_FILES || ReadSector(f, SEC_DIR_START + k / ENTRIES_PER_SECTOR).None? then None
    else if Matches(EntryAt(f, k), name) then Some(k)
    else Find(f, name, k + 1)
  }

  /** Follows next pointers from a sector, collecting at most `want` bytes. */
  function ReadChain(f: seq<u8>, next: nat, want: nat): Option<seq<u8>>
    decreases want
  {
    if next == 0 || want == 0 then Some([])
    else if ReadSector(f, next).None? then None
    else
      var buf := Sector(f, next);
      var k := Min(want, PAYLOAD);
      Prepend(buf[4..4 + k], ReadChain(f, FromLE32(buf[..4]), want - k))
  }

  function Prepend(a: seq<u8>, b: Option<seq<u8>>): Option<seq<u8>> {
    if b.None? then None else Some(a + b.value)
  }

  function FileContents(f: seq<u8>, name: seq<u8>): Option<seq<u8>> {
    var at := Find(f, name, 0);
    if at.None? then None
    else
      var e := EntryAt(f, at.value);
      ReadChain(f, EntryHead(e), EntrySize(e))
  }

  lemma EntryAtPos(f: seq<u8>, i: nat, j: nat)
    requires i < SEC_DIR_COUNT && j < ENTRIES_PER_SECTOR
    ensures
      var k := i * ENTRIES_PER_SECTOR + j; var o := j * DIR_ENTRY_SIZE;
      && k < MAX_FILES && k / ENTRIES_PER_SECTOR == i && o + DIR_ENTRY_SIZE <= SECTOR_SIZE
      && EntryAt(f, k) == Sector(f, SEC_DIR_START + i)[o..o + DIR_ENTRY_SIZE]
  {
    EntryInSector(f, i * ENTRIES_PER_SECTOR + j);
  }

  lemma FindStep(f: seq<u8>, name: seq<u8>, i: nat, j: nat, buf: seq<u8>)
    requires i < SEC_DIR_COUNT && j < ENTRIES_PER_SECTOR && ReadSector(f, SEC_DIR_START + i) == Some(buf)
    ensures
      var k := i * ENTRIES_PER_SECTOR + j; var o := j * DIR_ENTRY_SIZE;
      Find(f, name, k) == if Matches(buf[o..o + DIR_ENTRY_SIZE], name) then Some(k) else Find(f, name, k + 1)
  {
    EntryAtPos(f, i, j);
  }

  /** The first of a sector's entries from j on that matches, or 7. */
  function FirstMatch(buf: seq<u8>, name: seq<u8>, j: nat): (k: nat)
    requires |buf| == SECTOR_SIZE && j <= ENTRIES_PER_SECTOR
    ensures j <= k <= ENTRIES_PER_SECTOR
    decreases ENTRIES_PER_SECTOR - j
  {
    if j == ENTRIES_PER_SECTOR then j
    else
      var o := j * DIR_ENTRY_SIZE;
      if Matches(buf[o..o + DIR_ENTRY_SIZE], name) then j else FirstMatch(buf, name, j + 1)
  }

  /** What is found from entry k on, given what the sector's remaining entries say. */
  ghost predicate FoundFrom(f: seq<u8>, name: seq<u8>, k: nat, first: nat, m: nat) {
    Find(f, name, k) == if m < ENTRIES_PER_SECTOR then Some(first + m) else Find(f, name, first + ENTRIES_PER_SECTOR)
  }

  lemma {:induction false} FindInSector(f: seq<u8>, name: seq<u8>, i: nat, first: nat, j: nat, k: nat, buf: seq<u8>)
    requires i < SEC_DIR_COUNT && j <= ENTRIES_PER_SECTOR && ReadSector(f, SEC_DIR_START + i) == Some(buf)
    requires first == i * ENTRIES_PER_SECTOR && k == first + j
    ensures FoundFrom(f, name, k, first, FirstMatch(buf, name, j))
    decreases ENTRIES_PER_SECTOR - j
  {
    if j < ENTRIES_PER_SECTOR {
      FindInSector(f, name, i, first, j + 1, k + 1, buf);
      FindNext(f, name, i, first, j, k, buf, FirstMatch(buf, name, j + 1));
    }
  }

  lemma FindNext(f: seq<u8>, name: seq<u8>, i: nat, first: nat, j: nat, k: nat, buf: seq<u8>, m: nat)
    requires i < SEC_DIR_COUNT && j < ENTRIES_PER_SECTOR && ReadSector(f, SEC_DIR_START + i) == Some(buf)
    requires first == i * ENTRIES_PER_SECTOR && k == first + j && FoundFrom(f, name, k + 1, first, m)
    ensures
      var o := j * DIR_ENTRY_SIZE;
      FoundFrom(f, name, k, first, if Matches(buf[o..o + DIR_ENTRY_SIZE], name) then j else m)
  {
    FindStep(f, name, i, j, buf);
  }

  /** The inner loop of `find_entry_pos` over one directory sector. */
  method ScanSector(f: seq<u8>, i: nat, buf: seq<u8>, name: seq<u8>, ghost first: nat) returns (k: nat)
    requires i < SEC_DIR_COUNT && ReadSector(f, SEC_DIR_START + i) == Some(buf) && first == i * ENTRIES_PER_SECTOR
    ensures k <= ENTRIES_PER_SECTOR && FoundFrom(f, name, first, first, k)
  {
    k := ScanEntries(buf, name);
    FindInSector(f, name, i, first, 0, first, buf);
  }

  method ScanEntries(buf: seq<u8>, name: seq<u8>) returns (k: nat)
    requires |buf| == SECTOR_SIZE
    ensures k == FirstMatch(buf, name, 0)
  {
    k := 0;
    while k < ENTRIES_PER_SECTOR
      invariant k <= ENTRIES_PER_SECTOR && FirstMatch(buf, name, k) == FirstMatch(buf, name, 0)
    {
      var offset := k * DIR_ENTRY_SIZE;
      if Matches(buf[offset..offset + DIR_ENTRY_SIZE], name) {
        return;
      }
      k := k + 1;
    }
  }

  /** `find_entry_pos`: scans the 64 directory sectors, seven entries each. */
  method FindEntryPos(f: seq<u8>, name: seq<u8>) returns (r: Option<(nat, nat)>)
    ensures r.None? <==> Find(f, name, 0).None?
    ensures r.Some? ==>
      r.value.1 < ENTRIES_PER_SECTOR && r.value.0 >= SEC_DIR_START &&
      Find(f, name, 0) == Some((r.value.0 - SEC_DIR_START) * ENTRIES_PER_SECTOR + r.value.1)
  {
    ghost var first, found := 0, Find(f, name, 0);
    var i := 0;
    while i < SEC_DIR_COUNT
      invariant i <= SEC_DIR_COUNT && first == i * ENTRIES_PER_SECTOR && Find(f, name, first) == found
    {
      var sector := SEC_DIR_START + i;
      var buf := ReadSector(f, sector);
      if buf.None? {
        assert first / ENTRIES_PER_SECTOR == i;
        return None;
      }
      var k := ScanSector(f, i, buf.value, name, first);
      if k < ENTRIES_PER_SECTOR {
        return Some((sector, k));
      }
      i, first := i + 1, first + ENTRIES_PER_SECTOR;
    }
    return None;
  }

  /** The loop of `read_file` over the sectors of a chain. */
  method FollowChain(f: seq<u8>, head: nat, size: nat) returns (r: Option<seq<u8>>)
    ensures r == ReadChain(f, head, size)
  {
    var data, next := [], head;
    PrependNothing(ReadChain(f, head, size));
    while next != 0 && |data| < size
      invariant |data| <= size
      invariant ReadChain(f, head, size) == Prepend(data, ReadChain(f, next, size - |data|))
      decreases size - |data|
    {
      var buf := ReadSector(f, next);
      if buf.None? {
        return None;
      }
      var chunk := Min(size - |data|, PAYLOAD);
      PrependTwice(data, buf.value[4..4 + chunk], ReadChain(f, FromLE32(buf.value[..4]), size - |data| - chunk));
      data := data + buf.value[4..4 + chunk];
      next := FromLE32(buf.value[..4]);
    }
    assert data + [] == data;
    return Some(data);
  }

  lemma PrependNothing(b: Option<seq<u8>>)
    ensures Prepend([], b) == b
  {
    if b.Some? { assert [] + b.value == b.value; }
  }

  lemma PrependTwice(a: seq<u8>, b: seq<u8>, c: Option<seq<u8>>)
    ensures Prepend(a, Prepend(b, c)) == Prepend(a + b, c)
  {
    if c.Some? { assert a + (b + c.value) == a + b + c.value; }
  }

  /** The second half of `find_entry`: reads the entry at a position that `find_entry_pos` reported. */
  lemma EntryReadable(f: seq<u8>, name: seq<u8>, i: nat, j: nat)
    requires j < ENTRIES_PER_SECTOR && Find(f, name, 0) == Some(i * ENTRIES_PER_SECTOR + j)
    ensures ReadSector(f, SEC_DIR_START + i).Some? && j * DIR_ENTRY_SIZE + DIR_ENTRY_SIZE <= SECTOR_SIZE
    ensures EntryAt(f, i * ENTRIES_PER_SECTOR + j) ==
            ReadSector(f, SEC_DIR_START + i).value[j * DIR_ENTRY_SIZE..j * DIR_ENTRY_SIZE + DIR_ENTRY_SIZE]
  {
    FoundReadable(f, name, i * ENTRIES_PER_SECTOR + j);
    EntryAtPos(f, i, j);
  }

  lemma FoundReadable(f: seq<u8>, name: seq<u8>, k: nat)
    requires Find(f, name, 0) == Some(k)
    ensures k < MAX_FILES && ReadSector(f, SEC_DIR_START + k / ENTRIES_PER_SECTOR).Some?
  {
    FindReadable(f, name, 0);
  }

  method ReadEntry(f: seq<u8>, ghost name: seq<u8>, sec: nat, idx: nat) returns (e: Option<seq<u8>>)
    requires idx < ENTRIES_PER_SECTOR && sec >= SEC_DIR_START
    requires Find(f, name, 0) == Some((sec - SEC_DIR_START) * ENTRIES_PER_SECTOR + idx)
    ensures e == Some(EntryAt(f, Find(f, name, 0).value))
  {
    EntryReadable(f, name, sec - SEC_DIR_START, idx);
    var buf := ReadSector(f, sec);
    if buf.None? {
      return None;
    }
    e := Some(buf.value[idx * DIR_ENTRY_SIZE..idx * DIR_ENTRY_SIZE + DIR_ENTRY_SIZE]);
  }

  /** `read_file`: looks the name up and copies its chain, cut to the recorded size. */
  method ReadFile(f: seq<u8>, name: seq<u8>) returns (r: Option<seq<u8>>)
    ensures r == FileContents(f, name)
  {
    var pos := FindEntryPos(f, name);
    if pos.None? {
      return None;
    }
    var (sec, idx) := pos.value;
    var e := ReadEntry(f, name, sec, idx);
    if e.None? {
      return None;
    }
    r := FollowChain(f, EntryHead(e.value), EntrySize(e.value));
  }

  lemma {:induction false} FindReadable(f: seq<u8>, name: seq<u8>, k: nat)
    requires Find(f, name, k).Some?
    ensures ReadSector(f, SEC_DIR_START + Find(f, name, k).value / ENTRIES_PER_SECTOR).Some?
    decreases MAX_FILES - k
  {
    if !Matches(EntryAt(f, k), name) { FindReadable(f, name, k + 1); }
  }

  // ---------------------------------------------------------------- reading back

  /** The first host file with the name. */
  function HostLookup(files: seq<Mkfs.HostFile>, name: seq<u8>): Option<seq<u8>> {
    if files == [] then None
    else if files[0].name == name then Some(files[0].data)
    else HostLookup(files[1..], name)
  }

  /** Reading from a sector yields its chunk, then what its successor yields. */
  lemma ReadDataSector(f: seq<u8>, s: nat, next: nat, chunk: seq<u8>, rest: seq<u8>)
    requires ReadSector(f, s).Some? && s > 0 && next < 0x1_0000_0000
    requires 0 < |chunk| == Min(|chunk| + |rest|, PAYLOAD) && Sector(f, s) == DataSector(next, chunk)
    requires ReadChain(f, next, |rest|) == Some(rest)
    ensures ReadChain(f, s, |chunk + rest|) == Some(chunk + rest)
  {
    var buf := Sector(f, s);
    assert buf[..4] == LE32(next);
    assert buf[4..4 + |chunk|] == chunk;
    LE32RoundTrip(next);
  }

  /** The chain from sector number j of a file on reads back the file's bytes from there on. */
  ghost predicate ReadsFrom(f: seq<u8>, s: nat, data: seq<u8>) { ReadChain(f, s, |data|) == Some(data) }

  lemma StoredSector(f: seq<u8>, secs: seq<nat>, data: seq<u8>, j: nat)
    requires Mkfs.Stored(f, secs, data) && j < |secs|
    requires forall i | 0 <= i < |secs| :: 0 < secs[i] < 0x1_0000_0000
    requires ReadsFrom(f, NextOf(secs, j), Rest(data, j + 1))
    ensures ReadsFrom(f, secs[j], Rest(data, j))
  {
    RestSplit(data, j);
    ReadDataSector(f, secs[j], NextOf(secs, j), Chunk(data, j), Rest(data, j + 1));
  }

  lemma ChainEnd(f: seq<u8>, secs: seq<nat>, data: seq<u8>)
    requires Mkfs.Stored(f, secs, data)
    ensures ReadsFrom(f, 0, Rest(data, |secs|))
  {
    RestSplit(data, |secs|);
  }

  lemma {:induction false} ChainReadsFrom(f: seq<u8>, secs: seq<nat>, data: seq<u8>, j: nat)
    requires Mkfs.Stored(f, secs, data) && j < |secs|
    requires forall i | 0 <= i < |secs| :: 0 < secs[i] < 0x1_0000_0000
    ensures ReadsFrom(f, secs[j], Rest(data, j))
    decreases |secs| - j
  {
    if j + 1 < |secs| {
      ChainReadsFrom(f, secs, data, j + 1);
    } else {
      ChainEnd(f, secs, data);
    }
    StoredSector(f, secs, data, j);
  }

  lemma {:induction false} IncreasingBound(secs: seq<nat>, n: nat, k: nat)
    requires k <= |secs| && forall j | 0 <= j < |secs| :: secs[j] < n
    requires forall i, j | 0 <= i < j < |secs| :: secs[i] < secs[j]
    ensures k <= n && forall j | 0 <= j < k :: secs[j] >= j
  {
    if k > 0 {
      IncreasingBound(secs, n, k - 1);
      assert secs[k - 1] < n && (k > 1 ==> secs[k - 2] < secs[k - 1]);
    }
  }

  /** A stored file is small enough for its 32-bit size field. */
  lemma SizeFits(bm: seq<bv8>, chains: seq<seq<nat>>, i: nat, n: nat)
    requires Mkfs.Allocated(bm, chains) && i < |chains| && |chains[i]| == SectorsFor(n)
    ensures n < 0x1_0000_0000 && HeadOf(chains[i]) < 0x1_0000_0000
    ensures forall j | 0 <= j < |chains[i]| :: 0 < chains[i][j] < 0x1_0000_0000
  {
    IncreasingBound(chains[i], BITMAP_SECTORS, |chains[i]|);
  }

  ghost predicate PlainNames(files: seq<Mkfs.HostFile>) {
    forall i | 0 <= i < |files| :: files[i].name != [] && forall j | 0 <= j < |files[i].name| :: files[i].name[j] != 0
  }

  /** Entry k matches exactly the name of file k. */
  lemma EntryMatches(f: seq<u8>, sizeMb: nat, files: seq<Mkfs.HostFile>, chains: seq<seq<nat>>, name: seq<u8>, k: nat)
    requires Mkfs.GoodImage(f, sizeMb, files, chains) && PlainNames(files) && k < MAX_FILES
    ensures Matches(EntryAt(f, k), name) <==> k < |files| && files[k].name == name
    ensures k < |files| ==>
      EntrySize(EntryAt(f, k)) == |files[k].data| && EntryHead(EntryAt(f, k)) == HeadOf(chains[k])
  {
    if k < |files| {
      assert Mkfs.Stored(f, chains[k], files[k].data);
      SizeFits(Mkfs.DiskBitmap(f), chains, k, |files[k].data|);
      EntryRoundTrip(files[k].name, |files[k].data|, HeadOf(chains[k]));
    } else {
      assert EntryAt(f, k)[0] == ByteAt(f, EntryOffset(k));
    }
  }

  /** The directory of f lists exactly the names of files, in order. */
  ghost predicate Lists(f: seq<u8>, files: seq<Mkfs.HostFile>, name: seq<u8>) {
    forall k | 0 <= k < MAX_FILES :: Matches(EntryAt(f, k), name) <==> k < |files| && files[k].name == name
  }

  /** From entry k on, the kernel's search and a search of the host list agree. */
  lemma {:induction false} FindAgrees(f: seq<u8>, files: seq<Mkfs.HostFile>, name: seq<u8>, k: nat)
    requires Lists(f, files, name) && |files| <= MAX_FILES && |f| >= 1048576 && k <= MAX_FILES
    ensures
      var at := Find(f, name, k);
      var found := if k < |files| then HostLookup(files[k..], name) else None;
      if at.None? then found.None? else at.value < |files| && found == Some(files[at.value].data)
    decreases MAX_FILES - k
  {
    if k < MAX_FILES {
      FindAgrees(f, files, name, k + 1);
      if k < |files| { assert files[k..][1..] == files[k + 1..]; }
    }
  }

  lemma DirectoryLists(f: seq<u8>, sizeMb: nat, files: seq<Mkfs.HostFile>, chains: seq<seq<nat>>, name: seq<u8>)
    requires Mkfs.GoodImage(f, sizeMb, files, chains) && PlainNames(files)
    ensures Lists(f, files, name)
  {
    forall k | 0 <= k < MAX_FILES
      ensures Matches(EntryAt(f, k), name) <==> k < |files| && files[k].name == name
    {
      EntryMatches(f, sizeMb, files, chains, name, k);
    }
  }

  /** Following entry i yields file i. */
  lemma EntryReads(f: seq<u8>, sizeMb: nat, files: seq<Mkfs.HostFile>, chains: seq<seq<nat>>, i: nat)
    requires Mkfs.GoodImage(f, sizeMb, files, chains) && PlainNames(files) && i < |files|
    ensures var e := EntryAt(f, i); ReadChain(f, EntryHead(e), EntrySize(e)) == Some(files[i].data)
  {
    var data, secs := files[i].data, chains[i];
    EntryMatches(f, sizeMb, files, chains, [], i);
    assert Mkfs.Stored(f, secs, data);
    SizeFits(Mkfs.DiskBitmap(f), chains, i, |data|);
    WholeChain(f, secs, data);
  }

  lemma WholeChain(f: seq<u8>, secs: seq<nat>, data: seq<u8>)
    requires Mkfs.Stored(f, secs, data)
    requires forall i | 0 <= i < |secs| :: 0 < secs[i] < 0x1_0000_0000
    ensures ReadChain(f, HeadOf(secs), |data|) == Some(data)
  {
    assert Rest(data, 0) == data;
    if secs != [] { ChainReadsFrom(f, secs, data, 0); }
  }

  /**
    Round trip: for every image the builder finishes and every name, the kernel's read_file
    returns exactly what looking the name up in the imported files gives, bytes and all, or
    nothing when no file carries it.
  */
  lemma KernelReadsBack(f: seq<u8>, sizeMb: nat, files: seq<Mkfs.HostFile>, chains: seq<seq<nat>>, name: seq<u8>)
    requires Mkfs.GoodImage(f, sizeMb, files, chains) && PlainNames(files) && sizeMb > 0
    ensures FileContents(f, name) == HostLookup(files, name)
  {
    DirectoryLists(f, sizeMb, files, chains, name);
    FindAgrees(f, files, name, 0);
    assert files[0..] == files;
    var at := Find(f, name, 0);
    if at.Some? { EntryReads(f, sizeMb, files, chains, at.value); }
  }

  // ---------------------------------------------------------------- more than 448 files

  lemma FullDirectoryLists(f: seq<u8>, sizeMb: nat, files: seq<Mkfs.HostFile>, name: seq<u8>)
    requires Mkfs.DirFull(f, sizeMb, files) && PlainNames(files)
    ensures Lists(f, files[..MAX_FILES], name)
  {
    forall k | 0 <= k < MAX_FILES ensures Matches(EntryAt(f, k), name) <==> files[k].name == name {
      NamedEntry(EntryAt(f, k), files[k].name, name);
    }
  }

  /** An entry with a zero-padded name matches that name only. */
  lemma NamedEntry(e: seq<u8>, own: seq<u8>, name: seq<u8>)
    requires |e| == DIR_ENTRY_SIZE && 0 < |own| <= MAX_NAME && forall j | 0 <= j < |own| :: own[j] != 0
    requires e[..64] == own + Zeros(64 - |own|)
    ensures Matches(e, name) <==> own == name
  {
    var field := e[..64];
    assert forall j | 0 <= j < |own| :: field[j] == own[j];
    assert field[|own|] == 0;
    NameLenUnique(field, |own|);
    assert e[..|own|] == own && e[0] == field[0];
  }

  /** None of the first 448 files has the name. */
  ghost predicate Unlisted(files: seq<Mkfs.HostFile>, name: seq<u8>)
    requires |files| >= MAX_FILES
  {
    forall i | 0 <= i < MAX_FILES :: files[i].name != name
  }

  /** With 448 files or more the kernel finds nothing but the first 448 names. */
  lemma BeyondDirectory(f: seq<u8>, sizeMb: nat, files: seq<Mkfs.HostFile>, name: seq<u8>)
    requires Mkfs.DirFull(f, sizeMb, files) && PlainNames(files) && sizeMb > 0
    requires Unlisted(files, name)
    ensures FileContents(f, name) == None
  {
    FullDirectoryLists(f, sizeMb, files, name);
    if Find(f, name, 0).Some? {
      FindMatches(f, name, 0);
    }
  }

  lemma {:induction false} FindMatches(f: seq<u8>, name: seq<u8>, k: nat)
    requires Find(f, name, k).Some?
    ensures Matches(EntryAt(f, Find(f, name, k).value), name)
    decreases MAX_FILES - k
  {
    if !Matches(EntryAt(f, k), name) {
      FindMatches(f, name, k + 1);
    }
  }

  ghost predicate DistinctNames(files: seq<Mkfs.HostFile>) {
    forall i, j | 0 <= i < j < |files| :: files[i].name != files[j].name
  }

  lemma {:induction false} LookupAt(files: seq<Mkfs.HostFile>, k: nat)
    requires k < |files| && DistinctNames(files)
    ensures HostLookup(files, files[k].name) == Some(files[k].data)
  {
    if k > 0 {
      LookupAt(files[1..], k - 1);
    }
  }

  ghost predicate ReadsBack(f: seq<u8>, files: seq<Mkfs.HostFile>) {
    forall name :: FileContents(f, name) == HostLookup(files, name)
  }

  /** Reading back works for every name exactly up to 448 files: the 449th is not found. */
  lemma ReadBackExact(f: seq<u8>, sizeMb: nat, files: seq<Mkfs.HostFile>, chains: seq<seq<nat>>)
    requires Mkfs.BuiltImage(f, sizeMb, files, chains) && PlainNames(files) && DistinctNames(files) && sizeMb > 0
    ensures ReadsBack(f, files) <==> |files| <= MAX_FILES
    ensures |files| > MAX_FILES ==> FileContents(f, files[MAX_FILES].name) == None
  {
    if |files| <= MAX_FILES {
      forall name ensures FileContents(f, name) == HostLookup(files, name) {
        KernelReadsBack(f, sizeMb, files, chains, name);
      }
    } else {
      BeyondDirectory(f, sizeMb, files, files[MAX_FILES].name);
      LookupAt(files, MAX_FILES);
    }
  }

  /** Builder and kernel together: build an image of the files, mount it, then read one name from it. */
  method BuildAndRead(sizeMb: nat, files: seq<Mkfs.HostFile>, name: seq<u8>) returns (r: Option<Option<seq<u8>>>)
    requires sizeMb > 0 && PlainNames(Mkfs.Kept(files))
    ensures r.Some? <==> SEC_DATA_START + Mkfs.TotalSectors(Mkfs.Kept(files)) <= BITMAP_SECTORS
    ensures r.Some? && |Mkfs.Kept(files)| <= MAX_FILES ==> r.value == HostLookup(Mkfs.Kept(files), name)
    ensures r.Some? && |Mkfs.Kept(files)| > MAX_FILES && Unlisted(Mkfs.Kept(files), name) ==> r.value == None
  {
    var image, chains := Mkfs.Build(sizeMb, files);
    if image.None? {
      return None;
    }
    ghost var kept := Mkfs.Kept(files);
    BuiltMounts(image.value, sizeMb, kept, chains);
    var bitmap := Mount(image.value);
    if bitmap.None? {
      return None;
    }
    if |kept| <= MAX_FILES {
      KernelReadsBack(image.value, sizeMb, kept, chains, name);
    } else if Unlisted(kept, name) {
      BeyondDirectory(image.value, sizeMb, kept, name);
    }
    var contents := ReadFile(image.value, name);
    r := Some(contents);
  }

  /** A 449th file would be recorded on top of the first data sector. */
  lemma DirectoryOverflow(f: seq<u8>, e: seq<u8>)
    requires |e| == DIR_ENTRY_SIZE
    ensures Sector(WriteAt(f, EntryOffset(MAX_FILES), e), SEC_DATA_START)[..DIR_ENTRY_SIZE] == e
  {
    var g := WriteAt(f, EntryOffset(MAX_FILES), e);
    WriteFrame(f, EntryOffset(MAX_FILES), e, 0, 0);
    SubBytes(g, SECTOR_SIZE * SEC_DATA_START, SECTOR_SIZE, 0, DIR_ENTRY_SIZE);
  }
}
