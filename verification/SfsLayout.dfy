/**
  On-disk layout of the Simple File System shared by the image builder
  (`mkfs/src/main.rs`) and the kernel (`kernel/src/lock/state/fs.rs`).

  An image is a byte sequence; bytes past its end read as zero, which is what a sparse
  file extended by a later write yields.
*/
module SfsLayout {
  newtype u8 = x: int | 0 <= x < 256

  const SECTOR_SIZE: nat := 512
  const PAYLOAD: nat := 508
  const MAGIC: nat := 0x53465331
  const SEC_MAP_START: nat := 1
  const SEC_MAP_COUNT: nat := 64
  const SEC_DIR_START: nat := 65
  const SEC_DIR_COUNT: nat := 64
  const SEC_DATA_START: nat := 129
  const DIR_ENTRY_SIZE: nat := 72
  const ENTRIES_PER_SECTOR: nat := 7
  const MAX_NAME: nat := 63
  const MAX_FILES: nat := 448
  const BITMAP_SECTORS: nat := 262144

  function Min(a: nat, b: nat): nat { if a < b then a else b }

  // ---------------------------------------------------------------- bytes of an image

  function ByteAt(f: seq<u8>, i: nat): u8 { if i < |f| then f[i] else 0 }

  function Bytes(f: seq<u8>, off: nat, n: nat): (r: seq<u8>)
    ensures |r| == n
    ensures forall i | 0 <= i < n :: r[i] == ByteAt(f, off + i)
  {
    seq(n, i requires 0 <= i => ByteAt(f, off + i))
  }

  function Zeros(n: nat): seq<u8> { seq(n, _ => 0) }

  function Sector(f: seq<u8>, s: nat): (r: seq<u8>)
    ensures |r| == SECTOR_SIZE
  {
    Bytes(f, SECTOR_SIZE * s, SECTOR_SIZE)
  }

  /** Seek and write_all: overwrites in place, extending the file when needed. */
  function WriteAt(f: seq<u8>, off: nat, d: seq<u8>): (g: seq<u8>)
    ensures |g| == if |f| < off + |d| then off + |d| else |f|
    ensures forall i: nat :: ByteAt(g, i) == if off <= i < off + |d| then d[i - off] else ByteAt(f, i)
  {
    var p := if |f| < off + |d| then f + Zeros(off + |d| - |f|) else f;
    p[..off] + d + p[off + |d|..]
  }

  /** A write changes exactly the range it names. */
  lemma WriteFrame(f: seq<u8>, off: nat, d: seq<u8>, o: nat, n: nat)
    ensures Bytes(WriteAt(f, off, d), off, |d|) == d
    ensures o + n <= off || off + |d| <= o ==> Bytes(WriteAt(f, off, d), o, n) == Bytes(f, o, n)
  {
  }

  /** Writing a whole sector changes that sector and no other. */
  lemma SectorWrite(f: seq<u8>, s: nat, d: seq<u8>)
    requires |d| == SECTOR_SIZE
    ensures forall t: nat :: Sector(WriteAt(f, s * SECTOR_SIZE, d), t) == if t == s then d else Sector(f, t)
  {
    forall t: nat ensures Sector(WriteAt(f, s * SECTOR_SIZE, d), t) == if t == s then d else Sector(f, t) {
      WriteFrame(f, s * SECTOR_SIZE, d, t * SECTOR_SIZE, SECTOR_SIZE);
    }
  }

  /** Consecutive write_all calls after one seek write the concatenation. */
  lemma WriteJoin(f: seq<u8>, off: nat, a: seq<u8>, b: seq<u8>)
    ensures WriteAt(WriteAt(f, off, a), off + |a|, b) == WriteAt(f, off, a + b)
  {
    var g, h := WriteAt(WriteAt(f, off, a), off + |a|, b), WriteAt(f, off, a + b);
    assert |g| == |h|;
    forall i | 0 <= i < |g| ensures g[i] == h[i] {
      assert g[i] == ByteAt(g, i) && h[i] == ByteAt(h, i);
    }
  }

  lemma SubBytes(f: seq<u8>, off: nat, n: nat, o: nat, k: nat)
    requires o + k <= n
    ensures Bytes(f, off, n)[o..o + k] == Bytes(f, off + o, k)
  {
  }

  // ---------------------------------------------------------------- little-endian words

  function LE32(n: nat): (r: seq<u8>)
    ensures |r| == 4
  {
    [(n % 256) as u8, (n / 256 % 256) as u8, (n / 256 / 256 % 256) as u8, (n / 256 / 256 / 256 % 256) as u8]
  }

  function FromLE32(b: seq<u8>): (n: nat)
    requires |b| == 4
    ensures n < 0x1_0000_0000
  {
    b[0] as nat + 256 * (b[1] as nat + 256 * (b[2] as nat + 256 * b[3] as nat))
  }

  lemma LE32RoundTrip(n: nat)
    requires n < 0x1_0000_0000
    ensures FromLE32(LE32(n)) == n
  {
    var a := n / 256;
    var b := a / 256;
    assert b / 256 < 256;
  }

  // ---------------------------------------------------------------- sector chains

  /** A data sector: next pointer, payload, zero padding. */
  function DataSector(next: nat, chunk: seq<u8>): (r: seq<u8>)
    requires |chunk| <= PAYLOAD
    ensures |r| == SECTOR_SIZE
  {
    LE32(next) + chunk + Zeros(PAYLOAD - |chunk|)
  }

  /** The j-th 508-byte piece of a file. */
  function Chunk(data: seq<u8>, j: nat): (r: seq<u8>)
    ensures |r| <= PAYLOAD
  {
    data[Min(PAYLOAD * j, |data|)..Min(PAYLOAD * (j + 1), |data|)]
  }

  /** Number of sectors of a file of n bytes: n / 508 rounded up. */
  function SectorsFor(n: nat): nat { (n + PAYLOAD - 1) / PAYLOAD }

  /** What is left of a file after n sectors. */
  function Rest(data: seq<u8>, n: nat): seq<u8> { data[Min(PAYLOAD * n, |data|)..] }

  lemma ChunkRest(data: seq<u8>, n: nat)
    ensures var r := Rest(data, n); var k := Min(|r|, PAYLOAD); r[..k] == Chunk(data, n) && r[k..] == Rest(data, n + 1)
    ensures Rest(data, n) != [] <==> n < SectorsFor(|data|)
  {
  }

  lemma RestSplit(data: seq<u8>, n: nat)
    ensures Rest(data, n) == Chunk(data, n) + Rest(data, n + 1)
    ensures |Chunk(data, n)| == Min(|Rest(data, n)|, PAYLOAD)
    ensures |Rest(data, n)| > 0 <==> n < SectorsFor(|data|)
  {
    var r := Rest(data, n);
    var k := Min(|r|, PAYLOAD);
    ChunkRest(data, n);
    assert r == r[..k] + r[k..];
  }

  function NextOf(secs: seq<nat>, j: nat): nat { if j + 1 < |secs| then secs[j + 1] else 0 }

  function HeadOf(secs: seq<nat>): nat { if |secs| > 0 then secs[0] else 0 }

  /** The sectors hold the data, linked in order and ended by 0. */
  ghost predicate ChainHolds(f: seq<u8>, secs: seq<nat>, data: seq<u8>) {
    && |secs| == SectorsFor(|data|)
    && forall j | 0 <= j < |secs| :: Sector(f, secs[j]) == DataSector(NextOf(secs, j), Chunk(data, j))
  }

  lemma ChainFrame(f: seq<u8>, g: seq<u8>, secs: seq<nat>, data: seq<u8>)
    requires ChainHolds(f, secs, data)
    requires forall j | 0 <= j < |secs| :: Sector(g, secs[j]) == Sector(f, secs[j])
    ensures ChainHolds(g, secs, data)
  {
  }

  // ---------------------------------------------------------------- directory entries

  /** Entries never cross a sector boundary: seven to a sector. */
  function EntryOffset(idx: nat): nat {
    (SEC_DIR_START + idx / ENTRIES_PER_SECTOR) * SECTOR_SIZE + (idx % ENTRIES_PER_SECTOR) * DIR_ENTRY_SIZE
  }

  function EntryBytes(name: seq<u8>, size: nat, head: nat): (r: seq<u8>)
    requires |name| <= 64
    ensures |r| == DIR_ENTRY_SIZE
  {
    name + Zeros(64 - |name|) + LE32(size) + LE32(head)
  }

  function EntryAt(f: seq<u8>, idx: nat): (r: seq<u8>)
    ensures |r| == DIR_ENTRY_SIZE
  {
    Bytes(f, EntryOffset(idx), DIR_ENTRY_SIZE)
  }

  /** The name field up to its first zero byte, or all 64 bytes. */
  function NameLen(field: seq<u8>): (n: nat)
    ensures n <= |field|
    ensures forall i | 0 <= i < n :: field[i] != 0
    ensures n < |field| ==> field[n] == 0
  {
    if field == [] || field[0] == 0 then 0 else 1 + NameLen(field[1..])
  }

  lemma NameLenUnique(field: seq<u8>, n: nat)
    requires n < |field| && field[n] == 0
    requires forall i | 0 <= i < n :: field[i] != 0
    ensures NameLen(field) == n
  {
  }

  function EntryName(e: seq<u8>): seq<u8>
    requires |e| == DIR_ENTRY_SIZE
  {
    e[..NameLen(e[..64])]
  }

  function EntrySize(e: seq<u8>): nat
    requires |e| == DIR_ENTRY_SIZE
  {
    FromLE32(e[64..68])
  }

  function EntryHead(e: seq<u8>): nat
    requires |e| == DIR_ENTRY_SIZE
  {
    FromLE32(e[68..72])
  }

  /** Decoding an encoded entry gives back its three fields. */
  lemma EntryRoundTrip(name: seq<u8>, size: nat, head: nat)
    requires |name| <= MAX_NAME && forall i | 0 <= i < |name| :: name[i] != 0
    requires size < 0x1_0000_0000 && head < 0x1_0000_0000
    ensures
      var e := EntryBytes(name, size, head);
      EntryName(e) == name && EntrySize(e) == size && EntryHead(e) == head
  {
    var e := EntryBytes(name, size, head);
    assert e[64..68] == LE32(size) && e[68..72] == LE32(head);
    LE32RoundTrip(size);
    LE32RoundTrip(head);
    assert e[..64] == name + Zeros(64 - |name|);
    NameLenUnique(e[..64], |name|);
    assert e[..|name|] == name;
  }

  /** An entry stays inside the directory area exactly when its index is below 448. */
  lemma EntryInDirectory(idx: nat)
    ensures idx < MAX_FILES <==> EntryOffset(idx) + DIR_ENTRY_SIZE <= SECTOR_SIZE * SEC_DATA_START
    ensures EntryOffset(idx) >= SECTOR_SIZE * SEC_DIR_START
  {
  }

  lemma EntriesDisjoint(i: nat, j: nat)
    requires i < j
    ensures EntryOffset(i) + DIR_ENTRY_SIZE <= EntryOffset(j)
  {
    if i / 7 == j / 7 { assert i % 7 < j % 7; }
  }

  /** An entry is a slice of its directory sector. */
  lemma EntryInSector(f: seq<u8>, idx: nat)
    ensures
      var t := SEC_DIR_START + idx / ENTRIES_PER_SECTOR; var o := idx % ENTRIES_PER_SECTOR * DIR_ENTRY_SIZE;
      && o + DIR_ENTRY_SIZE <= SECTOR_SIZE
      && EntryAt(f, idx) == Sector(f, t)[o..o + DIR_ENTRY_SIZE]
      && ByteAt(f, EntryOffset(idx)) == Sector(f, t)[o]
  {
    var t, o := SEC_DIR_START + idx / ENTRIES_PER_SECTOR, idx % ENTRIES_PER_SECTOR * DIR_ENTRY_SIZE;
    SubBytes(f, SECTOR_SIZE * t, SECTOR_SIZE, o, DIR_ENTRY_SIZE);
    assert SECTOR_SIZE * t + o == EntryOffset(idx);
  }

  /** Writing entry n of the directory leaves every other entry and every data sector alone. */
  lemma EntryWrite(f: seq<u8>, n: nat, e: seq<u8>)
    requires |e| == DIR_ENTRY_SIZE && n < MAX_FILES
    ensures
      var g := WriteAt(f, EntryOffset(n), e);
      && EntryAt(g, n) == e
      && (forall i: nat | i != n :: EntryAt(g, i) == EntryAt(f, i) && ByteAt(g, EntryOffset(i)) == ByteAt(f, EntryOffset(i)))
      && (forall t: nat | t >= SEC_DATA_START || t < SEC_DIR_START :: Sector(g, t) == Sector(f, t))
  {
    var g := WriteAt(f, EntryOffset(n), e);
    EntryInDirectory(n);
    WriteFrame(f, EntryOffset(n), e, 0, 0);
    forall i: nat | i != n
      ensures EntryAt(g, i) == EntryAt(f, i) && ByteAt(g, EntryOffset(i)) == ByteAt(f, EntryOffset(i))
    {
      if i < n { EntriesDisjoint(i, n); } else { EntriesDisjoint(n, i); }
      WriteFrame(f, EntryOffset(n), e, EntryOffset(i), DIR_ENTRY_SIZE);
    }
    forall t: nat | t >= SEC_DATA_START || t < SEC_DIR_START ensures Sector(g, t) == Sector(f, t) {
      WriteFrame(f, EntryOffset(n), e, SECTOR_SIZE * t, SECTOR_SIZE);
    }
  }
}
