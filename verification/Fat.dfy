/** Reading files and directories of a FAT32 volume. The disk is a map from sectors to their
    bytes, None where the drive reports an error; the allocation table is an input. */
module Fat {
  import opened Words
  import opened Division

  const SECTOR: nat := 512
  const RECORD: nat := 32
  const PER_SECTOR: nat := 16       // directory records in a sector
  const END_OF_CHAIN: nat := 0xFF_FFFF

  type Bytes = s: seq<bv8> | |s| == SECTOR witness seq(SECTOR, _ => 0)
  type Disk = nat -> Option<Bytes>

  datatype Volume = Volume(sectorsPerCluster: nat, dataStart: nat, fat: nat -> nat)
  datatype File = File(cluster: nat, size: nat, directory: bool)

  predicate Usable(v: Volume) {
    0 < v.sectorsPerCluster < 256 && v.dataStart < WORD
  }

  /** cluster_to_sector, in 32-bit arithmetic. */
  function ClusterToSector(v: Volume, cluster: nat): (r: nat) {
    (v.dataStart + (cluster - 2) * v.sectorsPerCluster) % WORD
  }

  function SectorOf(v: Volume, cluster: nat, i: nat): (r: nat) {
    (ClusterToSector(v, cluster) + i) % WORD
  }

  /** The table entry without its top byte. */
  function Next(v: Volume, cluster: nat): (r: nat) {
    v.fat(cluster) % 0x100_0000
  }

  // ---- what a chain holds ----

  /** The cluster that holds sector t of the chain's clusters laid end to end, and the
      sector's place in it; None if the chain is not that long. */
  function Locate(v: Volume, cluster: nat, t: nat): (r: Option<(nat, nat)>)
    requires Usable(v)
    decreases t
  {
    if t < v.sectorsPerCluster then Some((cluster, t))
    else if Next(v, cluster) == END_OF_CHAIN then None
    else Locate(v, Next(v, cluster), t - v.sectorsPerCluster)
  }

  /** Sector t of the chain. */
  function ChainSector(v: Volume, disk: Disk, cluster: nat, t: nat): (r: Option<Bytes>)
    requires Usable(v)
  {
    match Locate(v, cluster, t)
    case None => None
    case Some((c, i)) => disk(SectorOf(v, c, i))
  }

  /** Byte `pos` of the chain. */
  function ByteAt(v: Volume, disk: Disk, cluster: nat, pos: nat): (r: Option<bv8>)
    requires Usable(v)
  {
    match ChainSector(v, disk, cluster, pos / SECTOR)
    case None => None
    case Some(s) => Some(s[pos % SECTOR])
  }

  /** Past the end of a chain there is nothing more. */
  lemma {:induction false} EndsOnce(v: Volume, cluster: nat, t: nat, u: nat)
    requires Usable(v) && Locate(v, cluster, t) == None && t <= u
    ensures Locate(v, cluster, u) == None
    decreases t
  {
    if Next(v, cluster) != END_OF_CHAIN {
      EndsOnce(v, Next(v, cluster), t - v.sectorsPerCluster, u - v.sectorsPerCluster);
    }
  }

  lemma SectorByte(v: Volume, disk: Disk, cluster: nat, t: nat, b: nat, pos: nat)
    requires Usable(v) && b < SECTOR && pos == t * SECTOR + b
    ensures ByteAt(v, disk, cluster, pos) ==
      match ChainSector(v, disk, cluster, t) case None => None case Some(s) => Some(s[b])
  {
    assert pos / SECTOR == t && pos % SECTOR == b;
  }

  // ---- reading a file ----

  ghost predicate ReachedAt(v: Volume, first: nat, skipped: nat, cluster: nat, t: nat)
    requires Usable(v)
  {
    Locate(v, first, skipped + t) == Locate(v, cluster, t)
  }

  /** From cluster `cluster` on the chain is what it is from `skipped` sectors on. */
  ghost predicate Reached(v: Volume, first: nat, skipped: nat, cluster: nat)
    requires Usable(v)
  {
    forall t: nat {:trigger ReachedAt(v, first, skipped, cluster, t)} :: ReachedAt(v, first, skipped, cluster, t)
  }

  lemma ReachedStart(v: Volume, first: nat)
    requires Usable(v)
    ensures Reached(v, first, 0, first)
  {
    forall t: nat ensures ReachedAt(v, first, 0, first, t) {
    }
  }

  lemma ReachedNext(v: Volume, first: nat, skipped: nat, cluster: nat)
    requires Usable(v) && Reached(v, first, skipped, cluster) && Next(v, cluster) != END_OF_CHAIN
    ensures Reached(v, first, skipped + v.sectorsPerCluster, Next(v, cluster))
  {
    var n, next := skipped + v.sectorsPerCluster, Next(v, cluster);
    forall t: nat ensures ReachedAt(v, first, n, next, t) {
      assert ReachedAt(v, first, skipped, cluster, v.sectorsPerCluster + t);
    }
  }

  lemma ReachedEnd(v: Volume, first: nat, skipped: nat, cluster: nat, t: nat)
    requires Usable(v) && Reached(v, first, skipped, cluster) && Next(v, cluster) == END_OF_CHAIN
      && skipped + v.sectorsPerCluster <= t
    ensures Locate(v, first, t) == None
  {
    assert ReachedAt(v, first, skipped, cluster, t - skipped);
  }

  lemma ReachedByte(v: Volume, disk: Disk, first: nat, skipped: nat, cluster: nat, pos: nat, whole: nat)
    requires Usable(v) && Reached(v, first, skipped, cluster) && whole == skipped * SECTOR + pos
    ensures ByteAt(v, disk, first, whole) == ByteAt(v, disk, cluster, pos)
  {
    assert whole / SECTOR == skipped + pos / SECTOR && whole % SECTOR == pos % SECTOR;
    assert ReachedAt(v, first, skipped, cluster, pos / SECTOR);
  }

  /** The cluster that holds byte `offset`, and the byte's place in it. */
  method Advance(v: Volume, first: nat, offset: nat) returns (found: bool, cluster: nat, at: nat, ghost skipped: nat)
    requires Usable(v)
    ensures found ==>
      at < v.sectorsPerCluster * SECTOR && skipped * SECTOR + at == offset && Reached(v, first, skipped, cluster)
    ensures !found ==> Locate(v, first, offset / SECTOR) == None
  {
    var size := v.sectorsPerCluster * SECTOR;
    Quotient(offset, size);
    var advance := offset / size;
    cluster, at, skipped := first, offset, 0;
    var i := 0;
    ReachedStart(v, first);
    while i < advance
      invariant i <= advance && at / size == advance - i && skipped * SECTOR + at == offset
        && Reached(v, first, skipped, cluster)
    {
      QuotientStep(at, size);
      at := at - size;
      if Next(v, cluster) == END_OF_CHAIN {
        ReachedEnd(v, first, skipped, cluster, offset / SECTOR);
        return false, cluster, at, skipped;
      }
      ReachedNext(v, first, skipped, cluster);
      cluster, skipped := Next(v, cluster), skipped + v.sectorsPerCluster;
      i := i + 1;
    }
    QuotientStep(at, size);
    found := true;
  }

  ghost predicate SliceAt(v: Volume, disk: Disk, cluster: nat, from: nat, data: seq<bv8>, k: nat)
    requires Usable(v) && k < |data|
  {
    ByteAt(v, disk, cluster, from + k) == Some(data[k])
  }

  /** The data are the bytes of the chain from position `from` on. */
  ghost predicate Slice(v: Volume, disk: Disk, cluster: nat, from: nat, data: seq<bv8>)
    requires Usable(v)
  {
    forall k: nat {:trigger SliceAt(v, disk, cluster, from, data, k)} :: k < |data| ==>
      SliceAt(v, disk, cluster, from, data, k)
  }

  lemma SliceMore(v: Volume, disk: Disk, cluster: nat, from: nat, a: seq<bv8>, b: seq<bv8>)
    requires Usable(v) && Slice(v, disk, cluster, from, a) && Slice(v, disk, cluster, from + |a|, b)
    ensures Slice(v, disk, cluster, from, a + b)
  {
    var all := a + b;
    forall k: nat | k < |all| ensures SliceAt(v, disk, cluster, from, all, k) {
      if k < |a| {
        assert SliceAt(v, disk, cluster, from, a, k);
      } else {
        assert SliceAt(v, disk, cluster, from + |a|, b, k - |a|);
      }
    }
  }

  /** Part of a sector is a slice of the chain; a sector that cannot be read has none. */
  lemma SectorSlice(v: Volume, disk: Disk, cluster: nat, i: nat, at: nat, n: nat)
    requires Usable(v) && i < v.sectorsPerCluster && at < SECTOR && at + n <= SECTOR
    ensures var pos := i * SECTOR + at;
      match disk(SectorOf(v, cluster, i))
      case None => ByteAt(v, disk, cluster, pos) == None
      case Some(s) => ByteAt(v, disk, cluster, pos).Some? && Slice(v, disk, cluster, pos, s[at..at + n])
  {
    var pos := i * SECTOR + at;
    SectorByte(v, disk, cluster, i, at, pos);
    match disk(SectorOf(v, cluster, i))
    case None =>
    case Some(s) =>
      var data := s[at..at + n];
      forall k: nat | k < n ensures SliceAt(v, disk, cluster, pos, data, k) {
        SectorByte(v, disk, cluster, i, at + k, pos + k);
      }
  }

  datatype Outcome = Complete | Failed | More

  /** The inner loop of fat32_read_file: what one cluster has of the request. */
  method ReadCluster(v: Volume, disk: Disk, cluster: nat, offset: nat, size: nat) returns (r: Outcome, data: seq<bv8>)
    requires Usable(v) && offset < v.sectorsPerCluster * SECTOR
    ensures |data| <= size && Slice(v, disk, cluster, offset, data)
    ensures r == Complete ==> |data| == size && ByteAt(v, disk, cluster, offset).Some?
    ensures r == Failed ==> (|data| < size || size == 0) && ByteAt(v, disk, cluster, offset + |data|) == None
    ensures r == More ==> 0 < |data| < size && offset + |data| == v.sectorsPerCluster * SECTOR
  {
    data := [];
    var at: nat, left: nat := offset % SECTOR, size;
    var i := offset / SECTOR;
    while i < v.sectorsPerCluster
      invariant i <= v.sectorsPerCluster && left == size - |data| && (left > 0 || data == [])
      invariant i * SECTOR + at == offset + |data| && at < SECTOR
      invariant data != [] ==> at == 0 && ByteAt(v, disk, cluster, offset).Some?
      invariant Slice(v, disk, cluster, offset, data)
    {
      var n := left;
      if left + at > SECTOR {
        n := SECTOR - at;
      }
      SectorSlice(v, disk, cluster, i, at, n);
      var read := disk(SectorOf(v, cluster, i));
      if read == None {
        return Failed, data;
      }
      SliceMore(v, disk, cluster, offset, data, read.value[at..at + n]);
      data := data + read.value[at..at + n];
      left := left - n;
      at := 0;
      if left == 0 {
        return Complete, data;
      }
      i := i + 1;
    }
    r := More;
  }

  lemma ReachedEndByte(v: Volume, disk: Disk, first: nat, skipped: nat, cluster: nat, whole: nat)
    requires Usable(v) && Reached(v, first, skipped, cluster) && Next(v, cluster) == END_OF_CHAIN
    requires skipped * SECTOR + v.sectorsPerCluster * SECTOR <= whole
    ensures ByteAt(v, disk, first, whole) == None && Locate(v, first, whole / SECTOR) == None
  {
    ReachedEnd(v, first, skipped, cluster, whole / SECTOR);
  }

  /** A slice of the rest of a chain is a slice of the chain. */
  lemma ReachedSlice(v: Volume, disk: Disk, first: nat, skipped: nat, cluster: nat, from: nat, data: seq<bv8>,
                     base: nat)
    requires Usable(v) && Reached(v, first, skipped, cluster) && Slice(v, disk, cluster, from, data)
      && base == skipped * SECTOR + from
    ensures Slice(v, disk, first, base, data)
  {
    forall k: nat | k < |data| ensures SliceAt(v, disk, first, base, data, k) {
      assert SliceAt(v, disk, cluster, from, data, k);
      ReachedByte(v, disk, first, skipped, cluster, from + k, base + k);
    }
  }

  /** One cluster's part of the request, told by the whole chain. */
  method ReadOn(v: Volume, disk: Disk, ghost first: nat, ghost skipped: nat, cluster: nat, at: nat, left: nat,
                ghost pos: nat) returns (r: Outcome, data: seq<bv8>)
    requires Usable(v) && at < v.sectorsPerCluster * SECTOR && Reached(v, first, skipped, cluster)
      && pos == skipped * SECTOR + at
    ensures |data| <= left && Slice(v, disk, first, pos, data)
    ensures r == Complete ==> |data| == left && ByteAt(v, disk, first, pos).Some?
    ensures r == Failed ==> (|data| < left || left == 0) && ByteAt(v, disk, first, pos + |data|) == None
    ensures r == More ==> 0 < |data| < left && at + |data| == v.sectorsPerCluster * SECTOR
    ensures r == More && Next(v, cluster) == END_OF_CHAIN ==> ByteAt(v, disk, first, pos + |data|) == None
  {
    r, data := ReadCluster(v, disk, cluster, at, left);
    ReachedSlice(v, disk, first, skipped, cluster, at, data, pos);
    ReachedByte(v, disk, first, skipped, cluster, at, pos);
    ReachedByte(v, disk, first, skipped, cluster, at + |data|, pos + |data|);
    if r == More && Next(v, cluster) == END_OF_CHAIN {
      ReachedEndByte(v, disk, first, skipped, cluster, pos + |data|);
    }
  }

  predicate InSize(file: File, offset: nat, size: nat) {
    (offset + size) % WORD <= file.size || file.directory
  }

  /** Every byte of the request can be had; of an empty request, the byte at its place. */
  ghost predicate Available(v: Volume, disk: Disk, cluster: nat, offset: nat, size: nat)
    requires Usable(v)
  {
    ByteAt(v, disk, cluster, offset).Some? && forall j: nat :: offset <= j < offset + size ==>
      ByteAt(v, disk, cluster, j).Some?
  }

  lemma SliceAvailable(v: Volume, disk: Disk, cluster: nat, offset: nat, data: seq<bv8>)
    requires Usable(v) && Slice(v, disk, cluster, offset, data)
      && (data == [] ==> ByteAt(v, disk, cluster, offset).Some?)
    ensures Available(v, disk, cluster, offset, |data|)
  {
    assert data != [] ==> SliceAt(v, disk, cluster, offset, data, 0);
    forall j: nat | offset <= j < offset + |data| ensures ByteAt(v, disk, cluster, j).Some? {
      assert SliceAt(v, disk, cluster, offset, data, j - offset);
    }
  }

  /** fat32_read_file: it succeeds exactly if the request is in size and every byte of it can
      be had, and then the buffer is that slice of the file's chain. Whatever it wrote before
      it failed is right too. The 32-bit sum of the size and the place in the first sector
      must not run over, or the copy would leave its sector buffer. */
  method ReadFile(v: Volume, disk: Disk, file: File, offset: nat, size: nat) returns (ok: bool, buffer: seq<bv8>)
    requires Usable(v) && offset < WORD && offset % SECTOR + size < WORD
    ensures |buffer| <= size && Slice(v, disk, file.cluster, offset, buffer)
    ensures ok <==> InSize(file, offset, size) && Available(v, disk, file.cluster, offset, size)
    ensures ok ==> |buffer| == size
  {
    buffer := [];
    if (offset + size) % WORD > file.size && !file.directory {
      return false, buffer;
    }
    ghost var skipped: nat;
    var found, cluster: nat, at: nat;
    found, cluster, at, skipped := Advance(v, file.cluster, offset);
    if !found {
      return false, buffer;
    }
    var left := size;
    while true
      invariant left == size - |buffer| && (left > 0 || buffer == []) && at < v.sectorsPerCluster * SECTOR
      invariant skipped * SECTOR + at == offset + |buffer| && Reached(v, file.cluster, skipped, cluster)
      invariant Slice(v, disk, file.cluster, offset, buffer)
      decreases left
    {
      var r, data := ReadOn(v, disk, file.cluster, skipped, cluster, at, left, offset + |buffer|);
      SliceMore(v, disk, file.cluster, offset, buffer, data);
      buffer := buffer + data;
      if r == Complete {
        SliceAvailable(v, disk, file.cluster, offset, buffer);
        return true, buffer;
      }
      if r == Failed || Next(v, cluster) == END_OF_CHAIN {
        return false, buffer;
      }
      ReachedNext(v, file.cluster, skipped, cluster);
      skipped := skipped + v.sectorsPerCluster;
      cluster, at, left := Next(v, cluster), 0, left - |data|;
    }
  }

  /** With a drive that reports no error a request fails only because it is out of size or
      the chain ends before its last byte. */
  lemma OnlyShortChains(v: Volume, disk: Disk, cluster: nat, offset: nat, size: nat)
    requires Usable(v) && forall s: nat :: disk(s).Some?
    ensures Available(v, disk, cluster, offset, size) <==>
      Locate(v, cluster, (if size == 0 then offset else offset + size - 1) / SECTOR).Some?
  {
    var last := if size == 0 then offset else offset + size - 1;
    if Locate(v, cluster, last / SECTOR).Some? {
      forall j: nat | offset <= j <= last ensures ByteAt(v, disk, cluster, j).Some? {
        if Locate(v, cluster, j / SECTOR) == None {
          EndsOnce(v, cluster, j / SECTOR, last / SECTOR);
        }
      }
    } else {
      assert ByteAt(v, disk, cluster, last) == None;
    }
  }

  /** The first t sectors of the chain laid end to end, if all can be read. */
  function Joined(v: Volume, disk: Disk, cluster: nat, t: nat): (r: Option<seq<bv8>>)
    requires Usable(v)
  {
    if t == 0 then Some([]) else
      match (Joined(v, disk, cluster, t - 1), ChainSector(v, disk, cluster, t - 1))
      case (Some(bytes), Some(s)) => Some(bytes + s)
      case _ => None
  }

  lemma {:induction false} JoinedSlice(v: Volume, disk: Disk, cluster: nat, t: nat)
    requires Usable(v) && Joined(v, disk, cluster, t).Some?
    ensures |Joined(v, disk, cluster, t).value| == t * SECTOR
      && Slice(v, disk, cluster, 0, Joined(v, disk, cluster, t).value)
  {
    if t > 0 {
      JoinedSlice(v, disk, cluster, t - 1);
      var s := ChainSector(v, disk, cluster, t - 1).value;
      var pos: nat := (t - 1) * SECTOR;
      forall k: nat | k < |s| ensures SliceAt(v, disk, cluster, pos, s, k) {
        SectorByte(v, disk, cluster, t - 1, k, pos + k);
      }
      SliceMore(v, disk, cluster, 0, Joined(v, disk, cluster, t - 1).value, s);
    }
  }

  /** What a read returns is that part of the sectors laid end to end. */
  lemma ReadIsPart(v: Volume, disk: Disk, cluster: nat, t: nat, offset: nat, buffer: seq<bv8>)
    requires Usable(v) && Joined(v, disk, cluster, t).Some? && Slice(v, disk, cluster, offset, buffer)
      && offset + |buffer| <= t * SECTOR
    ensures |Joined(v, disk, cluster, t).value| == t * SECTOR
      && buffer == Joined(v, disk, cluster, t).value[offset..offset + |buffer|]
  {
    JoinedSlice(v, disk, cluster, t);
    var bytes := Joined(v, disk, cluster, t).value;
    forall k: nat | k < |buffer| ensures buffer[k] == bytes[offset + k] {
      assert SliceAt(v, disk, cluster, offset, buffer, k) && SliceAt(v, disk, cluster, 0, bytes, offset + k);
    }
  }

  // ---- the directory cursor ----

  /** The k-th 32-byte record of the chain. */
  function Record(v: Volume, disk: Disk, cluster: nat, k: nat): (r: Option<seq<bv8>>)
    requires Usable(v)
  {
    match ChainSector(v, disk, cluster, k / PER_SECTOR)
    case None => None
    case Some(s) => Some(RecordIn(s, k % PER_SECTOR))
  }

  function RecordIn(s: Bytes, i: nat): (r: seq<bv8>)
    requires i < PER_SECTOR
    ensures |r| == RECORD
  {
    s[i * RECORD..i * RECORD + RECORD]
  }

  /** A record whose first byte is 0 ends the directory. */
  function Shown(r: Option<seq<bv8>>): (out: Option<seq<bv8>>) {
    match r
    case Some(bytes) => if |bytes| == 0 || bytes[0] == 0 then None else r
    case None => None
  }

  /** A sector number can be 0, the mark of an empty buffer. It is not for a cluster from 2
      on that lies on the volume, but it is for cluster 0, the parent entry of a directory
      in the root, if the data start at sector 2 * sectors_per_cluster. */
  lemma NeverSectorZero(v: Volume, cluster: nat, i: nat)
    requires Usable(v) && i < v.sectorsPerCluster
    ensures 2 <= cluster && 0 < v.dataStart && v.dataStart + (cluster - 2) * v.sectorsPerCluster + i < WORD ==>
      SectorOf(v, cluster, i) != 0
    ensures cluster == 0 && i == 0 ==> (SectorOf(v, cluster, i) == 0 <==> v.dataStart == 2 * v.sectorsPerCluster)
  {
    if 2 <= cluster {
      Multiple(cluster - 2, v.sectorsPerCluster);
    }
  }

  lemma RecordPlace(v: Volume, disk: Disk, first: nat, skipped: nat, cluster: nat, entry: nat, k: nat)
    requires Usable(v) && Reached(v, first, skipped, cluster) && k == skipped * PER_SECTOR + entry
      && entry < v.sectorsPerCluster * PER_SECTOR
    ensures entry / PER_SECTOR < v.sectorsPerCluster
    ensures Record(v, disk, first, k) ==
      match disk(SectorOf(v, cluster, entry / PER_SECTOR))
      case None => None
      case Some(s) => Some(RecordIn(s, entry % PER_SECTOR))
  {
    assert k / PER_SECTOR == skipped + entry / PER_SECTOR && k % PER_SECTOR == entry % PER_SECTOR;
    assert ReachedAt(v, first, skipped, cluster, entry / PER_SECTOR);
  }

  lemma RecordEnd(v: Volume, disk: Disk, first: nat, skipped: nat, cluster: nat, k: nat)
    requires Usable(v) && Reached(v, first, skipped, cluster) && Next(v, cluster) == END_OF_CHAIN
    requires k == skipped * PER_SECTOR + v.sectorsPerCluster * PER_SECTOR
    ensures Record(v, disk, first, k) == None
  {
    ReachedEnd(v, first, skipped, cluster, k / PER_SECTOR);
  }

  /** FAT32_DirList. */
  class Cursor {
    var cluster: nat
    var entry: nat
    var buffer: Bytes
    var buffered: nat     // sector held by the buffer, 0 before the first read
    ghost var skipped: nat

    /** The cursor is about to read record k of the directory that starts at `first`. */
    ghost predicate At(v: Volume, disk: Disk, first: nat, k: nat)
      requires Usable(v)
      reads this
    {
      && Reached(v, first, skipped, cluster) && entry <= v.sectorsPerCluster * PER_SECTOR
        && k == skipped * PER_SECTOR + entry
      && (if k == 0 then buffered == 0 && cluster == first else disk(buffered) == Some(buffer))
    }

    /** fat32_list_dir; the buffer holds whatever it held. */
    method ListDir(v: Volume, disk: Disk, dir: File)
      requires Usable(v)
      modifies this
      ensures buffer == old(buffer) && (dir.directory ==> At(v, disk, dir.cluster, 0))
    {
      if !dir.directory {
        return;
      }
      cluster, entry, buffered, skipped := dir.cluster, 0, 0, 0;
      ReachedStart(v, cluster);
    }

    /** The buffer holds the sector, unless it cannot be read. */
    method Load(disk: Disk, sector: nat) returns (ok: bool)
      modifies `buffer, `buffered
      ensures if old(buffered) == sector then ok && buffered == old(buffered) && buffer == old(buffer)
        else match disk(sector)
          case None => !ok && buffered == old(buffered) && buffer == old(buffer)
          case Some(s) => ok && buffered == sector && buffer == s
    {
      if buffered != sector {
        var read := disk(sector);
        if read == None {
          return false;
        }
        buffer, buffered := read.value, sector;
      }
      ok := true;
    }

    /** read_next_entry: the next record of the directory, nothing when it is the last, cannot
        be read or starts with 0. Only if the very first sector's number is 0 it takes the
        buffer, never filled, for that sector. */
    method ReadNextEntry(v: Volume, disk: Disk, ghost first: nat, ghost k: nat) returns (r: Option<seq<bv8>>)
      requires Usable(v) && At(v, disk, first, k)
      modifies this
      ensures r == Shown(
        if k == 0 && SectorOf(v, first, 0) == 0 then Some(RecordIn(old(buffer), 0)) else Record(v, disk, first, k))
      ensures r.Some? && !(k == 0 && SectorOf(v, first, 0) == 0) ==> At(v, disk, first, k + 1)
    {
      var ended := Turn(v, disk, first, k);
      if ended {
        return None;
      }
      RecordPlace(v, disk, first, skipped, cluster, entry, k);
      var ok := Load(disk, SectorOf(v, cluster, entry / PER_SECTOR));
      if !ok {
        return None;
      }
      var bytes := RecordIn(buffer, entry % PER_SECTOR);
      entry := entry + 1;
      r := if bytes[0] == 0 then None else Some(bytes);
    }

    /** At the end of a cluster the cursor goes on to the next one, if there is one. */
    method Turn(v: Volume, disk: Disk, ghost first: nat, ghost k: nat) returns (ended: bool)
      requires Usable(v) && At(v, disk, first, k)
      modifies `cluster, `entry, `skipped
      ensures ended ==> 0 < k && Record(v, disk, first, k) == None
      ensures !ended ==> At(v, disk, first, k) && entry < v.sectorsPerCluster * PER_SECTOR
    {
      if entry >= v.sectorsPerCluster * PER_SECTOR {
        var next := Next(v, cluster);
        if next == END_OF_CHAIN {
          RecordEnd(v, disk, first, skipped, cluster, k);
          cluster := next;
          return true;
        }
        ReachedNext(v, first, skipped, cluster);
        cluster, entry, skipped := next, 0, skipped + v.sectorsPerCluster;
      }
      ended := false;
    }

    /** Up to the first nothing the cursor lists the records of the directory in order. */
    method ReadAll(v: Volume, disk: Disk, dir: File, n: nat) returns (rs: seq<seq<bv8>>)
      requires Usable(v) && dir.directory && SectorOf(v, dir.cluster, 0) != 0
      modifies this
      ensures |rs| <= n && forall k :: 0 <= k < |rs| ==>
        Record(v, disk, dir.cluster, k) == Some(rs[k]) && |rs[k]| == RECORD && rs[k][0] != 0
      ensures |rs| < n ==> Shown(Record(v, disk, dir.cluster, |rs|)) == None
    {
      ListDir(v, disk, dir);
      rs := [];
      while |rs| < n
        invariant |rs| <= n && At(v, disk, dir.cluster, |rs|)
        invariant forall k :: 0 <= k < |rs| ==>
          Record(v, disk, dir.cluster, k) == Some(rs[k]) && |rs[k]| == RECORD && rs[k][0] != 0
        decreases n - |rs|
      {
        var r := ReadNextEntry(v, disk, dir.cluster, |rs|);
        if r == None {
          return;
        }
        rs := rs + [r.value];
      }
    }
  }
}
