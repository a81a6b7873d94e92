/**
 * Reading and writing a regular file or a directory as an array of bytes.
 */
module FileIO {
  import opened Sequences
  import opened BlockTree
  import opened BlockLayer
  import opened FileSystem

  const BSIZE := 512

  /** Byte k of a block of 32-bit words stored low byte first. */
  function ByteOf(b: Block, k: nat): (x: byte)
    requires k < BSIZE
  {
    var w := b[k / 4];
    if k % 4 == 0 then w % 256
    else if k % 4 == 1 then w / 256 % 256
    else if k % 4 == 2 then w / 256 / 256 % 256
    else w / 256 / 256 / 256 % 256
  }

  function Bytes(b: Block): (s: seq<byte>)
    ensures |s| == BSIZE && forall k :: 0 <= k < BSIZE ==> s[k] == ByteOf(b, k)
  {
    seq(BSIZE, k requires 0 <= k < BSIZE => ByteOf(b, k))
  }

  function WordOf(s: seq<byte>, i: nat): int
    requires |s| == BSIZE && i < NINDIR
  {
    (s[4 * i] as int) + 256 * ((s[4 * i + 1] as int) + 256 * ((s[4 * i + 2] as int) + 256 * (s[4 * i + 3] as int)))
  }

  function FromBytes(s: seq<byte>): (b: Block)
    requires |s| == BSIZE
    ensures forall i :: 0 <= i < NINDIR ==> b[i] == WordOf(s, i)
  {
    seq(NINDIR, i requires 0 <= i < NINDIR => WordOf(s, i))
  }

  lemma LowByte(b: int, q: int)
    requires 0 <= b < 256
    ensures (b + 256 * q) % 256 == b && (b + 256 * q) / 256 == q
  {
  }

  lemma WordBytes(b0: int, b1: int, b2: int, b3: int)
    requires 0 <= b0 < 256 && 0 <= b1 < 256 && 0 <= b2 < 256 && 0 <= b3 < 256
    ensures var w := b0 + 256 * (b1 + 256 * (b2 + 256 * b3));
            w % 256 == b0 && w / 256 % 256 == b1 && w / 256 / 256 % 256 == b2 && w / 256 / 256 / 256 % 256 == b3
  {
    LowByte(b0, b1 + 256 * (b2 + 256 * b3));
    LowByte(b1, b2 + 256 * b3);
    LowByte(b2, b3);
  }

  lemma BytesFromBytes(s: seq<byte>)
    requires |s| == BSIZE
    ensures Bytes(FromBytes(s)) == s
  {
    forall k | 0 <= k < BSIZE
      ensures Bytes(FromBytes(s))[k] == s[k]
    {
      var i := k / 4;
      WordBytes(s[4 * i], s[4 * i + 1], s[4 * i + 2], s[4 * i + 3]);
    }
  }

  lemma ZeroBytes(k: nat)
    requires k < BSIZE
    ensures Bytes(ZeroBlock())[k] == 0
  {
  }

  const BYTE_LIMIT: nat := FILE_LIMIT * BSIZE

  /** Byte i of a file; holes read as zero. */
  function FileByte(d: Disk, addr: Addrs, i: nat): byte
    requires i < BYTE_LIMIT
  {
    var b := FileLookup(d, addr, i / BSIZE);
    if b == 0 then 0 else Bytes(Words(d, b))[i % BSIZE]
  }

  // ---------------------------------------------------------------------------
  // Data blocks are not indirect blocks, and belong to one logical block each.

  lemma {:induction false} LookupIsData(d: Disk, bn: int, h: nat, o: nat)
    requires o < Cap(h) && Distinct(Pre(d, bn, h)) && Lookup(d, bn, h, o) != 0
    ensures Lookup(d, bn, h, o) in Pre(d, bn, h) && Lookup(d, bn, h, o) !in Meta(d, bn, h)
    decreases h
  {
    hide PreRange, MetaRange;
    if h > 0 {
      var i := Digit(h, o);
      var x, ws, k := Lookup(d, bn, h, o), Words(d, bn), Indirect(h - 1);
      NodeDistinct(d, bn, h, i);
      NodeSplit(d, bn, h, i);
      LookupIsData(d, ws[i], h - 1, Rest(h, o));
      MetaRangeInPre(d, ws, k, 0, i);
      MetaRangeInPre(d, ws, k, i + 1, NINDIR);
    }
  }

  lemma {:induction false} LookupInjective(d: Disk, bn: int, h: nat, o: nat, o': nat)
    requires o < Cap(h) && o' < Cap(h) && o != o' && Distinct(Pre(d, bn, h)) && Lookup(d, bn, h, o) != 0
    ensures Lookup(d, bn, h, o') != Lookup(d, bn, h, o)
    decreases h
  {
    hide PreRange;
    if h > 0 && Lookup(d, bn, h, o') != 0 {
      var i, j, ws, k := Digit(h, o), Digit(h, o'), Words(d, bn), Indirect(h - 1);
      NodeDistinct(d, bn, h, i);
      NodeDistinct(d, bn, h, j);
      if i == j {
        OtherDigit(h, o, o');
        LookupInjective(d, ws[i], h - 1, Rest(h, o), Rest(h, o'));
      } else {
        LookupIsData(d, ws[i], h - 1, Rest(h, o));
        LookupIsData(d, ws[j], h - 1, Rest(h, o'));
        KidsDisjoint(d, bn, h, i, j);
      }
    }
  }

  lemma KidsDisjoint(d: Disk, bn: int, h: nat, i: nat, j: nat)
    requires bn != 0 && 0 < h && i < NINDIR && j < NINDIR && i != j && Distinct(Pre(d, bn, h))
    ensures Disjoint(Pre(d, Words(d, bn)[i], h - 1), Pre(d, Words(d, bn)[j], h - 1))
  {
    var ws, k := Words(d, bn), Indirect(h - 1);
    assert Pre(d, bn, h) == [bn] + PreRange(d, ws, k, 0, NINDIR);
    DistinctSplit([bn], PreRange(d, ws, k, 0, NINDIR));
    SlotsDisjoint(d, ws, k, i, j);
  }

  lemma SlotsDisjoint(d: Disk, ws: seq<int>, k: Kind, i: nat, j: nat)
    requires i < |ws| == Slots(k) && j < |ws| && i != j && Distinct(PreRange(d, ws, k, 0, |ws|))
    ensures Disjoint(Pre(d, ws[i], Height(k, i)), Pre(d, ws[j], Height(k, j)))
  {
    hide Pre;
    var lo, hi := if i < j then i else j, if i < j then j else i;
    SlotDistinct(d, ws, k, lo);
    RangeSplit(d, ws, k, lo + 1, hi, |ws|);
    assert PreRange(d, ws, k, hi, |ws|) == Pre(d, ws[hi], Height(k, hi)) + PreRange(d, ws, k, hi + 1, |ws|);
    var p, q := Pre(d, ws[lo], Height(k, lo)), Pre(d, ws[hi], Height(k, hi));
    assert forall x :: x in q ==> x in After(d, ws, k, lo);
    assert Disjoint(p, q) && Disjoint(q, p);
  }

  lemma FileLookupIsData(d: Disk, addr: Addrs, lbn: nat)
    requires lbn < FILE_LIMIT && Distinct(FileBlocks(d, addr)) && FileLookup(d, addr, lbn) != 0
    ensures FileLookup(d, addr, lbn) in FileBlocks(d, addr) && FileLookup(d, addr, lbn) !in FileMeta(d, addr)
  {
    hide PreRange, MetaRange, SlotOf, OffsetOf;
    var i := SlotOf(lbn);
    SlotDistinct(d, addr, Inode, i);
    SlotSplit(d, addr, Inode, i);
    LookupIsData(d, addr[i], Height(Inode, i), OffsetOf(lbn));
    MetaRangeInPre(d, addr, Inode, 0, i);
    MetaRangeInPre(d, addr, Inode, i + 1, NADDR);
  }

  lemma FileLookupInjective(d: Disk, addr: Addrs, lbn: nat, o: nat)
    requires lbn < FILE_LIMIT && o < FILE_LIMIT && o != lbn
    requires Distinct(FileBlocks(d, addr)) && FileLookup(d, addr, lbn) != 0
    ensures FileLookup(d, addr, o) != FileLookup(d, addr, lbn)
  {
    hide PreRange, SlotOf, OffsetOf;
    var i, j := SlotOf(lbn), SlotOf(o);
    SlotDistinct(d, addr, Inode, i);
    SlotDistinct(d, addr, Inode, j);
    if i == j {
      SameSlot(lbn, o);
      LookupInjective(d, addr[i], Height(Inode, i), OffsetOf(lbn), OffsetOf(o));
    } else if FileLookup(d, addr, o) != 0 {
      LookupIsData(d, addr[i], Height(Inode, i), OffsetOf(lbn));
      LookupIsData(d, addr[j], Height(Inode, j), OffsetOf(o));
      SlotsDisjoint(d, addr, Inode, i, j);
    }
  }

  /** Allocating a block does not change any byte of the file. */
  lemma GrowKeepsBytes(d: Disk, free: seq<int>, addr: Addrs, lbn: nat, i: nat)
    requires lbn < FILE_LIMIT && i < BYTE_LIMIT && Separate(d, free, FileBlocks(d, addr))
    ensures var r := GrowFile(d, free, addr, lbn);
            FileByte(r.g.d, r.addr, i) == FileByte(d, addr, i)
  {
    hide FileBlocks, FileLookup, FileMeta, GrowFile, Bytes;
    FileGrowCorrect(d, free, addr, lbn);
    var r, o := GrowFile(d, free, addr, lbn), i / BSIZE;
    var b := FileLookup(d, addr, o);
    if b != 0 {
      FileLookupIsData(d, addr, o);
      TakenFromFree(free, r.g.free, r.g.taken);
    } else if o == lbn && r.g.ok {
      ZeroBytes(i % BSIZE);
    }
  }

  /** Writing a data block changes the bytes of its logical block only. */
  lemma WriteChangesBytes(d: Disk, addr: Addrs, lbn: nat, b: int, buf: Block, i: nat)
    requires lbn < FILE_LIMIT && i < BYTE_LIMIT && Distinct(FileBlocks(d, addr))
    requires b == FileLookup(d, addr, lbn) != 0
    ensures FileByte(d[b := buf], addr, i)
         == if i / BSIZE == lbn then Bytes(buf)[i % BSIZE] else FileByte(d, addr, i)
  {
    hide FileBlocks, FileLookup, FileMeta, Bytes;
    var e, o := d[b := buf], i / BSIZE;
    FileLookupIsData(d, addr, lbn);
    assert Agree(d, e, FileMeta(d, addr));
    FileLookupFrame(d, e, addr, o);
    if o != lbn {
      FileLookupInjective(d, addr, lbn, o);
    }
  }

  // ---------------------------------------------------------------------------
  // Whole files.

  /** The first n bytes of data are stored at offset off, and no other byte of the file changed. */
  ghost predicate Stored(d: Disk, addr: Addrs, e: Disk, addr': Addrs, off: nat, data: seq<byte>, n: nat)
    requires n <= |data|
  {
    forall i: nat :: i < BYTE_LIMIT ==>
      FileByte(e, addr', i) == if off <= i < off + n then data[i - off] else FileByte(d, addr, i)
  }

  /** Logical block o has some of the n bytes at an offset. */
  predicate Touched(o: nat, off: nat, n: nat) {
    0 < n && off < (o + 1) * BSIZE && o * BSIZE < off + n
  }

  /** Only logical blocks of the n bytes at an offset are newly mapped; the others map as before. */
  ghost predicate MappedStay(d: Disk, a: Addrs, e: Disk, a': Addrs, off: nat, n: nat) {
    forall o: nat :: o < FILE_LIMIT && (FileLookup(d, a, o) != 0 || !Touched(o, off, n)) ==>
      FileLookup(e, a', o) == FileLookup(d, a, o)
  }

  lemma MappedStayOn(d: Disk, a: Addrs, e: Disk, a': Addrs, f: Disk, a'': Addrs, off: nat, n: nat, off': nat, n': nat)
    requires MappedStay(d, a, e, a', off, n) && MappedStay(e, a', f, a'', off', n')
    requires off <= off' && off' + n' <= off + n
    ensures MappedStay(d, a, f, a'', off, n)
  {
    hide FileLookup;
  }

  /** Byte at can be addressed, but has no block. */
  ghost predicate Unmapped(d: Disk, a: Addrs, at: nat) {
    at < BYTE_LIMIT && FileLookup(d, a, at / BSIZE) == 0
  }

  /** The n bytes at an offset have blocks, as far as they can be addressed. */
  ghost predicate AllMapped(d: Disk, a: Addrs, off: nat, n: nat) {
    forall i: nat :: off <= i < off + n ==> !Unmapped(d, a, i)
  }

  lemma MappedGrows(d: Disk, a: Addrs, e: Disk, a': Addrs, off: nat, n: nat, off': nat, n': nat)
    requires MappedStay(d, a, e, a', off', n')
    ensures forall at: nat :: Unmapped(e, a', at) ==> Unmapped(d, a, at)
    ensures AllMapped(d, a, off, n) ==> AllMapped(e, a', off, n)
  {
    hide FileLookup;
  }

  lemma SameBlockMapped(d: Disk, a: Addrs, at: nat, n: nat)
    requires at % BSIZE + n <= BSIZE && !Unmapped(d, a, at)
    ensures AllMapped(d, a, at, n)
  {
    hide FileLookup;
    forall i: nat | at <= i < at + n
      ensures !Unmapped(d, a, i)
    {
      SameBlock(at, i, n);
    }
  }

  /** Writing a data block moves none. */
  lemma DataWriteStays(d: Disk, a: Addrs, lbn: nat, buf: Block, at: nat)
    requires lbn < FILE_LIMIT && Distinct(FileBlocks(d, a)) && FileLookup(d, a, lbn) != 0
    ensures MappedStay(d, a, d[FileLookup(d, a, lbn) := buf], a, at, 0)
  {
    hide FileBlocks, FileLookup, FileMeta;
    var e := d[FileLookup(d, a, lbn) := buf];
    FileLookupIsData(d, a, lbn);
    assert Agree(d, e, FileMeta(d, a));
    forall o: nat | o < FILE_LIMIT
      ensures FileLookup(e, a, o) == FileLookup(d, a, o)
    {
      FileLookupFrame(d, e, a, o);
    }
  }

  /** Every block of another file, and everything in it, is as it was. */
  ghost predicate OthersUntouched(d: Disk, e: Disk, rows: seq<Addrs>, k: nat) {
    forall i :: 0 <= i < |rows| && i != k ==> FileKeptWhole(d, e, rows[i])
  }

  lemma KeptTransitive(d: Disk, e: Disk, f: Disk, rows: seq<Addrs>, rows': seq<Addrs>, k: nat)
    requires k < |rows| == |rows'| && rows' == rows[k := rows'[k]]
    requires OthersUntouched(d, e, rows, k) && OthersUntouched(e, f, rows', k)
    ensures OthersUntouched(d, f, rows', k)
  {
    hide FileBlocks, FileMeta, Words;
    forall i | 0 <= i < |rows| && i != k
      ensures FileKeptWhole(d, f, rows'[i])
    {
      assert FileKeptWhole(d, e, rows[i]) && FileKeptWhole(e, f, rows'[i]);
    }
  }

  /** Bytes on to on + |chunk| of a block replaced. */
  function Patch(b: Block, on: nat, chunk: seq<byte>): Block
    requires on + |chunk| <= BSIZE
  {
    FromBytes(Bytes(b)[..on] + chunk + Bytes(b)[on + |chunk|..])
  }

  lemma PatchedAt(s: seq<byte>, r: seq<byte>, on: nat, chunk: seq<byte>, k: nat)
    requires on + |chunk| <= |s| && k < |s| && r == s[..on] + chunk + s[on + |chunk|..]
    ensures |r| == |s| && r[k] == if on <= k < on + |chunk| then chunk[k - on] else s[k]
  {
  }

  lemma PatchBytes(b: Block, on: nat, chunk: seq<byte>, k: nat)
    requires on + |chunk| <= BSIZE && k < BSIZE
    ensures Bytes(Patch(b, on, chunk))[k] == if on <= k < on + |chunk| then chunk[k - on] else Bytes(b)[k]
  {
    hide FromBytes, Bytes;
    var s := Bytes(b);
    var r := s[..on] + chunk + s[on + |chunk|..];
    PatchedAt(s, r, on, chunk, k);
    assert Patch(b, on, chunk) == FromBytes(r);
    BytesFromBytes(r);
  }

  /** What writing part of one mapped data block keeps. */
  lemma DataWriteKeeps(d: Disk, stack: seq<int>, rows: seq<Addrs>, lo: int, hi: int, k: nat, lbn: nat, buf: Block)
    requires 0 < lo && k < |rows| && lbn < FILE_LIMIT && Partitioned(d, stack, rows, lo, hi)
    requires FileLookup(d, rows[k], lbn) != 0
    ensures var e := d[FileLookup(d, rows[k], lbn) := buf];
            Partitioned(e, stack, rows, lo, hi) && OthersUntouched(d, e, rows, k)
    ensures FileLookup(d, rows[k], lbn) !in stack && Distinct(FileBlocks(d, rows[k]))
  {
    hide PreRange, MetaRange, Partitioned, FileLookup, FileKeptWhole;
    var b := FileLookup(d, rows[k], lbn);
    var e := d[b := buf];
    FileApart(d, stack, rows, lo, hi, k);
    FileLookupIsData(d, rows[k], lbn);
    OthersKept(d, e, stack, rows, lo, hi, k);
    MembersWithout(rows, k);
    RangeFrame(d, e, rows[k], Inode, 0, NADDR);
    DataWriteCensus(d, e, stack, rows, lo, hi, k);
  }

  lemma DataWriteCensus(d: Disk, e: Disk, stack: seq<int>, rows: seq<Addrs>, lo: int, hi: int, k: nat)
    requires k < |rows| && Partitioned(d, stack, rows, lo, hi) && FileBlocks(e, rows[k]) == FileBlocks(d, rows[k])
    requires forall r :: r in Without(rows, k) ==> FileKeptWhole(d, e, r)
    ensures Partitioned(e, stack, rows, lo, hi)
  {
    hide FileBlocks, Census;
    CensusSplit(d, rows, k);
    CensusSplit(e, rows, k);
    CensusFrame(d, e, Without(rows, k));
  }

  /** Replacing part of the data block that holds byte at. */
  lemma StoreChunk(d: Disk, addr: Addrs, at: nat, chunk: seq<byte>, b: int, buf: Block)
    requires at < BYTE_LIMIT && at % BSIZE + |chunk| <= BSIZE && Distinct(FileBlocks(d, addr))
    requires b == FileLookup(d, addr, at / BSIZE) != 0
    requires forall k :: 0 <= k < BSIZE && !(at % BSIZE <= k < at % BSIZE + |chunk|) ==>
             Bytes(buf)[k] == Bytes(Words(d, b))[k]
    ensures Stored(d, addr, d[b := Patch(buf, at % BSIZE, chunk)], addr, at, chunk, |chunk|)
  {
    hide FileBlocks, FileLookup, Bytes, Patch;
    var on, e := at % BSIZE, d[b := Patch(buf, at % BSIZE, chunk)];
    forall i: nat | i < BYTE_LIMIT
      ensures FileByte(e, addr, i) == if at <= i < at + |chunk| then chunk[i - at] else FileByte(d, addr, i)
    {
      WriteChangesBytes(d, addr, at / BSIZE, b, Patch(buf, on, chunk), i);
      PatchBytes(buf, on, chunk, i % BSIZE);
      SameBlock(at, i, |chunk|);
    }
  }

  lemma SameBlock(at: nat, i: nat, n: nat)
    requires at % BSIZE + n <= BSIZE
    ensures at <= i < at + n <==> i / BSIZE == at / BSIZE && at % BSIZE <= i % BSIZE < at % BSIZE + n
    ensures i / BSIZE == at / BSIZE ==> i - at == i % BSIZE - at % BSIZE
  {
  }

  lemma StoredThenStored(d: Disk, a: Addrs, e: Disk, a': Addrs, f: Disk, a'': Addrs,
                         off: nat, data: seq<byte>, n: nat, chunk: seq<byte>)
    requires n + |chunk| <= |data| && chunk == data[n..n + |chunk|]
    requires Stored(d, a, e, a', off, data, n) && Stored(e, a', f, a'', off + n, chunk, |chunk|)
    ensures Stored(d, a, f, a'', off, data, n + |chunk|)
  {
    hide FileByte;
    forall i: nat | i < BYTE_LIMIT
      ensures FileByte(f, a'', i) == if off <= i < off + (n + |chunk|) then data[i - off] else FileByte(d, a, i)
    {
      assert FileByte(e, a', i) == if off <= i < off + n then data[i - off] else FileByte(d, a, i);
    }
  }

  /** Growth alone stores nothing. */
  lemma GrowStoresNothing(write: bool, d: Disk, free: seq<int>, addr: Addrs, lbn: int, e: Disk, free': seq<int>,
                          addr': Addrs,
                          r: int, err: Errno, at: nat, lo: int, hi: int)
    requires MapDone(write, d, free, addr, lbn, e, free', addr', r, err) && Separate(d, free, FileBlocks(d, addr))
    requires Distinct(FileBlocks(e, addr')) && Within(FileBlocks(e, addr'), lo, hi) && 0 < lo
    ensures forall chunk: seq<byte> :: Stored(d, addr, e, addr', at, chunk, 0)
    ensures r != 0 <==> 0 <= lbn < FILE_LIMIT
    ensures 0 < r ==> r == FileLookup(e, addr', lbn)
    ensures r < 0 && write ==> free' == []
    ensures |free'| + 4 >= |free| && (r < 0 && write ==> |free| < 4)
    ensures lbn == at / BSIZE ==> forall n: nat :: 0 < n ==> MappedStay(d, addr, e, addr', at, n)
    ensures r < 0 ==> 0 <= lbn < FILE_LIMIT && FileLookup(e, addr', lbn) == 0
  {
    hide FileBlocks, FileByte, GrowFile, FileLookup;
    if write && 0 <= lbn < FILE_LIMIT {
      FileGrowCorrect(d, free, addr, lbn);
      FileGrowTakes(d, free, addr, lbn);
    }
    if 0 <= lbn < FILE_LIMIT && FileLookup(e, addr', lbn) != 0 {
      FileLookupIsData(e, addr', lbn);
    }
    if write && 0 <= lbn < FILE_LIMIT {
      forall i: nat | i < BYTE_LIMIT
        ensures FileByte(e, addr', i) == FileByte(d, addr, i)
      {
        GrowKeepsBytes(d, free, addr, lbn, i);
      }
    }
  }

  /** UNIX_writei and UNIX_readi report EINVAL for negative offsets. */
  datatype IOError = None | Invalid | NoSpace | TooBig

  /** Part of logical block lbn of file k, mapped to block b, is replaced in a buffer that is then written. */
  method WriteChunk(m: Mount, k: nat, at: nat, b: int, chunk: seq<byte>)
    requires m.Valid() && k < |m.files| && at < BYTE_LIMIT && at % BSIZE + |chunk| <= BSIZE
    requires b == FileLookup(m.vol.disk, m.rows[k], at / BSIZE) != 0
    modifies m.vol`disk, m.vol`held, m.vol`peak
    ensures m.Valid() && m.vol.peak <= Max(old(m.vol.peak), 2)
    ensures OthersUntouched(old(m.vol.disk), m.vol.disk, m.rows, k)
    ensures Stored(old(m.vol.disk), m.rows[k], m.vol.disk, m.rows[k], at, chunk, |chunk|)
    ensures MappedStay(old(m.vol.disk), m.rows[k], m.vol.disk, m.rows[k], at, 0)
  {
    hide Partitioned, FileLookup, FileKeptWhole, FreeList, Words, Bytes, Patch, Stored, OthersUntouched, FileBlocks;
    var bp: Block;
    if |chunk| == BSIZE {
      m.vol.GetBlk(b);
      bp := *;  // whatever the buffer last held
    } else {
      bp := m.vol.Bread(b);
    }
    ghost var d := m.vol.disk;
    ghost var buf := bp;
    assert forall j :: 0 <= j < BSIZE && |chunk| < BSIZE ==> Bytes(buf)[j] == Bytes(Words(d, b))[j];
    bp := Patch(bp, at % BSIZE, chunk);
    DataWriteKeeps(d, m.vol.stack, m.rows, m.vol.isize, m.vol.fsize, k, at / BSIZE, bp);
    DataWriteStays(d, m.rows[k], at / BSIZE, bp, at);
    StoreChunk(d, m.rows[k], at, chunk, b, buf);
    m.WriteBack(b, bp);
  }

  /** One turn of the loop of Writei. Out of range, the buffer of block 0 is filled but released unwritten. */
  method WriteTurn(m: Mount, k: nat, at: nat, chunk: seq<byte>) returns (err: IOError)
    requires m.Valid() && k < |m.files| && chunk != [] && at % BSIZE + |chunk| <= BSIZE
    modifies m`rows, m.vol, m.vol.sfree, m.files[k].addr, m.files[k]
    ensures m.files[k].size == old(m.files[k].size) && m.files[k].regular == old(m.files[k].regular)
    ensures m.Valid() && m.rows == old(m.rows)[k := m.rows[k]] && m.vol.peak <= Max(old(m.vol.peak), 2)
    ensures OthersUntouched(old(m.vol.disk), m.vol.disk, m.rows, k)
    ensures err == if at >= BYTE_LIMIT then TooBig else if err == NoSpace then NoSpace else None
    ensures err == NoSpace ==> m.vol.stack == [] && |old(m.vol.stack)| < 4
    ensures err == NoSpace <==> Unmapped(m.vol.disk, m.rows[k], at)
    ensures MappedStay(old(m.vol.disk), old(m.rows[k]), m.vol.disk, m.rows[k], at, |chunk|)
    ensures m.files[k].changed == (old(m.files[k].changed) || m.rows[k] != old(m.rows[k]))
    ensures |m.vol.stack| + 4 >= |old(m.vol.stack)|
    ensures Stored(old(m.vol.disk), old(m.rows[k]), m.vol.disk, m.rows[k], at, chunk, if err == None then |chunk|
                   else 0)
  {
    hide Partitioned, FileLookup, FileKeptWhole, FreeList, Words, Bytes, Patch, Stored, FileBlocks, GrowFile;
    ghost var d0, r0, s0 := m.vol.disk, m.rows, m.vol.stack;
    FileApart(d0, s0, r0, m.vol.isize, m.vol.fsize, k);
    var b, e := m.MapBlock(k, at / BSIZE, true);
    FileApart(m.vol.disk, m.vol.stack, m.rows, m.vol.isize, m.vol.fsize, k);
    GrowStoresNothing(true, d0, s0, r0[k], at / BSIZE, m.vol.disk, m.vol.stack, m.rows[k], b, e, at, m.vol.isize,
                      m.vol.fsize);
    if b < 0 {
      err := NoSpace;
    } else if b == 0 {
      m.vol.GetBlk(0);
      m.vol.Brelse(0);
      assert m.vol.held == {};
      err := TooBig;
    } else {
      ghost var d1, a1 := m.vol.disk, m.rows[k];
      WriteChunk(m, k, at, b, chunk);
      MappedStayOn(d0, r0[k], d1, a1, m.vol.disk, m.rows[k], at, |chunk|, at, 0);
      StoredThenStored(d0, r0[k], d1, a1, m.vol.disk, m.rows[k], at, chunk, 0, chunk);
      KeptTransitive(d0, d1, m.vol.disk, m.rows, m.rows, k);
      err := None;
    }
  }

  /**
   * Writes data at a byte offset of file k. The number of bytes moved is what
   * u_count is lowered by; the first stored of them are in the file.
   */
  method Writei(m: Mount, k: nat, offset: int, data: seq<byte>) returns (moved: nat, ghost stored: nat, err: IOError)
    requires m.Valid() && k < |m.files| && m.files[k].regular
    modifies m`rows, m.vol, m.vol.sfree, m.files[k].addr, m.files[k]
    ensures m.Valid() && m.files[k].regular && m.rows == old(m.rows)[k := m.rows[k]]
    ensures m.vol.peak <= Max(old(m.vol.peak), 2)
    ensures OthersUntouched(old(m.vol.disk), m.vol.disk, m.rows, k)
    ensures stored <= moved <= |data|
    ensures offset < 0 ==> err == Invalid && moved == 0 && m.vol.disk == old(m.vol.disk) && m.rows == old(m.rows)
    ensures 0 <= offset ==> err != Invalid && Stored(old(m.vol.disk), old(m.rows[k]), m.vol.disk, m.rows[k], offset,
                                                     data, stored)
    ensures m.files[k].changed == (old(m.files[k].changed) || m.rows[k] != old(m.rows[k]) || moved > 0)
    ensures MappedStay(old(m.vol.disk), old(m.rows[k]), m.vol.disk, m.rows[k], Max0(offset), |data|)
    ensures err == NoSpace ==> Unmapped(m.vol.disk, m.rows[k], offset + moved)
    ensures err == NoSpace ==> Unmapped(old(m.vol.disk), old(m.rows[k]), offset + moved)
    ensures 0 <= offset ==> AllMapped(m.vol.disk, m.rows[k], offset, stored)
    ensures m.files[k].size == Reach(old(m.files[k].size), offset, moved)
    ensures err == None ==> stored == moved == |data|
    ensures err == NoSpace ==> stored == moved < |data| && offset + stored < BYTE_LIMIT && m.vol.stack == []
    ensures err == NoSpace ==> !Enough(|old(m.vol.stack)|, offset, |data|)
    ensures |m.vol.stack| + 4 * Turns(Max0(offset), |data|) >= |old(m.vol.stack)|
    ensures err == TooBig <==> 0 <= offset && data != [] && stored < moved
    ensures err == TooBig ==> offset + stored == if offset < BYTE_LIMIT then BYTE_LIMIT else offset
    ensures err == TooBig ==> moved == stored + Piece(offset + stored, |data| - stored)
    ensures 0 < stored ==> offset + stored <= BYTE_LIMIT
  {
    hide Partitioned, FileBlocks, FreeList, FileKeptWhole, Stored, OthersUntouched, Apart, Wrote, Turns, MappedStay,
        Unmapped, AllMapped;
    moved, stored, err := 0, 0, None;
    ghost var d0, r0, s0, size0, was := m.vol.disk, m.rows, |m.vol.stack|, m.files[k].size, m.files[k].changed;
    NothingStored(d0, r0, k, data);
    if offset < 0 {
      err := Invalid;
      return;
    }
    WroteNothing(d0, r0[k], size0, s0, offset, data);
    while moved < |data| && err == None
      invariant m.Valid() && m.files[k].regular && |m.rows| == |r0| && m.rows == r0[k := m.rows[k]]
      invariant m.vol.peak <= Max(old(m.vol.peak), 2) && OthersUntouched(d0, m.vol.disk, m.rows, k)
      invariant err == None || err == TooBig
      invariant if moved == 0 then m.rows == r0 && m.files[k].changed == was else m.files[k].changed
      invariant Wrote(d0, r0[k], size0, s0, m.vol.disk, m.rows[k], m.files[k].size, |m.vol.stack|, offset, data, moved,
                      stored, err)
      decreases |data| - moved
    {
      var on := (offset + moved) % BSIZE;
      var n := if BSIZE - on < |data| - moved then BSIZE - on else |data| - moved;
      var chunk := data[moved..moved + n];
      ghost var d1, r1, s1, size1 := m.vol.disk, m.rows, |m.vol.stack|, m.files[k].size;
      WroteMore(d0, r0[k], size0, s0, d1, r1[k], size1, s1, offset, data, moved, stored, n);
      err := WriteTurn(m, k, offset + moved, chunk);
      KeptTransitive(d0, d1, m.vol.disk, r1, m.rows, k);
      WroteTurn(d0, r0[k], size0, s0, d1, r1[k], size1, s1, m.vol.disk, m.rows[k], |m.vol.stack|, offset, data, moved,
                stored, n, err);
      if err == NoSpace {
        return;
      }
      if err == None {
        stored := stored + n;
      }
      moved := moved + n;
      Mark(m, k, offset + moved);
    }
    WroteSays(d0, r0[k], size0, s0, m.vol.disk, m.rows[k], m.files[k].size, |m.vol.stack|, offset, data, moved, stored,
              err);
  }

  /** The size grows as far as was written, and the inode is marked. */
  method Mark(m: Mount, k: nat, end: int)
    requires m.Valid() && k < |m.files|
    modifies m.files[k]
    ensures m.Valid() && m.files[k].changed && m.files[k].regular == old(m.files[k].regular)
    ensures m.files[k].size == if end > old(m.files[k].size) then end else old(m.files[k].size)
  {
    hide Partitioned, FreeList, Apart;
    if end > m.files[k].size {
      m.files[k].size := end;
    }
    m.files[k].changed := true;
  }

  /** Turns of the loop of Writei for n bytes at an offset: the logical blocks that they touch. */
  function Turns(off: nat, n: nat): nat {
    if n == 0 then 0 else (off + n - 1) / BSIZE - off / BSIZE + 1
  }

  lemma TurnsNext(off: nat, moved: nat, n: nat, all: nat)
    requires 0 < n && moved + n <= all && (moved == 0 || (off + moved) % BSIZE == 0)
    requires var on := (off + moved) % BSIZE;
             n == if BSIZE - on < all - moved then BSIZE - on else all - moved
    ensures Turns(off, moved + n) == Turns(off, moved) + 1 <= Turns(off, all)
    ensures moved + n < all ==> (off + moved + n) % BSIZE == 0
  {
  }

  /** What one turn moves of n bytes that are left, from at on. */
  function Piece(at: nat, n: nat): nat {
    if BSIZE - at % BSIZE < n then BSIZE - at % BSIZE else n
  }

  function Max0(x: int): nat {
    if x < 0 then 0 else x
  }

  /** Space enough for any request of n bytes at an offset: four blocks for each logical one, or no need of any. */
  predicate Enough(free: nat, off: nat, n: nat) {
    off >= BYTE_LIMIT || free >= 4 * Turns(off, n)
  }

  /**
   * Where Writei stands, from file a0 of size size0 with free0 blocks to spare, when moved bytes have been
   * moved and the first stored of them stored.
   */
  ghost predicate Wrote(d0: Disk, a0: Addrs, size0: int, free0: nat, d: Disk, a: Addrs, size: int, free: nat,
                        off: nat, data: seq<byte>, moved: nat, stored: nat, err: IOError)
  {
    && stored <= moved <= |data| && Stored(d0, a0, d, a, off, data, stored) && MappedStay(d0, a0, d, a, off, |data|)
    && AllMapped(d, a, off, stored)
    && size == Reach(size0, off, moved) && free + 4 * Turns(off, moved) >= free0
    && (err == None ==> stored == moved && (0 < moved ==> off + moved <= BYTE_LIMIT)
                        && (moved == 0 || moved == |data| || (off + moved) % BSIZE == 0))
    && (err == TooBig ==> stored < moved == stored + Piece(off + stored, |data| - stored)
                          && off + stored == if off < BYTE_LIMIT then BYTE_LIMIT else off)
  }

  lemma MappedMore(d: Disk, a: Addrs, off: nat, n: nat, more: nat)
    requires AllMapped(d, a, off, n) && AllMapped(d, a, off + n, more)
    ensures AllMapped(d, a, off, n + more)
  {
    hide Unmapped;
  }

  lemma WroteNothing(d: Disk, a: Addrs, size: int, free: nat, off: nat, data: seq<byte>)
    requires Stored(d, a, d, a, off, data, 0)
    ensures Wrote(d, a, size, free, d, a, size, free, off, data, 0, 0, None)
  {
  }

  /** What the next turn may count on. */
  lemma WroteMore(d0: Disk, a0: Addrs, size0: int, free0: nat, d: Disk, a: Addrs, size: int, free: nat,
                  off: nat, data: seq<byte>, moved: nat, stored: nat, n: nat)
    requires Wrote(d0, a0, size0, free0, d, a, size, free, off, data, moved, stored, None) && moved < |data|
    requires var on := (off + moved) % BSIZE;
             n == if BSIZE - on < |data| - moved then BSIZE - on else |data| - moved
    ensures 0 < n && moved + n <= |data| && (off + moved) % BSIZE + n <= BSIZE
  {
    hide AllMapped, Unmapped, MappedStay, Stored, Turns;
  }

  /** What a turn adds; without space there are too few blocks for all of the request. */
  lemma WroteTurn(d0: Disk, a0: Addrs, size0: int, free0: nat, d1: Disk, a1: Addrs, size1: int, free1: nat, d: Disk,
                  a: Addrs,
                  free: nat, off: nat, data: seq<byte>, moved: nat, stored: nat, n: nat, err: IOError)
    requires Wrote(d0, a0, size0, free0, d1, a1, size1, free1, off, data, moved, stored, None)
    requires 0 < n && moved + n <= |data| && (off + moved) % BSIZE + n <= BSIZE
    requires var on := (off + moved) % BSIZE;
             n == if BSIZE - on < |data| - moved then BSIZE - on else |data| - moved
    requires Stored(d1, a1, d, a, off + moved, data[moved..moved + n], if err == None then n else 0)
    requires MappedStay(d1, a1, d, a, off + moved, n) && (err == NoSpace <==> Unmapped(d, a, off + moved))
    ensures MappedStay(d0, a0, d, a, off, |data|) && AllMapped(d, a, off, stored)
    ensures err == NoSpace ==> Unmapped(d0, a0, off + moved)
    requires err == if off + moved >= BYTE_LIMIT then TooBig else if err == NoSpace then NoSpace else None
    requires free + 4 >= free1 && (err == NoSpace ==> free1 < 4)
    ensures err == NoSpace ==>
              && Stored(d0, a0, d, a, off, data, stored) && stored == moved && off + moved < BYTE_LIMIT
              && size1 == Reach(size0, off, moved) && !Enough(free0, off, |data|)
              && free + 4 * Turns(off, |data|) >= free0
    ensures err != NoSpace ==>
              Wrote(d0, a0, size0, free0, d, a, if off + moved + n > size1 then off + moved + n else size1, free,
                    off, data, moved + n, if err == None then stored + n else stored, err)
  {
    hide AllMapped, Unmapped, MappedStay, Stored, Turns;
    MappedStayOn(d0, a0, d1, a1, d, a, off, |data|, off + moved, n);
    MappedGrows(d0, a0, d, a, off, stored, off, |data|);
    MappedGrows(d1, a1, d, a, off, stored, off + moved, n);
    if err == None {
      SameBlockMapped(d, a, off + moved, n);
      MappedMore(d, a, off, stored, n);
    }
    TurnsNext(off, moved, n, |data|);
    WithinBlock(off + moved, n);
    if err == None {
      StoredThenStored(d0, a0, d1, a1, d, a, off, data, stored, data[moved..moved + n]);
    } else {
      StoredThenNothing(d0, a0, d1, a1, d, a, off, data, stored, data[moved..moved + n]);
    }
  }

  lemma WroteSays(d0: Disk, a0: Addrs, size0: int, free0: nat, d: Disk, a: Addrs, size: int, free: nat,
                  off: nat, data: seq<byte>, moved: nat, stored: nat, err: IOError)
    requires Wrote(d0, a0, size0, free0, d, a, size, free, off, data, moved, stored, err)
    requires (err == None && moved >= |data|) || err == TooBig
    ensures MappedStay(d0, a0, d, a, off, |data|) && AllMapped(d, a, off, stored)
    ensures stored <= moved <= |data| && Stored(d0, a0, d, a, off, data, stored) && size == Reach(size0, off, moved)
    ensures err == None ==> stored == moved == |data|
    ensures err == TooBig <==> data != [] && stored < moved
    ensures err == TooBig ==> off + stored == if off < BYTE_LIMIT then BYTE_LIMIT else off
    ensures err == TooBig ==> moved == stored + Piece(off + stored, |data| - stored)
    ensures 0 < stored ==> off + stored <= BYTE_LIMIT
    ensures free + 4 * Turns(off, |data|) >= free0
  {
    hide AllMapped, Unmapped, MappedStay, Stored;
  }

  /**
   * A request that ends within the addressable range is stored as far as it is moved. With blocks enough, that is
   * so if and only if it ends there: out of the range Bmap answers 0, which Writei does not tell from a block number.
   */
  method WriteWithSpace(m: Mount, k: nat, offset: nat, data: seq<byte>)
         returns (moved: nat, ghost stored: nat, err: IOError)
    requires m.Valid() && k < |m.files| && m.files[k].regular && data != []
    modifies m`rows, m.vol, m.vol.sfree, m.files[k].addr, m.files[k]
    ensures m.Valid() && stored <= moved <= |data|
    ensures Stored(old(m.vol.disk), old(m.rows[k]), m.vol.disk, m.rows[k], offset, data, stored)
    ensures offset + |data| <= BYTE_LIMIT ==> stored == moved
    ensures Enough(|old(m.vol.stack)|, offset, |data|) ==>
            err != NoSpace && (stored == moved <==> offset + |data| <= BYTE_LIMIT)
    ensures Enough(|old(m.vol.stack)|, offset, |data|) && offset + |data| <= BYTE_LIMIT ==> moved == |data|
    ensures Enough(|old(m.vol.stack)|, offset, |data|) && offset + |data| > BYTE_LIMIT ==>
              stored < moved && err == TooBig && m.files[k].size > BYTE_LIMIT
  {
    hide Enough;
    moved, stored, err := Writei(m, k, offset, data);
  }

  /** Bytes that all have blocks are moved whole, as far as they can be addressed, on a full volume as well. */
  method Rewrite(m: Mount, k: nat, offset: nat, data: seq<byte>) returns (moved: nat, ghost stored: nat, err: IOError)
    requires m.Valid() && k < |m.files| && m.files[k].regular
    requires AllMapped(m.vol.disk, m.rows[k], offset, |data|)
    modifies m`rows, m.vol, m.vol.sfree, m.files[k].addr, m.files[k]
    ensures m.Valid() && stored <= moved <= |data| && err != NoSpace
    ensures Stored(old(m.vol.disk), old(m.rows[k]), m.vol.disk, m.rows[k], offset, data, stored)
    ensures offset + |data| <= BYTE_LIMIT ==> err == None && stored == moved == |data|
  {
    hide Stored, Enough, Unmapped;
    moved, stored, err := Writei(m, k, offset, data);
  }

  /** One byte written at the limit is counted as moved, stored nowhere, and included in the size. */
  method WriteAtLimit(m: Mount, k: nat, x: byte) returns (moved: nat, err: IOError)
    requires m.Valid() && k < |m.files| && m.files[k].regular
    modifies m`rows, m.vol, m.vol.sfree, m.files[k].addr, m.files[k]
    ensures m.Valid() && err == TooBig && moved == 1 && m.files[k].size > BYTE_LIMIT
    ensures forall i: nat :: i < BYTE_LIMIT ==>
              FileByte(m.vol.disk, m.rows[k], i) == old(FileByte(m.vol.disk, m.rows[k], i))
  {
    hide FileByte;
    ghost var stored;
    moved, stored, err := Writei(m, k, BYTE_LIMIT, [x]);
    assert stored == 0;
  }

  /** The size of a file after moving n bytes at an offset. */
  function Reach(size: int, offset: int, n: nat): int {
    if 0 < n && size < offset + n then offset + n else size
  }

  lemma WithinBlock(at: nat, n: nat)
    requires at % BSIZE + n <= BSIZE
    ensures at < BYTE_LIMIT ==> at + n <= BYTE_LIMIT
  {
    var q := at / BSIZE;
    assert at == BSIZE * q + at % BSIZE;
  }

  lemma NothingStored(d: Disk, rows: seq<Addrs>, k: nat, data: seq<byte>)
    requires k < |rows|
    ensures OthersUntouched(d, d, rows, k) && forall off: nat :: Stored(d, rows[k], d, rows[k], off, data, 0)
    ensures forall off: nat, n: nat :: MappedStay(d, rows[k], d, rows[k], off, n)
  {
    hide FileByte;
  }

  lemma StoredThenNothing(d: Disk, a: Addrs, e: Disk, a': Addrs, f: Disk, a'': Addrs,
                          off: nat, data: seq<byte>, n: nat, chunk: seq<byte>)
    requires n <= |data| && Stored(d, a, e, a', off, data, n) && Stored(e, a', f, a'', off + n, chunk, 0)
    ensures Stored(d, a, f, a'', off, data, n)
  {
    hide FileByte;
    forall i: nat | i < BYTE_LIMIT
      ensures FileByte(f, a'', i) == if off <= i < off + n then data[i - off] else FileByte(d, a, i)
    {
      assert FileByte(f, a'', i) == FileByte(e, a', i);
    }
  }

  /** Reads up to count bytes at an offset of file k; reading past the end of the file yields what there is. */
  method Readi(m: Mount, k: nat, offset: int, count: nat) returns (data: seq<byte>, err: IOError)
    requires m.Valid() && k < |m.files| && m.files[k].regular
    modifies m`rows, m.vol, m.vol.sfree, m.files[k].addr, m.files[k]
    ensures m.files[k].changed == old(m.files[k].changed)
    ensures m.Valid() && m.rows == old(m.rows) && m.vol.disk == old(m.vol.disk) && m.vol.stack == old(m.vol.stack)
    ensures m.files[k].size == old(m.files[k].size) && m.files[k].regular && m.vol.peak <= Max(old(m.vol.peak), 2)
    ensures err == Invalid <==> offset < 0 && 0 < count
    ensures err == TooBig <==>
            0 < count && 0 <= offset < m.files[k].size && BYTE_LIMIT < m.files[k].size && BYTE_LIMIT < offset + count
    ensures err != NoSpace
    ensures |data| == if offset < 0 then 0 else Available(m.files[k].size, offset, count)
    ensures forall i :: 0 <= i < |data| ==> data[i] == FileByte(m.vol.disk, m.rows[k], offset + i)
  {
    hide Partitioned, FileBlocks, FreeList, FileKeptWhole, OthersUntouched, Apart, FileByte, MapDone;
    data, err := [], None;
    if count == 0 {
      return;
    }
    if offset < 0 {
      err := Invalid;
      return;
    }
    var more := true;
    while more
      invariant m.files[k].changed == old(m.files[k].changed)
      invariant m.Valid() && m.rows == old(m.rows) && m.vol.disk == old(m.vol.disk) && m.vol.stack == old(m.vol.stack)
      invariant m.files[k].size == old(m.files[k].size) && m.files[k].regular && m.vol.peak <= Max(old(m.vol.peak), 2)
      invariant |data| <= Available(m.files[k].size, offset, count)
      invariant forall i :: 0 <= i < |data| ==> data[i] == FileByte(m.vol.disk, m.rows[k], offset + i)
      invariant err == None && more == (|data| < count)
      decreases count - |data|, more
    {
      var at := offset + |data|;
      var on := at % BSIZE;
      var n := if BSIZE - on < count - |data| then BSIZE - on else count - |data|;
      var diff := m.files[k].size - at;
      if diff <= 0 {
        return;
      }
      if diff < n {
        n := diff;
      }
      var chunk, e := ReadTurn(m, k, at, n);
      if e == TooBig {
        err := TooBig;
        return;
      }
      WithinBlock(at, n);
      data := data + chunk;
      more := |data| < count;
    }
  }

  /** Bytes of a file between an offset and the end of a request, of the file, or of what can be addressed. */
  function Available(size: int, offset: nat, count: nat): nat {
    var hi := if offset + count < size then offset + count else size;
    var end := if hi < BYTE_LIMIT then hi else BYTE_LIMIT;
    if offset < end then end - offset else 0
  }

  /** One turn of the loop of Readi. */
  method ReadTurn(m: Mount, k: nat, at: nat, n: nat) returns (chunk: seq<byte>, err: IOError)
    requires m.Valid() && k < |m.files| && at % BSIZE + n <= BSIZE
    modifies m`rows, m.vol, m.vol.sfree, m.files[k].addr, m.files[k]
    ensures m.files[k].changed == old(m.files[k].changed)
    ensures m.Valid() && m.rows == old(m.rows) && m.vol.disk == old(m.vol.disk) && m.vol.stack == old(m.vol.stack)
    ensures m.files[k].size == old(m.files[k].size) && m.files[k].regular == old(m.files[k].regular)
    ensures m.vol.peak <= Max(old(m.vol.peak), 2)
    ensures err == if at < BYTE_LIMIT then None else TooBig
    ensures at < BYTE_LIMIT ==> |chunk| == n && at + n <= BYTE_LIMIT
    ensures at < BYTE_LIMIT ==> forall i :: 0 <= i < n ==> chunk[i] == FileByte(m.vol.disk, m.rows[k], at + i)
  {
    hide Partitioned, FileBlocks, FreeList, FileKeptWhole, OthersUntouched, Apart, GrowFile, FileLookup, Words, Bytes;
    FileApart(m.vol.disk, m.vol.stack, m.rows, m.vol.isize, m.vol.fsize, k);
    var b, e := m.MapBlock(k, at / BSIZE, false);
    WithinBlock(at, n);
    chunk := [];
    if e == EFBIG {
      err := TooBig;
      return;
    }
    err := None;
    var bp := ZeroBlock();
    if b < 0 {
      // an empty buffer, cleared
    } else {
      bp := m.vol.Bread(b);
      m.vol.Brelse(b);
      assert m.vol.held == {};
    }
    chunk := Bytes(bp)[at % BSIZE..at % BSIZE + n];
    ReadBytes(m.vol.disk, m.rows[k], at, n, m.vol.isize, m.vol.fsize, bp, chunk);
  }

  lemma ReadBytes(d: Disk, addr: Addrs, at: nat, n: nat, lo: int, hi: int, bp: Block, chunk: seq<byte>)
    requires at < BYTE_LIMIT && at % BSIZE + n <= BSIZE && at + n <= BYTE_LIMIT
    requires Distinct(FileBlocks(d, addr)) && Within(FileBlocks(d, addr), lo, hi) && 0 < lo
    requires var b := FileLookup(d, addr, at / BSIZE);
             bp == if b <= 0 then ZeroBlock() else Words(d, b)
    requires chunk == Bytes(bp)[at % BSIZE..at % BSIZE + n]
    ensures forall i :: 0 <= i < n ==> chunk[i] == FileByte(d, addr, at + i)
  {
    hide FileBlocks, FileLookup, Bytes, Words, FileByte, ZeroBlock;
    forall i | 0 <= i < n
      ensures chunk[i] == FileByte(d, addr, at + i)
    {
      SameBlock(at, at + i, n);
      ByteInBlock(d, addr, at + i, lo, hi);
    }
  }

  lemma ByteInBlock(d: Disk, addr: Addrs, i: nat, lo: int, hi: int)
    requires i < BYTE_LIMIT && Distinct(FileBlocks(d, addr)) && Within(FileBlocks(d, addr), lo, hi) && 0 < lo
    ensures var b := FileLookup(d, addr, i / BSIZE);
            FileByte(d, addr, i) == Bytes(if b <= 0 then ZeroBlock() else Words(d, b))[i % BSIZE]
  {
    hide FileBlocks, FileLookup, Bytes, Words;
    var b := FileLookup(d, addr, i / BSIZE);
    if b != 0 {
      FileLookupIsData(d, addr, i / BSIZE);
    } else {
      ZeroBytes(i % BSIZE);
    }
  }

  // ---------------------------------------------------------------------------
  // Arrays of bytes.

  function ZeroBytesOf(n: nat): (s: seq<byte>)
    ensures |s| == n && forall i :: 0 <= i < n ==> s[i] == 0
  {
    seq(n, _ => 0)
  }

  /** data put at offset off of a byte array, which grows with zeros as far as needed. */
  function Overwrite(s: seq<byte>, off: nat, data: seq<byte>): (t: seq<byte>)
    ensures |t| == if data == [] || off + |data| < |s| then |s| else off + |data|
    ensures forall i :: 0 <= i < |t| ==>
            t[i] == if off <= i < off + |data| then data[i - off] else if i < |s| then s[i] else 0
  {
    if data == [] then s
    else
      var t := if |s| < off + |data| then s + ZeroBytesOf(off + |data| - |s|) else s;
      t[..off] + data + t[off + |data|..]
  }
}
