/**
 * All files of one volume together: every block of the data area is either free
 * or part of exactly one file, whatever the block layer does.
 */
module FileSystem {
  import opened Sequences
  import opened BlockTree
  import opened BlockLayer
  import opened Layout

  /** How often each block occurs in the trees of the files. */
  ghost function Census(d: Disk, rows: seq<Addrs>): multiset<int> {
    if rows == [] then multiset{} else multiset(FileBlocks(d, rows[0])) + Census(d, rows[1..])
  }

  /** Every block of the data area is free once or in one file once; no other block is either. */
  ghost predicate Partitioned(d: Disk, stack: seq<int>, rows: seq<Addrs>, lo: int, hi: int) {
    forall b :: multiset(stack)[b] + Census(d, rows)[b] == if lo <= b < hi then 1 else 0
  }

  function Without<T>(s: seq<T>, k: nat): seq<T>
    requires k < |s|
  {
    s[..k] + s[k + 1..]
  }

  lemma {:induction false} CensusSplit(d: Disk, rows: seq<Addrs>, k: nat)
    requires k < |rows|
    ensures Census(d, rows) == multiset(FileBlocks(d, rows[k])) + Census(d, Without(rows, k))
  {
    hide FileBlocks;
    if k == 0 {
      assert Without(rows, 0) == rows[1..];
    } else {
      CensusSplit(d, rows[1..], k - 1);
      var rest := Without(rows, k);
      assert rest == [rows[0]] + Without(rows[1..], k - 1);
      assert rest[1..] == Without(rows[1..], k - 1);
      assert Census(d, rest) == multiset(FileBlocks(d, rows[0])) + Census(d, rest[1..]);
    }
  }

  lemma {:induction false} CensusFrame(d: Disk, e: Disk, rows: seq<Addrs>)
    requires forall r :: r in rows ==> FileBlocks(e, r) == FileBlocks(d, r)
    ensures Census(e, rows) == Census(d, rows)
  {
    if rows != [] {
      CensusFrame(d, e, rows[1..]);
    }
  }

  lemma {:induction false} CensusMember(d: Disk, rows: seq<Addrs>, r: Addrs, b: int)
    requires r in rows && b in FileBlocks(d, r)
    ensures Census(d, rows)[b] > 0
  {
    if r == rows[0] {
      assert b in multiset(FileBlocks(d, r));
    } else {
      CensusMember(d, rows[1..], r, b);
    }
  }

  /** What the partition says about one file, */
  lemma FileApart(d: Disk, stack: seq<int>, rows: seq<Addrs>, lo: int, hi: int, k: nat)
    requires 0 < lo && k < |rows| && Partitioned(d, stack, rows, lo, hi)
    ensures Separate(d, stack, FileBlocks(d, rows[k]))
    ensures Within(FileBlocks(d, rows[k]), lo, hi) && Within(stack, lo, hi)
  {
    hide PreRange, Census;
    CensusSplit(d, rows, k);
    var f, others := FileBlocks(d, rows[k]), Census(d, Without(rows, k));
    assert forall b :: multiset(stack)[b] + multiset(f)[b] + others[b] == if lo <= b < hi then 1 else 0;
    CountsApart(stack, f, lo, hi);
  }

  /** and about every other one. */
  lemma OthersApart(d: Disk, stack: seq<int>, rows: seq<Addrs>, lo: int, hi: int, k: nat)
    requires k < |rows| && Partitioned(d, stack, rows, lo, hi)
    ensures forall r :: r in Without(rows, k) ==> Disjoint(FileBlocks(d, rows[k]), FileBlocks(d, r))
    ensures forall r :: r in Without(rows, k) ==> Disjoint(FileBlocks(d, r), stack)
  {
    hide PreRange, Census;
    CensusSplit(d, rows, k);
    var f, others := FileBlocks(d, rows[k]), Census(d, Without(rows, k));
    forall r, b | r in Without(rows, k) && b in FileBlocks(d, r)
      ensures b !in f && b !in stack
    {
      CensusMember(d, Without(rows, k), r, b);
      assert multiset(stack)[b] + multiset(f)[b] + others[b] <= 1;
      assert b in f <==> multiset(f)[b] > 0;
      assert b in stack <==> multiset(stack)[b] > 0;
    }
  }

  lemma CountsApart(s: seq<int>, t: seq<int>, lo: int, hi: int)
    requires 0 < lo && forall b :: multiset(s)[b] + multiset(t)[b] <= if lo <= b < hi then 1 else 0
    ensures Distinct(s) && Distinct(t) && Disjoint(t, s) && 0 !in s && Within(s, lo, hi) && Within(t, lo, hi)
  {
    DistinctCounts(s);
    DistinctCounts(t);
    assert forall b :: multiset(s)[b] <= 1;
    assert forall b :: multiset(t)[b] <= 1;
    assert forall b :: b in s <==> multiset(s)[b] > 0;
    assert forall b :: b in t <==> multiset(t)[b] > 0;
  }

  /** Files other than k keep their blocks when only blocks of k and free blocks are written. */
  lemma OthersKept(d: Disk, e: Disk, stack: seq<int>, rows: seq<Addrs>, lo: int, hi: int, k: nat)
    requires 0 < lo && k < |rows| && Partitioned(d, stack, rows, lo, hi)
    requires forall x :: x !in FileBlocks(d, rows[k]) && x !in stack ==> Words(e, x) == Words(d, x)
    ensures forall r :: r in Without(rows, k) ==> FileKeptWhole(d, e, r)
  {
    hide PreRange, Words, Partitioned;
    OthersApart(d, stack, rows, lo, hi, k);
    forall r | r in Without(rows, k)
      ensures FileKeptWhole(d, e, r)
    {
      assert forall x :: x in FileBlocks(d, r) ==> Words(e, x) == Words(d, x);
      MetaRangeInPre(d, r, Inode, 0, NADDR);
      RangeFrame(d, e, r, Inode, 0, NADDR);
    }
  }

  /** A file keeps its blocks and their contents, hence every logical block its physical one. */
  ghost predicate FileKeptWhole(d: Disk, e: Disk, r: Addrs) {
    && FileBlocks(e, r) == FileBlocks(d, r) && FileMeta(e, r) == FileMeta(d, r)
    && forall x :: x in FileBlocks(d, r) ==> Words(e, x) == Words(d, x)
  }

  lemma CensusUpdate(d: Disk, e: Disk, rows: seq<Addrs>, k: nat, addr: Addrs)
    requires k < |rows| && forall r :: r in Without(rows, k) ==> FileBlocks(e, r) == FileBlocks(d, r)
    ensures Census(e, rows[k := addr]) + multiset(FileBlocks(d, rows[k])) == Census(d, rows)
            + multiset(FileBlocks(e, addr))
  {
    hide PreRange, Census;
    CensusSplit(d, rows, k);
    CensusSplit(e, rows[k := addr], k);
    assert Without(rows[k := addr], k) == Without(rows, k);
    CensusFrame(d, e, Without(rows, k));
  }

  /** Growing one file keeps the partition and all other files. */
  lemma GrowKeepsPartition(d: Disk, stack: seq<int>, rows: seq<Addrs>, lo: int, hi: int, k: nat, lbn: nat)
    requires 0 < lo && k < |rows| && lbn < FILE_LIMIT && Partitioned(d, stack, rows, lo, hi)
    ensures var r := GrowFile(d, stack, rows[k], lbn);
            && FileGrowSpec(d, stack, rows[k], lbn, r)
            && Partitioned(r.g.d, r.g.free, rows[k := r.addr], lo, hi)
            && (forall o :: o in Without(rows, k) ==> FileKeptWhole(d, r.g.d, o))
  {
    hide PreRange, Census, GrowFile, Words, FileKeptWhole, FileOthers, FileOutcome;
    FileApart(d, stack, rows, lo, hi, k);
    FileGrowCorrect(d, stack, rows[k], lbn);
    var r := GrowFile(d, stack, rows[k], lbn);
    TakenFromFree(stack, r.g.free, r.g.taken);
    MetaRangeInPre(d, rows[k], Inode, 0, NADDR);
    assert forall x :: x !in FileBlocks(d, rows[k]) && x !in stack ==> Words(r.g.d, x) == Words(d, x);
    OthersKept(d, r.g.d, stack, rows, lo, hi, k);
    CensusAfterGrowth(d, stack, rows, lo, hi, k, r);
  }

  /** Blocks moved between the free list and one file cancel out. */
  lemma CountsBalance(free: multiset<int>, all: multiset<int>, file: multiset<int>,
                      free': multiset<int>, all': multiset<int>, file': multiset<int>,
                      freed: multiset<int>, taken: multiset<int>)
    requires free' + taken == free + freed && file' + freed == file + taken && all' + file == all + file'
    ensures forall b :: free'[b] + all'[b] == free[b] + all[b]
  {
    forall b
      ensures free'[b] + all'[b] == free[b] + all[b]
    {
      assert (free' + taken)[b] == (free + freed)[b];
      assert (file' + freed)[b] == (file + taken)[b];
      assert (all' + file)[b] == (all + file')[b];
    }
  }

  lemma CensusAfterGrowth(d: Disk, stack: seq<int>, rows: seq<Addrs>, lo: int, hi: int, k: nat, r: FileGrown)
    requires k < |rows| && Partitioned(d, stack, rows, lo, hi) && FileGains(d, stack, rows[k], r)
    requires forall o :: o in Without(rows, k) ==> FileKeptWhole(d, r.g.d, o)
    ensures Partitioned(r.g.d, r.g.free, rows[k := r.addr], lo, hi)
  {
    hide PreRange, Census;
    CensusUpdate(d, r.g.d, rows, k, r.addr);
    RevMultiset(r.g.taken);
    assert multiset(stack) == multiset(r.g.free) + multiset(r.g.taken);
    CountsBalance(multiset(stack), Census(d, rows), multiset(FileBlocks(d, rows[k])),
                  multiset(r.g.free), Census(r.g.d, rows[k := r.addr]), multiset(FileBlocks(r.g.d, r.addr)),
                  multiset{}, multiset(r.g.taken));
  }

  /** So does truncating it. */
  lemma TruncateKeepsPartition(d: Disk, e: Disk, stack: seq<int>, rows: seq<Addrs>, lo: int, hi: int, k: nat)
    requires 0 < lo && k < |rows| && Partitioned(d, stack, rows, lo, hi)
    requires Unchanged(d, e, FileBlocks(d, rows[k]))
    ensures FileBlocks(e, Zeros(NADDR)) == []
    ensures Partitioned(e, stack + Rev(FileBlocks(d, rows[k])), rows[k := Zeros(NADDR)], lo, hi)
    ensures forall o :: o in Without(rows, k) ==> FileKeptWhole(d, e, o)
  {
    hide PreRange, Census, Words, FileKeptWhole;
    OthersKept(d, e, stack, rows, lo, hi, k);
    ZeroRange(e, Zeros(NADDR), Inode, 0, NADDR);
    CensusAfterTruncation(d, e, stack, rows, lo, hi, k);
  }

  lemma CensusAfterTruncation(d: Disk, e: Disk, stack: seq<int>, rows: seq<Addrs>, lo: int, hi: int, k: nat)
    requires k < |rows| && Partitioned(d, stack, rows, lo, hi) && FileBlocks(e, Zeros(NADDR)) == []
    requires forall o :: o in Without(rows, k) ==> FileKeptWhole(d, e, o)
    ensures Partitioned(e, stack + Rev(FileBlocks(d, rows[k])), rows[k := Zeros(NADDR)], lo, hi)
  {
    hide PreRange, Census;
    CensusUpdate(d, e, rows, k, Zeros(NADDR));
    RevMultiset(FileBlocks(d, rows[k]));
    CountsBalance(multiset(stack), Census(d, rows), multiset(FileBlocks(d, rows[k])),
                  multiset(stack + Rev(FileBlocks(d, rows[k]))), Census(e, rows[k := Zeros(NADDR)]), multiset{},
                  multiset(FileBlocks(d, rows[k])), multiset{});
  }

  lemma MapKeepsPartition(write: bool, d: Disk, stack: seq<int>, rows: seq<Addrs>, lo: int, hi: int, k: nat, lbn: int,
                          e: Disk, stack': seq<int>, addr': Addrs, r: int, err: Errno)
    requires 0 < lo && k < |rows| && Partitioned(d, stack, rows, lo, hi)
    requires MapDone(write, d, stack, rows[k], lbn, e, stack', addr', r, err)
    ensures Partitioned(e, stack', rows[k := addr'], lo, hi)
    ensures forall i :: 0 <= i < |rows| && i != k ==> FileKeptWhole(d, e, rows[i])
  {
    hide Partitioned, Words, FileBlocks, FileGrowSpec, GrowFile, FileLookup;
    if write && 0 <= lbn < FILE_LIMIT {
      GrowKeepsPartition(d, stack, rows, lo, hi, k, lbn);
      MembersWithout(rows, k);
    } else {
      assert rows[k := addr'] == rows;
    }
  }

  // ---------------------------------------------------------------------------
  // The mounted volume.

  /** Distinct inodes with distinct address arrays. */
  ghost predicate Apart(sfree: array<int>, files: seq<FileInode>) {
    && (forall i :: 0 <= i < |files| ==> files[i].addr != sfree && files[i].addr.Length == NADDR)
    && (forall i, j :: 0 <= i < |files| && 0 <= j < |files| && i != j ==>
        files[i] != files[j] && files[i].addr != files[j].addr)
  }

  class Mount {
    const vol: Volume
    const files: seq<FileInode>
    ghost var rows: seq<Addrs>

    ghost predicate Valid()
      reads this, vol, vol.sfree, files, set f | f in files :: f.addr
    {
      Holding({})
    }

    /** The same while the buffers of some blocks are busy. */
    ghost predicate Holding(busy: set<int>)
      reads this, vol, vol.sfree, files, set f | f in files :: f.addr
    {
      && vol.FreeOk() && vol.held == busy && Apart(vol.sfree, files)
      && |rows| == |files| && (forall i :: 0 <= i < |files| ==> files[i].addr[..] == rows[i])
      && Partitioned(vol.disk, vol.stack, rows, vol.isize, vol.fsize)
    }

    constructor (v: Volume, fs: seq<FileInode>, ghost rs: seq<Addrs>)
      requires v.FreeOk() && v.held == {}
      requires Apart(v.sfree, fs) && |rs| == |fs| && forall i :: 0 <= i < |fs| ==> fs[i].addr[..] == rs[i]
      requires Partitioned(v.disk, v.stack, rs, v.isize, v.fsize)
      ensures Valid() && vol == v && files == fs && rows == rs
    {
      vol, files, rows := v, fs, rs;
    }

    /** Records the addresses of file k, the only ones that changed. */
    ghost method Commit(k: nat)
      requires vol.FreeOk() && vol.held == {} && Apart(vol.sfree, files)
      requires |rows| == |files| && k < |files| && forall i :: 0 <= i < |files| && i != k ==>
               files[i].addr[..] == rows[i]
      requires Partitioned(vol.disk, vol.stack, rows[k := files[k].addr[..]], vol.isize, vol.fsize)
      modifies this`rows
      ensures Valid() && rows == old(rows)[k := files[k].addr[..]]
    {
      hide Partitioned, FreeList;
      rows := rows[k := files[k].addr[..]];
    }

    /** Bmap on file k, seen from the whole volume. */
    method MapBlock(k: nat, lbn: int, write: bool) returns (r: int, err: Errno)
      requires Valid() && k < |files|
      modifies this`rows, vol, vol.sfree, files[k].addr, files[k]
      ensures Valid() && vol.peak <= Max(old(vol.peak), 2)
      ensures files[k].size == old(files[k].size) && files[k].regular == old(files[k].regular)
      ensures |rows| == |files| && rows == old(rows)[k := rows[k]]
      ensures forall i :: 0 <= i < |files| && i != k ==> FileKeptWhole(old(vol.disk), vol.disk, rows[i])
      ensures MapDone(write, old(vol.disk), old(vol.stack), old(rows[k]), lbn, vol.disk, vol.stack, rows[k], r, err)
      ensures files[k].changed == (old(files[k].changed) || rows[k] != old(rows[k]))
    {
      hide Partitioned, MapDone, FileBlocks, FreeList, FileKeptWhole, Apart;
      ghost var d0, s0, r0 := vol.disk, vol.stack, rows;
      r, err := BmapOf(k, lbn, write);
      MapKeepsPartition(write, d0, s0, r0, vol.isize, vol.fsize, k, lbn, vol.disk, vol.stack, files[k].addr[..], r,
                        err);
      Commit(k);
    }

    /** Bmap on file k, its addresses not yet recorded. */
    method BmapOf(k: nat, lbn: int, write: bool) returns (r: int, err: Errno)
      requires Valid() && k < |files|
      modifies vol, vol.sfree, files[k].addr, files[k]
      ensures vol.FreeOk() && vol.held == {} && vol.peak <= Max(old(vol.peak), 2)
      ensures files[k].size == old(files[k].size) && files[k].regular == old(files[k].regular)
      ensures forall i :: 0 <= i < |files| && i != k ==> files[i].addr[..] == rows[i]
      ensures files[k].addr.Length == NADDR
      ensures MapDone(write, old(vol.disk), old(vol.stack), rows[k], lbn, vol.disk, vol.stack, files[k].addr[..], r,
                      err)
      ensures files[k].changed == (old(files[k].changed) || files[k].addr[..] != rows[k])
    {
      hide Partitioned, MapDone, Words, FileBlocks, FreeList, Separate;
      FileApart(vol.disk, vol.stack, rows, vol.isize, vol.fsize, k);
      r, err := vol.Bmap(files[k], lbn, write);
    }

    /** Writes a busy buffer back to a block that is not free. */
    method WriteBack(b: int, buf: Block)
      requires Holding({b}) && b !in vol.stack
      requires Partitioned(vol.disk[b := buf], vol.stack, rows, vol.isize, vol.fsize)
      modifies vol`disk, vol`held
      ensures Valid() && vol.disk == old(vol.disk)[b := buf]
    {
      hide Partitioned, FreeList;
      FreeListWrite(vol.disk, vol.sfree[..vol.nfree], vol.stack, vol.isize, vol.fsize, b, buf);
      vol.Bdwrite(b, buf);
      assert vol.held == {};
    }

    /** Itrunc on file k, seen from the whole volume. */
    method Truncate(k: nat)
      requires Valid() && k < |files| && files[k].regular
      modifies this`rows, vol, vol.sfree, files[k].addr, files[k]
      ensures Valid() && vol.peak <= Max(old(vol.peak), 2)
      ensures rows == old(rows)[k := Zeros(NADDR)] && files[k].size == 0 && files[k].regular && files[k].changed
      ensures vol.stack == old(vol.stack) + Rev(old(FileBlocks(vol.disk, rows[k])))
      ensures forall i :: 0 <= i < |files| && i != k ==> FileKeptWhole(old(vol.disk), vol.disk, rows[i])
      ensures Unchanged(old(vol.disk), vol.disk, old(FileBlocks(vol.disk, rows[k])))
    {
      hide Partitioned, FileBlocks, FreeList, FileKeptWhole, Unchanged, Rev, Apart;
      ghost var d0, s0, r0 := vol.disk, vol.stack, rows;
      ItruncOf(k);
      TruncateKeepsPartition(d0, vol.disk, s0, r0, vol.isize, vol.fsize, k);
      MembersWithout(r0, k);
      Commit(k);
    }

    /** Itrunc on file k, its addresses not yet recorded. */
    method ItruncOf(k: nat)
      requires Valid() && k < |files| && files[k].regular
      modifies vol, vol.sfree, files[k].addr, files[k]
      ensures vol.FreeOk() && vol.held == {} && vol.peak <= Max(old(vol.peak), 2)
      ensures forall i :: 0 <= i < |files| && i != k ==> files[i].addr[..] == rows[i]
      ensures files[k].addr.Length == NADDR && files[k].addr[..] == Zeros(NADDR)
      ensures files[k].size == 0 && files[k].regular && files[k].changed
      ensures vol.stack == old(vol.stack) + Rev(old(FileBlocks(vol.disk, rows[k])))
      ensures Unchanged(old(vol.disk), vol.disk, old(FileBlocks(vol.disk, rows[k])))
    {
      hide Partitioned, FileBlocks, FreeList, Unchanged, Rev;
      FileApart(vol.disk, vol.stack, rows, vol.isize, vol.fsize, k);
      vol.Itrunc(files[k]);
    }

    /**
     * A program that truncates a file without holes and writes its first n
     * blocks again, in order, with no other allocation in between: every data
     * block and every indirect block is back where it was.
     */
    method TruncateAndRefill(k: nat, n: nat) returns (got: seq<int>, ghost stages: seq<Stage>)
      requires Valid() && k < |files| && files[k].regular && n <= FILE_LIMIT
      requires FileFilled(vol.disk, rows[k], n)
      modifies this`rows, vol, vol.sfree, files[k].addr, files[k]
      ensures Valid() && rows == old(rows) && vol.stack == old(vol.stack)
      ensures Refilled(old(vol.disk), old(vol.stack), old(rows[k]), n, got, stages)
      ensures stages[n] == Stage(vol.disk, vol.stack, old(rows[k])) && files[k].size == 0 && files[k].changed
      ensures Agree(old(vol.disk), vol.disk, old(FileMeta(vol.disk, rows[k])))
      ensures forall lbn: nat :: lbn < n ==>
              FileLookup(vol.disk, rows[k], lbn) == old(FileLookup(vol.disk, rows[k], lbn))
    {
      hide Partitioned, FileBlocks, FileMeta, FileFilled, FileLookup, GrowFile, FreeList, Words, Separate, Rev, Zeros,
           GotBlock, Refilling;
      ghost var d0, a0, s0, r0 := vol.disk, rows[k], vol.stack, rows;
      ghost var p := FileBlocks(d0, a0);
      FileApart(d0, s0, rows, vol.isize, vol.fsize, k);
      Truncate(k);
      EmptyFile(vol.disk, s0 + Rev(p), rows[k]);
      got, stages := [], [Stage(vol.disk, vol.stack, rows[k])];
      NothingGot(d0, s0, a0, stages[0]);
      for i := 0 to n
        invariant Valid() && |rows| == |r0| && rows == r0[k := rows[k]]
        invariant |got| == i && |stages| == i + 1 && stages[i] == Stage(vol.disk, vol.stack, rows[k])
        invariant Refilling(d0, s0, a0, i, got, stages)
        invariant forall j: nat :: j < i ==> got[j] == FileLookup(vol.disk, rows[k], j)
        invariant files[k].size == 0 && files[k].changed
        invariant FileFilled(vol.disk, rows[k], i)
        invariant vol.stack + Rev(FileBlocks(vol.disk, rows[k])) == s0 + Rev(p)
      {
        ghost var d, a, s := vol.disk, rows[k], vol.stack;
        FileApart(d, s, rows, vol.isize, vol.fsize, k);
        RefillStep(d0, a0, n, d, a, s, i, s0);
        var b, err := MapBlock(k, i, true);
        OthersStayMapped(d, a, s, i);
        GotIs(d, s, a, i, vol.disk, vol.stack, rows[k], b, err);
        OneMoreGot(d0, s0, a0, i, got, stages, b, Stage(vol.disk, vol.stack, rows[k]));
        got, stages := got + [b], stages + [Stage(vol.disk, vol.stack, rows[k])];
      }
      RefillEnd(d0, a0, vol.disk, rows[k], n, s0, vol.stack);
      assert r0[k := a0] == r0;
      forall lbn: nat | lbn < n
        ensures FileLookup(vol.disk, rows[k], lbn) == FileLookup(d0, a0, lbn)
      {
        FileLookupFrame(d0, vol.disk, a0, lbn);
      }
    }
  }

  lemma MembersWithout<T>(s: seq<T>, k: nat)
    requires k < |s|
    ensures forall i :: 0 <= i < |s| && i != k ==> s[i] in Without(s, k)
  {
    forall i | 0 <= i < |s| && i != k
      ensures s[i] in Without(s, k)
    {
      assert s[i] == Without(s, k)[if i < k then i else i - 1];
    }
  }

  lemma EmptyFile(d: Disk, free: seq<int>, addr: Addrs)
    requires forall i :: 0 <= i < NADDR ==> addr[i] == 0
    ensures FileFilled(d, addr, 0) && FileBlocks(d, addr) == [] && free + Rev(FileBlocks(d, addr)) == free
  {
    hide PreRange, FileFilled;
    ZeroRange(d, addr, Inode, 0, NADDR);
    NoShares(d, addr);
    assert Rev<int>([]) == [];
  }

  lemma NoShares(d: Disk, addr: Addrs)
    requires forall i :: 0 <= i < NADDR ==> addr[i] == 0
    ensures FileFilled(d, addr, 0)
  {
    forall i | 0 <= i < NADDR
      ensures Filled(d, addr[i], Height(Inode, i), FileShare(i, 0))
    {
      assert SlotStart(i) >= 0;
    }
  }

  lemma FileLookupFrame(d: Disk, e: Disk, addr: Addrs, lbn: nat)
    requires lbn < FILE_LIMIT && Agree(d, e, FileMeta(d, addr))
    ensures FileLookup(e, addr, lbn) == FileLookup(d, addr, lbn)
  {
    hide PreRange, MetaRange, SlotOf, OffsetOf;
    SlotInRange(d, addr, Inode, 0, SlotOf(lbn), NADDR);
    LookupFrame(d, e, addr[SlotOf(lbn)], Height(Inode, SlotOf(lbn)), OffsetOf(lbn));
  }

  /** The blocks freed by truncation suffice for writing block i, and come back in order. */
  /** One file and the free blocks, between two steps. */
  datatype Stage = Stage(disk: Disk, free: seq<int>, addr: Addrs)

  /** bmap gives a logical block that had none the block b. */
  ghost predicate GotBlock(s: Stage, lbn: nat, t: Stage, b: int) {
    lbn < FILE_LIMIT && b == FileLookup(t.disk, t.addr, lbn) != 0
    && MapDone(true, s.disk, s.free, s.addr, lbn, t.disk, t.free, t.addr, b, NoError)
  }

  /** The file has been emptied, and its first n logical blocks have been mapped again, one by one. */
  ghost predicate Refilling(d: Disk, free: seq<int>, addr: Addrs, n: nat, got: seq<int>, stages: seq<Stage>) {
    && |stages| == n + 1 && stages[0].addr == Zeros(NADDR) && stages[0].free == free + Rev(FileBlocks(d, addr))
    && |got| == n && forall i :: 0 <= i < n ==> GotBlock(stages[i], i, stages[i + 1], got[i])
  }

  /** They have got the blocks that they had. */
  ghost predicate Refilled(d: Disk, free: seq<int>, addr: Addrs, n: nat, got: seq<int>, stages: seq<Stage>)
    requires n <= FILE_LIMIT
  {
    && Refilling(d, free, addr, n, got, stages)
    && |got| == n && |stages| == n + 1 && forall lbn: nat :: lbn < n ==> got[lbn] == FileLookup(d, addr, lbn)
  }

  lemma NothingGot(d: Disk, free: seq<int>, addr: Addrs, s: Stage)
    requires s.addr == Zeros(NADDR) && s.free == free + Rev(FileBlocks(d, addr))
    ensures Refilling(d, free, addr, 0, [], [s])
  {
  }

  lemma OneMoreGot(d: Disk, free: seq<int>, addr: Addrs, i: nat, got: seq<int>, stages: seq<Stage>, b: int, t: Stage)
    requires Refilling(d, free, addr, i, got, stages) && |stages| == i + 1 && GotBlock(stages[i], i, t, b)
    ensures Refilling(d, free, addr, i + 1, got + [b], stages + [t])
  {
    hide GotBlock, FileBlocks;
  }

  lemma GotIs(d: Disk, free: seq<int>, addr: Addrs, lbn: nat, e: Disk, free': seq<int>, addr': Addrs, b: int,
              err: Errno)
    requires lbn < FILE_LIMIT && MapDone(true, d, free, addr, lbn, e, free', addr', b, err)
    requires GrowFile(d, free, addr, lbn).g.ok
    ensures GotBlock(Stage(d, free, addr), lbn, Stage(e, free', addr'), b) && b == FileLookup(e, addr', lbn)
  {
    hide GrowFile, FileLookup;
  }

  lemma OthersStayMapped(d: Disk, addr: Addrs, free: seq<int>, i: nat)
    requires i < FILE_LIMIT && Separate(d, free, FileBlocks(d, addr))
    ensures var r := GrowFile(d, free, addr, i);
            forall j: nat :: j < FILE_LIMIT && j != i ==> FileLookup(r.g.d, r.addr, j) == FileLookup(d, addr, j)
  {
    hide FileBlocks, GrowFile, Separate, FileLookup;
    FileGrowCorrect(d, free, addr, i);
  }

  lemma RefillStep(d0: Disk, a0: Addrs, n: nat, d: Disk, addr: Addrs, free: seq<int>, i: nat, s0: seq<int>)
    requires i < n <= FILE_LIMIT && FileFilled(d0, a0, n) && FileFilled(d, addr, i)
    requires Separate(d, free, FileBlocks(d, addr))
    requires free + Rev(FileBlocks(d, addr)) == s0 + Rev(FileBlocks(d0, a0))
    ensures var r := GrowFile(d, free, addr, i);
            && r.g.ok && FileFilled(r.g.d, r.addr, i + 1)
            && r.g.free + Rev(FileBlocks(r.g.d, r.addr)) == s0 + Rev(FileBlocks(d0, a0))
  {
    hide FileFilled, FileBlocks, GrowFile, Separate, Rev, FileCount;
    ExtendFile(d, free, addr, i);
    BlockCount(d0, a0, n);
    FileCountMonotone(i + 1, n, 0);
    assert |free + Rev(FileBlocks(d, addr))| == |s0 + Rev(FileBlocks(d0, a0))|;
    RefillBalance(d, free, addr, i);
  }

  lemma RefillBalance(d: Disk, free: seq<int>, addr: Addrs, i: nat)
    requires i < FILE_LIMIT && Separate(d, free, FileBlocks(d, addr))
    requires FileExtends(d, free, addr, i, GrowFile(d, free, addr, i))
    ensures var r := GrowFile(d, free, addr, i);
            r.g.ok ==> r.g.free + Rev(FileBlocks(r.g.d, r.addr)) == free + Rev(FileBlocks(d, addr))
  {
    hide FileFilled, FileBlocks, GrowFile, Separate, FileOthers, FileOutcome, FileFrame, FileCount, Rev;
    var r := GrowFile(d, free, addr, i);
    FileGrowCorrect(d, free, addr, i);
    RevAppend(FileBlocks(d, addr), r.g.taken);
    var t, q := Rev(r.g.taken), Rev(FileBlocks(d, addr));
    assert (r.g.free + t) + q == r.g.free + (t + q);
  }

  lemma BlockCount(d: Disk, addr: Addrs, n: nat)
    requires FileFilled(d, addr, n)
    ensures |FileBlocks(d, addr)| == FileCount(n, 0)
  {
    FileFilledCount(d, addr, n, 0);
  }

  lemma RefillEnd(d0: Disk, a0: Addrs, d: Disk, addr: Addrs, n: nat, s0: seq<int>, free: seq<int>)
    requires FileFilled(d0, a0, n) && FileFilled(d, addr, n)
    requires free + Rev(FileBlocks(d, addr)) == s0 + Rev(FileBlocks(d0, a0))
    ensures addr == a0 && free == s0 && Agree(d0, d, FileMeta(d0, a0))
  {
    hide PreRange, Rev, FileFilled, FileCount;
    var p, q := FileBlocks(d0, a0), FileBlocks(d, addr);
    BlockCount(d0, a0, n);
    BlockCount(d, addr, n);
    SplitEqual(free, Rev(q), s0, Rev(p));
    RevRev(p);
    RevRev(q);
    FileUnique(d0, a0, d, addr, n, 0);
    assert addr == a0;
  }
}
