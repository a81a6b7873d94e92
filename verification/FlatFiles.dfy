/**
 * The files of a volume as flat arrays of bytes. Whatever is read, written, mapped and
 * truncated, in any order, every file reads as the array that the same operations make.
 */
module FlatFiles {
  import opened Sequences
  import opened BlockTree
  import opened BlockLayer
  import opened FileSystem
  import opened FileIO

  /** The bytes of a file, and its size, which may count some beyond those that can be addressed. */
  datatype Flat = Flat(bytes: seq<byte>, size: nat)

  function Clip(n: nat): nat {
    if n < BYTE_LIMIT then n else BYTE_LIMIT
  }

  /** Everything past the end of a file reads as zero. */
  ghost predicate TailZero(d: Disk, addr: Addrs, size: nat) {
    forall i: nat :: size <= i < BYTE_LIMIT ==> FileByte(d, addr, i) == 0
  }

  ghost function FlatOf(d: Disk, addr: Addrs, size: nat): (f: Flat)
    ensures f.size == size && |f.bytes| == Clip(size)
    ensures forall i :: 0 <= i < Clip(size) ==> f.bytes[i] == FileByte(d, addr, i)
  {
    Flat(seq(Clip(size), i requires 0 <= i < Clip(size) => FileByte(d, addr, i)), size)
  }

  /** A file with some bytes overwritten; what cannot be addressed is lost, but counted. */
  function Written(f: Flat, off: nat, data: seq<byte>): Flat {
    var t := Overwrite(f.bytes, off, data);
    Flat(t[..Clip(|t|)], Reach(f.size, off, |data|))
  }

  /** The same for any offset: a negative one is refused. */
  function Accepted(f: Flat, offset: int, data: seq<byte>): Flat {
    if offset < 0 then f else Written(f, offset, data)
  }

  /** The part of a file that a request for n bytes gets. */
  function Slice(f: Flat, off: nat, n: nat): seq<byte> {
    var hi := if off + n < |f.bytes| then off + n else |f.bytes|;
    if off < hi then f.bytes[off..hi] else []
  }

  /** How a read of n bytes ends: with an error for a negative offset, and where no block can be addressed. */
  function ReadError(size: int, offset: int, n: nat): IOError {
    if n == 0 then None
    else if offset < 0 then Invalid
    else if offset < size && BYTE_LIMIT < size && BYTE_LIMIT < offset + n then TooBig else None
  }

  /** What is stored of moved bytes: all that can be addressed. */
  predicate StoredOf(off: nat, moved: nat, stored: nat) {
    stored == if off + moved <= BYTE_LIMIT then moved else if off < BYTE_LIMIT then BYTE_LIMIT - off else 0
  }

  /**
   * What Writei stores turns the array of a file into the array overwritten,
   * and leaves everything past the new end zero.
   */
  lemma StoredIsWritten(d: Disk, a: Addrs, e: Disk, a': Addrs, size: nat, off: nat, data: seq<byte>, moved: nat,
                        stored: nat)
    requires stored <= moved <= |data| && StoredOf(off, moved, stored)
    requires Stored(d, a, e, a', off, data, stored) && TailZero(d, a, size)
    ensures Reach(size, off, moved) >= 0 && TailZero(e, a', Reach(size, off, moved))
    ensures FlatOf(e, a', Reach(size, off, moved)) == Written(FlatOf(d, a, size), off, data[..moved])
  {
    hide FileByte;
    var f, w := FlatOf(e, a', Reach(size, off, moved)), Written(FlatOf(d, a, size), off, data[..moved]);
    assert |f.bytes| == |w.bytes|;
    forall i | 0 <= i < |f.bytes|
      ensures f.bytes[i] == w.bytes[i]
    {
      assert FileByte(e, a', i) == if off <= i < off + stored then data[i - off] else FileByte(d, a, i);
    }
  }

  /** What is read is a slice of the array. */
  lemma ReadIsSlice(d: Disk, a: Addrs, size: nat, off: nat, n: nat, data: seq<byte>)
    requires |data| == Available(size, off, n)
    requires forall i :: 0 <= i < |data| ==> data[i] == FileByte(d, a, off + i)
    ensures data == Slice(FlatOf(d, a, size), off, n)
  {
    hide FileByte;
  }

  lemma UnchangedBytes(d: Disk, e: Disk, a: Addrs, size: nat)
    requires FileKeptWhole(d, e, a) && Distinct(FileBlocks(d, a)) && TailZero(d, a, size)
    ensures TailZero(e, a, size) && FlatOf(e, a, size) == FlatOf(d, a, size)
  {
    hide FileByte, FileKeptWhole;
    forall i: nat | i < BYTE_LIMIT
      ensures FileByte(e, a, i) == FileByte(d, a, i)
    {
      KeptByte(d, e, a, i);
    }
    assert FlatOf(e, a, size).bytes == FlatOf(d, a, size).bytes;
  }

  lemma KeptByte(d: Disk, e: Disk, a: Addrs, i: nat)
    requires FileKeptWhole(d, e, a) && Distinct(FileBlocks(d, a)) && i < BYTE_LIMIT
    ensures FileByte(e, a, i) == FileByte(d, a, i)
  {
    hide FileLookup, PreRange, MetaRange, Words, Bytes;
    MetaRangeInPre(d, a, Inode, 0, NADDR);
    FileLookupFrame(d, e, a, i / BSIZE);
    if FileLookup(d, a, i / BSIZE) != 0 {
      FileLookupIsData(d, a, i / BSIZE);
    }
  }

  lemma EmptyFlat(d: Disk)
    ensures TailZero(d, Zeros(NADDR), 0) && FlatOf(d, Zeros(NADDR), 0) == Flat([], 0)
  {
    hide SlotOf, OffsetOf;
    forall i: nat | i < BYTE_LIMIT
      ensures FileByte(d, Zeros(NADDR), i) == 0
    {
      assert FileLookup(d, Zeros(NADDR), i / BSIZE) == 0;
    }
  }

  // ---------------------------------------------------------------------------
  // The operations.

  /** File k reads as f, and as zero past its end. */
  ghost predicate Is(d: Disk, addr: Addrs, size: int, f: Flat) {
    size >= 0 && TailZero(d, addr, size) && FlatOf(d, addr, size) == f
  }

  /** The files of a volume are fs; every block has one owner. */
  ghost predicate Shows(m: Mount, fs: seq<Flat>)
    reads m, m.vol, m.vol.sfree, m.files, set f | f in m.files :: f.addr
  {
    m.Valid() && |fs| == |m.files| && forall k :: 0 <= k < |fs| ==> Is(m.vol.disk, m.rows[k], m.files[k].size, fs[k])
  }

  lemma OthersShow(d: Disk, e: Disk, stack: seq<int>, rows: seq<Addrs>, lo: int, hi: int, k: nat, j: nat, size: int,
                   f: Flat)
    requires Partitioned(d, stack, rows, lo, hi) && OthersUntouched(d, e, rows, k) && 0 < lo && k < |rows| && j < |rows|
             && j != k
    requires Is(d, rows[j], size, f)
    ensures Is(e, rows[j], size, f)
  {
    hide Partitioned, FileKeptWhole, FileBlocks, TailZero, FlatOf;
    FileApart(d, stack, rows, lo, hi, j);
    UnchangedBytes(d, e, rows[j], size);
  }

  /** The files one by one: file i, of size sizes[i], shows fs[i]; file k may be left out. */
  ghost predicate AllAre(d: Disk, rows: seq<Addrs>, sizes: seq<int>, fs: seq<Flat>, k: int) {
    |rows| == |sizes| == |fs| && forall j :: 0 <= j < |fs| && j != k ==> Is(d, rows[j], sizes[j], fs[j])
  }

  /** All other files show what they showed. */
  lemma OthersStill(d: Disk, stack: seq<int>, rows: seq<Addrs>, lo: int, hi: int, sizes: seq<int>, fs: seq<Flat>,
                    k: nat,
                    e: Disk, rows': seq<Addrs>)
    requires Partitioned(d, stack, rows, lo, hi) && 0 < lo && AllAre(d, rows, sizes, fs, -1) && k < |rows| == |rows'|
    requires rows' == rows[k := rows'[k]] && OthersUntouched(d, e, rows', k)
    ensures AllAre(e, rows', sizes, fs, k)
  {
    hide Partitioned, FileKeptWhole, FileBlocks, Is;
    forall j | 0 <= j < |fs| && j != k
      ensures Is(e, rows'[j], sizes[j], fs[j])
    {
      assert OthersUntouched(d, e, rows, k);
      OthersShow(d, e, stack, rows, lo, hi, k, j, sizes[j], fs[j]);
    }
  }

  ghost function Sizes(files: seq<FileInode>): (s: seq<int>)
    reads files
    ensures |s| == |files| && forall i :: 0 <= i < |files| ==> s[i] == files[i].size
  {
    if files == [] then [] else Sizes(files[..|files| - 1]) + [files[|files| - 1].size]
  }

  /** How far a write of n bytes gets, by its error; the piece that cannot be addressed is counted, too. */
  predicate MovedAsFar(offset: int, n: nat, moved: nat, err: IOError) {
    var from := Max0(offset);
    match err
    case None => moved == n && (n == 0 || from + n <= BYTE_LIMIT)
    case Invalid => moved == 0
    case NoSpace => moved < n && from + moved < BYTE_LIMIT
    case TooBig =>
      var at := if from < BYTE_LIMIT then BYTE_LIMIT else from;
      at < from + n && from + moved == at + Piece(at, from + n - at)
  }

  /** writei: the bytes moved overwrite the file. */
  method WriteFlat(m: Mount, ghost fs: seq<Flat>, k: nat, offset: int, data: seq<byte>)
         returns (moved: nat, err: IOError)
    requires Shows(m, fs) && k < |m.files| && m.files[k].regular
    modifies m`rows, m.vol, m.vol.sfree, m.files[k].addr, m.files[k]
    ensures moved <= |data| && (err == Invalid <==> offset < 0) && (err == None ==> moved == |data|)
    ensures Shows(m, fs[k := Accepted(fs[k], offset, data[..moved])]) && m.files[k].regular
    ensures err == NoSpace ==> moved < |data| && m.vol.stack == [] && !Enough(|old(m.vol.stack)|, offset, |data|)
    ensures err == NoSpace ==> Unmapped(m.vol.disk, m.rows[k], offset + moved)
    ensures err == NoSpace ==> Unmapped(old(m.vol.disk), old(m.rows[k]), offset + moved)
    ensures MappedStay(old(m.vol.disk), old(m.rows[k]), m.vol.disk, m.rows[k], Max0(offset), |data|)
    ensures m.files[k].changed == (old(m.files[k].changed) || m.rows[k] != old(m.rows[k]) || moved > 0)
    ensures m.files[k].size == Reach(old(m.files[k].size), offset, moved) && m.rows == old(m.rows)[k := m.rows[k]]
    ensures MovedAsFar(offset, |data|, moved, err)
    ensures |m.vol.stack| + Need(Write(k, offset, data)) >= |old(m.vol.stack)|
  {
    hide Partitioned, FileKeptWhole, FileBlocks, OthersUntouched, Enough, TailZero, FlatOf, Stored, Is, Accepted, Turns,
        Unmapped, AllMapped, MappedStay;
    ghost var d, s, rows, sizes := m.vol.disk, m.vol.stack, m.rows, Sizes(m.files);
    ghost var stored;
    moved, stored, err := Writei(m, k, offset, data);
    OthersStill(d, s, rows, m.vol.isize, m.vol.fsize, sizes, fs, k, m.vol.disk, m.rows);
    WroteIs(d, rows[k], sizes[k], m.vol.disk, m.rows[k], m.files[k].size, offset, data, moved, stored, fs[k]);
  }

  lemma WroteIs(d: Disk, a: Addrs, size: int, e: Disk, a': Addrs, size': int, offset: int, data: seq<byte>, moved: nat,
                stored: nat, f: Flat)
    requires Is(d, a, size, f) && size' == Reach(size, offset, moved) && stored <= moved <= |data|
    requires offset < 0 ==> moved == 0 && e == d && a' == a
    requires 0 <= offset ==> StoredOf(offset, moved, stored) && Stored(d, a, e, a', offset, data, stored)
    ensures Is(e, a', size', Accepted(f, offset, data[..moved]))
  {
    hide TailZero, FlatOf, Stored, Written;
    if offset >= 0 {
      StoredIsWritten(d, a, e, a', size, offset, data, moved, stored);
    }
  }

  /** readi: what a file holds in the range asked for. */
  method ReadFlat(m: Mount, ghost fs: seq<Flat>, k: nat, offset: int, count: nat)
         returns (data: seq<byte>, err: IOError)
    requires Shows(m, fs) && k < |m.files| && m.files[k].regular
    modifies m`rows, m.vol, m.vol.sfree, m.files[k].addr, m.files[k]
    ensures Shows(m, fs) && m.files[k].regular && m.vol.stack == old(m.vol.stack)
            && m.vol.disk == old(m.vol.disk)
    ensures m.files[k].changed == old(m.files[k].changed) && m.files[k].size == old(m.files[k].size)
            && m.rows == old(m.rows)
    ensures data == if offset < 0 then [] else Slice(fs[k], offset, count)
    ensures err == ReadError(fs[k].size, offset, count)
  {
    hide Partitioned, FileKeptWhole, FileBlocks, TailZero, FlatOf, FileByte;
    data, err := Readi(m, k, offset, count);
    if offset >= 0 {
      ReadIsSlice(m.vol.disk, m.rows[k], m.files[k].size, offset, count, data);
    }
  }

  /** itrunc: the file is empty. */
  method TruncateFlat(m: Mount, ghost fs: seq<Flat>, k: nat)
    requires Shows(m, fs) && k < |m.files| && m.files[k].regular
    modifies m`rows, m.vol, m.vol.sfree, m.files[k].addr, m.files[k]
    ensures Shows(m, fs[k := Flat([], 0)]) && m.files[k].regular && |m.vol.stack| >= |old(m.vol.stack)|
    ensures m.files[k].changed && m.rows == old(m.rows)[k := Zeros(NADDR)]
  {
    hide Partitioned, FileKeptWhole, FileBlocks, TailZero, FlatOf, Unchanged;
    ghost var d, s, rows, sizes := m.vol.disk, m.vol.stack, m.rows, Sizes(m.files);
    m.Truncate(k);
    OthersStill(d, s, rows, m.vol.isize, m.vol.fsize, sizes, fs, k, m.vol.disk, m.rows);
    EmptyFlat(m.vol.disk);
  }

  /** bmap: blocks may be added to a file, but nothing is stored. */
  method MapFlat(m: Mount, ghost fs: seq<Flat>, k: nat, lbn: int, write: bool) returns (r: int)
    requires Shows(m, fs) && k < |m.files|
    modifies m`rows, m.vol, m.vol.sfree, m.files[k].addr, m.files[k]
    ensures Shows(m, fs) && m.files[k].regular == old(m.files[k].regular)
    ensures r == 0 <==> !(0 <= lbn < FILE_LIMIT)
    ensures r > 0 ==> r == FileLookup(m.vol.disk, m.rows[k], lbn)
    ensures |m.vol.stack| + 4 >= |old(m.vol.stack)|
    ensures exists err :: MapDone(write, old(m.vol.disk), old(m.vol.stack), old(m.rows[k]), lbn, m.vol.disk,
                                  m.vol.stack,
                                  m.rows[k], r, err)
    ensures m.files[k].changed == (old(m.files[k].changed) || m.rows[k] != old(m.rows[k]))
    ensures m.files[k].size == old(m.files[k].size) && m.rows == old(m.rows)[k := m.rows[k]]
  {
    hide Partitioned, FileKeptWhole, FileBlocks, TailZero, FlatOf, FileLookup, Stored, GrowFile, Is, MappedStay;
    ghost var d, s, rows, sizes := m.vol.disk, m.vol.stack, m.rows, Sizes(m.files);
    FileApart(d, s, rows, m.vol.isize, m.vol.fsize, k);
    var err;
    r, err := m.MapBlock(k, lbn, write);
    FileApart(m.vol.disk, m.vol.stack, m.rows, m.vol.isize, m.vol.fsize, k);
    GrowStoresNothing(write, d, s, rows[k], lbn, m.vol.disk, m.vol.stack, m.rows[k], r, err, 0, m.vol.isize,
                      m.vol.fsize);
    OthersStill(d, s, rows, m.vol.isize, m.vol.fsize, sizes, fs, k, m.vol.disk, m.rows);
    assert Stored(d, rows[k], m.vol.disk, m.rows[k], 0, [], 0);
    WroteIs(d, rows[k], m.files[k].size, m.vol.disk, m.rows[k], m.files[k].size, 0, [], 0, 0, fs[k]);
    WrittenNothing(d, rows[k], sizes[k], fs[k]);
  }

  lemma WrittenNothing(d: Disk, a: Addrs, size: int, f: Flat)
    requires Is(d, a, size, f)
    ensures Written(f, 0, []) == f
  {
  }

  // ---------------------------------------------------------------------------
  // Any run.

  datatype Op = Write(k: nat, offset: int, data: seq<byte>) | Read(k: nat, offset: int, count: nat) | Truncate(k: nat)
              | Map(k: nat, lbn: int, write: bool)

  /** What an operation returns; Refused if there is no such regular file. */
  datatype Reply = Moved(n: nat, err: IOError) | Got(data: seq<byte>, err: IOError) | Emptied | Mapped(r: int) | Refused

  /** The files after an operation. */
  function Next(fs: seq<Flat>, op: Op, reply: Reply): seq<Flat> {
    if op.k >= |fs| then fs
    else match op
      case Write(k, offset, data) =>
        if reply.Moved? && reply.n <= |data| then fs[k := Accepted(fs[k], offset, data[..reply.n])] else fs
      case Truncate(k) => if reply.Emptied? then fs[k := Flat([], 0)] else fs
      case _ => fs
  }

  function After(fs: seq<Flat>, ops: seq<Op>, replies: seq<Reply>): seq<Flat>
    requires |replies| == |ops|
  {
    if ops == [] then fs
    else
      var n := |ops| - 1;
      Next(After(fs, ops[..n], replies[..n]), ops[n], replies[n])
  }

  /** An operation is refused only for want of a regular file; otherwise it is done, and returns what it should. */
  predicate Answers(fs: seq<Flat>, op: Op, regular: bool, reply: Reply) {
    if op.k >= |fs| || !regular then reply == Refused
    else match op
      case Write(k, offset, data) =>
        && reply.Moved? && reply.n <= |data| && (reply.err == Invalid <==> offset < 0)
        && MovedAsFar(offset, |data|, reply.n, reply.err)
      case Read(k, offset, count) =>
        && reply.Got? && reply.err == ReadError(fs[k].size, offset, count)
        && reply.data == if offset < 0 then [] else Slice(fs[k], offset, count)
      case Truncate(k) => reply == Emptied
      case Map(k, lbn, write) => reply.Mapped? && (reply.r == 0 <==> !(0 <= lbn < FILE_LIMIT))
  }

  /** Blocks enough for an operation, whatever is mapped already. */
  function Need(op: Op): nat {
    match op
    case Write(_, offset, data) => 4 * Turns(Max0(offset), |data|)
    case Map(_, _, _) => 4
    case _ => 0
  }

  function Needs(ops: seq<Op>): nat {
    if ops == [] then 0 else Needs(ops[..|ops| - 1]) + Need(ops[|ops| - 1])
  }

  lemma {:induction false} NeedsPrefix(ops: seq<Op>, n: nat)
    requires n <= |ops|
    ensures Needs(ops[..n]) <= Needs(ops)
    decreases |ops|
  {
    if n < |ops| {
      NeedsPrefix(ops[..|ops| - 1], n);
      assert ops[..|ops| - 1][..n] == ops[..n];
    } else {
      assert ops[..n] == ops;
    }
  }

  /** A file with other addresses, or another size, is marked; and a mark stays. */
  predicate MarkOk(row: Addrs, size: int, changed: bool, row': Addrs, size': int, changed': bool) {
    changed || row' != row || size' != size ==> changed'
  }

  predicate OutOfSpace(reply: Reply) {
    reply.Moved? && reply.err == NoSpace
  }

  /** Where the blocks of a volume are. */
  datatype Space = Space(disk: Disk, free: seq<int>, rows: seq<Addrs>)

  ghost function SpaceOf(m: Mount): Space
    reads m, m.vol
  {
    Space(m.vol.disk, m.vol.stack, m.rows)
  }

  /**
   * What an operation does to the blocks: a write maps only logical blocks that it touches, and is short of space
   * only at one that had no block and gets none, with no block free; a mapping is that of bmap; a read, or an
   * operation refused, does nothing.
   */
  ghost predicate Placed(op: Op, reply: Reply, s: Space, t: Space) {
    if op.k >= |s.rows| || reply.Refused? then t == s
    else
      && |t.rows| == |s.rows| && t.rows == s.rows[op.k := t.rows[op.k]]
      && var a, a' := s.rows[op.k], t.rows[op.k];
         match op
         case Write(k, offset, data) =>
           && MappedStay(s.disk, a, t.disk, a', Max0(offset), |data|)
           && (OutOfSpace(reply) ==>
                 t.free == [] && Unmapped(s.disk, a, Max0(offset) + reply.n)
                 && Unmapped(t.disk, a', Max0(offset) + reply.n))
         case Read(k, offset, count) => t == s
         case Truncate(k) => a' == Zeros(NADDR)
         case Map(k, lbn, write) =>
           reply.Mapped? && exists err :: MapDone(write, s.disk, s.free, a, lbn, t.disk, t.free, a', reply.r, err)
  }

  method Step(m: Mount, ghost fs: seq<Flat>, op: Op) returns (reply: Reply)
    requires Shows(m, fs)
    modifies m`rows, m.vol, m.vol.sfree, m.files, set f | f in m.files :: f.addr
    ensures Shows(m, Next(fs, op, reply)) && Answers(fs, op, op.k < |m.files| && m.files[op.k].regular, reply)
    ensures forall j :: 0 <= j < |m.files| ==> m.files[j].regular == old(m.files[j].regular)
    ensures forall j :: 0 <= j < |m.files| && j != op.k ==> m.files[j].changed == old(m.files[j].changed)
    ensures |m.vol.stack| + Need(op) >= |old(m.vol.stack)| && (OutOfSpace(reply) ==> |old(m.vol.stack)| < Need(op))
    ensures Placed(op, reply, old(SpaceOf(m)), SpaceOf(m))
    ensures |m.rows| == |m.files| == |old(m.rows)| && forall j :: 0 <= j < |m.files| ==>
              MarkOk(old(m.rows)[j], old(m.files[j].size), old(m.files[j].changed), m.rows[j], m.files[j].size,
                     m.files[j].changed)
  {
    hide Shows, Slice, Written, Turns, MapDone, MappedStay, Unmapped;
    assert |fs| == |m.files| && m.Valid() by {
      ShowsSays(m, fs);
    }
    if op.k >= |m.files| || !m.files[op.k].regular {
      return Refused;
    }
    match op {
      case Write(k, offset, data) =>
        var n, err := WriteFlat(m, fs, k, offset, data);
        reply := Moved(n, err);
      case Read(k, offset, count) =>
        var data, err := ReadFlat(m, fs, k, offset, count);
        reply := Got(data, err);
      case Truncate(k) =>
        TruncateFlat(m, fs, k);
        reply := Emptied;
      case Map(k, lbn, write) =>
        var r := MapFlat(m, fs, k, lbn, write);
        reply := Mapped(r);
    }
  }

  lemma ShowsSays(m: Mount, fs: seq<Flat>)
    requires Shows(m, fs)
    ensures |fs| == |m.files| && m.Valid() && Partitioned(m.vol.disk, m.vol.stack, m.rows, m.vol.isize, m.vol.fsize)
  {
  }

  /** Each operation in turn finds the files that those before it have made, and is answered. */
  ghost predicate AllAnswer(fs: seq<Flat>, ops: seq<Op>, replies: seq<Reply>, regular: seq<bool>) {
    |replies| == |ops| &&
    forall i :: 0 <= i < |ops| ==>
      Answers(After(fs, ops[..i], replies[..i]), ops[i], ops[i].k < |regular| && regular[ops[i].k], replies[i])
  }

  ghost predicate SpaceForAll(replies: seq<Reply>) {
    forall i :: 0 <= i < |replies| ==> !OutOfSpace(replies[i])
  }

  ghost function Regular(files: seq<FileInode>): (r: seq<bool>)
    reads files
    ensures |r| == |files| && forall i :: 0 <= i < |files| ==> r[i] == files[i].regular
  {
    if files == [] then [] else Regular(files[..|files| - 1]) + [files[|files| - 1].regular]
  }

  lemma AnswerNext(fs: seq<Flat>, ops: seq<Op>, n: nat, replies: seq<Reply>, regular: seq<bool>, reply: Reply)
    requires n < |ops| && AllAnswer(fs, ops[..n], replies, regular)
    requires Answers(After(fs, ops[..n], replies), ops[n], ops[n].k < |regular| && regular[ops[n].k], reply)
    ensures AllAnswer(fs, ops[..n + 1], replies + [reply], regular)
    ensures After(fs, ops[..n + 1], replies + [reply]) == Next(After(fs, ops[..n], replies), ops[n], reply)
    ensures Needs(ops[..n + 1]) == Needs(ops[..n]) + Need(ops[n])
    ensures SpaceForAll(replies) && !OutOfSpace(reply) ==> SpaceForAll(replies + [reply])
  {
    hide Answers, Next, Need, OutOfSpace;
    var o, r := ops[..n + 1], replies + [reply];
    assert o[..n] == ops[..n] && r[..n] == replies;
    forall i | 0 <= i < n
      ensures Answers(After(fs, o[..i], r[..i]), o[i], o[i].k < |regular| && regular[o[i].k], r[i])
    {
      assert o[..i] == ops[..n][..i] && r[..i] == replies[..i] && o[i] == ops[..n][i];
    }
  }

  /**
   * Any sequence of writes, reads, truncations and mappings, on any files: every file ends as the array
   * that the operations make, every read got what the array then held, and every block has one owner.
   * With blocks enough at the start, no write runs out of space.
   */
  method Run(m: Mount, ghost fs: seq<Flat>, ops: seq<Op>) returns (replies: seq<Reply>, ghost spaces: seq<Space>)
    requires Shows(m, fs)
    modifies m`rows, m.vol, m.vol.sfree, m.files, set f | f in m.files :: f.addr
    ensures AllAnswer(fs, ops, replies, Regular(m.files)) && Shows(m, After(fs, ops, replies))
    ensures Regular(m.files) == old(Regular(m.files))
    ensures |spaces| == |ops| + 1 && spaces[0] == old(SpaceOf(m)) && spaces[|ops|] == SpaceOf(m)
    ensures forall i :: 0 <= i < |ops| ==> Placed(ops[i], replies[i], spaces[i], spaces[i + 1])
    ensures Partitioned(m.vol.disk, m.vol.stack, m.rows, m.vol.isize, m.vol.fsize)
    ensures |m.rows| == |m.files| == |old(m.rows)| && forall j :: 0 <= j < |m.files| ==>
              MarkOk(old(m.rows)[j], old(m.files[j].size), old(m.files[j].changed), m.rows[j], m.files[j].size,
                     m.files[j].changed)
    ensures Needs(ops) <= |old(m.vol.stack)| ==> SpaceForAll(replies)
  {
    hide Shows, Answers, Next, Partitioned, Need, OutOfSpace, AllAnswer, SpaceForAll, After, Needs, Placed;
    replies, spaces := [], [SpaceOf(m)];
    ghost var regular := Regular(m.files);
    ShowsSays(m, fs);
    NothingDone(fs, ops, regular);
    for n := 0 to |ops|
      invariant |replies| == n && AllAnswer(fs, ops[..n], replies, regular) && Regular(m.files) == regular
      invariant Shows(m, After(fs, ops[..n], replies))
      invariant |spaces| == n + 1 && spaces[0] == old(SpaceOf(m)) && spaces[n] == SpaceOf(m)
      invariant forall i :: 0 <= i < n ==> Placed(ops[i], replies[i], spaces[i], spaces[i + 1])
      invariant |m.rows| == |m.files| == |old(m.rows)| && forall j :: 0 <= j < |m.files| ==>
                  MarkOk(old(m.rows)[j], old(m.files[j].size), old(m.files[j].changed), m.rows[j], m.files[j].size,
                         m.files[j].changed)
      invariant |m.vol.stack| + Needs(ops[..n]) >= |old(m.vol.stack)|
      invariant Needs(ops) <= |old(m.vol.stack)| ==> SpaceForAll(replies)
    {
      NeedsPrefix(ops, n + 1);
      var reply := Step(m, After(fs, ops[..n], replies), ops[n]);
      AnswerNext(fs, ops, n, replies, regular, reply);
      replies, spaces := replies + [reply], spaces + [SpaceOf(m)];
      assert Regular(m.files) == regular;
    }
    assert ops[..|ops|] == ops;
    ShowsSays(m, After(fs, ops, replies));
  }

  lemma NothingDone(fs: seq<Flat>, ops: seq<Op>, regular: seq<bool>)
    ensures AllAnswer(fs, ops[..0], [], regular) && After(fs, ops[..0], []) == fs && Needs(ops[..0]) == 0
            && SpaceForAll([])
  {
  }
}
