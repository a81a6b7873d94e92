/**
 * A mounted volume: the free list kept in the superblock and chained through the
 * free blocks themselves, and the files that own all other blocks of the data
 * area. Blocks are read and written through the buffer cache, whose transparency
 * is proved in module BufferCache: disk is the logical contents of the blocks,
 * and held the set of blocks whose buffers the current process keeps busy.
 */
module BlockLayer {
  import opened Sequences
  import opened BlockTree

  const NICFREE := 50

  /**
   * The sequence of free blocks, next to be allocated last, denoted by one page
   * of addresses: entry 0 is 0 on the last page, else it is itself free and its
   * block holds the count and addresses of the next page.
   */
  ghost predicate Chain(d: Disk, page: seq<int>, stack: seq<int>)
    decreases |stack|
  {
    if page == [] then stack == []
    else if page[0] == 0 then stack == page[1..]
    else
      && |page| <= |stack| && stack[|stack| - |page|..] == page
      && 1 <= Words(d, page[0])[0] <= NICFREE
      && Chain(d, NextPage(d, page[0]), stack[..|stack| - |page|])
  }

  /** A well-formed free list over the data area. */
  ghost predicate FreeList(d: Disk, page: seq<int>, stack: seq<int>, lo: int, hi: int) {
    Chain(d, page, stack) && Distinct(stack) && Within(stack, lo, hi)
  }

  ghost predicate Within(s: seq<int>, lo: int, hi: int) {
    forall x :: x in s ==> lo <= x < hi
  }

  function NextPage(d: Disk, bn: int): seq<int>
    requires 0 <= Words(d, bn)[0] <= NICFREE
  {
    Words(d, bn)[1..1 + Words(d, bn)[0]]
  }

  /** The chain is read from free blocks only. */
  lemma {:induction false} ChainFrame(d: Disk, e: Disk, page: seq<int>, stack: seq<int>)
    requires Chain(d, page, stack)
    requires forall x :: x in stack ==> Words(e, x) == Words(d, x)
    ensures Chain(e, page, stack)
    decreases |stack|
  {
    if page != [] && page[0] != 0 {
      var n := |stack| - |page|;
      assert stack[n] == page[0];
      ChainFrame(d, e, NextPage(d, page[0]), stack[..n]);
    }
  }

  function Max(a: nat, b: nat): nat {
    if a < b then b else a
  }

  /** What Bmap does: look up a block, or grow the file to contain it. */
  ghost predicate Mapped(write: bool, d: Disk, free: seq<int>, addr: Addrs, lbn: nat,
                         e: Disk, free': seq<int>, addr': Addrs, r: int, err: Errno)
    requires lbn < FILE_LIMIT
  {
    var b := FileLookup(e, addr', lbn);
    && r == (if b == 0 then -1 else b)
    && (if write then
          var g := GrowFile(d, free, addr, lbn);
          && e == g.g.d && free' == g.g.free && addr' == g.addr
          && (g.g.ok <==> b != 0) && err == (if g.g.ok then NoError else ENOSPC)
        else
          e == d && free' == free && addr' == addr && err == NoError)
  }

  ghost predicate MapDone(write: bool, d: Disk, free: seq<int>, addr: Addrs, lbn: int,
                          e: Disk, free': seq<int>, addr': Addrs, r: int, err: Errno)
  {
    if 0 <= lbn < FILE_LIMIT then Mapped(write, d, free, addr, lbn, e, free', addr', r, err)
    else r == 0 && err == EFBIG && e == d && free' == free && addr' == addr
  }

  datatype Errno = NoError | EFBIG | ENOSPC

  class FileInode {
    const addr: array<int>
    var regular: bool  // IFREG or IFDIR: the addresses are block addresses
    var size: int
    var changed: bool  // IUPD|ICHG

    constructor ()
      ensures fresh(addr) && addr.Length == NADDR && addr[..] == Zeros(NADDR)
      ensures size == 0 && regular && !changed
    {
      addr := new int[NADDR](_ => 0);
      regular, size, changed := true, 0, false;
    }
  }

  class Volume {
    const isize: int
    const fsize: int
    var nfree: int
    const sfree: array<int>
    var disk: Disk
    ghost var stack: seq<int>
    ghost var held: set<int>
    ghost var peak: nat

    /** The free list is well formed. */
    ghost predicate FreeOk()
      reads this, sfree
    {
      && sfree.Length == NICFREE && 0 <= nfree <= NICFREE && 0 < isize <= fsize
      && FreeList(disk, sfree[..nfree], stack, isize, fsize)
    }

    // The buffer cache as the block layer sees it. Asking for a block that the
    // same process already keeps busy would put it to sleep for ever.

    ghost method GetBlk(bn: int)
      requires bn !in held
      modifies this`held, this`peak
      ensures held == old(held) + {bn} && peak == Max(old(peak), |old(held)| + 1)
    {
      held := held + {bn};
      peak := Max(peak, |held|);
    }

    method Bread(bn: int) returns (buf: Block)
      requires bn !in held
      modifies this`held, this`peak
      ensures held == old(held) + {bn} && peak == Max(old(peak), |old(held)| + 1)
      ensures buf == Words(disk, bn)
    {
      GetBlk(bn);
      buf := Words(disk, bn);
    }

    ghost method Brelse(bn: int)
      requires bn in held
      modifies this`held
      ensures held == old(held) - {bn}
    {
      held := held - {bn};
    }

    method Bdwrite(bn: int, buf: Block)
      requires bn in held
      modifies this`held, this`disk
      ensures held == old(held) - {bn} && disk == old(disk)[bn := buf]
    {
      disk := disk[bn := buf];
      held := held - {bn};
    }

    predicate BadBlock(bn: int) {
      bn < isize || bn >= fsize
    }

    /**
     * Takes the most recently freed block, or fails when none is left. The
     * block's cleared buffer stays with the caller, who must write it.
     */
    method Alloc() returns (bno: int, buf: Block)
      requires FreeOk() && forall x :: x in stack ==> x !in held
      modifies this, sfree
      ensures FreeOk() && disk == old(disk) && buf == ZeroBlock()
      ensures old(stack) == [] ==> bno == 0 && stack == [] && held == old(held) && peak == old(peak)
      ensures old(stack) != [] ==>
                && stack + [bno] == old(stack)
                && held == old(held) + {bno} && peak == Max(old(peak), |old(held)| + 1)
    {
      hide FreeList, Words, NextPage;
      buf := ZeroBlock();
      ghost var page := sfree[..nfree];
      if nfree <= 0 {
        bno := 0;
        EmptyPage(disk, page, stack, isize, fsize);
        return;
      }
      nfree := nfree - 1;
      bno := sfree[nfree];
      PageZero(disk, page, stack, isize, fsize);
      if bno == 0 {
        nfree := 0;
        EmptyPage(disk, sfree[..nfree], stack, isize, fsize);
        return;
      }
      ghost var rest := stack[..|stack| - 1];
      PagePop(disk, page, stack, rest, isize, fsize);
      stack := rest;
      if nfree <= 0 {
        assert page[0] == bno;
        LoadPage(bno);
      } else {
        assert sfree[..nfree] == page[..|page| - 1];
      }
      GetBlk(bno);
    }

    /** Refills the superblock from the page kept in block bno. */
    method LoadPage(bno: int)
      requires sfree.Length == NICFREE && bno !in held && 1 <= Words(disk, bno)[0] <= NICFREE
      modifies this`nfree, this`held, this`peak, sfree
      ensures held == old(held) && peak == Max(old(peak), |held| + 1)
      ensures nfree == Words(disk, bno)[0] && sfree[..nfree] == NextPage(disk, bno)
    {
      var page := Bread(bno);
      nfree := page[0];
      forall i | 0 <= i < NICFREE {
        sfree[i] := page[1 + i];
      }
      Brelse(bno);
    }

    /** Moves the whole page of free blocks into block bno. */
    method Spill(bno: int)
      requires FreeOk() && nfree == NICFREE && bno !in stack && bno !in held
      modifies this`disk, this`nfree, this`held, this`peak
      ensures nfree == 0 && held == old(held) && peak == Max(old(peak), |held| + 1)
      ensures Words(disk, bno)[0] == NICFREE && NextPage(disk, bno) == sfree[..]
      ensures forall x :: x != bno ==> Words(disk, x) == Words(old(disk), x)
      ensures FreeList(disk, sfree[..], stack, isize, fsize)
    {
      GetBlk(bno);
      var buf := SpillPage(Words(disk, bno), nfree, sfree[..]);
      nfree := 0;
      Bdwrite(bno, buf);
      assert held == old(held);
      assert sfree[..] == sfree[..NICFREE];
      ChainFrame(old(disk), disk, sfree[..], stack);
    }

    /** Puts a block of the data area back on the free list; any other number is refused. */
    method Free(bno: int)
      requires FreeOk() && bno !in stack && bno !in held
      modifies this, sfree
      ensures FreeOk() && held == old(held)
      ensures BadBlock(bno) ==> stack == old(stack) && disk == old(disk) && peak == old(peak)
      ensures !BadBlock(bno) ==> stack == old(stack) + [bno] && peak <= Max(old(peak), |held| + 1)
      ensures forall x :: x != bno ==> Words(disk, x) == Words(old(disk), x)
    {
      if BadBlock(bno) {
        return;
      }
      if nfree <= 0 {
        nfree := 1;
        sfree[0] := 0;
      }
      assert FreeList(disk, sfree[..nfree], stack, isize, fsize);
      ghost var page := sfree[..nfree];
      if nfree >= NICFREE {
        Spill(bno);
      }
      sfree[nfree] := bno;
      nfree := nfree + 1;
      stack := stack + [bno];
      PagePush(disk, page, sfree[..nfree], old(stack), bno, isize, fsize);
    }

    /** Frees the tree of height TloopHeight(f1, f2) at bn, all subtrees from last to first and then bn itself. */
    method Tloop(bn: int, f1: bool, f2: bool)
      requires FreeOk() && bn != 0 && (f2 ==> f1)
      requires Freeable(Pre(disk, bn, TloopHeight(f1, f2)), stack, held, isize, fsize)
      modifies this, sfree
      ensures FreeOk()
      ensures stack == old(stack) + Rev(old(Pre(disk, bn, TloopHeight(f1, f2))))
      ensures Unchanged(old(disk), disk, old(Pre(disk, bn, TloopHeight(f1, f2))))
      ensures held == old(held) && peak <= Max(old(peak), |held| + 2)
      decreases TloopHeight(f1, f2)
    {
      hide FreeList, Words, Pre, PreRange, Freeable, Unchanged, Rev, Zeros, ZeroBlock;
      ghost var d0, s0, h0 := disk, stack, held;
      ghost var h := TloopHeight(f1, f2);
      ghost var kids, k := Words(disk, bn), Indirect(h - 1);
      NodeFreeable(d0, bn, h, s0, h0, isize, fsize);
      var bp, bap := false, ZeroBlock();
      var i := NINDIR;
      while i > 0
        invariant 0 <= i <= NINDIR && FreeOk()
        invariant stack == s0 + Rev(PreRange(d0, kids, k, i, NINDIR))
        invariant Unchanged(d0, disk, PreRange(d0, kids, k, i, NINDIR))
        invariant held == (if bp then h0 + {bn} else h0) && peak <= Max(old(peak), |h0| + 2)
        invariant bp ==> bap == kids
      {
        i := i - 1;
        if !bp {
          NodeUntouched(d0, disk, bn, kids, k, i + 1);
          bap := Bread(bn);
          bp := true;
        }
        var nb := bap[i];
        KidFreeable(d0, disk, bn, kids, k, i, s0, h0, isize, fsize);
        if nb != 0 {
          if f1 {
            Brelse(bn);
            bp := false;
            ghost var d1 := disk;
            Tloop(nb, f2, false);
            KidFreed(d0, d1, disk, kids, k, i, Pre(d0, nb, h - 1), s0);
          } else {
            ghost var d1 := disk;
            Free(nb);
            KidFreed(d0, d1, disk, kids, k, i, [nb], s0);
          }
        }
      }
      if bp {
        Brelse(bn);
      }
      ghost var d1 := disk;
      Free(bn);
      NodeFreed(d0, d1, disk, bn, kids, k);
    }

    /** The switch of Itrunc: frees whatever slot i of an inode leads to. */
    method FreeSlot(i: nat, bn: int)
      requires FreeOk() && i < NADDR && bn != 0
      requires Freeable(Pre(disk, bn, Height(Inode, i)), stack, held, isize, fsize)
      modifies this, sfree
      ensures FreeOk() && held == old(held) && peak <= Max(old(peak), |held| + 2)
      ensures stack == old(stack) + Rev(old(Pre(disk, bn, Height(Inode, i))))
      ensures Unchanged(old(disk), disk, old(Pre(disk, bn, Height(Inode, i))))
    {
      if i == NADDR - 3 {
        Tloop(bn, false, false);
      } else if i == NADDR - 2 {
        Tloop(bn, true, false);
      } else if i == NADDR - 1 {
        Tloop(bn, true, true);
      } else {
        assert bn in Pre(disk, bn, 0);
        Free(bn);
      }
    }

    /** The loop of Itrunc over the slots of an inode, from the last to the first. */
    method FreeAddresses(addr: array<int>)
      requires FreeOk() && addr != sfree && addr.Length == NADDR
      requires Freeable(FileBlocks(disk, addr[..]), stack, held, isize, fsize)
      modifies this, sfree, addr
      ensures FreeOk() && held == old(held) && peak <= Max(old(peak), |held| + 2)
      ensures stack == old(stack) + Rev(old(FileBlocks(disk, addr[..])))
      ensures Unchanged(old(disk), disk, old(FileBlocks(disk, addr[..])))
      ensures forall j :: 0 <= j < NADDR ==> addr[j] == 0
    {
      hide FreeList, Words, Pre, PreRange, Freeable, Unchanged, Rev;
      ghost var d0, s0, h0: set<int>, k: Kind := disk, stack, held, Inode;
      ghost var a0 := addr[..];
      FileFreeable(d0, a0, s0, h0, isize, fsize);
      var i := NADDR;
      while i > 0
        invariant 0 <= i <= NADDR && FreeOk()
        invariant stack == s0 + Rev(PreRange(d0, a0, k, i, NADDR))
        invariant Unchanged(d0, disk, PreRange(d0, a0, k, i, NADDR))
        invariant held == h0 && peak <= Max(old(peak), |h0| + 2)
        invariant addr[..i] == a0[..i]
        invariant forall j :: i <= j < NADDR ==> addr[j] == 0
      {
        i := i - 1;
        var bn := addr[i];
        assert bn == addr[..i + 1][i] == a0[i];
        KidFreeable(d0, disk, 0, a0, k, i, s0, h0, isize, fsize);
        if bn != 0 {
          addr[i] := 0;
          ghost var d1 := disk;
          FreeSlot(i, bn);
          KidFreed(d0, d1, disk, a0, k, i, Pre(d0, bn, Height(k, i)), s0);
        }
        assert addr[..i] == a0[..i + 1][..i];
      }
    }

    /** Frees all blocks of a regular file or directory. */
    method Itrunc(ip: FileInode)
      requires FreeOk() && ip.addr != sfree && ip.addr.Length == NADDR
      requires ip.regular ==> Freeable(FileBlocks(disk, ip.addr[..]), stack, held, isize, fsize)
      modifies this, sfree, ip.addr, ip`size, ip`changed
      ensures FreeOk() && held == old(held) && peak <= Max(old(peak), |held| + 2)
      ensures !old(ip.regular) ==>
                && stack == old(stack) && disk == old(disk)
                && ip.addr[..] == old(ip.addr[..]) && ip.size == old(ip.size) && ip.changed == old(ip.changed)
      ensures old(ip.regular) ==>
                && stack == old(stack) + Rev(old(FileBlocks(disk, ip.addr[..])))
                && Unchanged(old(disk), disk, old(FileBlocks(disk, ip.addr[..])))
                && ip.addr[..] == Zeros(NADDR) && ip.size == 0 && ip.changed
    {
      if !ip.regular {
        return;
      }
      FreeAddresses(ip.addr);
      AllZero(ip.addr[..]);
      ip.size := 0;
      ip.changed := true;
    }

    /**
     * One step of Bmap down the indirect blocks: entry i of block nb. A missing
     * entry is filled with a fresh block when writing; 0 is returned when it is
     * not, or when no block is left.
     */
    method Entry(nb: int, i: nat, write: bool) returns (c: int)
      requires FreeOk() && i < NINDIR && nb !in held && nb !in stack
      requires forall x :: x in stack ==> x !in held
      modifies this, sfree
      ensures FreeOk() && held == old(held) && peak <= Max(old(peak), |held| + 2)
      ensures Words(old(disk), nb)[i] != 0 || !write || old(stack) == [] ==>
                c == Words(old(disk), nb)[i] && disk == old(disk) && stack == old(stack)
      ensures !(Words(old(disk), nb)[i] != 0 || !write || old(stack) == []) ==>
                stack + [c] == old(stack) && disk == Attach(old(disk), nb, i, c)
    {
      var bap := Bread(nb);
      c := bap[i];
      if c == 0 {
        if !write {
          Brelse(nb);
          return;
        }
        var nbp;
        c, nbp := Alloc();
        if c == 0 {
          assert old(stack) == [] by {
            assert 0 in [c];
            assert 0 !in old(stack);
          }
          Brelse(nb);
          return;
        }
        DistinctSplit(stack, [c]);
        assert c in [c] && c in old(stack);
        FreeListWrite(disk, sfree[..nfree], stack, isize, fsize, c, nbp);
        Bdwrite(c, nbp);
        bap := bap[i := c];
        FreeListWrite(disk, sfree[..nfree], stack, isize, fsize, nb, bap);
        Bdwrite(nb, bap);
      } else {
        Brelse(nb);
      }
    }

    /** The address in slot i of an inode, filled like an entry of an indirect block. */
    method Slot(ip: FileInode, i: nat, write: bool) returns (nb: int)
      requires FreeOk() && ip.addr != sfree && ip.addr.Length == NADDR && i < NADDR
      requires forall x :: x in stack ==> x !in held
      modifies this, sfree, ip.addr, ip`changed
      ensures FreeOk() && held == old(held) && peak <= Max(old(peak), |held| + 1)
      ensures old(ip.addr[i]) != 0 || !write || old(stack) == [] ==>
                && nb == old(ip.addr[i]) && disk == old(disk) && stack == old(stack)
                && ip.addr[..] == old(ip.addr[..]) && ip.changed == old(ip.changed)
      ensures !(old(ip.addr[i]) != 0 || !write || old(stack) == []) ==>
                && stack + [nb] == old(stack) && disk == old(disk)[nb := ZeroBlock()]
                && ip.addr[..] == old(ip.addr[..])[i := nb] && ip.changed
      ensures ip.changed == (old(ip.changed) || ip.addr[..] != old(ip.addr[..]))
    {
      nb := ip.addr[i];
      if nb == 0 && write {
        var bp;
        nb, bp := Alloc();
        assert ip.addr[..] == old(ip.addr[..]);
        if nb == 0 {
          assert old(stack) == [] by {
            assert 0 in [nb];
            assert 0 !in old(stack);
          }
          return;
        }
        DistinctSplit(stack, [nb]);
        assert nb in [nb];
        FreeListWrite(disk, sfree[..nfree], stack, isize, fsize, nb, bp);
        Bdwrite(nb, bp);
        ip.addr[i] := nb;
        ip.changed := true;
        assert ip.addr[..][i] != old(ip.addr[..])[i];
      }
    }

    /**
     * Finds the physical block of logical block lbn of a file, allocating it and
     * the indirect blocks on the way to it when writing. The result is -1 for a
     * hole or a full volume and 0 for a block number out of range.
     */
    method Bmap(ip: FileInode, lbn: int, write: bool) returns (r: int, err: Errno)
      requires FreeOk() && ip.addr != sfree && ip.addr.Length == NADDR
      requires Separate(disk, stack, FileBlocks(disk, ip.addr[..]))
      requires forall x :: x in stack || x in FileBlocks(disk, ip.addr[..]) ==> x !in held
      modifies this, sfree, ip.addr, ip`changed
      ensures FreeOk() && held == old(held) && peak <= Max(old(peak), |held| + 2)
      ensures MapDone(write, old(disk), old(stack), old(ip.addr[..]), lbn, disk, stack, ip.addr[..], r, err)
      ensures ip.changed == (old(ip.changed) || ip.addr[..] != old(ip.addr[..]))
    {
      hide FileBlocks, GrowFile;
      if lbn < 0 {
        return 0, EFBIG;
      }
      if lbn < NADDR - 3 {
        DirectBlock(disk, ip.addr[..], stack, lbn);
        r := Slot(ip, lbn, write);
      } else {
        var j, bn := Levels(lbn);
        if j == 0 {
          return 0, EFBIG;
        }
        r := Indirectly(ip, j, bn, write, lbn);
      }
      err := if r == 0 && write then ENOSPC else NoError;
      r := if r == 0 then -1 else r;
    }

    /** The part of Bmap for the last three slots. */
    method Indirectly(ip: FileInode, j: nat, bn: nat, write: bool, ghost lbn: nat) returns (r: int)
      requires FreeOk() && ip.addr != sfree && ip.addr.Length == NADDR
      requires Separate(disk, stack, FileBlocks(disk, ip.addr[..]))
      requires forall x :: x in stack || x in FileBlocks(disk, ip.addr[..]) ==> x !in held
      requires 1 <= j <= 3 && lbn < FILE_LIMIT && SlotOf(lbn) == NADDR - j && OffsetOf(lbn) == bn
      modifies this, sfree, ip.addr, ip`changed
      ensures FreeOk() && held == old(held) && peak <= Max(old(peak), |held| + 2)
      ensures r == FileLookup(disk, ip.addr[..], lbn)
      ensures !write ==>
                && disk == old(disk) && stack == old(stack)
                && ip.addr[..] == old(ip.addr[..]) && ip.changed == old(ip.changed)
      ensures write ==>
                && var g := GrowFile(old(disk), old(stack), old(ip.addr[..]), lbn);
                && disk == g.g.d && stack == g.g.free && ip.addr[..] == g.addr && (g.g.ok <==> r != 0)
      ensures ip.changed == (old(ip.changed) || ip.addr[..] != old(ip.addr[..]))
    {
      hide Words, Pre, PreRange, Separate, OnPath, FileLookup, GrowFile, SlotOf, OffsetOf;
      ghost var d0, a0, s0 := disk, ip.addr[..], stack;
      ghost var g := if write then GrowFile(d0, s0, a0, lbn) else FileGrown(a0, Grown(d0, s0, [], true));
      ghost var taken: seq<int> := [];
      if a0[NADDR - j] != 0 {
        StartPresent(write, d0, s0, a0, lbn);
      } else {
        StartMissing(write, d0, a0, s0, lbn);
        if write && s0 != [] {
          StartAttach(d0, s0, a0, lbn);
          taken := [s0[|s0| - 1]];
        }
      }
      r := Slot(ip, NADDR - j, write);
      if r != 0 {
        r := Through(r, j, bn, write, g, lbn, taken);
      }
    }

    /** The part of Bmap that determines how many levels of indirection there are: 4 - j, and j == 0 for too many. */
    method Levels(lbn: nat) returns (j: nat, bn: nat)
      requires NADDR - 3 <= lbn
      ensures j <= 3 && (j == 0 <==> lbn >= FILE_LIMIT)
      ensures j > 0 ==> SlotOf(lbn) == NADDR - j && bn == OffsetOf(lbn)
    {
      var sh, span := 0, 1;
      bn, j := lbn - (NADDR - 3), 3;
      while j > 0
        invariant 0 <= j <= 3 && sh == 7 * (3 - j) && span == Cap(3 - j)
        invariant 0 <= bn == lbn - (if j == 0 then FILE_LIMIT else SlotStart(NADDR - j))
        decreases j
      {
        sh := sh + 7;
        span := span * NINDIR;
        if bn < span {
          break;
        }
        bn := bn - span;
        j := j - 1;
      }
    }

    /** The part of Bmap that fetches through the indirect blocks, from block nb of height 4 - j. */
    method Through(start: int, slot: nat, bn: nat, write: bool, ghost g: FileGrown, ghost lbn: nat,
                   ghost taken0: seq<int>)
      returns (nb: int)
      requires FreeOk() && 1 <= slot <= 3 && bn < Cap(4 - slot) && lbn < FILE_LIMIT
      requires OnPath(write, g, lbn, disk, stack, taken0, start, 4 - slot, bn)
      requires forall x :: x in stack || x in Pre(disk, start, 4 - slot) ==> x !in held
      modifies this, sfree
      ensures FreeOk() && held == old(held) && peak <= Max(old(peak), |held| + 2)
      ensures disk == g.g.d && stack == g.g.free
      ensures nb == FileLookup(disk, g.addr, lbn)
      ensures write ==> (g.g.ok <==> nb != 0)
    {
      hide FreeList, Words, Pre, Separate, OnPath, FileLookup, Grow;
      var j := slot;
      nb := start;
      var sh := 7 * (4 - j);
      ghost var o: nat, taken := bn, taken0;
      ghost var h0 := held;
      SmallOffset(bn, 4 - j);
      while j <= 3
        invariant 1 <= j <= 4 && sh == 7 * (4 - j) && o == bn % Cap(4 - j)
        invariant FreeOk() && held == h0 && peak <= Max(old(peak), |h0| + 2)
        invariant OnPath(write, g, lbn, disk, stack, taken, nb, 4 - j, o)
        invariant forall x :: x in stack || x in Pre(disk, nb, 4 - j) ==> x !in h0
      {
        sh := sh - 7;
        var i := (bn / Pow2(sh)) % NINDIR;
        ShiftedDigit(bn, 4 - j);
        PathStep(write, g, lbn, disk, stack, taken, nb, 4 - j, o);
        ghost var was, d := stack, disk;
        var c := Entry(nb, i, write);
        if c == 0 {
          return 0;
        }
        if Words(d, nb)[i] == 0 {
          taken := taken + [c];
        }
        o := Rest(4 - j, o);
        nb := c;
        j := j + 1;
      }
      PathEnd(write, g, lbn, disk, stack, taken, nb, o);
    }
  }

  /**
   * Block nb of height h lies on the path to logical block lbn, and o is what is
   * left of the offset. Writing, the rest of the path is still to be grown to
   * reach the final state g; reading, g is the state itself.
   */
  ghost predicate OnPath(write: bool, g: FileGrown, lbn: nat, d: Disk, free: seq<int>, taken: seq<int>,
                         nb: int, h: nat, o: nat)
  {
    && lbn < FILE_LIMIT && o < Cap(h) && nb != 0
    && Separate(d, free, Pre(d, nb, h))
    && FileLookup(g.g.d, g.addr, lbn) == Lookup(g.g.d, nb, h, o)
    && g.g == if write then var r := Grow(d, free, nb, h, o); r.(taken := taken + r.taken)
              else Grown(d, free, [], true)
  }

  /** df_nfree and df_free of a block set, the rest of it kept. */
  function SpillPage(b: Block, n: int, addrs: seq<int>): (r: Block)
    requires |addrs| == NICFREE
    ensures r[0] == n && r[1..1 + NICFREE] == addrs
  {
    [n] + addrs + b[1 + NICFREE..]
  }

  lemma EmptyPage(d: Disk, page: seq<int>, stack: seq<int>, lo: int, hi: int)
    requires page == []
    ensures FreeList(d, page, stack, lo, hi) <==> stack == []
  {
  }

  lemma PageZero(d: Disk, page: seq<int>, stack: seq<int>, lo: int, hi: int)
    requires page != [] && FreeList(d, page, stack, lo, hi) && 0 < lo
    ensures page[|page| - 1] == 0 <==> stack == []
  {
    if page[|page| - 1] == 0 {
      assert 0 !in stack;
    } else {
      PagePop(d, page, stack, if stack == [] then [] else stack[..|stack| - 1], lo, hi);
    }
  }

  lemma PagePop(d: Disk, page: seq<int>, stack: seq<int>, rest: seq<int>, lo: int, hi: int)
    requires page != [] && FreeList(d, page, stack, lo, hi) && page[|page| - 1] != 0
    requires stack != [] ==> rest == stack[..|stack| - 1]
    ensures stack == rest + [page[|page| - 1]]
    ensures page[|page| - 1] in stack && forall x :: x in rest ==> x in stack
    ensures if |page| == 1 then
              1 <= Words(d, page[0])[0] <= NICFREE && FreeList(d, NextPage(d, page[0]), rest, lo, hi)
            else FreeList(d, page[..|page| - 1], rest, lo, hi)
  {
    hide Words, NextPage;
    ChainPop(d, page, stack);
    assert stack == rest + [page[|page| - 1]];
    DistinctSplit(rest, [page[|page| - 1]]);
    assert page[|page| - 1] in [page[|page| - 1]];
  }

  lemma ChainPop(d: Disk, page: seq<int>, stack: seq<int>)
    requires page != [] && Chain(d, page, stack) && page[|page| - 1] != 0
    ensures stack != [] && stack[|stack| - 1] == page[|page| - 1]
    ensures var rest := stack[..|stack| - 1];
            if |page| == 1 then
              1 <= Words(d, page[0])[0] <= NICFREE && Chain(d, NextPage(d, page[0]), rest)
            else Chain(d, page[..|page| - 1], rest)
  {
    var page', rest := page[..|page| - 1], stack[..|stack| - 1];
    if page[0] == 0 {
      assert rest == page'[1..];
    } else {
      var n := |stack| - |page|;
      assert stack[n..][|page| - 1] == stack[|stack| - 1];
      assert rest[..n] == stack[..n];
      assert rest[n..] == page';
    }
  }

  lemma PagePush(d: Disk, page: seq<int>, page': seq<int>, stack: seq<int>, bno: int, lo: int, hi: int)
    requires page != [] && FreeList(d, page, stack, lo, hi) && 0 < lo <= bno < hi && bno !in stack
    requires || page' == page + [bno]
             || (page' == [bno] && |page| == NICFREE == Words(d, bno)[0] && NextPage(d, bno) == page)
    ensures FreeList(d, page', stack + [bno], lo, hi)
  {
    var stack' := stack + [bno];
    if page' == page + [bno] {
      if page[0] == 0 {
        assert stack' == page'[1..];
      } else {
        var n := |stack| - |page|;
        assert stack'[n..] == stack[n..] + [bno];
        assert stack'[..n] == stack[..n];
      }
    } else {
      assert stack'[|stack|..] == page';
      assert stack'[..|stack|] == stack;
    }
  }

  // ---------------------------------------------------------------------------
  // Truncation.

  /** Height of the tree freed by a call of Tloop. */
  function TloopHeight(f1: bool, f2: bool): nat {
    if f2 then 3 else if f1 then 2 else 1
  }

  /** Blocks that can all be freed: distinct, not free, not busy, in the data area. */
  ghost predicate Freeable(blocks: seq<int>, stack: seq<int>, held: set<int>, lo: int, hi: int) {
    && Distinct(blocks) && Within(blocks, lo, hi) && Disjoint(blocks, stack)
    && forall x :: x in blocks ==> x !in held
  }

  /** Only the contents of the given blocks may differ. */
  ghost predicate Unchanged(d: Disk, e: Disk, blocks: seq<int>) {
    forall x :: x !in blocks ==> Words(e, x) == Words(d, x)
  }

  lemma NodeFreeable(d: Disk, bn: int, h: nat, stack: seq<int>, held: set<int>, lo: int, hi: int)
    requires bn != 0 && 0 < h && Freeable(Pre(d, bn, h), stack, held, lo, hi)
    ensures var kids, k := Words(d, bn), Indirect(h - 1);
            && Pre(d, bn, h) == [bn] + PreRange(d, kids, k, 0, NINDIR)
            && PreRange(d, kids, k, NINDIR, NINDIR) == []
            && Freeable(PreRange(d, kids, k, 0, NINDIR), stack, held, lo, hi)
            && bn !in PreRange(d, kids, k, 0, NINDIR)
            && bn !in stack + Rev(PreRange(d, kids, k, 0, NINDIR)) && bn !in held && lo <= bn < hi
            && Unchanged(d, d, []) && stack + Rev([]) == stack
  {
    var kids, k := Words(d, bn), Indirect(h - 1);
    assert Pre(d, bn, h) == [bn] + PreRange(d, kids, k, 0, NINDIR);
    assert bn in Pre(d, bn, h) && bn in [bn];
    assert forall x :: x in PreRange(d, kids, k, 0, NINDIR) ==> x in Pre(d, bn, h);
    DistinctSplit([bn], PreRange(d, kids, k, 0, NINDIR));
    RevMembers(PreRange(d, kids, k, 0, NINDIR));
  }

  lemma NodeUntouched(d: Disk, e: Disk, bn: int, kids: Block, k: Kind, i: nat)
    requires i <= NINDIR == Slots(k) && Unchanged(d, e, PreRange(d, kids, k, i, NINDIR))
    requires bn !in PreRange(d, kids, k, 0, NINDIR)
    ensures Words(e, bn) == Words(d, bn)
  {
    RangeSplit(d, kids, k, 0, i, NINDIR);
  }

  /** The tree in slot i is still intact, and can be freed, when all later slots have been. */
  lemma KidFreeable(d: Disk, e: Disk, bn: int, ws: seq<int>, k: Kind, i: nat,
                    stack: seq<int>, held: set<int>, lo: int, hi: int)
    requires i < |ws| == Slots(k) && bn !in PreRange(d, ws, k, 0, |ws|)
    requires Freeable(PreRange(d, ws, k, 0, |ws|), stack, held, lo, hi)
    requires Unchanged(d, e, PreRange(d, ws, k, i + 1, |ws|))
    ensures var p, q := Pre(d, ws[i], Height(k, i)), PreRange(d, ws, k, i + 1, |ws|);
            && Pre(e, ws[i], Height(k, i)) == p
            && PreRange(d, ws, k, i, |ws|) == p + q
            && Freeable(p, stack + Rev(q), held, lo, hi) && bn !in p
            && (ws[i] == 0 ==> p == [] && p + q == q)
            && (ws[i] != 0 && Height(k, i) == 0 ==> p == [ws[i]])
            && (ws[i] != 0 ==> lo <= ws[i] < hi && ws[i] !in stack + Rev(q) && ws[i] !in held && ws[i] != bn)
  {
    var all := PreRange(d, ws, k, 0, |ws|);
    var p, q := Pre(d, ws[i], Height(k, i)), PreRange(d, ws, k, i + 1, |ws|);
    RangeSplit(d, ws, k, 0, i, |ws|);
    assert PreRange(d, ws, k, i, |ws|) == p + q;
    DistinctSplit(PreRange(d, ws, k, 0, i), p + q);
    DistinctSplit(p, q);
    RevMembers(q);
    assert forall x :: x in p ==> x in all;
    assert ws[i] != 0 ==> ws[i] in p;
    MetaInPre(d, ws[i], Height(k, i));
    PreFrame(d, e, ws[i], Height(k, i));
  }

  lemma KidFreed(d: Disk, e: Disk, e': Disk, ws: seq<int>, k: Kind, i: nat, freed: seq<int>, stack: seq<int>)
    requires i < |ws| == Slots(k)
    requires freed == Pre(d, ws[i], Height(k, i))
    requires PreRange(d, ws, k, i, |ws|) == freed + PreRange(d, ws, k, i + 1, |ws|)
    requires Unchanged(d, e, PreRange(d, ws, k, i + 1, |ws|)) && Unchanged(e, e', freed)
    ensures Unchanged(d, e', PreRange(d, ws, k, i, |ws|))
    ensures stack + Rev(PreRange(d, ws, k, i, |ws|)) == stack + Rev(PreRange(d, ws, k, i + 1, |ws|)) + Rev(freed)
    ensures |freed| == 1 ==> Rev(freed) == freed
  {
    RevAppend(freed, PreRange(d, ws, k, i + 1, |ws|));
  }

  lemma NodeFreed(d: Disk, e: Disk, e': Disk, bn: int, kids: Block, k: Kind)
    requires k.Indirect? && Unchanged(d, e, PreRange(d, kids, k, 0, NINDIR)) && Unchanged(e, e', [bn])
    ensures Unchanged(d, e', [bn] + PreRange(d, kids, k, 0, NINDIR))
    ensures Rev([bn] + PreRange(d, kids, k, 0, NINDIR)) == Rev(PreRange(d, kids, k, 0, NINDIR)) + [bn]
  {
    RevAppend([bn], PreRange(d, kids, k, 0, NINDIR));
  }

  lemma FileFreeable(d: Disk, addr: Addrs, stack: seq<int>, held: set<int>, lo: int, hi: int)
    requires 0 < lo && Freeable(FileBlocks(d, addr), stack, held, lo, hi)
    ensures 0 !in PreRange(d, addr, Inode, 0, NADDR)
    ensures FileBlocks(d, addr) == PreRange(d, addr, Inode, 0, NADDR)
    ensures PreRange(d, addr, Inode, NADDR, NADDR) == []
    ensures Unchanged(d, d, []) && stack + Rev([]) == stack
  {
  }

  lemma AllZero(s: seq<int>)
    requires forall i :: 0 <= i < |s| ==> s[i] == 0
    ensures s == Zeros(|s|)
  {
  }

  lemma FreeListWrite(d: Disk, page: seq<int>, stack: seq<int>, lo: int, hi: int, x: int, b: Block)
    requires FreeList(d, page, stack, lo, hi) && x !in stack
    ensures FreeList(d[x := b], page, stack, lo, hi)
  {
    ChainFrame(d, d[x := b], page, stack);
  }

  lemma DirectBlock(d: Disk, addr: Addrs, free: seq<int>, lbn: nat)
    requires lbn < NADDR - 3
    ensures FileLookup(d, addr, lbn) == addr[lbn]
    ensures var g := GrowFile(d, free, addr, lbn);
            if addr[lbn] != 0 then g == FileGrown(addr, Grown(d, free, [], true))
            else if free == [] then g == FileGrown(addr, Grown(d, free, [], false))
            else
              var a := free[|free| - 1];
              g == FileGrown(addr[lbn := a], Grown(d[a := ZeroBlock()], free[..|free| - 1], [a], true))
  {
    if free != [] {
      assert [free[|free| - 1]] + [] == [free[|free| - 1]];
    }
  }

  lemma SmallOffset(o: nat, h: nat)
    requires o < Cap(h)
    ensures o % Cap(h) == o
  {
    DivideBack(0, Cap(h), o);
  }

  lemma StartPresent(write: bool, d: Disk, free: seq<int>, addr: Addrs, lbn: nat)
    requires lbn < FILE_LIMIT && Separate(d, free, FileBlocks(d, addr)) && addr[SlotOf(lbn)] != 0
    ensures var i, h, o := SlotOf(lbn), Height(Inode, SlotOf(lbn)), OffsetOf(lbn);
            var g := if write then GrowFile(d, free, addr, lbn) else FileGrown(addr, Grown(d, free, [], true));
            && g.addr == addr && OnPath(write, g, lbn, d, free, [], addr[i], h, o)
            && forall x :: x in Pre(d, addr[i], h) ==> x in FileBlocks(d, addr)
  {
    hide PreRange, Pre, SlotOf, OffsetOf, Grow;
    var i, h, o := SlotOf(lbn), Height(Inode, SlotOf(lbn)), OffsetOf(lbn);
    SlotSeparate(d, free, addr, i);
    SlotSplit(d, addr, Inode, i);
    var r := Grow(d, free, addr[i], h, o);
    assert [] + r.taken == r.taken;
  }

  lemma StartAttach(d: Disk, free: seq<int>, addr: Addrs, lbn: nat)
    requires lbn < FILE_LIMIT && Separate(d, free, FileBlocks(d, addr)) && addr[SlotOf(lbn)] == 0 && free != []
    ensures var i, h, o := SlotOf(lbn), Height(Inode, SlotOf(lbn)), OffsetOf(lbn);
            var g := GrowFile(d, free, addr, lbn);
            var a, rest := free[|free| - 1], free[..|free| - 1];
            && a != 0 && g.addr == addr[i := a]
            && OnPath(true, g, lbn, d[a := ZeroBlock()], rest, [a], a, h, o)
            && Pre(d[a := ZeroBlock()], a, h) == [a]
  {
    hide PreRange, Pre, SlotOf, OffsetOf, Grow;
    var i, h := SlotOf(lbn), Height(Inode, SlotOf(lbn));
    var a, rest := free[|free| - 1], free[..|free| - 1];
    assert free == rest + [a];
    RootSeparate(d, rest, a, addr, i);
    SlotSeparate(d[a := ZeroBlock()], rest, addr[i := a], i);
    ZeroTree(d[a := ZeroBlock()], a, h);
  }

  lemma StartMissing(write: bool, d: Disk, addr: Addrs, free: seq<int>, lbn: nat)
    requires lbn < FILE_LIMIT && addr[SlotOf(lbn)] == 0
    ensures FileLookup(d, addr, lbn) == 0
    ensures free == [] ==> GrowFile(d, free, addr, lbn) == FileGrown(addr, Grown(d, free, [], false))
  {
  }

  lemma PathStep(write: bool, g: FileGrown, lbn: nat, d: Disk, free: seq<int>, taken: seq<int>,
                 nb: int, h: nat, o: nat)
    requires OnPath(write, g, lbn, d, free, taken, nb, h, o) && 0 < h
    ensures nb in Pre(d, nb, h) && nb !in free
    ensures var i := Digit(h, o);
            var c := Words(d, nb)[i];
            && (c != 0 ==>
                  && OnPath(write, g, lbn, d, free, taken, c, h - 1, Rest(h, o))
                  && forall x :: x in Pre(d, c, h - 1) ==> x in Pre(d, nb, h))
            && (c == 0 && (!write || free == []) ==>
                  && g.g.d == d && g.g.free == free && (write ==> !g.g.ok) && FileLookup(d, g.addr, lbn) == 0)
            && (c == 0 && write && free != [] ==>
                  var a, rest := free[|free| - 1], free[..|free| - 1];
                  var e := Attach(d, nb, i, a);
                  && a != 0 && OnPath(write, g, lbn, e, rest, taken + [a], a, h - 1, Rest(h, o))
                  && Pre(e, a, h - 1) == [a])
  {
    assert nb in Pre(d, nb, h);
    var c := Words(d, nb)[Digit(h, o)];
    if c != 0 {
      StepPresent(write, g, lbn, d, free, taken, nb, h, o);
    } else if !write || free == [] {
      assert Lookup(d, nb, h, o) == Lookup(d, 0, h - 1, Rest(h, o)) == 0;
    } else {
      StepFill(g, lbn, d, free, taken, nb, h, o);
    }
  }

  lemma StepPresent(write: bool, g: FileGrown, lbn: nat, d: Disk, free: seq<int>, taken: seq<int>,
                    nb: int, h: nat, o: nat)
    requires OnPath(write, g, lbn, d, free, taken, nb, h, o) && 0 < h && Words(d, nb)[Digit(h, o)] != 0
    ensures var c := Words(d, nb)[Digit(h, o)];
            && OnPath(write, g, lbn, d, free, taken, c, h - 1, Rest(h, o))
            && forall x :: x in Pre(d, c, h - 1) ==> x in Pre(d, nb, h)
  {
    hide Pre, FileLookup, Digit, Rest;
    StepDown(d, free, nb, h, Digit(h, o));
    if write {
      PathKept(d, free, nb, h, o);
    }
  }

  lemma StepFill(g: FileGrown, lbn: nat, d: Disk, free: seq<int>, taken: seq<int>, nb: int, h: nat, o: nat)
    requires OnPath(true, g, lbn, d, free, taken, nb, h, o) && 0 < h && Words(d, nb)[Digit(h, o)] == 0 && free != []
    ensures var a, rest := free[|free| - 1], free[..|free| - 1];
            var e := Attach(d, nb, Digit(h, o), a);
            && a != 0 && OnPath(true, g, lbn, e, rest, taken + [a], a, h - 1, Rest(h, o))
            && Pre(e, a, h - 1) == [a]
  {
    hide Pre, FileLookup, Digit, Rest, Grow;
    StepAttach(d, free, nb, h, o);
    var a, rest := free[|free| - 1], free[..|free| - 1];
    var r := Grow(Attach(d, nb, Digit(h, o), a), rest, a, h - 1, Rest(h, o));
    assert taken + ([a] + r.taken) == (taken + [a]) + r.taken;
  }

  lemma PathEnd(write: bool, g: FileGrown, lbn: nat, d: Disk, free: seq<int>, taken: seq<int>, nb: int, o: nat)
    requires OnPath(write, g, lbn, d, free, taken, nb, 0, o)
    ensures g.g.d == d && g.g.free == free && g.g.ok && FileLookup(d, g.addr, lbn) == nb && nb != 0
  {
  }
}
