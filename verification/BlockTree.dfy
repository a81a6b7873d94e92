/**
 * The tree of disk blocks under one inode, as a value: the contents of the
 * volume are a map from block numbers to blocks of NINDIR addresses, and a file
 * is the thirteen addresses of its inode.
 */
module BlockTree {
  import opened Sequences

  const NADDR := 13
  const NINDIR := 128

  type Block = b: seq<int> | |b| == NINDIR witness Zeros(NINDIR)
  type Disk = map<int, Block>

  function Zeros(n: nat): (s: seq<int>)
    ensures |s| == n && forall i :: 0 <= i < n ==> s[i] == 0
  {
    seq(n, _ => 0)
  }

  function ZeroBlock(): (b: Block)
    ensures forall i :: 0 <= i < NINDIR ==> b[i] == 0
  {
    Zeros(NINDIR)
  }

  /** The contents of block bn. */
  function Words(d: Disk, bn: int): Block {
    if bn in d then d[bn] else ZeroBlock()
  }

  /**
   * A list of block addresses: the addresses of an inode (ten direct ones, then
   * a single, a double and a triple indirect one), or the contents of an
   * indirect block, all of whose entries are roots of trees of one height.
   */
  datatype Kind = Inode | Indirect(height: nat)

  function Slots(k: Kind): nat {
    if k.Inode? then NADDR else NINDIR
  }

  /** Height of the tree below slot i: 0 is a data block. */
  function Height(k: Kind, i: nat): nat {
    match k
    case Inode => if i < NADDR - 3 then 0 else i - (NADDR - 4)
    case Indirect(h) => h
  }

  function MaxHeight(k: Kind): nat {
    if k.Inode? then 3 else k.height
  }

  /** Number of data blocks a tree of height h can hold. */
  function Cap(h: nat): (c: nat)
    ensures c > 0
  {
    if h == 0 then 1 else NINDIR * Cap(h - 1)
  }

  // ---------------------------------------------------------------------------
  // All blocks of a tree in preorder, and those holding addresses or data.

  function Pre(d: Disk, bn: int, h: nat): seq<int>
    decreases h, 1, 0
  {
    if bn == 0 then [] else [bn] + Below(d, bn, h)
  }

  function Below(d: Disk, bn: int, h: nat): seq<int>
    decreases h, 0, 0
  {
    if h == 0 then [] else PreRange(d, Words(d, bn), Indirect(h - 1), 0, NINDIR)
  }

  function PreRange(d: Disk, ws: seq<int>, k: Kind, lo: nat, hi: nat): seq<int>
    requires lo <= hi <= |ws| == Slots(k)
    decreases MaxHeight(k), 2, hi - lo
  {
    if lo == hi then []
    else Pre(d, ws[lo], Height(k, lo)) + PreRange(d, ws, k, lo + 1, hi)
  }

  /** The indirect blocks of a tree, and its data blocks. */
  ghost function Meta(d: Disk, bn: int, h: nat): set<int>
    decreases h, 1, 0
  {
    if bn == 0 || h == 0 then {}
    else {bn} + MetaRange(d, Words(d, bn), Indirect(h - 1), 0, NINDIR)
  }

  ghost function MetaRange(d: Disk, ws: seq<int>, k: Kind, lo: nat, hi: nat): set<int>
    requires lo <= hi <= |ws| == Slots(k)
    decreases MaxHeight(k), 2, hi - lo
  {
    if lo == hi then {}
    else Meta(d, ws[lo], Height(k, lo)) + MetaRange(d, ws, k, lo + 1, hi)
  }

  /** The data block at offset off of a tree, 0 for a hole. */
  function Lookup(d: Disk, bn: int, h: nat, off: nat): int
    requires off < Cap(h)
    decreases h
  {
    if bn == 0 || h == 0 then bn
    else Lookup(d, Words(d, bn)[Digit(h, off)], h - 1, Rest(h, off))
  }

  /** The entry of a tree of height h that leads to offset off, and the offset below it. */
  function Digit(h: nat, off: nat): (i: nat)
    requires 0 < h && off < Cap(h)
    ensures i < NINDIR
  {
    ChildBounds(h, off);
    off / Cap(h - 1)
  }

  function Rest(h: nat, off: nat): (o: nat)
    requires 0 < h && off < Cap(h)
    ensures o < Cap(h - 1)
  {
    off % Cap(h - 1)
  }

  lemma ChildBounds(h: nat, off: nat)
    requires 0 < h && off < Cap(h)
    ensures off / Cap(h - 1) < NINDIR
  {
    var c := Cap(h - 1);
    var q := off / c;
    assert c * q <= off < NINDIR * c;
    MulCancel(c, q, NINDIR);
  }

  lemma MulCancel(c: int, q: int, n: int)
    requires 0 < c && c * q < n * c
    ensures q < n
  {
    if n <= q {
      MulMonotone(c, n, q);
      assert false;
    }
  }

  lemma MulMonotone(c: int, n: int, q: int)
    requires 0 <= c && n <= q
    ensures c * n <= c * q
  {
  }

  ghost predicate Agree(d: Disk, e: Disk, s: set<int>) {
    forall b :: b in s ==> Words(d, b) == Words(e, b)
  }

  lemma {:induction false} MetaInPre(d: Disk, bn: int, h: nat)
    ensures forall x :: x in Meta(d, bn, h) ==> x in Pre(d, bn, h)
    decreases h, 1, 0
  {
    if bn != 0 && h != 0 {
      MetaRangeInPre(d, Words(d, bn), Indirect(h - 1), 0, NINDIR);
    }
  }

  lemma {:induction false} MetaRangeInPre(d: Disk, ws: seq<int>, k: Kind, lo: nat, hi: nat)
    requires lo <= hi <= |ws| == Slots(k)
    ensures forall x :: x in MetaRange(d, ws, k, lo, hi) ==> x in PreRange(d, ws, k, lo, hi)
    decreases MaxHeight(k), 2, hi - lo
  {
    if lo < hi {
      MetaInPre(d, ws[lo], Height(k, lo));
      MetaRangeInPre(d, ws, k, lo + 1, hi);
    }
  }

  /** A tree depends on the contents of its indirect blocks only. */
  lemma {:induction false} PreFrame(d: Disk, e: Disk, bn: int, h: nat)
    requires Agree(d, e, Meta(d, bn, h))
    ensures Pre(e, bn, h) == Pre(d, bn, h) && Meta(e, bn, h) == Meta(d, bn, h)
    decreases h, 1, 0
  {
    if bn != 0 && h != 0 {
      assert bn in Meta(d, bn, h);
      RangeFrame(d, e, Words(d, bn), Indirect(h - 1), 0, NINDIR);
    }
  }

  lemma {:induction false} RangeFrame(d: Disk, e: Disk, ws: seq<int>, k: Kind, lo: nat, hi: nat)
    requires lo <= hi <= |ws| == Slots(k)
    requires Agree(d, e, MetaRange(d, ws, k, lo, hi))
    ensures PreRange(e, ws, k, lo, hi) == PreRange(d, ws, k, lo, hi)
    ensures MetaRange(e, ws, k, lo, hi) == MetaRange(d, ws, k, lo, hi)
    decreases MaxHeight(k), 2, hi - lo
  {
    if lo < hi {
      PreFrame(d, e, ws[lo], Height(k, lo));
      RangeFrame(d, e, ws, k, lo + 1, hi);
    }
  }

  lemma {:induction false} LookupFrame(d: Disk, e: Disk, bn: int, h: nat, off: nat)
    requires off < Cap(h)
    requires Agree(d, e, Meta(d, bn, h))
    ensures Lookup(e, bn, h, off) == Lookup(d, bn, h, off)
    decreases h
  {
    if bn != 0 && h != 0 {
      assert bn in Meta(d, bn, h);
      MetaOfSlot(d, Words(d, bn), Indirect(h - 1), 0, Digit(h, off));
      LookupFrame(d, e, Words(d, bn)[Digit(h, off)], h - 1, Rest(h, off));
    }
  }

  lemma {:induction false} MetaOfSlot(d: Disk, ws: seq<int>, k: Kind, lo: nat, i: nat)
    requires lo <= i < |ws| == Slots(k)
    ensures Meta(d, ws[i], Height(k, i)) <= MetaRange(d, ws, k, lo, |ws|)
    decreases i - lo
  {
    if lo < i {
      MetaOfSlot(d, ws, k, lo + 1, i);
    }
  }

  lemma {:induction false} RangeSplit(d: Disk, ws: seq<int>, k: Kind, lo: nat, mid: nat, hi: nat)
    requires lo <= mid <= hi <= |ws| == Slots(k)
    ensures PreRange(d, ws, k, lo, hi) == PreRange(d, ws, k, lo, mid) + PreRange(d, ws, k, mid, hi)
    ensures MetaRange(d, ws, k, lo, hi) == MetaRange(d, ws, k, lo, mid) + MetaRange(d, ws, k, mid, hi)
    decreases mid - lo
  {
    if lo < mid {
      RangeSplit(d, ws, k, lo + 1, mid, hi);
      var p, q, r := Pre(d, ws[lo], Height(k, lo)), PreRange(d, ws, k, lo + 1, mid), PreRange(d, ws, k, mid, hi);
      assert p + (q + r) == (p + q) + r;
    }
  }

  /** Slots outside the range do not matter. */
  lemma {:induction false} RangeCongruence(d: Disk, ws: seq<int>, vs: seq<int>, k: Kind, lo: nat, hi: nat)
    requires lo <= hi <= |ws| == |vs| == Slots(k)
    requires forall i :: lo <= i < hi ==> ws[i] == vs[i]
    ensures PreRange(d, vs, k, lo, hi) == PreRange(d, ws, k, lo, hi)
    ensures MetaRange(d, vs, k, lo, hi) == MetaRange(d, ws, k, lo, hi)
    decreases hi - lo
  {
    if lo < hi {
      RangeCongruence(d, ws, vs, k, lo + 1, hi);
    }
  }

  /** The blocks before, in and after slot i of an address list. */
  ghost function Before(d: Disk, ws: seq<int>, k: Kind, i: nat): seq<int>
    requires i < |ws| == Slots(k)
  {
    PreRange(d, ws, k, 0, i)
  }

  ghost function After(d: Disk, ws: seq<int>, k: Kind, i: nat): seq<int>
    requires i < |ws| == Slots(k)
  {
    PreRange(d, ws, k, i + 1, |ws|)
  }

  lemma SlotSplit(d: Disk, ws: seq<int>, k: Kind, i: nat)
    requires i < |ws| == Slots(k)
    ensures PreRange(d, ws, k, 0, |ws|)
         == Before(d, ws, k, i) + (Pre(d, ws[i], Height(k, i)) + After(d, ws, k, i))
    ensures MetaRange(d, ws, k, 0, |ws|)
         == MetaRange(d, ws, k, 0, i) + Meta(d, ws[i], Height(k, i)) + MetaRange(d, ws, k, i + 1, |ws|)
  {
    RangeSplit(d, ws, k, 0, i, |ws|);
    assert PreRange(d, ws, k, i, |ws|) == Pre(d, ws[i], Height(k, i)) + After(d, ws, k, i);
  }

  /** Changing the tree in slot i only. */
  lemma SlotReplace(d: Disk, e: Disk, ws: seq<int>, k: Kind, i: nat, c: int)
    requires i < |ws| == Slots(k)
    requires Agree(d, e, MetaRange(d, ws, k, 0, i))
    requires Agree(d, e, MetaRange(d, ws, k, i + 1, |ws|))
    ensures Before(e, ws[i := c], k, i) == Before(d, ws, k, i)
    ensures After(e, ws[i := c], k, i) == After(d, ws, k, i)
    ensures MetaRange(e, ws[i := c], k, 0, i) == MetaRange(d, ws, k, 0, i)
    ensures MetaRange(e, ws[i := c], k, i + 1, |ws|) == MetaRange(d, ws, k, i + 1, |ws|)
  {
    var vs := ws[i := c];
    RangeCongruence(e, ws, vs, k, 0, i);
    RangeCongruence(e, ws, vs, k, i + 1, |ws|);
    RangeFrame(d, e, ws, k, 0, i);
    RangeFrame(d, e, ws, k, i + 1, |ws|);
  }

  lemma {:induction false} ZeroRange(d: Disk, ws: seq<int>, k: Kind, lo: nat, hi: nat)
    requires lo <= hi <= |ws| == Slots(k)
    requires forall i :: lo <= i < hi ==> ws[i] == 0
    ensures PreRange(d, ws, k, lo, hi) == [] && MetaRange(d, ws, k, lo, hi) == {}
    decreases hi - lo
  {
    if lo < hi {
      ZeroRange(d, ws, k, lo + 1, hi);
    }
  }

  lemma ZeroLookup(d: Disk, a: int, h: nat, o: nat)
    requires Words(d, a) == ZeroBlock() && 0 < h && o < Cap(h)
    ensures Lookup(d, a, h, o) == 0
  {
    assert Words(d, a)[Digit(h, o)] == 0;
  }

  /** A freshly allocated block is a tree with nothing below it. */
  lemma ZeroTree(d: Disk, a: int, h: nat)
    requires a != 0 && Words(d, a) == ZeroBlock()
    ensures Pre(d, a, h) == [a] && Meta(d, a, h) == if h == 0 then {} else {a}
    ensures forall o: nat :: 0 < h && o < Cap(h) ==> Lookup(d, a, h, o) == 0
  {
    if h > 0 {
      ZeroRange(d, Words(d, a), Indirect(h - 1), 0, NINDIR);
      forall o: nat | o < Cap(h)
        ensures Lookup(d, a, h, o) == 0
      {
        ZeroLookup(d, a, h, o);
      }
    }
  }

  // ---------------------------------------------------------------------------
  // Allocating the path to one data block, taking blocks from the end of a
  // sequence of free blocks.

  datatype Grown = Grown(d: Disk, free: seq<int>, taken: seq<int>, ok: bool)

  function Grow(d: Disk, free: seq<int>, bn: int, h: nat, off: nat): (g: Grown)
    requires off < Cap(h)
    decreases h
  {
    if h == 0 then Grown(d, free, [], true)
    else
      var i := Digit(h, off);
      var c := Words(d, bn)[i];
      if c != 0 then
        Grow(d, free, c, h - 1, Rest(h, off))
      else if free == [] then
        Grown(d, free, [], false)
      else
        var a := free[|free| - 1];
        var g := Grow(Attach(d, bn, i, a), free[..|free| - 1], a, h - 1, Rest(h, off));
        g.(taken := [a] + g.taken)
  }

  /** Block a, cleared, becomes entry i of indirect block bn. */
  function Attach(d: Disk, bn: int, i: nat, a: int): Disk
    requires i < NINDIR
  {
    var e := d[a := ZeroBlock()];
    e[bn := Words(e, bn)[i := a]]
  }

  ghost predicate Separate(d: Disk, free: seq<int>, blocks: seq<int>) {
    Distinct(blocks) && Distinct(free) && Disjoint(blocks, free) && 0 !in free
  }

  ghost predicate OtherLookups(d: Disk, e: Disk, bn: int, h: nat, off: nat) {
    forall o: nat :: o < Cap(h) && o != off ==> Lookup(e, bn, h, o) == Lookup(d, bn, h, o)
  }

  ghost predicate GrowSpec(d: Disk, free: seq<int>, bn: int, h: nat, off: nat, g: Grown)
    requires off < Cap(h)
  {
    && free == g.free + Rev(g.taken)
    && multiset(Pre(g.d, bn, h)) == multiset(Pre(d, bn, h)) + multiset(g.taken)
    && (forall x :: x !in Meta(d, bn, h) && x !in g.taken ==> Words(g.d, x) == Words(d, x))
    && OtherLookups(d, g.d, bn, h, off)
    && (if g.ok then Lookup(g.d, bn, h, off) != 0 else Lookup(g.d, bn, h, off) == 0 && g.free == [])
    && (Lookup(d, bn, h, off) != 0 ==> g == Grown(d, free, [], true))
    && (g.ok && Lookup(d, bn, h, off) == 0 ==>
          && g.taken != []
          && Lookup(g.d, bn, h, off) == g.taken[|g.taken| - 1]
          && Words(g.d, Lookup(g.d, bn, h, off)) == ZeroBlock())
  }

  /** The blocks of the tree at bn, split around entry i of bn. */
  lemma NodeSplit(d: Disk, bn: int, h: nat, i: nat)
    requires bn != 0 && 0 < h && i < NINDIR
    ensures var ws, k := Words(d, bn), Indirect(h - 1);
            && Pre(d, bn, h) == [bn] + (Before(d, ws, k, i) + (Pre(d, ws[i], h - 1) + After(d, ws, k, i)))
            && Meta(d, bn, h) == {bn} + MetaRange(d, ws, k, 0, i) + Meta(d, ws[i], h - 1)
                                 + MetaRange(d, ws, k, i + 1, NINDIR)
  {
    SlotSplit(d, Words(d, bn), Indirect(h - 1), i);
  }

  /** What separates the pieces of a repetition-free tree. */
  lemma NodeDistinct(d: Disk, bn: int, h: nat, i: nat)
    requires bn != 0 && 0 < h && i < NINDIR && Distinct(Pre(d, bn, h))
    ensures var ws, k := Words(d, bn), Indirect(h - 1);
            && Distinct(Pre(d, ws[i], h - 1))
            && bn !in Pre(d, ws[i], h - 1) && bn !in Before(d, ws, k, i) && bn !in After(d, ws, k, i)
            && Disjoint(Before(d, ws, k, i), Pre(d, ws[i], h - 1))
            && Disjoint(Pre(d, ws[i], h - 1), After(d, ws, k, i))
  {
    var ws, k := Words(d, bn), Indirect(h - 1);
    NodeSplit(d, bn, h, i);
    var b, c, a := Before(d, ws, k, i), Pre(d, ws[i], h - 1), After(d, ws, k, i);
    DistinctSplit([bn], b + (c + a));
    assert bn in [bn];
    DistinctSplit(b, c + a);
    DistinctSplit(c, a);
    forall x | x in b
      ensures x !in c
    {
      assert x !in c + a;
    }
  }

  /** Entries before and after slot i keep their trees when only blocks of slot i, block bn and free blocks change. */
  lemma SiblingsAgree(d: Disk, e: Disk, bn: int, h: nat, i: nat, touched: set<int>)
    requires bn != 0 && 0 < h && i < NINDIR && Distinct(Pre(d, bn, h))
    requires forall x :: x in touched ==> x !in Pre(d, bn, h)
    requires forall x :: x != bn && x !in Meta(d, Words(d, bn)[i], h - 1) && x !in touched
                         ==> Words(e, x) == Words(d, x)
    ensures var ws, k := Words(d, bn), Indirect(h - 1);
            && Agree(d, e, MetaRange(d, ws, k, 0, i))
            && Agree(d, e, MetaRange(d, ws, k, i + 1, NINDIR))
  {
    var ws, k := Words(d, bn), Indirect(h - 1);
    hide MetaRange, Meta, PreRange;
    var kids := PreRange(d, ws, k, 0, NINDIR);
    assert Pre(d, bn, h) == [bn] + kids;
    DistinctSplit([bn], kids);
    assert bn in [bn];
    OnlySlotAgree(d, e, ws, k, i, touched + {bn});
  }

  lemma NodeCount(bn: int, b: seq<int>, c: seq<int>, r: seq<int>)
    ensures multiset([bn] + (b + (c + r))) == multiset{bn} + multiset(b) + multiset(c) + multiset(r)
  {
  }

  lemma AttachWords(d: Disk, bn: int, i: nat, a: int)
    requires i < NINDIR && a != bn
    ensures var e := Attach(d, bn, i, a);
            && Words(e, bn) == Words(d, bn)[i := a] && Words(e, a) == ZeroBlock()
            && (forall x :: x != bn && x != a ==> Words(e, x) == Words(d, x))
  {
  }

  /** Attaching a free block in an empty entry of bn. */
  lemma AttachSpec(d: Disk, bn: int, h: nat, i: nat, a: int)
    requires bn != 0 && 0 < h && i < NINDIR && Words(d, bn)[i] == 0
    requires a != 0 && a !in Pre(d, bn, h) && Distinct(Pre(d, bn, h))
    ensures var e, ws, k := Attach(d, bn, i, a), Words(d, bn), Indirect(h - 1);
            && Pre(d, bn, h) == [bn] + (Before(d, ws, k, i) + ([] + After(d, ws, k, i)))
            && Pre(e, bn, h) == [bn] + (Before(d, ws, k, i) + ([a] + After(d, ws, k, i)))
            && multiset(Pre(e, bn, h)) == multiset(Pre(d, bn, h)) + multiset{a}
            && Meta(e, bn, h) <= Meta(d, bn, h) + {a}
  {
    var e, ws, k := Attach(d, bn, i, a), Words(d, bn), Indirect(h - 1);
    AttachWords(d, bn, i, a);
    NodeSplit(d, bn, h, i);
    NodeSplit(e, bn, h, i);
    SiblingsAgree(d, e, bn, h, i, {a});
    SlotReplace(d, e, ws, k, i, a);
    ZeroTree(e, a, h - 1);
    var b, r := Before(d, ws, k, i), After(d, ws, k, i);
    NodeCount(bn, b, [], r);
    NodeCount(bn, b, [a], r);
  }

  lemma OtherDigit(h: nat, off: nat, o: nat)
    requires 0 < h && off < Cap(h) && o < Cap(h) && o != off && Digit(h, o) == Digit(h, off)
    ensures Rest(h, o) != Rest(h, off)
  {
    var c := Cap(h - 1);
    assert o == c * Digit(h, o) + Rest(h, o) && off == c * Digit(h, off) + Rest(h, off);
  }

  lemma AttachLookups(d: Disk, bn: int, h: nat, off: nat, a: int, o: nat)
    requires bn != 0 && 0 < h && off < Cap(h) && o < Cap(h)
    requires Words(d, bn)[Digit(h, off)] == 0
    requires a != 0 && a !in Pre(d, bn, h) && Distinct(Pre(d, bn, h))
    ensures var e := Attach(d, bn, Digit(h, off), a);
            Lookup(e, bn, h, o) == if o == off && h == 1 then a else Lookup(d, bn, h, o)
  {
    var i, j := Digit(h, off), Digit(h, o);
    var e, ws := Attach(d, bn, i, a), Words(d, bn);
    AttachWords(d, bn, i, a);
    if j == i {
      if h > 1 {
        ZeroLookup(e, a, h - 1, Rest(h, o));
      }
    } else {
      NodeSplit(d, bn, h, j);
      NodeDistinct(d, bn, h, j);
      MetaInPre(d, ws[j], h - 1);
      LookupFrame(d, e, ws[j], h - 1, Rest(h, o));
    }
  }

  lemma {:induction false} GrowCorrect(d: Disk, free: seq<int>, bn: int, h: nat, off: nat)
    requires off < Cap(h) && bn != 0
    requires Separate(d, free, Pre(d, bn, h))
    ensures GrowSpec(d, free, bn, h, off, Grow(d, free, bn, h, off))
    decreases h, |free|
  {
    var g := Grow(d, free, bn, h, off);
    if h == 0 {
      assert Rev<int>([]) == [] && free + [] == free;
    } else {
      var i := Digit(h, off);
      var c := Words(d, bn)[i];
      if c != 0 {
        GrowIntoChild(d, free, bn, h, off);
      } else if free == [] {
        assert Rev<int>([]) == [] && free + [] == free;
      } else {
        GrowAttach(d, free, bn, h, off);
      }
    }
  }

  /** Only the tree in entry i of bn and blocks outside the tree of bn differ. */
  ghost predicate OnlyChild(d: Disk, e: Disk, bn: int, h: nat, i: nat, touched: set<int>)
    requires 0 < h && i < NINDIR
  {
    && bn != 0 && Distinct(Pre(d, bn, h))
    && (forall x :: x in touched ==> x !in Pre(d, bn, h))
    && (forall x :: x !in Meta(d, Words(d, bn)[i], h - 1) && x !in touched ==> Words(e, x) == Words(d, x))
  }

  lemma OnlyChildWords(d: Disk, e: Disk, bn: int, h: nat, i: nat, touched: set<int>)
    requires 0 < h && i < NINDIR && OnlyChild(d, e, bn, h, i, touched)
    ensures Words(e, bn) == Words(d, bn) && Meta(d, Words(d, bn)[i], h - 1) <= Meta(d, bn, h)
  {
    NodeDistinct(d, bn, h, i);
    NodeSplit(d, bn, h, i);
    MetaInPre(d, Words(d, bn)[i], h - 1);
  }

  lemma OnlyChildCount(d: Disk, e: Disk, bn: int, h: nat, i: nat, touched: set<int>)
    requires 0 < h && i < NINDIR && OnlyChild(d, e, bn, h, i, touched)
    ensures var c := Words(d, bn)[i];
            multiset(Pre(e, bn, h)) + multiset(Pre(d, c, h - 1))
            == multiset(Pre(d, bn, h)) + multiset(Pre(e, c, h - 1))
    ensures var ws, k, c := Words(d, bn), Indirect(h - 1), Words(d, bn)[i];
            && Pre(d, bn, h) == [bn] + (Before(d, ws, k, i) + (Pre(d, c, h - 1) + After(d, ws, k, i)))
            && Pre(e, bn, h) == [bn] + (Before(d, ws, k, i) + (Pre(e, c, h - 1) + After(d, ws, k, i)))
  {
    var ws, k := Words(d, bn), Indirect(h - 1);
    var c := ws[i];
    OnlyChildWords(d, e, bn, h, i, touched);
    SiblingsAgree(d, e, bn, h, i, touched);
    SlotReplace(d, e, ws, k, i, c);
    assert ws[i := c] == ws;
    NodeSplit(d, bn, h, i);
    NodeSplit(e, bn, h, i);
    NodeCount(bn, Before(d, ws, k, i), Pre(d, c, h - 1), After(d, ws, k, i));
    NodeCount(bn, Before(d, ws, k, i), Pre(e, c, h - 1), After(d, ws, k, i));
  }

  lemma SiblingMeta(d: Disk, bn: int, h: nat, i: nat, j: nat)
    requires bn != 0 && 0 < h && i < NINDIR && j < NINDIR && i != j && Distinct(Pre(d, bn, h))
    ensures Meta(d, Words(d, bn)[i], h - 1) !! Meta(d, Words(d, bn)[j], h - 1)
  {
    var ws, k := Words(d, bn), Indirect(h - 1);
    var lo, hi := if i < j then i else j, if i < j then j else i;
    NodeDistinct(d, bn, h, lo);
    RangeSplit(d, ws, k, lo + 1, hi, NINDIR);
    assert PreRange(d, ws, k, hi, NINDIR) == Pre(d, ws[hi], h - 1) + PreRange(d, ws, k, hi + 1, NINDIR);
    MetaInPre(d, ws[lo], h - 1);
    MetaInPre(d, ws[hi], h - 1);
    var ml, mh := Meta(d, ws[lo], h - 1), Meta(d, ws[hi], h - 1);
    forall x | x in ml
      ensures x !in mh
    {
      assert x !in After(d, ws, k, lo);
    }
  }

  lemma OnlyChildLookup(d: Disk, e: Disk, bn: int, h: nat, i: nat, touched: set<int>, o: nat)
    requires 0 < h && i < NINDIR && OnlyChild(d, e, bn, h, i, touched)
    requires o < Cap(h) && Digit(h, o) != i
    ensures Lookup(e, bn, h, o) == Lookup(d, bn, h, o)
  {
    var j := Digit(h, o);
    OnlyChildWords(d, e, bn, h, i, touched);
    SiblingMeta(d, bn, h, i, j);
    NodeSplit(d, bn, h, j);
    MetaInPre(d, bn, h);
    LookupFrame(d, e, Words(d, bn)[j], h - 1, Rest(h, o));
  }

  lemma {:induction false} GrowIntoChild(d: Disk, free: seq<int>, bn: int, h: nat, off: nat)
    requires 0 < h && off < Cap(h) && bn != 0
    requires Separate(d, free, Pre(d, bn, h))
    requires Words(d, bn)[Digit(h, off)] != 0
    ensures GrowSpec(d, free, bn, h, off, Grow(d, free, bn, h, off))
    decreases h, |free|, 0
  {
    var i := Digit(h, off);
    var c := Words(d, bn)[i];
    NodeDistinct(d, bn, h, i);
    assert Disjoint(Pre(d, c, h - 1), free) by {
      NodeSplit(d, bn, h, i);
    }
    GrowCorrect(d, free, c, h - 1, Rest(h, off));
    LiftGrow(d, free, bn, h, off, Grow(d, free, c, h - 1, Rest(h, off)));
  }

  lemma LiftGrow(d: Disk, free: seq<int>, bn: int, h: nat, off: nat, g: Grown)
    requires 0 < h && off < Cap(h) && bn != 0
    requires Separate(d, free, Pre(d, bn, h))
    requires Words(d, bn)[Digit(h, off)] != 0
    requires GrowSpec(d, free, Words(d, bn)[Digit(h, off)], h - 1, Rest(h, off), g)
    ensures GrowSpec(d, free, bn, h, off, g)
  {
    var i := Digit(h, off);
    var touched := set x | x in g.taken;
    TakenFromFree(free, g.free, g.taken);
    assert OnlyChild(d, g.d, bn, h, i, touched);
    OnlyChildWords(d, g.d, bn, h, i, touched);
    LiftCount(d, g.d, bn, h, i, touched, g.taken);
    LiftLookups(d, g.d, bn, h, off, touched);
  }

  lemma LiftCount(d: Disk, e: Disk, bn: int, h: nat, i: nat, touched: set<int>, taken: seq<int>)
    requires 0 < h && i < NINDIR && OnlyChild(d, e, bn, h, i, touched)
    requires var c := Words(d, bn)[i];
             multiset(Pre(e, c, h - 1)) == multiset(Pre(d, c, h - 1)) + multiset(taken)
    ensures multiset(Pre(e, bn, h)) == multiset(Pre(d, bn, h)) + multiset(taken)
  {
    OnlyChildCount(d, e, bn, h, i, touched);
  }

  lemma LiftLookups(d: Disk, e: Disk, bn: int, h: nat, off: nat, touched: set<int>)
    requires 0 < h && off < Cap(h) && OnlyChild(d, e, bn, h, Digit(h, off), touched)
    requires OtherLookups(d, e, Words(d, bn)[Digit(h, off)], h - 1, Rest(h, off))
    ensures OtherLookups(d, e, bn, h, off)
  {
    var i := Digit(h, off);
    OnlyChildWords(d, e, bn, h, i, touched);
    forall o: nat | o < Cap(h) && o != off
      ensures Lookup(e, bn, h, o) == Lookup(d, bn, h, o)
    {
      if Digit(h, o) == i {
        OtherDigit(h, off, o);
      } else {
        OnlyChildLookup(d, e, bn, h, i, touched, o);
      }
    }
  }

  lemma TakenFromFree(free: seq<int>, left: seq<int>, taken: seq<int>)
    requires free == left + Rev(taken)
    ensures forall x :: x in taken ==> x in free
    ensures Distinct(free) ==> Distinct(left) && Distinct(taken) && Disjoint(left, taken)
  {
    RevMembers(taken);
    if Distinct(free) {
      DistinctSplit(left, Rev(taken));
      DistinctRev(Rev(taken));
      RevRev(taken);
    }
  }

  lemma {:induction false} GrowAttach(d: Disk, free: seq<int>, bn: int, h: nat, off: nat)
    requires 0 < h && off < Cap(h) && bn != 0 && free != []
    requires Separate(d, free, Pre(d, bn, h))
    requires Words(d, bn)[Digit(h, off)] == 0
    ensures GrowSpec(d, free, bn, h, off, Grow(d, free, bn, h, off))
    decreases h, |free|, 0
  {
    var a, rest := free[|free| - 1], free[..|free| - 1];
    var e := Attach(d, bn, Digit(h, off), a);
    assert free == rest + [a];
    var g := Grow(e, rest, bn, h, off);
    assert GrowSpec(e, rest, bn, h, off, g) by {
      AttachSeparate(d, free, bn, h, Digit(h, off));
      GrowIntoChild(e, rest, bn, h, off);
    }
    AttachedBlock(d, free, bn, h);
    GrowUnfold(d, free, bn, h, off);
    PrependAttach(d, rest, bn, h, off, a, g);
  }

  lemma AttachedBlock(d: Disk, free: seq<int>, bn: int, h: nat)
    requires bn != 0 && free != [] && Separate(d, free, Pre(d, bn, h))
    ensures var a := free[|free| - 1];
            a != 0 && a != bn && a !in Pre(d, bn, h)
  {
    assert free[|free| - 1] in free && bn in Pre(d, bn, h);
  }

  /** A missing entry is filled as if the block had been attached beforehand. */
  lemma GrowUnfold(d: Disk, free: seq<int>, bn: int, h: nat, off: nat)
    requires 0 < h && off < Cap(h) && free != [] && free[|free| - 1] != 0
    requires Words(d, bn)[Digit(h, off)] == 0 && free[|free| - 1] != bn
    ensures var a, rest := free[|free| - 1], free[..|free| - 1];
            var g := Grow(Attach(d, bn, Digit(h, off), a), rest, bn, h, off);
            && Grow(d, free, bn, h, off) == g.(taken := [a] + g.taken)
            && (h == 1 ==> g.ok && g.taken == [])
  {
    AttachWords(d, bn, Digit(h, off), free[|free| - 1]);
  }

  lemma AttachSeparate(d: Disk, free: seq<int>, bn: int, h: nat, i: nat)
    requires 0 < h && i < NINDIR && bn != 0 && free != []
    requires Separate(d, free, Pre(d, bn, h)) && Words(d, bn)[i] == 0
    ensures var a, rest := free[|free| - 1], free[..|free| - 1];
            && a != 0 && a !in Pre(d, bn, h) && a != bn
            && Separate(Attach(d, bn, i, a), rest, Pre(Attach(d, bn, i, a), bn, h))
            && Words(Attach(d, bn, i, a), bn)[i] == a
  {
    var a, rest := free[|free| - 1], free[..|free| - 1];
    assert a in free && free == rest + [a];
    assert bn in Pre(d, bn, h);
    AttachWords(d, bn, i, a);
    AttachSpec(d, bn, h, i, a);
    MoveLast(Pre(d, bn, h), Pre(Attach(d, bn, i, a), bn, h), rest, a);
  }

  lemma PrependAttach(d: Disk, rest: seq<int>, bn: int, h: nat, off: nat, a: int, g: Grown)
    requires 0 < h && off < Cap(h) && bn != 0
    requires Words(d, bn)[Digit(h, off)] == 0
    requires a != 0 && a !in Pre(d, bn, h) && Distinct(Pre(d, bn, h)) && a != bn
    requires GrowSpec(Attach(d, bn, Digit(h, off), a), rest, bn, h, off, g)
    requires h == 1 ==> g.ok && g.taken == []
    ensures GrowSpec(d, rest + [a], bn, h, off, g.(taken := [a] + g.taken))
  {
    var i := Digit(h, off);
    var e := Attach(d, bn, i, a);
    PrependTaken(rest, a, g);
    PrependFrame(d, e, bn, h, i, a, g);
    PrependLookups(d, bn, h, off, a, g);
    PrependOutcome(d, rest, bn, h, off, a, g);
    PrependCount(d, bn, h, i, a, g);
  }

  lemma PrependCount(d: Disk, bn: int, h: nat, i: nat, a: int, g: Grown)
    requires bn != 0 && 0 < h && i < NINDIR && Words(d, bn)[i] == 0
    requires a != 0 && a !in Pre(d, bn, h) && Distinct(Pre(d, bn, h))
    requires var e := Attach(d, bn, i, a);
             multiset(Pre(g.d, bn, h)) == multiset(Pre(e, bn, h)) + multiset(g.taken)
    ensures multiset(Pre(g.d, bn, h)) == multiset(Pre(d, bn, h)) + multiset([a] + g.taken)
  {
    AttachSpec(d, bn, h, i, a);
  }

  lemma PrependOutcome(d: Disk, rest: seq<int>, bn: int, h: nat, off: nat, a: int, g: Grown)
    requires 0 < h && off < Cap(h) && bn != 0
    requires Words(d, bn)[Digit(h, off)] == 0
    requires a != 0 && a !in Pre(d, bn, h) && Distinct(Pre(d, bn, h)) && a != bn
    requires GrowSpec(Attach(d, bn, Digit(h, off), a), rest, bn, h, off, g)
    requires h == 1 ==> g.ok && g.taken == []
    ensures Lookup(d, bn, h, off) == 0
    ensures var r := g.(taken := [a] + g.taken);
            g.ok ==> && Lookup(g.d, bn, h, off) == r.taken[|r.taken| - 1]
                     && Words(g.d, Lookup(g.d, bn, h, off)) == ZeroBlock()
  {
    var e := Attach(d, bn, Digit(h, off), a);
    AttachLookups(d, bn, h, off, a, off);
    AttachWords(d, bn, Digit(h, off), a);
    if h == 1 {
      assert Lookup(e, bn, h, off) == a;
      assert g == Grown(e, rest, [], true);
    }
  }

  lemma PrependTaken(rest: seq<int>, a: int, g: Grown)
    requires rest == g.free + Rev(g.taken)
    ensures rest + [a] == g.free + Rev([a] + g.taken)
    ensures multiset([a] + g.taken) == multiset{a} + multiset(g.taken)
  {
    assert ([a] + g.taken)[1..] == g.taken;
  }

  lemma PrependFrame(d: Disk, e: Disk, bn: int, h: nat, i: nat, a: int, g: Grown)
    requires bn != 0 && 0 < h && i < NINDIR && Words(d, bn)[i] == 0 && e == Attach(d, bn, i, a)
    requires a != 0 && a !in Pre(d, bn, h) && Distinct(Pre(d, bn, h)) && a != bn
    requires forall x :: x !in Meta(e, bn, h) && x !in g.taken ==> Words(g.d, x) == Words(e, x)
    ensures forall x :: x !in Meta(d, bn, h) && x !in [a] + g.taken ==> Words(g.d, x) == Words(d, x)
  {
    AttachWords(d, bn, i, a);
    AttachSpec(d, bn, h, i, a);
    assert bn in Meta(d, bn, h);
    assert forall x :: x in [a] + g.taken <==> x == a || x in g.taken;
  }

  lemma PrependLookups(d: Disk, bn: int, h: nat, off: nat, a: int, g: Grown)
    requires 0 < h && off < Cap(h) && bn != 0
    requires Words(d, bn)[Digit(h, off)] == 0
    requires a != 0 && a !in Pre(d, bn, h) && Distinct(Pre(d, bn, h))
    requires OtherLookups(Attach(d, bn, Digit(h, off), a), g.d, bn, h, off)
    ensures OtherLookups(d, g.d, bn, h, off)
  {
    var e := Attach(d, bn, Digit(h, off), a);
    forall o: nat | o < Cap(h) && o != off
      ensures Lookup(g.d, bn, h, o) == Lookup(d, bn, h, o)
    {
      assert Lookup(g.d, bn, h, o) == Lookup(e, bn, h, o);
      AttachLookups(d, bn, h, off, a, o);
    }
  }

  // ---------------------------------------------------------------------------
  // Files: logical block numbers, and the thirteen addresses of an inode.

  /** Number of logical blocks the addresses of an inode can reach. */
  const FILE_LIMIT: nat := NADDR - 3 + Cap(1) + Cap(2) + Cap(3)

  function SlotOf(lbn: nat): (i: nat)
    requires lbn < FILE_LIMIT
    ensures i < NADDR
  {
    if lbn < NADDR - 3 then lbn
    else if lbn < NADDR - 3 + Cap(1) then NADDR - 3
    else if lbn < NADDR - 3 + Cap(1) + Cap(2) then NADDR - 2
    else NADDR - 1
  }

  /** Logical number of the first block below slot i. */
  function SlotStart(i: nat): (lbn: nat)
    requires i < NADDR
  {
    if i <= NADDR - 3 then i
    else if i == NADDR - 2 then NADDR - 3 + Cap(1)
    else NADDR - 3 + Cap(1) + Cap(2)
  }

  function OffsetOf(lbn: nat): (o: nat)
    requires lbn < FILE_LIMIT
    ensures o < Cap(Height(Inode, SlotOf(lbn)))
  {
    lbn - SlotStart(SlotOf(lbn))
  }

  /** The entries chosen on the way down to offset off. */
  function Path(h: nat, off: nat): (p: seq<nat>)
    requires off < Cap(h)
    ensures |p| == h && forall i :: 0 <= i < h ==> p[i] < NINDIR
  {
    if h == 0 then [] else [Digit(h, off)] + Path(h - 1, Rest(h, off))
  }

  function OffsetAt(h: nat, p: seq<nat>): (off: nat)
    requires |p| == h && forall i :: 0 <= i < h ==> p[i] < NINDIR
    ensures off < Cap(h)
  {
    if h == 0 then 0
    else
      MulMonotone(Cap(h - 1), p[0], NINDIR - 1);
      p[0] * Cap(h - 1) + OffsetAt(h - 1, p[1..])
  }

  lemma SmallMultiple(c: int, k: int)
    requires -c < c * k < c
    ensures k == 0
  {
    if k >= 1 {
      MulMonotone(c, 1, k);
      assert false;
    } else if k <= -1 {
      MulMonotone(c, k, -1);
      assert false;
    }
  }

  lemma DivideBack(q: nat, c: nat, r: nat)
    requires r < c
    ensures (q * c + r) / c == q && (q * c + r) % c == r
  {
    var x := q * c + r;
    assert x == c * (x / c) + x % c;
    assert c * (x / c - q) == c * (x / c) - c * q;
    SmallMultiple(c, x / c - q);
  }

  /**
   * Logical block numbers below the limit correspond one to one to an inode
   * slot and a path of entries as long as the slot is high.
   */
  lemma {:induction false} PathRoundTrip(h: nat, off: nat)
    requires off < Cap(h)
    ensures OffsetAt(h, Path(h, off)) == off
  {
    if h > 0 {
      PathRoundTrip(h - 1, Rest(h, off));
      assert Path(h, off)[1..] == Path(h - 1, Rest(h, off));
    }
  }

  lemma {:induction false} OffsetRoundTrip(h: nat, p: seq<nat>)
    requires |p| == h && forall i :: 0 <= i < h ==> p[i] < NINDIR
    ensures Path(h, OffsetAt(h, p)) == p
  {
    if h > 0 {
      OffsetRoundTrip(h - 1, p[1..]);
      DivideBack(p[0], Cap(h - 1), OffsetAt(h - 1, p[1..]));
      assert p == [p[0]] + p[1..];
    }
  }

  /** Slot and path of a logical block, and the way back. */
  function Locate(lbn: nat): (nat, seq<nat>)
    requires lbn < FILE_LIMIT
  {
    (SlotOf(lbn), Path(Height(Inode, SlotOf(lbn)), OffsetOf(lbn)))
  }

  function Logical(i: nat, p: seq<nat>): nat
    requires i < NADDR && |p| == Height(Inode, i) && forall j :: 0 <= j < |p| ==> p[j] < NINDIR
  {
    SlotStart(i) + OffsetAt(|p|, p)
  }

  lemma LocateThenLogical(lbn: nat)
    requires lbn < FILE_LIMIT
    ensures Logical(Locate(lbn).0, Locate(lbn).1) == lbn
  {
    PathRoundTrip(Height(Inode, SlotOf(lbn)), OffsetOf(lbn));
  }

  lemma StartOffset(i: nat, o: nat)
    requires i < NADDR && o < Cap(Height(Inode, i))
    ensures SlotStart(i) + o < FILE_LIMIT
    ensures SlotOf(SlotStart(i) + o) == i && OffsetOf(SlotStart(i) + o) == o
  {
  }

  lemma LogicalThenLocate(i: nat, p: seq<nat>)
    requires i < NADDR && |p| == Height(Inode, i) && forall j :: 0 <= j < |p| ==> p[j] < NINDIR
    ensures Logical(i, p) < FILE_LIMIT && Locate(Logical(i, p)) == (i, p)
  {
    StartOffset(i, OffsetAt(|p|, p));
    OffsetRoundTrip(|p|, p);
  }

  type Addrs = a: seq<int> | |a| == NADDR witness Zeros(NADDR)

  /** All blocks of a file in preorder; its indirect blocks; the block of logical number lbn. */
  function FileBlocks(d: Disk, addr: Addrs): seq<int> {
    PreRange(d, addr, Inode, 0, NADDR)
  }

  ghost function FileMeta(d: Disk, addr: Addrs): set<int> {
    MetaRange(d, addr, Inode, 0, NADDR)
  }

  function FileLookup(d: Disk, addr: Addrs, lbn: nat): int
    requires lbn < FILE_LIMIT
  {
    Lookup(d, addr[SlotOf(lbn)], Height(Inode, SlotOf(lbn)), OffsetOf(lbn))
  }

  datatype FileGrown = FileGrown(addr: Addrs, g: Grown)

  function GrowFile(d: Disk, free: seq<int>, addr: Addrs, lbn: nat): FileGrown
    requires lbn < FILE_LIMIT
  {
    var i, h, off := SlotOf(lbn), Height(Inode, SlotOf(lbn)), OffsetOf(lbn);
    if addr[i] != 0 then
      FileGrown(addr, Grow(d, free, addr[i], h, off))
    else if free == [] then
      FileGrown(addr, Grown(d, free, [], false))
    else
      var a := free[|free| - 1];
      var g := Grow(d[a := ZeroBlock()], free[..|free| - 1], a, h, off);
      FileGrown(addr[i := a], g.(taken := [a] + g.taken))
  }

  /** The blocks taken from the free list become blocks of the file, and nothing else does. */
  ghost predicate FileGains(d: Disk, free: seq<int>, addr: Addrs, r: FileGrown) {
    && free == r.g.free + Rev(r.g.taken)
    && multiset(FileBlocks(r.g.d, r.addr)) == multiset(FileBlocks(d, addr)) + multiset(r.g.taken)
  }

  ghost predicate FileFrame(d: Disk, addr: Addrs, e: Disk, taken: seq<int>) {
    forall x :: x !in FileMeta(d, addr) && x !in taken ==> Words(e, x) == Words(d, x)
  }

  /** Every other logical block keeps its physical block. */
  ghost predicate FileOthers(d: Disk, addr: Addrs, e: Disk, addr': Addrs, lbn: nat) {
    forall o: nat :: o < FILE_LIMIT && o != lbn ==> FileLookup(e, addr', o) == FileLookup(d, addr, o)
  }

  ghost predicate FileOutcome(d: Disk, free: seq<int>, addr: Addrs, lbn: nat, r: FileGrown)
    requires lbn < FILE_LIMIT
  {
    var was, now := FileLookup(d, addr, lbn), FileLookup(r.g.d, r.addr, lbn);
    && (r.g.ok <==> now != 0) && (!r.g.ok ==> r.g.free == [])
    && (was != 0 ==> r == FileGrown(addr, Grown(d, free, [], true)))
    && (r.g.ok && was == 0 ==>
          r.g.taken != [] && now == r.g.taken[|r.g.taken| - 1] && Words(r.g.d, now) == ZeroBlock())
  }

  ghost predicate FileGrowSpec(d: Disk, free: seq<int>, addr: Addrs, lbn: nat, r: FileGrown)
    requires lbn < FILE_LIMIT
  {
    && FileGains(d, free, addr, r)
    && FileFrame(d, addr, r.g.d, r.g.taken)
    && FileOthers(d, addr, r.g.d, r.addr, lbn)
    && FileOutcome(d, free, addr, lbn, r)
  }

  lemma SlotDistinct(d: Disk, ws: seq<int>, k: Kind, i: nat)
    requires i < |ws| == Slots(k) && Distinct(PreRange(d, ws, k, 0, |ws|))
    ensures var p := Pre(d, ws[i], Height(k, i));
            && Distinct(p) && Disjoint(Before(d, ws, k, i), p) && Disjoint(p, After(d, ws, k, i))
  {
    SlotSplit(d, ws, k, i);
    var b, c, a := Before(d, ws, k, i), Pre(d, ws[i], Height(k, i)), After(d, ws, k, i);
    DistinctSplit(b, c + a);
    DistinctSplit(c, a);
    forall x | x in b
      ensures x !in c
    {
      assert x !in c + a;
    }
  }

  /** Between two address lists, only the tree of slot i and blocks outside the list's trees differ. */
  ghost predicate OnlySlot(d: Disk, e: Disk, ws: seq<int>, k: Kind, i: nat, touched: set<int>)
    requires i < |ws| == Slots(k)
  {
    && Distinct(PreRange(d, ws, k, 0, |ws|))
    && (forall x :: x in touched ==> x !in PreRange(d, ws, k, 0, |ws|))
    && (forall x :: x !in Meta(d, ws[i], Height(k, i)) && x !in touched ==> Words(e, x) == Words(d, x))
  }

  lemma OnlySlotAgree(d: Disk, e: Disk, ws: seq<int>, k: Kind, i: nat, touched: set<int>)
    requires i < |ws| == Slots(k) && OnlySlot(d, e, ws, k, i, touched)
    ensures Agree(d, e, MetaRange(d, ws, k, 0, i)) && Agree(d, e, MetaRange(d, ws, k, i + 1, |ws|))
  {
    SlotDistinct(d, ws, k, i);
    SlotSplit(d, ws, k, i);
    MetaInPre(d, ws[i], Height(k, i));
    MetaRangeInPre(d, ws, k, 0, i);
    MetaRangeInPre(d, ws, k, i + 1, |ws|);
  }

  lemma SlotCount(b: seq<int>, c: seq<int>, r: seq<int>)
    ensures multiset(b + (c + r)) == multiset(b) + multiset(c) + multiset(r)
  {
  }

  lemma OnlySlotCount(d: Disk, e: Disk, ws: seq<int>, k: Kind, i: nat, touched: set<int>, c: int)
    requires i < |ws| == Slots(k) && OnlySlot(d, e, ws, k, i, touched)
    ensures var vs, h := ws[i := c], Height(k, i);
            multiset(PreRange(e, vs, k, 0, |ws|)) + multiset(Pre(d, ws[i], h))
            == multiset(PreRange(d, ws, k, 0, |ws|)) + multiset(Pre(e, c, h))
    ensures var vs, h := ws[i := c], Height(k, i);
            && PreRange(d, ws, k, 0, |ws|) == Before(d, ws, k, i) + (Pre(d, ws[i], h) + After(d, ws, k, i))
            && PreRange(e, vs, k, 0, |ws|) == Before(d, ws, k, i) + (Pre(e, c, h) + After(d, ws, k, i))
  {
    var h, vs := Height(k, i), ws[i := c];
    OnlySlotAgree(d, e, ws, k, i, touched);
    SlotReplace(d, e, ws, k, i, c);
    SlotSplit(d, ws, k, i);
    SlotSplit(e, vs, k, i);
    SlotCount(Before(d, ws, k, i), Pre(d, ws[i], h), After(d, ws, k, i));
    SlotCount(Before(d, ws, k, i), Pre(e, c, h), After(d, ws, k, i));
  }

  lemma UnchangedSlot(d: Disk, e: Disk, ws: seq<int>, k: Kind, i: nat, touched: set<int>, taken: seq<int>)
    requires i < |ws| == Slots(k) && OnlySlot(d, e, ws, k, i, touched)
    requires var h := Height(k, i);
             multiset(Pre(e, ws[i], h)) == multiset(Pre(d, ws[i], h)) + multiset(taken)
    ensures multiset(PreRange(e, ws, k, 0, |ws|)) == multiset(PreRange(d, ws, k, 0, |ws|)) + multiset(taken)
  {
    var vs := ws[i := ws[i]];
    assert vs == ws;
    OnlySlotCount(d, e, ws, k, i, touched, ws[i]);
  }

  lemma SlotInRange(d: Disk, ws: seq<int>, k: Kind, lo: nat, i: nat, hi: nat)
    requires lo <= i < hi <= |ws| == Slots(k)
    ensures Meta(d, ws[i], Height(k, i)) <= MetaRange(d, ws, k, lo, hi)
  {
    RangeSplit(d, ws, k, lo, i, hi);
  }

  lemma OnlySlotLookup(d: Disk, e: Disk, ws: seq<int>, k: Kind, i: nat, touched: set<int>, j: nat, o: nat)
    requires i < |ws| == Slots(k) && OnlySlot(d, e, ws, k, i, touched)
    requires j < |ws| && j != i && o < Cap(Height(k, j))
    ensures Lookup(e, ws[j], Height(k, j), o) == Lookup(d, ws[j], Height(k, j), o)
  {
    hide PreRange, MetaRange, Pre, Meta;
    OnlySlotAgree(d, e, ws, k, i, touched);
    if j < i {
      SlotInRange(d, ws, k, 0, j, i);
    } else {
      SlotInRange(d, ws, k, i + 1, j, |ws|);
    }
    LookupFrame(d, e, ws[j], Height(k, j), o);
  }

  lemma SameSlot(lbn: nat, o: nat)
    requires lbn < FILE_LIMIT && o < FILE_LIMIT && o != lbn && SlotOf(o) == SlotOf(lbn)
    ensures OffsetOf(o) != OffsetOf(lbn)
  {
  }

  /** Growth below slot i of a file is growth of the file. */
  lemma LiftToFile(d: Disk, free: seq<int>, addr: Addrs, lbn: nat, g: Grown)
    requires lbn < FILE_LIMIT && addr[SlotOf(lbn)] != 0
    requires Separate(d, free, FileBlocks(d, addr))
    requires GrowSpec(d, free, addr[SlotOf(lbn)], Height(Inode, SlotOf(lbn)), OffsetOf(lbn), g)
    ensures FileGrowSpec(d, free, addr, lbn, FileGrown(addr, g))
  {
    var i, h, off := SlotOf(lbn), Height(Inode, SlotOf(lbn)), OffsetOf(lbn);
    var touched := set x | x in g.taken;
    TakenFromFree(free, g.free, g.taken);
    assert OnlySlot(d, g.d, addr, Inode, i, touched);
    assert FileGains(d, free, addr, FileGrown(addr, g)) by {
      LiftFileCount(d, g.d, addr, i, touched, g.taken);
    }
    assert FileFrame(d, addr, g.d, g.taken) by {
      SlotInRange(d, addr, Inode, 0, i, NADDR);
    }
    LiftFileLookups(d, g.d, addr, lbn, touched);
  }

  lemma LiftFileCount(d: Disk, e: Disk, addr: Addrs, i: nat, touched: set<int>, taken: seq<int>)
    requires i < NADDR && OnlySlot(d, e, addr, Inode, i, touched)
    requires var h := Height(Inode, i);
             multiset(Pre(e, addr[i], h)) == multiset(Pre(d, addr[i], h)) + multiset(taken)
    ensures multiset(FileBlocks(e, addr)) == multiset(FileBlocks(d, addr)) + multiset(taken)
  {
    UnchangedSlot(d, e, addr, Inode, i, touched, taken);
  }

  lemma LiftFileLookups(d: Disk, e: Disk, addr: Addrs, lbn: nat, touched: set<int>)
    requires lbn < FILE_LIMIT && OnlySlot(d, e, addr, Inode, SlotOf(lbn), touched)
    requires OtherLookups(d, e, addr[SlotOf(lbn)], Height(Inode, SlotOf(lbn)), OffsetOf(lbn))
    ensures FileOthers(d, addr, e, addr, lbn)
  {
    forall o: nat | o < FILE_LIMIT && o != lbn
      ensures FileLookup(e, addr, o) == FileLookup(d, addr, o)
    {
      if SlotOf(o) == SlotOf(lbn) {
        SameSlot(lbn, o);
      } else {
        OnlySlotLookup(d, e, addr, Inode, SlotOf(lbn), touched, SlotOf(o), OffsetOf(o));
      }
    }
  }

  lemma FileGrowCorrect(d: Disk, free: seq<int>, addr: Addrs, lbn: nat)
    requires lbn < FILE_LIMIT && Separate(d, free, FileBlocks(d, addr))
    ensures FileGrowSpec(d, free, addr, lbn, GrowFile(d, free, addr, lbn))
  {
    var i, h, off := SlotOf(lbn), Height(Inode, SlotOf(lbn)), OffsetOf(lbn);
    if addr[i] != 0 {
      SlotSeparate(d, free, addr, i);
      GrowCorrect(d, free, addr[i], h, off);
      LiftToFile(d, free, addr, lbn, Grow(d, free, addr[i], h, off));
    } else if free == [] {
      FileGrowFails(d, addr, lbn);
    } else {
      var a, rest := free[|free| - 1], free[..|free| - 1];
      assert free == rest + [a];
      FileGrowRoot(d, rest, a, addr, lbn);
    }
  }

  /** Growth takes one block for each level at most, and fails only with fewer than that. */
  lemma {:induction false} GrowTakes(d: Disk, free: seq<int>, bn: int, h: nat, off: nat)
    requires off < Cap(h)
    ensures var g := Grow(d, free, bn, h, off);
            |g.free| + h >= |free| && (!g.ok ==> |free| < h)
    decreases h
  {
    if h > 0 && Words(d, bn)[Digit(h, off)] != 0 {
      GrowTakes(d, free, Words(d, bn)[Digit(h, off)], h - 1, Rest(h, off));
    } else if h > 0 && free != [] {
      var a := free[|free| - 1];
      GrowTakes(Attach(d, bn, Digit(h, off), a), free[..|free| - 1], a, h - 1, Rest(h, off));
    }
  }

  lemma FileGrowTakes(d: Disk, free: seq<int>, addr: Addrs, lbn: nat)
    requires lbn < FILE_LIMIT
    ensures var g := GrowFile(d, free, addr, lbn).g;
            |g.free| + 4 >= |free| && (!g.ok ==> |free| < 4)
  {
    hide Grow;
    var i, h, off := SlotOf(lbn), Height(Inode, SlotOf(lbn)), OffsetOf(lbn);
    if addr[i] != 0 {
      GrowTakes(d, free, addr[i], h, off);
    } else if free != [] {
      var a := free[|free| - 1];
      GrowTakes(d[a := ZeroBlock()], free[..|free| - 1], a, h, off);
    }
  }

  lemma FileGrowFails(d: Disk, addr: Addrs, lbn: nat)
    requires lbn < FILE_LIMIT && addr[SlotOf(lbn)] == 0
    ensures FileGrowSpec(d, [], addr, lbn, FileGrown(addr, Grown(d, [], [], false)))
  {
    assert Rev<int>([]) == [];
  }

  lemma FileGrowRoot(d: Disk, rest: seq<int>, a: int, addr: Addrs, lbn: nat)
    requires lbn < FILE_LIMIT && Separate(d, rest + [a], FileBlocks(d, addr))
    requires addr[SlotOf(lbn)] == 0
    ensures var g := Grow(d[a := ZeroBlock()], rest, a, Height(Inode, SlotOf(lbn)), OffsetOf(lbn));
            FileGrowSpec(d, rest + [a], addr, lbn, FileGrown(addr[SlotOf(lbn) := a], g.(taken := [a] + g.taken)))
  {
    var i, h, off := SlotOf(lbn), Height(Inode, SlotOf(lbn)), OffsetOf(lbn);
    var e, addr' := d[a := ZeroBlock()], addr[i := a];
    RootSeparate(d, rest, a, addr, i);
    var g := Grow(e, rest, a, h, off);
    assert FileGrowSpec(e, rest, addr', lbn, FileGrown(addr', g)) by {
      SlotSeparate(e, rest, addr', i);
      GrowCorrect(e, rest, a, h, off);
      LiftToFile(e, rest, addr', lbn, g);
    }
    PrependRoot(d, rest, a, addr, lbn, g);
  }

  lemma SlotSeparate(d: Disk, free: seq<int>, addr: Addrs, i: nat)
    requires i < NADDR && Separate(d, free, FileBlocks(d, addr))
    ensures Separate(d, free, Pre(d, addr[i], Height(Inode, i)))
  {
    SlotDistinct(d, addr, Inode, i);
    SlotSplit(d, addr, Inode, i);
  }

  /** Attaching a free block to an empty slot of the inode. */
  lemma RootSpec(d: Disk, a: int, addr: Addrs, i: nat)
    requires i < NADDR && addr[i] == 0 && a != 0 && Distinct(FileBlocks(d, addr)) && a !in FileBlocks(d, addr)
    ensures var e, addr' := d[a := ZeroBlock()], addr[i := a];
            && FileBlocks(d, addr) == Before(d, addr, Inode, i) + ([] + After(d, addr, Inode, i))
            && FileBlocks(e, addr') == Before(d, addr, Inode, i) + ([a] + After(d, addr, Inode, i))
            && multiset(FileBlocks(e, addr')) == multiset(FileBlocks(d, addr)) + multiset{a}
            && FileMeta(e, addr') <= FileMeta(d, addr) + {a}
  {
    AttachSlotBlocks(d, a, addr, Inode, i);
    AttachSlotMeta(d, a, addr, Inode, i);
  }

  lemma AttachSlotBlocks(d: Disk, a: int, ws: seq<int>, k: Kind, i: nat)
    requires i < |ws| == Slots(k) && ws[i] == 0 && a != 0
    requires Distinct(PreRange(d, ws, k, 0, |ws|)) && a !in PreRange(d, ws, k, 0, |ws|)
    ensures var e, vs := d[a := ZeroBlock()], ws[i := a];
            && PreRange(d, ws, k, 0, |ws|) == Before(d, ws, k, i) + ([] + After(d, ws, k, i))
            && PreRange(e, vs, k, 0, |ws|) == Before(d, ws, k, i) + ([a] + After(d, ws, k, i))
            && multiset(PreRange(e, vs, k, 0, |ws|)) == multiset(PreRange(d, ws, k, 0, |ws|)) + multiset{a}
  {
    hide PreRange, MetaRange, Meta;
    var e := d[a := ZeroBlock()];
    assert OnlySlot(d, e, ws, k, i, {a});
    OnlySlotCount(d, e, ws, k, i, {a}, a);
    ZeroTree(e, a, Height(k, i));
  }

  lemma AttachSlotMeta(d: Disk, a: int, ws: seq<int>, k: Kind, i: nat)
    requires i < |ws| == Slots(k) && ws[i] == 0 && a != 0
    requires Distinct(PreRange(d, ws, k, 0, |ws|)) && a !in PreRange(d, ws, k, 0, |ws|)
    ensures MetaRange(d[a := ZeroBlock()], ws[i := a], k, 0, |ws|) <= MetaRange(d, ws, k, 0, |ws|) + {a}
  {
    hide PreRange, MetaRange;
    var e, vs := d[a := ZeroBlock()], ws[i := a];
    assert OnlySlot(d, e, ws, k, i, {a});
    OnlySlotAgree(d, e, ws, k, i, {a});
    SlotReplace(d, e, ws, k, i, a);
    ZeroTree(e, a, Height(k, i));
    SlotSplit(e, vs, k, i);
    SlotSplit(d, ws, k, i);
  }

  lemma RootSeparate(d: Disk, rest: seq<int>, a: int, addr: Addrs, i: nat)
    requires i < NADDR && addr[i] == 0 && Separate(d, rest + [a], FileBlocks(d, addr))
    ensures Separate(d[a := ZeroBlock()], rest, FileBlocks(d[a := ZeroBlock()], addr[i := a]))
    ensures a != 0 && a !in FileBlocks(d, addr)
  {
    assert a in rest + [a];
    RootSpec(d, a, addr, i);
    MoveLast(FileBlocks(d, addr), FileBlocks(d[a := ZeroBlock()], addr[i := a]), rest, a);
  }

  lemma RootLookups(d: Disk, a: int, addr: Addrs, lbn: nat, o: nat)
    requires lbn < FILE_LIMIT && o < FILE_LIMIT && addr[SlotOf(lbn)] == 0
    requires a != 0 && Distinct(FileBlocks(d, addr)) && a !in FileBlocks(d, addr)
    ensures FileLookup(d[a := ZeroBlock()], addr[SlotOf(lbn) := a], o)
         == if o == lbn && Height(Inode, SlotOf(lbn)) == 0 then a else FileLookup(d, addr, o)
  {
    hide PreRange, MetaRange, Pre, Meta, SlotOf, OffsetOf;
    var i, j := SlotOf(lbn), SlotOf(o);
    var e := d[a := ZeroBlock()];
    if i == j {
      RootLookupInSlot(d, a, lbn, o);
    } else {
      assert OnlySlot(d, e, addr, Inode, i, {a});
      OnlySlotLookup(d, e, addr, Inode, i, {a}, j, OffsetOf(o));
    }
  }

  lemma RootLookupInSlot(d: Disk, a: int, lbn: nat, o: nat)
    requires lbn < FILE_LIMIT && o < FILE_LIMIT && SlotOf(o) == SlotOf(lbn) && a != 0
    ensures Lookup(d[a := ZeroBlock()], a, Height(Inode, SlotOf(lbn)), OffsetOf(o))
         == if o == lbn && Height(Inode, SlotOf(lbn)) == 0 then a else 0
  {
    if Height(Inode, SlotOf(lbn)) > 0 {
      ZeroLookup(d[a := ZeroBlock()], a, Height(Inode, SlotOf(lbn)), OffsetOf(o));
    }
  }

  lemma PrependRoot(d: Disk, rest: seq<int>, a: int, addr: Addrs, lbn: nat, g: Grown)
    requires lbn < FILE_LIMIT && addr[SlotOf(lbn)] == 0
    requires a != 0 && Distinct(FileBlocks(d, addr)) && a !in FileBlocks(d, addr)
    requires var addr' := addr[SlotOf(lbn) := a];
             FileGrowSpec(d[a := ZeroBlock()], rest, addr', lbn, FileGrown(addr', g))
    requires Height(Inode, SlotOf(lbn)) == 0 ==> g == Grown(d[a := ZeroBlock()], rest, [], true)
    ensures FileGrowSpec(d, rest + [a], addr, lbn, FileGrown(addr[SlotOf(lbn) := a], g.(taken := [a] + g.taken)))
  {
    var i := SlotOf(lbn);
    var e, addr' := d[a := ZeroBlock()], addr[i := a];
    PrependRootGains(d, rest, a, addr, i, g);
    PrependRootFrame(d, a, addr, i, g);
    PrependRootLookups(d, a, addr, lbn, g);
    PrependRootOutcome(d, rest, a, addr, lbn, g);
  }

  lemma PrependRootLookups(d: Disk, a: int, addr: Addrs, lbn: nat, g: Grown)
    requires lbn < FILE_LIMIT && addr[SlotOf(lbn)] == 0
    requires a != 0 && Distinct(FileBlocks(d, addr)) && a !in FileBlocks(d, addr)
    requires FileOthers(d[a := ZeroBlock()], addr[SlotOf(lbn) := a], g.d, addr[SlotOf(lbn) := a], lbn)
    ensures FileOthers(d, addr, g.d, addr[SlotOf(lbn) := a], lbn)
  {
    var e, addr' := d[a := ZeroBlock()], addr[SlotOf(lbn) := a];
    forall o: nat | o < FILE_LIMIT && o != lbn
      ensures FileLookup(g.d, addr', o) == FileLookup(d, addr, o)
    {
      RootLookups(d, a, addr, lbn, o);
      assert FileLookup(g.d, addr', o) == FileLookup(e, addr', o);
    }
  }

  lemma PrependRootOutcome(d: Disk, rest: seq<int>, a: int, addr: Addrs, lbn: nat, g: Grown)
    requires lbn < FILE_LIMIT && addr[SlotOf(lbn)] == 0
    requires a != 0 && Distinct(FileBlocks(d, addr)) && a !in FileBlocks(d, addr)
    requires var addr' := addr[SlotOf(lbn) := a];
             FileOutcome(d[a := ZeroBlock()], rest, addr', lbn, FileGrown(addr', g))
    requires Height(Inode, SlotOf(lbn)) == 0 ==> g == Grown(d[a := ZeroBlock()], rest, [], true)
    ensures FileOutcome(d, rest + [a], addr, lbn, FileGrown(addr[SlotOf(lbn) := a], g.(taken := [a] + g.taken)))
  {
    RootLookups(d, a, addr, lbn, lbn);
  }

  lemma PrependRootGains(d: Disk, rest: seq<int>, a: int, addr: Addrs, i: nat, g: Grown)
    requires i < NADDR && addr[i] == 0
    requires a != 0 && Distinct(FileBlocks(d, addr)) && a !in FileBlocks(d, addr)
    requires FileGains(d[a := ZeroBlock()], rest, addr[i := a], FileGrown(addr[i := a], g))
    ensures FileGains(d, rest + [a], addr, FileGrown(addr[i := a], g.(taken := [a] + g.taken)))
  {
    RootSpec(d, a, addr, i);
    PrependTaken(rest, a, g);
  }

  lemma PrependRootFrame(d: Disk, a: int, addr: Addrs, i: nat, g: Grown)
    requires i < NADDR && addr[i] == 0
    requires a != 0 && Distinct(FileBlocks(d, addr)) && a !in FileBlocks(d, addr)
    requires FileFrame(d[a := ZeroBlock()], addr[i := a], g.d, g.taken)
    ensures FileFrame(d, addr, g.d, [a] + g.taken)
  {
    RootSpec(d, a, addr, i);
    assert forall x :: x in [a] + g.taken <==> x == a || x in g.taken;
  }

  // ---------------------------------------------------------------------------
  // Walking down one path, one entry at a time.

  lemma StepDown(d: Disk, free: seq<int>, nb: int, h: nat, i: nat)
    requires 0 < h && i < NINDIR && nb != 0 && Separate(d, free, Pre(d, nb, h)) && Words(d, nb)[i] != 0
    ensures var p := Pre(d, Words(d, nb)[i], h - 1);
            && Separate(d, free, p) && (forall x :: x in p ==> x in Pre(d, nb, h)) && nb !in p
  {
    NodeDistinct(d, nb, h, i);
    NodeSplit(d, nb, h, i);
  }

  lemma PathKept(d: Disk, free: seq<int>, nb: int, h: nat, o: nat)
    requires 0 < h && o < Cap(h) && nb != 0 && Separate(d, free, Pre(d, nb, h))
    requires Words(d, nb)[Digit(h, o)] != 0
    ensures Words(Grow(d, free, nb, h, o).d, nb) == Words(d, nb)
  {
    var i := Digit(h, o);
    var c := Words(d, nb)[i];
    StepDown(d, free, nb, h, i);
    GrowCorrect(d, free, c, h - 1, Rest(h, o));
    var g := Grow(d, free, c, h - 1, Rest(h, o));
    MetaInPre(d, c, h - 1);
    TakenFromFree(free, g.free, g.taken);
    assert nb in Pre(d, nb, h);
  }

  /** Filling an empty entry and stepping to it. */
  lemma StepAttach(d: Disk, free: seq<int>, nb: int, h: nat, o: nat)
    requires 0 < h && o < Cap(h) && nb != 0 && Separate(d, free, Pre(d, nb, h)) && free != []
    requires Words(d, nb)[Digit(h, o)] == 0
    ensures var a, rest := free[|free| - 1], free[..|free| - 1];
            var e := Attach(d, nb, Digit(h, o), a);
            var g := Grow(e, rest, a, h - 1, Rest(h, o));
            && a != 0 && Pre(e, a, h - 1) == [a] && Separate(e, rest, [a])
            && Grow(d, free, nb, h, o) == g.(taken := [a] + g.taken)
            && Words(g.d, nb)[Digit(h, o)] == a
  {
    var a, rest := free[|free| - 1], free[..|free| - 1];
    var i := Digit(h, o);
    var e := Attach(d, nb, i, a);
    AttachSeparate(d, free, nb, h, i);
    AttachWords(d, nb, i, a);
    ZeroTree(e, a, h - 1);
    StepDown(e, rest, nb, h, i);
    PathKept(e, rest, nb, h, o);
  }

  /** Shifts and masks pick the digits of an offset. */
  function Pow2(n: nat): (p: nat)
    ensures p > 0
  {
    if n == 0 then 1 else 2 * Pow2(n - 1)
  }

  lemma Pow2Seven(n: nat)
    ensures Pow2(n + 7) == NINDIR * Pow2(n)
  {
    assert Pow2(n + 2) == 4 * Pow2(n);
    assert Pow2(n + 4) == 4 * Pow2(n + 2);
    assert Pow2(n + 6) == 4 * Pow2(n + 4);
  }

  lemma {:induction false} PowCap(k: nat)
    ensures Pow2(7 * k) == Cap(k)
  {
    if k > 0 {
      PowCap(k - 1);
      Pow2Seven(7 * (k - 1));
    }
  }

  lemma Regroup(c: int, n: int, q1: int, q0: int, e: int)
    ensures c * (n * q1 + q0) + e == q1 * (n * c) + (q0 * c + e)
  {
    assert c * (n * q1 + q0) == c * (n * q1) + c * q0;
    assert c * (n * q1) == q1 * (n * c);
  }

  lemma DigitBound(q0: nat, n: nat, c: nat, e: nat)
    requires q0 < n && e < c
    ensures q0 * c + e < n * c
  {
    MulMonotone(c, q0 + 1, n);
    assert c * (q0 + 1) == q0 * c + c;
  }

  lemma DivMod(x: nat, n: nat, c: nat)
    requires 0 < n && 0 < c && 0 < n * c
    ensures x % (n * c) / c == x / c % n && x % (n * c) % c == x % c
  {
    var q, e := x / c, x % c;
    var q1, q0 := q / n, q % n;
    assert x == c * q + e && q == n * q1 + q0;
    Regroup(c, n, q1, q0, e);
    DigitBound(q0, n, c, e);
    DivideBack(q1, n * c, q0 * c + e);
    DivideBack(q0, c, e);
  }

  /** Masking a shifted offset picks a digit of the offset within its subtree. */
  lemma ShiftedDigit(off: nat, h: nat)
    requires 1 <= h
    ensures off % Cap(h) < Cap(h)
    ensures (off / Pow2(7 * (h - 1))) % NINDIR == Digit(h, off % Cap(h))
    ensures Rest(h, off % Cap(h)) == off % Cap(h - 1)
  {
    PowCap(h - 1);
    DivMod(off, NINDIR, Cap(h - 1));
  }
}
