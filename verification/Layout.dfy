/**
 * Files without holes: the tree of a file whose first n logical blocks are
 * exactly the mapped ones is determined by the sequence of its blocks, and
 * growing it by one block appends the blocks taken to that sequence.
 */
module Layout {
  import opened Sequences
  import opened BlockTree

  function Clamp(x: int, hi: nat): (r: nat)
    ensures r <= hi
  {
    if x < 0 then 0 else if x > hi then hi else x
  }

  /** How many of the first n data blocks of a list of trees of height h belong to tree i. */
  function Share(h: nat, i: nat, n: nat): (s: nat)
    ensures s <= Cap(h)
  {
    Clamp(n - i * Cap(h), Cap(h))
  }

  /** The tree at bn holds its first n data blocks and no others, and no empty indirect block. */
  ghost predicate Filled(d: Disk, bn: int, h: nat, n: nat)
    decreases h
  {
    if n == 0 then bn == 0
    else bn != 0 && (h > 0 ==> forall i :: 0 <= i < NINDIR ==> Filled(d, Words(d, bn)[i], h - 1, Share(h - 1, i, n)))
  }

  /** The number of blocks of such a tree. */
  function Count(h: nat, n: nat): nat
    decreases h, 1, 0
  {
    if n == 0 then 0 else if h == 0 then 1 else 1 + CountFrom(h - 1, n, 0)
  }

  function CountFrom(h: nat, n: nat, lo: nat): nat
    requires lo <= NINDIR
    decreases h, 2, NINDIR - lo
  {
    if lo == NINDIR then 0 else Count(h, Share(h, lo, n)) + CountFrom(h, n, lo + 1)
  }

  lemma {:induction false} FilledFrame(d: Disk, e: Disk, bn: int, h: nat, n: nat)
    requires Filled(d, bn, h, n) && Agree(d, e, Meta(d, bn, h))
    ensures Filled(e, bn, h, n)
    decreases h
  {
    if n > 0 && h > 0 {
      assert bn in Meta(d, bn, h);
      forall i | 0 <= i < NINDIR
        ensures Filled(e, Words(e, bn)[i], h - 1, Share(h - 1, i, n))
      {
        MetaOfSlot(d, Words(d, bn), Indirect(h - 1), 0, i);
        FilledFrame(d, e, Words(d, bn)[i], h - 1, Share(h - 1, i, n));
      }
    }
  }

  lemma {:induction false} FilledCount(d: Disk, bn: int, h: nat, n: nat)
    requires Filled(d, bn, h, n)
    ensures |Pre(d, bn, h)| == Count(h, n)
    decreases h, 1, 0
  {
    if n > 0 && h > 0 {
      FilledRangeCount(d, Words(d, bn), h - 1, n, 0);
    }
  }

  lemma {:induction false} FilledRangeCount(d: Disk, ws: Block, h: nat, n: nat, lo: nat)
    requires lo <= NINDIR && forall i :: 0 <= i < NINDIR ==> Filled(d, ws[i], h, Share(h, i, n))
    ensures |PreRange(d, ws, Indirect(h), lo, NINDIR)| == CountFrom(h, n, lo)
    decreases h, 2, NINDIR - lo
  {
    if lo < NINDIR {
      FilledCount(d, ws[lo], h, Share(h, lo, n));
      FilledRangeCount(d, ws, h, n, lo + 1);
    }
  }

  lemma {:induction false} CountMonotone(h: nat, m: nat, n: nat)
    requires m <= n
    ensures Count(h, m) <= Count(h, n)
    decreases h, 1, 0
  {
    if m > 0 && h > 0 {
      CountFromMonotone(h - 1, m, n, 0);
    }
  }

  lemma {:induction false} CountFromMonotone(h: nat, m: nat, n: nat, lo: nat)
    requires m <= n && lo <= NINDIR
    ensures CountFrom(h, m, lo) <= CountFrom(h, n, lo)
    decreases h, 2, NINDIR - lo
  {
    if lo < NINDIR {
      CountMonotone(h, Share(h, lo, m), Share(h, lo, n));
      CountFromMonotone(h, m, n, lo + 1);
    }
  }

  /** Where data block number n of a list of trees of height h goes. */
  lemma Shares(h: nat, n: nat, j: nat)
    requires n < Cap(h + 1) && j < NINDIR
    ensures var i, r := Digit(h + 1, n), Rest(h + 1, n);
            && Share(h, j, n) == (if j < i then Cap(h) else if j == i then r else 0)
            && Share(h, j, n + 1) == (if j == i then r + 1 else Share(h, j, n))
  {
    var c, i, r := Cap(h), Digit(h + 1, n), Rest(h + 1, n);
    assert n == i * c + r;
    if j < i {
      MulMonotone(c, j + 1, i);
      assert c * (j + 1) == j * c + c;
    } else if j > i {
      MulMonotone(c, i + 1, j);
      assert c * (i + 1) == i * c + c;
    }
  }

  lemma {:induction false} CountStep(h: nat, n: nat, lo: nat)
    requires n < Cap(h + 1) && lo <= NINDIR
    ensures var i, r := Digit(h + 1, n), Rest(h + 1, n);
            CountFrom(h, n + 1, lo) == CountFrom(h, n, lo) + (if lo <= i then Count(h, r + 1) - Count(h, r) else 0)
    decreases NINDIR - lo
  {
    if lo < NINDIR {
      Shares(h, n, lo);
      CountStep(h, n, lo + 1);
    }
  }

  /** The entries of indirect block bn hold n data blocks; unlike in a filled tree, n may be 0. */
  ghost predicate Kids(d: Disk, bn: int, h: nat, n: nat) {
    bn != 0 && forall i :: 0 <= i < NINDIR ==> Filled(d, Words(d, bn)[i], h, Share(h, i, n))
  }

  /** The same without a condition on entry i. */
  ghost predicate KidsBut(d: Disk, bn: int, h: nat, n: nat, i: nat) {
    bn != 0 && forall j :: 0 <= j < NINDIR && j != i ==> Filled(d, Words(d, bn)[j], h, Share(h, j, n))
  }

  /** What adding data block n below bn does. */
  ghost predicate Extends(d: Disk, free: seq<int>, bn: int, h: nat, n: nat, g: Grown)
    requires 0 < h
  {
    if g.ok then
      Kids(g.d, bn, h - 1, n + 1) && Pre(g.d, bn, h) == Pre(d, bn, h) + g.taken
    else
      |Pre(d, bn, h)| + |free| < 1 + CountFrom(h - 1, n + 1, 0)
  }

  lemma NothingAfter(d: Disk, bn: int, h: nat, n: nat)
    requires 0 < h && n < Cap(h) && KidsBut(d, bn, h - 1, n, Digit(h, n))
    ensures After(d, Words(d, bn), Indirect(h - 1), Digit(h, n)) == []
  {
    var ws, i := Words(d, bn), Digit(h, n);
    forall j | i < j < NINDIR
      ensures ws[j] == 0
    {
      Shares(h - 1, n, j);
      assert Filled(d, ws[j], h - 1, 0);
    }
    ZeroRange(d, ws, Indirect(h - 1), i + 1, NINDIR);
  }

  /** The last tree under bn gains blocks at its end. */
  lemma LiftAppend(d: Disk, e: Disk, bn: int, h: nat, n: nat, touched: set<int>, taken: seq<int>)
    requires 0 < h && n < Cap(h) && KidsBut(d, bn, h - 1, n, Digit(h, n))
    requires OnlyChild(d, e, bn, h, Digit(h, n), touched)
    requires var c := Words(d, bn)[Digit(h, n)];
             Pre(e, c, h - 1) == Pre(d, c, h - 1) + taken
    ensures Pre(e, bn, h) == Pre(d, bn, h) + taken
  {
    hide KidsBut, Pre, PreRange, OnlyChild;
    var i := Digit(h, n);
    OnlyChildCount(d, e, bn, h, i, touched);
    NothingAfter(d, bn, h, n);
    var b, p := Before(d, Words(d, bn), Indirect(h - 1), i), Pre(d, Words(d, bn)[i], h - 1);
    assert [bn] + (b + ((p + taken) + [])) == ([bn] + (b + (p + []))) + taken;
  }

  lemma LiftKids(d: Disk, e: Disk, bn: int, h: nat, n: nat, touched: set<int>)
    requires 0 < h && n < Cap(h) && KidsBut(d, bn, h - 1, n, Digit(h, n))
    requires OnlyChild(d, e, bn, h, Digit(h, n), touched)
    requires Filled(e, Words(d, bn)[Digit(h, n)], h - 1, Rest(h, n) + 1)
    ensures Kids(e, bn, h - 1, n + 1)
  {
    hide Pre, Meta, Filled, Digit, Rest;
    var i, ws := Digit(h, n), Words(d, bn);
    OnlyChildWords(d, e, bn, h, i, touched);
    forall j | 0 <= j < NINDIR
      ensures Filled(e, ws[j], h - 1, Share(h - 1, j, n + 1))
    {
      Shares(h - 1, n, j);
      if j != i {
        SiblingAgrees(d, e, bn, h, i, touched, j);
        FilledFrame(d, e, ws[j], h - 1, Share(h - 1, j, n));
      }
    }
  }

  lemma SiblingAgrees(d: Disk, e: Disk, bn: int, h: nat, i: nat, touched: set<int>, j: nat)
    requires 0 < h && i < NINDIR && j < NINDIR && j != i && OnlyChild(d, e, bn, h, i, touched)
    ensures Agree(d, e, Meta(d, Words(d, bn)[j], h - 1))
  {
    SiblingMeta(d, bn, h, i, j);
    NodeSplit(d, bn, h, j);
    MetaInPre(d, bn, h);
  }

  lemma KidsCount(d: Disk, bn: int, h: nat, n: nat)
    requires 0 < h && Kids(d, bn, h - 1, n)
    ensures |Pre(d, bn, h)| == 1 + CountFrom(h - 1, n, 0)
  {
    FilledRangeCount(d, Words(d, bn), h - 1, n, 0);
  }

  lemma {:induction false} Extend(d: Disk, free: seq<int>, bn: int, h: nat, n: nat)
    requires 0 < h && n < Cap(h) && Kids(d, bn, h - 1, n)
    requires Separate(d, free, Pre(d, bn, h))
    ensures Extends(d, free, bn, h, n, Grow(d, free, bn, h, n))
    decreases h, 1
  {
    hide Pre, Separate, Grow, Extends, Digit, Rest;
    var c := Words(d, bn)[Digit(h, n)];
    KidAt(d, bn, h, n);
    if c != 0 {
      StepDown(d, free, bn, h, Digit(h, n));
      hide Kids;
      Extend(d, free, c, h - 1, Rest(h, n));
      ExtendPresent(d, free, bn, h, n);
    } else if free == [] {
      ExtendNothing(d, bn, h, n);
    } else {
      ExtendAttach(d, free, bn, h, n);
    }
  }

  lemma KidAt(d: Disk, bn: int, h: nat, n: nat)
    requires 0 < h && n < Cap(h) && Kids(d, bn, h - 1, n)
    ensures KidsBut(d, bn, h - 1, n, Digit(h, n))
    ensures var c, r := Words(d, bn)[Digit(h, n)], Rest(h, n);
            && Filled(d, c, h - 1, r) && (c == 0 <==> r == 0)
            && (c != 0 ==> h > 1 && Kids(d, c, h - 2, r) && |Pre(d, c, h - 1)| == Count(h - 1, r))
  {
    var c, r := Words(d, bn)[Digit(h, n)], Rest(h, n);
    Shares(h - 1, n, Digit(h, n));
    assert Filled(d, c, h - 1, r);
    FilledCount(d, c, h - 1, r);
  }

  lemma ExtendNothing(d: Disk, bn: int, h: nat, n: nat)
    requires 0 < h && n < Cap(h) && Kids(d, bn, h - 1, n) && Words(d, bn)[Digit(h, n)] == 0
    ensures Extends(d, [], bn, h, n, Grow(d, [], bn, h, n))
  {
    hide Pre, Kids;
    KidAt(d, bn, h, n);
    KidsCount(d, bn, h, n);
    CountStep(h - 1, n, 0);
    assert Count(h - 1, 0) == 0 < Count(h - 1, 1);
  }

  lemma ExtendPresent(d: Disk, free: seq<int>, bn: int, h: nat, n: nat)
    requires 1 < h && n < Cap(h) && Kids(d, bn, h - 1, n)
    requires Separate(d, free, Pre(d, bn, h))
    requires var c, r := Words(d, bn)[Digit(h, n)], Rest(h, n);
             && c != 0 && r > 0 && Extends(d, free, c, h - 1, r, Grow(d, free, c, h - 1, r))
    ensures Extends(d, free, bn, h, n, Grow(d, free, bn, h, n))
  {
    hide Pre, Kids, PreRange, CountFrom, Count, Digit, Rest;
    var c, r := Words(d, bn)[Digit(h, n)], Rest(h, n);
    var g := Grow(d, free, c, h - 1, r);
    assert Grow(d, free, bn, h, n) == g;
    hide Grow;
    if g.ok {
      GrownPresent(d, free, bn, h, n);
    } else {
      ShortPresent(d, free, bn, h, n);
    }
  }

  lemma ShortPresent(d: Disk, free: seq<int>, bn: int, h: nat, n: nat)
    requires 1 < h && n < Cap(h) && Kids(d, bn, h - 1, n)
    requires var c, r := Words(d, bn)[Digit(h, n)], Rest(h, n);
             c != 0 && |Pre(d, c, h - 1)| + |free| < 1 + CountFrom(h - 2, r + 1, 0)
    ensures |Pre(d, bn, h)| + |free| < 1 + CountFrom(h - 1, n + 1, 0)
  {
    hide Pre, Kids, Count, CountFrom;
    KidAt(d, bn, h, n);
    KidsCount(d, bn, h, n);
    CountStep(h - 1, n, 0);
    BranchCount(h - 1, Rest(h, n) + 1);
  }

  lemma GrownPresent(d: Disk, free: seq<int>, bn: int, h: nat, n: nat)
    requires 1 < h && n < Cap(h) && Kids(d, bn, h - 1, n) && Separate(d, free, Pre(d, bn, h))
    requires var c, r := Words(d, bn)[Digit(h, n)], Rest(h, n);
             && c != 0 && Extends(d, free, c, h - 1, r, Grow(d, free, c, h - 1, r))
             && Grow(d, free, c, h - 1, r).ok
    ensures var g := Grow(d, free, bn, h, n);
            Kids(g.d, bn, h - 1, n + 1) && Pre(g.d, bn, h) == Pre(d, bn, h) + g.taken
  {
    hide Pre, KidsBut, OnlyChild, PreRange, CountFrom, Count, Digit, Rest, Filled;
    var i, r := Digit(h, n), Rest(h, n);
    var c := Words(d, bn)[i];
    KidAt(d, bn, h, n);
    KidsRoot(d, bn, h - 1, n);
    hide Kids;
    var g := Grow(d, free, c, h - 1, r);
    assert Grow(d, free, bn, h, n) == g;
    hide Grow;
    var touched := set x | x in g.taken;
    OnlyChildGrown(d, free, bn, h, n, touched);
    LiftAppend(d, g.d, bn, h, n, touched, g.taken);
    KidsFilled(g.d, c, h - 1, r + 1);
    LiftKids(d, g.d, bn, h, n, touched);
  }

  lemma BranchCount(h: nat, n: nat)
    requires 0 < h && 0 < n
    ensures Count(h, n) == 1 + CountFrom(h - 1, n, 0)
  {
  }

  lemma KidsFilled(d: Disk, bn: int, h: nat, n: nat)
    requires 0 < h && 0 < n && Kids(d, bn, h - 1, n)
    ensures Filled(d, bn, h, n) && Count(h, n) == 1 + CountFrom(h - 1, n, 0)
  {
  }

  lemma OnlyChildGrown(d: Disk, free: seq<int>, bn: int, h: nat, n: nat, touched: set<int>)
    requires 0 < h && n < Cap(h) && bn != 0 && Separate(d, free, Pre(d, bn, h))
    requires Words(d, bn)[Digit(h, n)] != 0
    requires touched == set x | x in Grow(d, free, bn, h, n).taken
    ensures OnlyChild(d, Grow(d, free, bn, h, n).d, bn, h, Digit(h, n), touched)
  {
    var i := Digit(h, n);
    var c := Words(d, bn)[i];
    StepDown(d, free, bn, h, i);
    GrowCorrect(d, free, c, h - 1, Rest(h, n));
    var g := Grow(d, free, c, h - 1, Rest(h, n));
    assert Grow(d, free, bn, h, n) == g;
    TakenFromFree(free, g.free, g.taken);
  }

  lemma {:induction false} ExtendAttach(d: Disk, free: seq<int>, bn: int, h: nat, n: nat)
    requires 0 < h && n < Cap(h) && Kids(d, bn, h - 1, n) && free != []
    requires Separate(d, free, Pre(d, bn, h)) && Words(d, bn)[Digit(h, n)] == 0
    ensures Extends(d, free, bn, h, n, Grow(d, free, bn, h, n))
    decreases h, 0
  {
    hide Pre, Kids, KidsBut, OnlyChild, PreRange, Grow;
    var a, rest := free[|free| - 1], free[..|free| - 1];
    var i := Digit(h, n);
    var e := Attach(d, bn, i, a);
    KidAt(d, bn, h, n);
    KidsRoot(d, bn, h - 1, n);
    StepAttach(d, free, bn, h, n);
    AttachSeparate(d, free, bn, h, i);
    AttachedKids(d, bn, h, n, a);
    var g := Grow(e, rest, a, h - 1, 0);
    if h == 1 {
      LeafGrow(e, rest, a);
      LeafKids(e, bn, n);
      assert [a] + [] == [a];
    } else {
      FreshKids(e, a, h - 1);
      Extend(e, rest, a, h - 1, 0);
      if g.ok {
        ExtendAttached(e, rest, bn, h, n, a);
        assert (Pre(d, bn, h) + [a]) + g.taken == Pre(d, bn, h) + ([a] + g.taken);
      } else {
        KidsCount(d, bn, h, n);
        CountStep(h - 1, n, 0);
      }
    }
  }

  lemma KidsRoot(d: Disk, bn: int, h: nat, n: nat)
    requires Kids(d, bn, h, n)
    ensures bn != 0
  {
  }

  lemma LeafGrow(e: Disk, rest: seq<int>, a: int)
    ensures Grow(e, rest, a, 0, 0) == Grown(e, rest, [], true)
  {
  }

  lemma FreshKids(e: Disk, a: int, h: nat)
    requires a != 0 && Words(e, a) == ZeroBlock() && 0 < h
    ensures Kids(e, a, h - 1, 0)
  {
    hide ZeroBlock;
    assert forall i :: 0 <= i < NINDIR ==> ZeroBlock()[i] == 0;
  }

  lemma LeafKids(e: Disk, bn: int, n: nat)
    requires n < Cap(1) && KidsBut(e, bn, 0, n, Digit(1, n)) && Words(e, bn)[Digit(1, n)] != 0
    ensures Kids(e, bn, 0, n + 1)
  {
    forall j | 0 <= j < NINDIR
      ensures Filled(e, Words(e, bn)[j], 0, Share(0, j, n + 1))
    {
      Shares(0, n, j);
    }
  }

  /** Attaching a block where the next data block goes. */
  lemma AttachedKids(d: Disk, bn: int, h: nat, n: nat, a: int)
    requires 0 < h && n < Cap(h) && Kids(d, bn, h - 1, n) && Words(d, bn)[Digit(h, n)] == 0
    requires a != 0 && a != bn && a !in Pre(d, bn, h) && Distinct(Pre(d, bn, h))
    ensures KidsBut(Attach(d, bn, Digit(h, n), a), bn, h - 1, n, Digit(h, n))
    ensures Pre(Attach(d, bn, Digit(h, n), a), bn, h) == Pre(d, bn, h) + [a]
    ensures Words(Attach(d, bn, Digit(h, n), a), bn)[Digit(h, n)] == a
    ensures Words(Attach(d, bn, Digit(h, n), a), a) == ZeroBlock()
  {
    hide Pre, PreRange, Digit, Rest;
    var i, ws := Digit(h, n), Words(d, bn);
    var e := Attach(d, bn, i, a);
    AttachWords(d, bn, i, a);
    AttachSpec(d, bn, h, i, a);
    assert KidsBut(d, bn, h - 1, n, i);
    NothingAfter(d, bn, h, n);
    var b := Before(d, ws, Indirect(h - 1), i);
    assert [bn] + (b + ([a] + [])) == ([bn] + (b + ([] + []))) + [a];
    forall j | 0 <= j < NINDIR && j != i
      ensures Filled(e, ws[j], h - 1, Share(h - 1, j, n))
    {
      NodeDistinct(d, bn, h, j);
      NodeSplit(d, bn, h, j);
      MetaInPre(d, ws[j], h - 1);
      FilledFrame(d, e, ws[j], h - 1, Share(h - 1, j, n));
    }
  }

  lemma ExtendAttached(e: Disk, rest: seq<int>, bn: int, h: nat, n: nat, a: int)
    requires 1 < h && n < Cap(h) && bn != 0 && Rest(h, n) == 0
    requires KidsBut(e, bn, h - 1, n, Digit(h, n)) && Words(e, bn)[Digit(h, n)] == a != 0
    requires Separate(e, rest, Pre(e, bn, h)) && Pre(e, a, h - 1) == [a]
    requires Extends(e, rest, a, h - 1, 0, Grow(e, rest, a, h - 1, 0)) && Grow(e, rest, a, h - 1, 0).ok
    ensures var g := Grow(e, rest, a, h - 1, 0);
            Kids(g.d, bn, h - 1, n + 1) && Pre(g.d, bn, h) == Pre(e, bn, h) + g.taken
  {
    hide Pre, Kids, KidsBut, Separate, OnlyChild, PreRange;
    var g := Grow(e, rest, a, h - 1, 0);
    assert Grow(e, rest, bn, h, n) == g;
    var touched := set x | x in g.taken;
    OnlyChildGrown(e, rest, bn, h, n, touched);
    LiftAppend(e, g.d, bn, h, n, touched, g.taken);
    KidsFilled(g.d, a, h - 1, 1);
    LiftKids(e, g.d, bn, h, n, touched);
  }

  // ---------------------------------------------------------------------------
  // A filled tree is determined by its blocks.

  lemma {:induction false} Unique(d: Disk, b: int, e: Disk, c: int, h: nat, n: nat)
    requires Filled(d, b, h, n) && Filled(e, c, h, n) && Pre(d, b, h) == Pre(e, c, h)
    ensures b == c && Agree(d, e, Meta(d, b, h))
    decreases h, 1, 0
  {
    if n > 0 && h == 0 {
      assert b == Pre(d, b, h)[0] && c == Pre(e, c, h)[0];
    } else if n > 0 {
      hide PreRange, MetaRange;
      var ws, vs, k := Words(d, b), Words(e, c), Indirect(h - 1);
      assert b == Pre(d, b, h)[0] && c == Pre(e, c, h)[0];
      assert PreRange(d, ws, k, 0, NINDIR) == Pre(d, b, h)[1..];
      assert PreRange(e, vs, k, 0, NINDIR) == Pre(e, c, h)[1..];
      UniqueRange(d, ws, e, vs, h - 1, n, 0);
      assert ws == vs;
      assert Meta(d, b, h) == {b} + MetaRange(d, ws, k, 0, NINDIR);
    }
  }

  lemma {:induction false} UniqueRange(d: Disk, ws: Block, e: Disk, vs: Block, h: nat, n: nat, lo: nat)
    requires lo <= NINDIR
    requires forall i :: 0 <= i < NINDIR ==> Filled(d, ws[i], h, Share(h, i, n)) && Filled(e, vs[i], h, Share(h, i, n))
    requires PreRange(d, ws, Indirect(h), lo, NINDIR) == PreRange(e, vs, Indirect(h), lo, NINDIR)
    ensures forall i :: lo <= i < NINDIR ==> ws[i] == vs[i]
    ensures Agree(d, e, MetaRange(d, ws, Indirect(h), lo, NINDIR))
    decreases h, 2, NINDIR - lo
  {
    if lo < NINDIR {
      var k, m := Indirect(h), Share(h, lo, n);
      FilledCount(d, ws[lo], h, m);
      FilledCount(e, vs[lo], h, m);
      SplitEqual(Pre(d, ws[lo], h), PreRange(d, ws, k, lo + 1, NINDIR), Pre(e, vs[lo], h),
                 PreRange(e, vs, k, lo + 1, NINDIR));
      Unique(d, ws[lo], e, vs[lo], h, m);
      UniqueRange(d, ws, e, vs, h, n, lo + 1);
    }
  }

  lemma SplitEqual<T>(a: seq<T>, b: seq<T>, a': seq<T>, b': seq<T>)
    requires a + b == a' + b' && |a| == |a'|
    ensures a == a' && b == b'
  {
    assert a == (a + b)[..|a|] && a' == (a' + b')[..|a|];
    assert b == (a + b)[|a|..] && b' == (a' + b')[|a|..];
  }

  // ---------------------------------------------------------------------------
  // The same for files.

  function FileShare(i: nat, n: nat): (s: nat)
    requires i < NADDR
    ensures s <= Cap(Height(Inode, i))
  {
    Clamp(n - SlotStart(i), Cap(Height(Inode, i)))
  }

  /** Exactly the first n logical blocks of the file are mapped, and no indirect block is empty. */
  ghost predicate FileFilled(d: Disk, addr: Addrs, n: nat) {
    forall i :: 0 <= i < NADDR ==> Filled(d, addr[i], Height(Inode, i), FileShare(i, n))
  }

  function FileCount(n: nat, lo: nat): nat
    requires lo <= NADDR
    decreases NADDR - lo
  {
    if lo == NADDR then 0 else Count(Height(Inode, lo), FileShare(lo, n)) + FileCount(n, lo + 1)
  }

  lemma {:induction false} FileFilledCount(d: Disk, addr: Addrs, n: nat, lo: nat)
    requires lo <= NADDR && FileFilled(d, addr, n)
    ensures |PreRange(d, addr, Inode, lo, NADDR)| == FileCount(n, lo)
    decreases NADDR - lo
  {
    if lo < NADDR {
      FilledCount(d, addr[lo], Height(Inode, lo), FileShare(lo, n));
      FileFilledCount(d, addr, n, lo + 1);
    }
  }

  lemma {:induction false} FileCountMonotone(m: nat, n: nat, lo: nat)
    requires m <= n && lo <= NADDR
    ensures FileCount(m, lo) <= FileCount(n, lo)
    decreases NADDR - lo
  {
    if lo < NADDR {
      CountMonotone(Height(Inode, lo), FileShare(lo, m), FileShare(lo, n));
      FileCountMonotone(m, n, lo + 1);
    }
  }

  lemma {:induction false} FileUnique(d: Disk, addr: Addrs, e: Disk, addr': Addrs, n: nat, lo: nat)
    requires lo <= NADDR && FileFilled(d, addr, n) && FileFilled(e, addr', n)
    requires PreRange(d, addr, Inode, lo, NADDR) == PreRange(e, addr', Inode, lo, NADDR)
    ensures forall i :: lo <= i < NADDR ==> addr[i] == addr'[i]
    ensures Agree(d, e, MetaRange(d, addr, Inode, lo, NADDR))
    decreases NADDR - lo
  {
    if lo < NADDR {
      var h, m := Height(Inode, lo), FileShare(lo, n);
      FilledCount(d, addr[lo], h, m);
      FilledCount(e, addr'[lo], h, m);
      SplitEqual(Pre(d, addr[lo], h), PreRange(d, addr, Inode, lo + 1, NADDR),
                 Pre(e, addr'[lo], h), PreRange(e, addr', Inode, lo + 1, NADDR));
      Unique(d, addr[lo], e, addr'[lo], h, m);
      FileUnique(d, addr, e, addr', n, lo + 1);
    }
  }

  lemma FileShares(n: nat, j: nat)
    requires n < FILE_LIMIT && j < NADDR
    ensures FileShare(j, n) == if j < SlotOf(n) then Cap(Height(Inode, j)) else if j == SlotOf(n) then OffsetOf(n)
            else 0
    ensures FileShare(j, n + 1) == if j == SlotOf(n) then OffsetOf(n) + 1 else FileShare(j, n)
  {
  }

  lemma {:induction false} FileCountStep(n: nat, lo: nat)
    requires n < FILE_LIMIT && lo <= NADDR
    ensures var i := SlotOf(n);
            var more := Count(Height(Inode, i), OffsetOf(n) + 1) - Count(Height(Inode, i), OffsetOf(n));
            FileCount(n + 1, lo) == FileCount(n, lo) + (if lo <= i then more else 0)
    decreases NADDR - lo
  {
    if lo < NADDR {
      FileShares(n, lo);
      FileCountStep(n, lo + 1);
    }
  }

  ghost predicate FileFilledBut(d: Disk, addr: Addrs, n: nat, i: nat) {
    forall j :: 0 <= j < NADDR && j != i ==> Filled(d, addr[j], Height(Inode, j), FileShare(j, n))
  }

  lemma NothingAfterSlot(d: Disk, addr: Addrs, n: nat)
    requires n < FILE_LIMIT && FileFilledBut(d, addr, n, SlotOf(n))
    ensures After(d, addr, Inode, SlotOf(n)) == []
  {
    hide SlotOf, OffsetOf;
    var i := SlotOf(n);
    forall j | i < j < NADDR
      ensures addr[j] == 0
    {
      FileShares(n, j);
      assert Filled(d, addr[j], Height(Inode, j), 0);
    }
    ZeroRange(d, addr, Inode, i + 1, NADDR);
  }

  lemma FileAppend(d: Disk, e: Disk, addr: Addrs, n: nat, touched: set<int>, c: int, taken: seq<int>)
    requires n < FILE_LIMIT && FileFilledBut(d, addr, n, SlotOf(n))
    requires OnlySlot(d, e, addr, Inode, SlotOf(n), touched)
    requires var h := Height(Inode, SlotOf(n));
             Pre(e, c, h) == Pre(d, addr[SlotOf(n)], h) + taken
    ensures FileBlocks(e, addr[SlotOf(n) := c]) == FileBlocks(d, addr) + taken
  {
    hide Pre, PreRange, SlotOf, OffsetOf, OnlySlot, FileFilledBut;
    var i := SlotOf(n);
    OnlySlotCount(d, e, addr, Inode, i, touched, c);
    NothingAfterSlot(d, addr, n);
    var b, p := Before(d, addr, Inode, i), Pre(d, addr[i], Height(Inode, i));
    assert b + ((p + taken) + []) == (b + (p + [])) + taken;
  }

  lemma FileKept(d: Disk, e: Disk, addr: Addrs, n: nat, touched: set<int>, c: int)
    requires n < FILE_LIMIT && FileFilledBut(d, addr, n, SlotOf(n))
    requires OnlySlot(d, e, addr, Inode, SlotOf(n), touched)
    requires Filled(e, c, Height(Inode, SlotOf(n)), OffsetOf(n) + 1)
    ensures FileFilled(e, addr[SlotOf(n) := c], n + 1)
  {
    hide Pre, PreRange, Meta, MetaRange, SlotOf, OffsetOf, Filled, OnlySlot;
    var i := SlotOf(n);
    OnlySlotAgree(d, e, addr, Inode, i, touched);
    forall j | 0 <= j < NADDR
      ensures Filled(e, addr[i := c][j], Height(Inode, j), FileShare(j, n + 1))
    {
      FileShares(n, j);
      if j != i {
        if j < i {
          SlotInRange(d, addr, Inode, 0, j, i);
        } else {
          SlotInRange(d, addr, Inode, i + 1, j, NADDR);
        }
        FilledFrame(d, e, addr[j], Height(Inode, j), FileShare(j, n));
      }
    }
  }

  /** Growing a hole-free file by its next logical block. */
  ghost predicate FileExtends(d: Disk, free: seq<int>, addr: Addrs, n: nat, r: FileGrown) {
    if r.g.ok then
      FileFilled(r.g.d, r.addr, n + 1) && FileBlocks(r.g.d, r.addr) == FileBlocks(d, addr) + r.g.taken
    else
      |FileBlocks(d, addr)| + |free| < FileCount(n + 1, 0)
  }

  lemma ExtendFile(d: Disk, free: seq<int>, addr: Addrs, n: nat)
    requires n < FILE_LIMIT && FileFilled(d, addr, n) && Separate(d, free, FileBlocks(d, addr))
    ensures FileExtends(d, free, addr, n, GrowFile(d, free, addr, n))
  {
    hide SlotOf, OffsetOf, Pre, PreRange, Grow, Separate, FileExtends;
    SlotAt(d, addr, n);
    if addr[SlotOf(n)] != 0 {
      ExtendFilePresent(d, free, addr, n);
    } else if free == [] {
      ExtendFileNothing(d, addr, n);
    } else {
      assert free == free[..|free| - 1] + [free[|free| - 1]];
      ExtendFileAttach(d, free[..|free| - 1], free[|free| - 1], addr, addr[SlotOf(n) := free[|free| - 1]],
                       n, SlotOf(n), Height(Inode, SlotOf(n)));
    }
  }

  lemma SlotAt(d: Disk, addr: Addrs, n: nat)
    requires n < FILE_LIMIT && FileFilled(d, addr, n)
    ensures FileFilledBut(d, addr, n, SlotOf(n))
    ensures var c, h, o := addr[SlotOf(n)], Height(Inode, SlotOf(n)), OffsetOf(n);
            && Filled(d, c, h, o) && (c == 0 <==> o == 0)
            && (c != 0 ==> h > 0 && Kids(d, c, h - 1, o) && |Pre(d, c, h)| == Count(h, o))
  {
    hide SlotOf, OffsetOf, Pre;
    FileShares(n, SlotOf(n));
    var c, h, o := addr[SlotOf(n)], Height(Inode, SlotOf(n)), OffsetOf(n);
    assert Filled(d, c, h, o);
    FilledCount(d, c, h, o);
  }

  lemma ExtendFileNothing(d: Disk, addr: Addrs, n: nat)
    requires n < FILE_LIMIT && FileFilled(d, addr, n) && addr[SlotOf(n)] == 0
    ensures FileExtends(d, [], addr, n, FileGrown(addr, Grown(d, [], [], false)))
  {
    hide SlotOf, OffsetOf, Pre, PreRange, FileCount;
    SlotAt(d, addr, n);
    FileFilledCount(d, addr, n, 0);
    FileCountStep(n, 0);
    var h := Height(Inode, SlotOf(n));
    assert Count(h, 0) == 0 < Count(h, 1);
  }

  lemma ExtendFilePresent(d: Disk, free: seq<int>, addr: Addrs, n: nat)
    requires n < FILE_LIMIT && FileFilled(d, addr, n) && Separate(d, free, FileBlocks(d, addr))
    requires addr[SlotOf(n)] != 0
    ensures FileExtends(d, free, addr, n, FileGrown(addr, Grow(d, free, addr[SlotOf(n)], Height(Inode, SlotOf(n)),
                                                               OffsetOf(n))))
  {
    hide SlotOf, OffsetOf, Pre, PreRange, Grow, FileCount, Count, CountFrom;
    var i, h, o := SlotOf(n), Height(Inode, SlotOf(n)), OffsetOf(n);
    SlotAt(d, addr, n);
    SlotSeparate(d, free, addr, i);
    Extend(d, free, addr[i], h, o);
    var g := Grow(d, free, addr[i], h, o);
    if g.ok {
      var touched := set x | x in g.taken;
      OnlySlotGrown(d, free, addr, n, touched);
      FileAppend(d, g.d, addr, n, touched, addr[i], g.taken);
      KidsFilled(g.d, addr[i], h, o + 1);
      FileKept(d, g.d, addr, n, touched, addr[i]);
      assert addr[i := addr[i]] == addr;
    } else {
      FileFilledCount(d, addr, n, 0);
      FileCountStep(n, 0);
      BranchCount(h, o + 1);
    }
  }

  lemma OnlySlotGrown(d: Disk, free: seq<int>, addr: Addrs, n: nat, touched: set<int>)
    requires n < FILE_LIMIT && Separate(d, free, FileBlocks(d, addr)) && addr[SlotOf(n)] != 0
    requires touched == set x | x in Grow(d, free, addr[SlotOf(n)], Height(Inode, SlotOf(n)), OffsetOf(n)).taken
    ensures OnlySlot(d, Grow(d, free, addr[SlotOf(n)], Height(Inode, SlotOf(n)), OffsetOf(n)).d, addr, Inode, SlotOf(n),
                     touched)
  {
    hide SlotOf, OffsetOf, Pre, PreRange, Grow;
    var i, h, o := SlotOf(n), Height(Inode, SlotOf(n)), OffsetOf(n);
    SlotSeparate(d, free, addr, i);
    GrowCorrect(d, free, addr[i], h, o);
    var g := Grow(d, free, addr[i], h, o);
    TakenFromFree(free, g.free, g.taken);
  }

  lemma ExtendFileAttach(d: Disk, rest: seq<int>, a: int, addr: Addrs, addr': Addrs,
                         n: nat, i: nat, h: nat)
    requires i < NADDR && addr' == addr[i := a]
    requires n < FILE_LIMIT && FileFilled(d, addr, n) && Separate(d, rest + [a], FileBlocks(d, addr))
    requires i == SlotOf(n) && h == Height(Inode, i) && addr[i] == 0
    ensures OffsetOf(n) == 0
    ensures var g := Grow(d[a := ZeroBlock()], rest, a, h, 0);
            FileExtends(d, rest + [a], addr, n, FileGrown(addr', g.(taken := [a] + g.taken)))
  {
    hide SlotOf, OffsetOf, Pre, PreRange, Grow, FileExtends;
    var e := d[a := ZeroBlock()];
    SlotAt(d, addr, n);
    RootSeparate(d, rest, a, addr, i);
    AttachedFile(d, a, addr, addr', n, i);
    SlotSeparate(e, rest, addr', i);
    if h == 0 {
      LeafGrow(e, rest, a);
      AttachedLeaf(e, d, rest, a, addr, n);
    } else {
      ZeroTree(e, a, h);
      FreshKids(e, a, h);
      Extend(e, rest, a, h, 0);
      AttachedGrown(d, rest, a, addr, n);
    }
  }

  /** Attaching a root where the next data block goes. */
  lemma AttachedFile(d: Disk, a: int, addr: Addrs, addr': Addrs, n: nat, i: nat)
    requires i < NADDR && addr' == addr[i := a]
    requires n < FILE_LIMIT && FileFilled(d, addr, n) && Distinct(FileBlocks(d, addr))
    requires i == SlotOf(n) && addr[i] == 0 && a != 0 && a !in FileBlocks(d, addr)
    ensures FileFilledBut(d[a := ZeroBlock()], addr', n, i)
    ensures FileBlocks(d[a := ZeroBlock()], addr') == FileBlocks(d, addr) + [a]
  {
    hide SlotOf, OffsetOf, Pre, PreRange, Filled, Meta, MetaRange;
    var e := d[a := ZeroBlock()];
    SlotAt(d, addr, n);
    RootSpec(d, a, addr, i);
    NothingAfterSlot(d, addr, n);
    var b := Before(d, addr, Inode, i);
    assert b + ([a] + []) == (b + ([] + [])) + [a];
    assert OnlySlot(d, e, addr, Inode, i, {a});
    OnlySlotAgree(d, e, addr, Inode, i, {a});
    forall j | 0 <= j < NADDR && j != i
      ensures Filled(e, addr'[j], Height(Inode, j), FileShare(j, n))
    {
      if j < i {
        SlotInRange(d, addr, Inode, 0, j, i);
      } else {
        SlotInRange(d, addr, Inode, i + 1, j, NADDR);
      }
      FilledFrame(d, e, addr[j], Height(Inode, j), FileShare(j, n));
    }
  }

  lemma AttachedLeaf(e: Disk, d: Disk, rest: seq<int>, a: int, addr: Addrs, n: nat)
    requires n < FILE_LIMIT && Height(Inode, SlotOf(n)) == 0 && OffsetOf(n) == 0 && a != 0
    requires FileFilledBut(e, addr[SlotOf(n) := a], n, SlotOf(n))
    requires FileBlocks(e, addr[SlotOf(n) := a]) == FileBlocks(d, addr) + [a]
    ensures FileExtends(d, rest + [a], addr, n, FileGrown(addr[SlotOf(n) := a], Grown(e, rest, [a] + [], true)))
  {
    hide SlotOf, OffsetOf, PreRange;
    var i, addr' := SlotOf(n), addr[SlotOf(n) := a];
    assert [a] + [] == [a];
    forall j | 0 <= j < NADDR
      ensures Filled(e, addr'[j], Height(Inode, j), FileShare(j, n + 1))
    {
      FileShares(n, j);
    }
  }

  lemma AttachedGrown(d: Disk, rest: seq<int>, a: int, addr: Addrs, n: nat)
    requires n < FILE_LIMIT && Height(Inode, SlotOf(n)) > 0 && OffsetOf(n) == 0 && a != 0
    requires FileFilled(d, addr, n) && addr[SlotOf(n)] == 0
    requires var e, addr' := d[a := ZeroBlock()], addr[SlotOf(n) := a];
             && Separate(e, rest, FileBlocks(e, addr'))
             && FileFilledBut(e, addr', n, SlotOf(n))
             && FileBlocks(e, addr') == FileBlocks(d, addr) + [a]
             && Pre(e, a, Height(Inode, SlotOf(n))) == [a]
             && Extends(e, rest, a, Height(Inode, SlotOf(n)), 0, Grow(e, rest, a, Height(Inode, SlotOf(n)), 0))
    ensures var g := Grow(d[a := ZeroBlock()], rest, a, Height(Inode, SlotOf(n)), OffsetOf(n));
            FileExtends(d, rest + [a], addr, n, FileGrown(addr[SlotOf(n) := a], g.(taken := [a] + g.taken)))
  {
    hide SlotOf, OffsetOf, Pre, PreRange, Grow, FileCount, Count, CountFrom;
    var i, h := SlotOf(n), Height(Inode, SlotOf(n));
    var e, addr' := d[a := ZeroBlock()], addr[i := a];
    var g := Grow(e, rest, a, h, 0);
    if g.ok {
      var touched := set x | x in g.taken;
      OnlySlotGrown(e, rest, addr', n, touched);
      FileAppend(e, g.d, addr', n, touched, a, g.taken);
      KidsFilled(g.d, a, h, 1);
      FileKept(e, g.d, addr', n, touched, a);
      assert addr'[i := a] == addr';
      assert (FileBlocks(d, addr) + [a]) + g.taken == FileBlocks(d, addr) + ([a] + g.taken);
    } else {
      SlotAt(d, addr, n);
      FileFilledCount(d, addr, n, 0);
      FileCountStep(n, 0);
      BranchCount(h, 1);
      ZeroCount(h);
    }
  }

  lemma ZeroCount(h: nat)
    ensures Count(h, 0) == 0
  {
  }
}
