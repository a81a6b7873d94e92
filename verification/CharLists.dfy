/**
 * Character lists: queues of bytes in blocks of sixteen bytes, four for the link
 * and twelve for characters, from one pool. Addresses are numbers: block b is
 * at 16 b, so a pointer that has run off its block is a multiple of sixteen.
 */
module CharLists {
  import opened Sequences

  const CBSIZE: nat := 12
  const BLOCK: nat := 16      // CROUND + 1

  /** struct clist: the number of characters, and the addresses of the first and of the place after the last. */
  datatype Clist = Clist(cc: int, cf: int, cl: int)

  const EMPTY := Clist(0, 0, 0)

  /** Address of the first character of block b. */
  function Info(b: int): int {
    BLOCK * b + 4
  }

  ghost predicate Chain(next: seq<int>, bl: seq<int>) {
    && (forall i :: 0 <= i < |bl| ==> 0 < bl[i] < |next|)
    && forall i :: 0 < i < |bl| ==> next[bl[i - 1]] == bl[i]
  }

  /** A queue in the blocks bl: the first character is in the first of them and the last one in the last. */
  ghost predicate QueueOk(q: Clist, bl: seq<int>) {
    if bl == [] then q == EMPTY
    else
      && q.cc > 0
      && var off := q.cf - Info(bl[0]);
      && 0 <= off < CBSIZE && CBSIZE * (|bl| - 1) < off + q.cc <= CBSIZE * |bl|
      && q.cl == Info(bl[|bl| - 1]) + off + q.cc - CBSIZE * (|bl| - 1)
  }

  ghost predicate FreeOk(next: seq<int>, head: int, free: seq<int>) {
    && Chain(next, free)
    && head == (if free == [] then 0 else free[0])
    && (free != [] ==> next[free[|free| - 1]] == 0)
  }

  /** The blocks of a list are those whose home it is, each once. */
  ghost predicate Housed(bl: seq<int>, home: seq<int>, h: int) {
    && (forall i, j :: 0 <= i < j < |bl| ==> bl[i] != bl[j])
    && forall x :: x in bl <==> 0 < x < |home| && home[x] == h
  }

  /**
   * The links: every block is either in the free list or in the list of one queue,
   * exactly once, and the links join the lists up.
   */
  ghost predicate PoolOk(next: seq<int>, head: int, free: seq<int>, lists: seq<seq<int>>, home: seq<int>) {
    && |home| == |next|
    && FreeOk(next, head, free) && Housed(free, home, -1)
    && (forall k :: 0 <= k < |lists| ==> Chain(next, lists[k]) && Housed(lists[k], home, k))
    && forall x :: 0 < x < |home| ==> -1 <= home[x] < |lists|
  }

  lemma ChainFrame(next: seq<int>, next': seq<int>, bl: seq<int>)
    requires Chain(next, bl) && |next'| == |next|
    requires forall i :: 0 <= i < |bl| - 1 ==> next'[bl[i]] == next[bl[i]]
    ensures Chain(next', bl)
  {
    forall i | 0 < i < |bl|
      ensures next'[bl[i - 1]] == bl[i]
    {
      var j := i - 1;
      assert next'[bl[j]] == next[bl[j]];
    }
  }

  /** The first free block goes to the end of list k. */
  lemma GrowPool(next: seq<int>, head: int, free: seq<int>, lists: seq<seq<int>>, home: seq<int>, k: nat,
                 next': seq<int>)
    requires PoolOk(next, head, free, lists, home) && k < |lists| && free != []
    requires next' == (if lists[k] == [] then next else next[lists[k][|lists[k]| - 1] := head])[head := 0]
    ensures PoolOk(next', next[head], free[1..], lists[k := lists[k] + [head]], home[head := k])
  {
    var lists', home' := lists[k := lists[k] + [head]], home[head := k];
    assert head == free[0] && head in free && home[head] == -1;
    assert |free| > 1 ==> next[free[0]] == free[1];
    forall j | 0 <= j < |lists|
      ensures Chain(next', lists'[j]) && Housed(lists'[j], home', j)
    {
      assert Housed(lists[j], home, j) && Chain(next, lists[j]);
      GrowHoused(lists[j], home, j, head, k);
      GrowChain(next, lists[j], next', head, j == k, lists[k], home, j, k);
    }
    assert FreeOk(next', next[head], free[1..]) && Housed(free[1..], home', -1) by {
      GrowFree(next, head, free, lists[k], home, k, next');
    }
  }

  lemma GrowHoused(bl: seq<int>, home: seq<int>, j: int, b: int, k: int)
    requires Housed(bl, home, j) && 0 < b < |home| && home[b] == -1 && j != -1 && k != -1
    ensures Housed(if j == k then bl + [b] else bl, home[b := k], j)
  {
    assert b !in bl;
  }

  lemma GrowChain(next: seq<int>, bl: seq<int>, next': seq<int>, b: int, same: bool, target: seq<int>, home: seq<int>,
                  j: int, k: int)
    requires Chain(next, bl) && 0 < b < |next| == |home| && home[b] == -1 && j >= 0 && k >= 0
    requires Housed(bl, home, j) && Housed(target, home, k) && same == (j == k) && (same ==> bl == target)
    requires forall i :: 0 <= i < |target| ==> 0 < target[i] < |next|
    requires next' == (if target == [] then next else next[target[|target| - 1] := b])[b := 0]
    ensures Chain(next', if same then bl + [b] else bl)
  {
    assert b !in bl && b !in target;
    if target != [] {
      var l := target[|target| - 1];
      assert l in target;
      assert !same ==> l !in bl;
    }
    ChainFrame(next, next', bl);
    if same {
      var t := bl + [b];
      forall i | 0 < i < |t|
        ensures next'[t[i - 1]] == t[i]
      {
        assert i < |bl| ==> next'[bl[i - 1]] == bl[i];
      }
    }
  }

  lemma GrowFree(next: seq<int>, head: int, free: seq<int>, target: seq<int>, home: seq<int>, k: int, next': seq<int>)
    requires FreeOk(next, head, free) && Housed(free, home, -1) && free != [] && |next| == |home|
    requires Housed(target, home, k) && k >= 0
    requires forall i :: 0 <= i < |target| ==> 0 < target[i] < |next|
    requires next' == (if target == [] then next else next[target[|target| - 1] := head])[head := 0]
    ensures FreeOk(next', next[head], free[1..]) && Housed(free[1..], home[head := k], -1)
  {
    var rest := free[1..];
    assert head == free[0] && |free| > 1 ==> next[free[0]] == free[1];
    forall i | 0 <= i < |rest|
      ensures next'[rest[i]] == next[rest[i]]
    {
      assert rest[i] == free[i + 1] && free[i + 1] in free && free[0] != free[i + 1];
      assert target != [] ==> target[|target| - 1] in target;
    }
    forall i | 0 < i < |rest|
      ensures next[rest[i - 1]] == rest[i]
    {
      assert next[free[i + 1 - 1]] == free[i + 1];
    }
    ChainFrame(next, next', rest);
    assert |free| > 1 ==> rest[|rest| - 1] == free[|free| - 1];
    forall x
      ensures x in rest <==> x in free && x != head
    {
      assert free == [head] + rest;
    }
  }

  /** The first block of list k goes to the front of the free list. */
  lemma ShrinkPool(next: seq<int>, head: int, free: seq<int>, lists: seq<seq<int>>, home: seq<int>, k: nat)
    requires PoolOk(next, head, free, lists, home) && k < |lists| && lists[k] != []
    ensures var b := lists[k][0];
            0 < b < |next| == |home| && PoolOk(next[b := head], b, [b] + free, lists[k := lists[k][1..]], home[b := -1])
  {
    var b := lists[k][0];
    assert Housed(lists[k], home, k) && Chain(next, lists[k]) && b in lists[k];
    var lists', home', next' := lists[k := lists[k][1..]], home[b := -1], next[b := head];
    forall j | 0 <= j < |lists|
      ensures Chain(next', lists'[j]) && Housed(lists'[j], home', j)
    {
      assert Housed(lists[j], home, j) && Chain(next, lists[j]);
      ShrinkList(next, lists[j], home, j, b, k, head);
    }
    assert FreeOk(next', b, [b] + free) && Housed([b] + free, home', -1) by {
      assert b !in free;
      ChainFrame(next, next', free);
      var f := [b] + free;
      forall i | 0 < i < |f|
        ensures next'[f[i - 1]] == f[i]
      {
        assert i > 1 ==> next'[free[i - 1 - 1]] == free[i - 1];
      }
    }
  }

  lemma ShrinkList(next: seq<int>, bl: seq<int>, home: seq<int>, j: int, b: int, k: int, head: int)
    requires Chain(next, bl) && Housed(bl, home, j) && j >= 0 && k >= 0
    requires 0 < b < |home| == |next| && home[b] == k && (j == k ==> bl != [] && b == bl[0])
    ensures var bl' := if j == k then bl[1..] else bl;
            Chain(next[b := head], bl') && Housed(bl', home[b := -1], j)
  {
    var next' := next[b := head];
    if j == k {
      ShrinkMembers(bl, b);
      ShrinkChain(next, bl, head);
    } else {
      assert b !in bl;
      ChainFrame(next, next', bl);
    }
  }

  lemma ShrinkMembers(bl: seq<int>, b: int)
    requires bl != [] && b == bl[0] && Distinct(bl)
    ensures Distinct(bl[1..])
    ensures forall x :: x in bl[1..] <==> x in bl && x != b
  {
    assert bl == [b] + bl[1..];
  }

  lemma ShrinkChain(next: seq<int>, bl: seq<int>, head: int)
    requires Chain(next, bl) && bl != [] && Distinct(bl)
    ensures Chain(next[bl[0] := head], bl[1..])
  {
    var rest := bl[1..];
    forall i | 0 < i < |rest|
      ensures next[bl[0] := head][rest[i - 1]] == rest[i]
    {
      assert next[bl[i + 1 - 1]] == bl[i + 1];
    }
  }

  // ---------------------------------------------------------------------------
  // The characters.

  /** The blocks of bl have their characters inside memory. */
  ghost predicate Inside(bl: seq<int>, size: nat) {
    forall i :: 0 <= i < |bl| ==> 0 < bl[i] && Info(bl[i]) + CBSIZE <= size
  }

  /** The characters of one block. */
  function Piece(chars: seq<byte>, b: int): (s: seq<byte>)
    requires 0 <= Info(b) && Info(b) + CBSIZE <= |chars|
    ensures |s| == CBSIZE
  {
    chars[Info(b)..Info(b) + CBSIZE]
  }

  /** Writing in another block, and in this one. */
  lemma PieceUpdate(chars: seq<byte>, b: int, a: int, c: byte)
    requires 0 < b && Info(b) + CBSIZE <= |chars| && 0 <= a < |chars|
    ensures a / BLOCK != b ==> Piece(chars[a := c], b) == Piece(chars, b)
    ensures Info(b) <= a < Info(b) + CBSIZE ==> Piece(chars[a := c], b) == Piece(chars, b)[a - Info(b) := c]
  {
    assert Info(b) == BLOCK * b + 4;
    if a / BLOCK != b {
      assert !(BLOCK * b <= a < BLOCK * b + BLOCK);
    }
  }

  /** All characters of some blocks, used or not. */
  ghost function Spread(chars: seq<byte>, bl: seq<int>): (s: seq<byte>)
    requires Inside(bl, |chars|)
    ensures |s| == CBSIZE * |bl|
  {
    if bl == [] then [] else Piece(chars, bl[0]) + Spread(chars, bl[1..])
  }

  /** The characters of a queue, first to last. */
  ghost function Text(chars: seq<byte>, q: Clist, bl: seq<int>): (s: seq<byte>)
    requires QueueOk(q, bl) && Inside(bl, |chars|)
    ensures |s| == q.cc
  {
    if bl == [] then [] else Spread(chars, bl)[q.cf - Info(bl[0])..q.cf - Info(bl[0]) + q.cc]
  }

  lemma TextOf(chars: seq<byte>, q: Clist, bl: seq<int>)
    requires QueueOk(q, bl) && Inside(bl, |chars|) && bl != []
    ensures Text(chars, q, bl) == Spread(chars, bl)[q.cf - Info(bl[0])..q.cf - Info(bl[0]) + q.cc]
  {
  }

  /** Whether getc releases the first block: its last character is gone, or the last of all. */
  predicate Releases(q: Clist) {
    q.cc <= 1 || (q.cf + 1) % BLOCK == 0
  }

  /** Where the pointers are when a character has been taken and the block released, next2 being the block after it. */
  function Rest(q: Clist, next2: int): Clist {
    if q.cc <= 1 then EMPTY
    else Clist(q.cc - 1, if Releases(q) then Info(next2) else q.cf + 1, q.cl)
  }

  lemma GetBlock(q: Clist, bl: seq<int>)
    requires QueueOk(q, bl) && bl != []
    ensures q.cf / BLOCK == bl[0] && ((q.cf + 1) % BLOCK == 0 <==> q.cf - Info(bl[0]) == CBSIZE - 1)
    ensures (q.cf + 1) % BLOCK == 0 ==> (q.cf + 1) / BLOCK - 1 == bl[0]
    ensures Releases(q) && q.cc > 1 ==> |bl| > 1
    ensures q.cc <= 1 ==> |bl| == 1
    ensures QueueOk(Rest(q, if |bl| > 1 then bl[1] else 0), if Releases(q) then bl[1..] else bl)
  {
    var off := q.cf - Info(bl[0]);
    assert q.cf == BLOCK * bl[0] + (4 + off);
  }

  lemma GetText(chars: seq<byte>, q: Clist, bl: seq<int>)
    requires QueueOk(q, bl) && Inside(bl, |chars|) && bl != []
    ensures 0 <= q.cf < |chars| && Text(chars, q, bl)[0] == chars[q.cf]
    ensures var q' := Rest(q, if |bl| > 1 then bl[1] else 0);
            var bl' := if Releases(q) then bl[1..] else bl;
            QueueOk(q', bl') && Inside(bl', |chars|) && Text(chars, q', bl') == Text(chars, q, bl)[1..]
  {
    hide Spread, Text;
    GetBlock(q, bl);
    FirstPiece(chars, bl);
    TextOf(chars, q, bl);
    var off, s := q.cf - Info(bl[0]), Spread(chars, bl);
    assert s[off] == Piece(chars, bl[0])[off] == chars[q.cf];
    assert s[CBSIZE..] == Spread(chars, bl[1..]);
    SliceTail(s, off, q.cc, CBSIZE);
    if q.cc > 1 {
      TextOf(chars, Rest(q, if |bl| > 1 then bl[1] else 0), if Releases(q) then bl[1..] else bl);
    }
  }

  lemma SliceTail(s: seq<byte>, off: nat, n: nat, drop: nat)
    requires 0 < n && off + n <= |s|
    ensures s[off..off + n][1..] == s[off + 1..off + n]
    ensures off + 1 == drop ==> s[drop..][0..n - 1] == s[off..off + n][1..]
  {
  }

  /** A character put in a block of no other queue changes no other text. */
  lemma {:induction false} OtherSpread(chars: seq<byte>, bl: seq<int>, a: int, c: byte)
    requires Inside(bl, |chars|) && 0 <= a < |chars| && a / BLOCK !in bl
    ensures Spread(chars[a := c], bl) == Spread(chars, bl)
  {
    hide Piece;
    if bl != [] {
      assert bl[0] in bl;
      PieceUpdate(chars, bl[0], a, c);
      OtherSpread(chars, bl[1..], a, c);
    }
  }

  /** A character put in the last of some different blocks. */
  lemma {:induction false} LastSpread(chars: seq<byte>, bl: seq<int>, r: nat, c: byte)
    requires Inside(bl, |chars|) && bl != [] && r < CBSIZE && forall i, j :: 0 <= i < j < |bl| ==> bl[i] != bl[j]
    ensures Spread(chars[Info(bl[|bl| - 1]) + r := c], bl) == Spread(chars, bl)[CBSIZE * (|bl| - 1) + r := c]
  {
    hide Piece, Spread;
    var last := bl[|bl| - 1];
    var a := Info(last) + r;
    PieceUpdate(chars, bl[0], a, c);
    FirstPiece(chars, bl);
    FirstPiece(chars[a := c], bl);
    if |bl| > 1 {
      assert a == BLOCK * last + (4 + r) && bl[1..][|bl| - 2] == last;
      LastSpread(chars, bl[1..], r, c);
      UpdateBehind(Piece(chars, bl[0]), Spread(chars, bl[1..]), CBSIZE * (|bl| - 2) + r, c);
    }
  }

  lemma FirstPiece(chars: seq<byte>, bl: seq<int>)
    requires Inside(bl, |chars|) && bl != []
    ensures Inside(bl[1..], |chars|) && Spread(chars, bl) == Piece(chars, bl[0]) + Spread(chars, bl[1..])
    ensures |bl| == 1 ==> Spread(chars, bl) == Piece(chars, bl[0])
  {
    hide Piece;
    assert |bl| == 1 ==> Spread(chars, bl[1..]) == [];
  }

  lemma UpdateBehind(p: seq<byte>, s: seq<byte>, i: nat, c: byte)
    requires i < |s|
    ensures (p + s)[|p| + i := c] == p + s[i := c]
  {
  }

  lemma {:induction false} SpreadAppend(chars: seq<byte>, bl: seq<int>, b: int)
    requires Inside(bl, |chars|) && 0 < b && Info(b) + CBSIZE <= |chars|
    ensures Inside(bl + [b], |chars|) && Spread(chars, bl + [b]) == Spread(chars, bl) + Piece(chars, b)
  {
    hide Piece, Spread;
    FirstPiece(chars, bl + [b]);
    if bl == [] {
      assert Spread(chars, bl) == [] && bl + [b] == [b];
    } else {
      assert (bl + [b])[1..] == bl[1..] + [b];
      FirstPiece(chars, bl);
      SpreadAppend(chars, bl[1..], b);
    }
  }

  /** Where the next character goes: the place after the last, or a new block when that is outside a block. */
  lemma PutPlace(q: Clist, bl: seq<int>)
    requires QueueOk(q, bl) && bl != []
    ensures q.cl % BLOCK == 0 <==> q.cf - Info(bl[0]) + q.cc == CBSIZE * |bl|
    ensures q.cl % BLOCK == 0 ==> q.cl / BLOCK - 1 == bl[|bl| - 1]
    ensures q.cl % BLOCK != 0 ==> q.cl / BLOCK == bl[|bl| - 1]
  {
    var r := q.cf - Info(bl[0]) + q.cc - CBSIZE * (|bl| - 1);
    assert q.cl == BLOCK * bl[|bl| - 1] + (4 + r);
  }

  lemma SliceUpdate(s: seq<byte>, off: nat, n: nat, c: byte)
    requires off + n < |s|
    ensures s[off + n := c][off..off + n + 1] == s[off..off + n] + [c]
  {
  }

  lemma SliceAppend(s: seq<byte>, off: nat, n: nat, w: seq<byte>)
    requires off + n == |s| && w != []
    ensures (s + w)[off..off + n + 1] == s[off..off + n] + [w[0]]
  {
  }

  /** A character put behind the last one. */
  lemma PutText(chars: seq<byte>, q: Clist, bl: seq<int>, c: byte)
    requires QueueOk(q, bl) && Inside(bl, |chars|) && bl != [] && q.cl % BLOCK != 0
    requires forall i, j :: 0 <= i < j < |bl| ==> bl[i] != bl[j]
    ensures 0 <= q.cl < |chars|
    ensures var q' := Clist(q.cc + 1, q.cf, q.cl + 1);
            QueueOk(q', bl) && Text(chars[q.cl := c], q', bl) == Text(chars, q, bl) + [c]
  {
    hide Spread, Text;
    PutPlace(q, bl);
    var off, r := q.cf - Info(bl[0]), q.cl - Info(bl[|bl| - 1]);
    assert CBSIZE * (|bl| - 1) + r == off + q.cc && r < CBSIZE;
    LastSpread(chars, bl, r, c);
    var s, chars' := Spread(chars, bl), chars[q.cl := c];
    assert Spread(chars', bl) == s[off + q.cc := c];
    SliceUpdate(s, off, q.cc, c);
    TextOf(chars', Clist(q.cc + 1, q.cf, q.cl + 1), bl);
    TextOf(chars, q, bl);
  }

  /** The blocks after a character has gone into a new one. */
  lemma NewSpread(chars: seq<byte>, bl: seq<int>, b: int, c: byte)
    requires Inside(bl, |chars|) && 0 < b && Info(b) + CBSIZE <= |chars| && b !in bl
    ensures Inside(bl + [b], |chars|)
    ensures Spread(chars[Info(b) := c], bl + [b]) == Spread(chars, bl) + Piece(chars[Info(b) := c], b)
    ensures Piece(chars[Info(b) := c], b)[0] == c
  {
    hide Spread;
    SpreadAppend(chars[Info(b) := c], bl, b);
    assert Info(b) == BLOCK * b + 4;
    OtherSpread(chars, bl, Info(b), c);
  }

  /** Where the queue is when its next character has gone into block b. */
  function InNew(q: Clist, bl: seq<int>, b: int): Clist {
    Clist(q.cc + 1, if bl == [] then Info(b) else q.cf, Info(b) + 1)
  }

  lemma InNewOk(q: Clist, bl: seq<int>, b: int, free: seq<int>)
    requires QueueOk(q, bl) && 0 < b && (bl == [] || q.cl % BLOCK == 0)
    ensures QueueOk(InNew(q, bl, b), bl + [b])
    ensures free != [] ==> Room(InNew(q, bl, b), bl + [b], free[1..]) == Room(q, bl, free) - 1
  {
    if bl != [] {
      PutPlace(q, bl);
      assert (bl + [b])[0] == bl[0];
    }
  }

  lemma NothingSpread(chars: seq<byte>, q: Clist)
    requires QueueOk(q, [])
    ensures Inside([], |chars|) && Spread(chars, []) == [] && Text(chars, q, []) == []
  {
  }

  /** A character put into a new block, behind a full one or in an empty queue. */
  lemma PutNewText(chars: seq<byte>, q: Clist, bl: seq<int>, b: int, c: byte)
    requires QueueOk(q, bl) && Inside(bl, |chars|) && 0 < b && Info(b) + CBSIZE <= |chars| && b !in bl
    requires bl == [] || q.cl % BLOCK == 0
    ensures QueueOk(InNew(q, bl, b), bl + [b]) && Inside(bl + [b], |chars|)
    ensures Text(chars[Info(b) := c], InNew(q, bl, b), bl + [b]) == Text(chars, q, bl) + [c]
  {
    hide Spread, Text, Piece, Inside;
    InNewOk(q, bl, b, []);
    NewSpread(chars, bl, b, c);
    var chars' := chars[Info(b) := c];
    var w := Piece(chars', b);
    TextOf(chars', InNew(q, bl, b), bl + [b]);
    if bl != [] {
      TextOf(chars, q, bl);
      PutPlace(q, bl);
      assert (bl + [b])[0] == bl[0];
      SliceAppend(Spread(chars, bl), q.cf - Info(bl[0]), q.cc, w);
    } else {
      NothingSpread(chars, q);
      assert (bl + [b])[0] == b;
      SliceAppend([], 0, 0, w);
    }
  }

  /** Characters that fit behind the last one, in its block and the free ones. */
  function Room(q: Clist, bl: seq<int>, free: seq<int>): int {
    CBSIZE * |free| + if bl == [] then 0 else CBSIZE * |bl| - (q.cf - Info(bl[0])) - q.cc
  }

  ghost predicate QueuesOk(queues: seq<Clist>, lists: seq<seq<int>>, size: nat) {
    |queues| == |lists| && forall k :: 0 <= k < |queues| ==> QueueOk(queues[k], lists[k]) && Inside(lists[k], size)
  }

  /** The contents of every queue. */
  ghost function Texts(chars: seq<byte>, queues: seq<Clist>, lists: seq<seq<int>>): (r: seq<seq<byte>>)
    requires QueuesOk(queues, lists, |chars|)
    ensures |r| == |queues|
  {
    seq(|queues|, k requires 0 <= k < |queues| => Text(chars, queues[k], lists[k]))
  }

  /** Contents with s added to queue k. */
  function Plus(all: seq<seq<byte>>, k: nat, s: seq<byte>): seq<seq<byte>>
    requires k < |all|
  {
    all[k := all[k] + s]
  }

  /** getc on queue k: its first character goes, and nothing else changes. */
  lemma GetTexts(chars: seq<byte>, queues: seq<Clist>, lists: seq<seq<int>>, k: nat)
    requires QueuesOk(queues, lists, |chars|) && k < |queues| && lists[k] != []
    ensures var q, bl := queues[k], lists[k];
            var queues' := queues[k := Rest(q, if |bl| > 1 then bl[1] else 0)];
            var lists' := lists[k := if Releases(q) then bl[1..] else bl];
            && 0 <= q.cf < |chars| && Texts(chars, queues, lists)[k] != []
            && Texts(chars, queues, lists)[k][0] == chars[q.cf]
            && QueuesOk(queues', lists', |chars|)
            && Texts(chars, queues', lists') == Texts(chars, queues, lists)[k := Texts(chars, queues, lists)[k][1..]]
  {
    hide Text, QueueOk, Inside;
    assert QueueOk(queues[k], lists[k]) && Inside(lists[k], |chars|);
    GetText(chars, queues[k], lists[k]);
    NotEmpty(queues[k], lists[k], |chars|);
  }

  lemma NotEmpty(q: Clist, bl: seq<int>, size: nat)
    requires QueueOk(q, bl) && Inside(bl, size)
    ensures (q.cc > 0 <==> bl != []) && (q.cl == 0 <==> bl == [])
  {
    if bl != [] {
      assert q.cl > Info(bl[|bl| - 1]);
    }
  }

  /** putc on queue k, into the block where the last character is. */
  lemma PutTexts(next: seq<int>, chars: seq<byte>, head: int, free: seq<int>, queues: seq<Clist>, lists: seq<seq<int>>,
                 home: seq<int>,
                 k: nat, c: byte)
    requires QueuesOk(queues, lists, |chars|) && k < |queues| && lists[k] != [] && queues[k].cl % BLOCK != 0
    requires PoolOk(next, head, free, lists, home) && |chars| == BLOCK * |next|
    ensures var q := queues[k];
            var queues' := queues[k := Clist(q.cc + 1, q.cf, q.cl + 1)];
            && 0 <= q.cl < |chars| && QueuesOk(queues', lists, |chars|)
            && Texts(chars[q.cl := c], queues', lists) == Plus(Texts(chars, queues, lists), k, [c])
  {
    hide Text, QueueOk, Inside;
    var q := queues[k];
    assert QueueOk(q, lists[k]) && Inside(lists[k], |chars|) && Housed(lists[k], home, k);
    PutPlace(q, lists[k]);
    PutText(chars, q, lists[k], c);
    assert q.cl / BLOCK in lists[k];
    forall j | 0 <= j < |queues| && j != k
      ensures Text(chars[q.cl := c], queues[j], lists[j]) == Text(chars, queues[j], lists[j])
    {
      assert QueueOk(queues[j], lists[j]) && Inside(lists[j], |chars|) && Housed(lists[j], home, j);
      OtherText(chars, queues[j], lists[j], q.cl, c);
    }
  }

  lemma OtherText(chars: seq<byte>, q: Clist, bl: seq<int>, a: int, c: byte)
    requires QueueOk(q, bl) && Inside(bl, |chars|) && 0 <= a < |chars| && a / BLOCK !in bl
    ensures Text(chars[a := c], q, bl) == Text(chars, q, bl)
  {
    OtherSpread(chars, bl, a, c);
  }

  /** putc on queue k, into the first block of the free list. */
  lemma PutNewTexts(next: seq<int>, chars: seq<byte>, b: int, free: seq<int>, queues: seq<Clist>, lists: seq<seq<int>>,
                    home: seq<int>,
                    k: nat, c: byte)
    requires QueuesOk(queues, lists, |chars|) && k < |queues| && (lists[k] == [] || queues[k].cl % BLOCK == 0)
    requires PoolOk(next, b, free, lists, home) && |chars| == BLOCK * |next| && free != []
    ensures 0 < b && Info(b) + CBSIZE <= |chars|
    ensures Room(InNew(queues[k], lists[k], b), lists[k] + [b], free[1..]) == Room(queues[k], lists[k], free) - 1
    ensures |lists| == |queues| && (lists[k] == [] || lists[k][|lists[k]| - 1] != 0)
    ensures var q := queues[k];
            var queues' := queues[k := InNew(q, lists[k], b)];
            var lists' := lists[k := lists[k] + [b]];
            && QueuesOk(queues', lists', |chars|)
            && Texts(chars[Info(b) := c], queues', lists') == Plus(Texts(chars, queues, lists), k, [c])
  {
    hide Text, QueueOk, Inside;
    FirstFree(next, b, free, lists, home, k);
    assert QueueOk(queues[k], lists[k]) && Inside(lists[k], |chars|) && Housed(lists[k], home, k);
    InNewOk(queues[k], lists[k], b, free);
    PutNewText(chars, queues[k], lists[k], b, c);
    forall j | 0 <= j < |queues| && j != k
      ensures Text(chars[Info(b) := c], queues[j], lists[j]) == Text(chars, queues[j], lists[j])
    {
      assert QueueOk(queues[j], lists[j]) && Inside(lists[j], |chars|) && Housed(lists[j], home, j);
      OtherText(chars, queues[j], lists[j], Info(b), c);
    }
  }

  class Pool {
    const next: array<int>      // c_next of each block; block 0 does not exist
    const chars: array<byte>    // memory, by address
    const queues: array<Clist>
    var cfreelist: int
    ghost var free: seq<int>
    ghost var lists: seq<seq<int>>    // the blocks of each queue
    ghost var home: seq<int>          // the queue of each block, -1 for the free list

    ghost predicate Valid()
      reads this, next, queues
    {
      && chars.Length == BLOCK * next.Length
      && PoolOk(next[..], cfreelist, free, lists, home)
      && QueuesOk(queues[..], lists, chars.Length)
    }

    /** cinit: every block on the free list, the last one first, and empty queues. */
    constructor (blocks: nat, clists: nat)
      ensures Valid() && fresh(next) && fresh(chars) && fresh(queues) && queues.Length == clists
              && next.Length == blocks + 1
      ensures |free| == blocks && forall k :: 0 <= k < clists ==> All()[k] == []
    {
      next := new int[blocks + 1](_ => 0);
      chars := new byte[BLOCK * (blocks + 1)](_ => 0);
      queues := new Clist[clists](_ => EMPTY);
      cfreelist := 0;
      lists := seq(clists, _ => []);
      free := seq(blocks, i => blocks - i);
      home := seq(blocks + 1, _ => -1);
      new;
      for cp := 1 to blocks + 1
        invariant cfreelist == cp - 1 && forall b :: 1 <= b < cp ==> next[b] == b - 1
        modifies this`cfreelist, next
      {
        next[cp] := cfreelist;
        cfreelist := cp;
      }
      AllBlocksFree(next[..], free, home, blocks);
      assert Texts(chars[..], queues[..], lists) == seq(clists, _ => []);
    }

    /** What the queues hold. */
    ghost function All(): seq<seq<byte>>
      requires Valid()
      reads this, next, chars, queues
    {
      Texts(chars[..], queues[..], lists)
    }

    /** Characters that can still be added to queue k. */
    ghost function RoomFor(k: nat): int
      requires Valid() && k < queues.Length
      reads this, next, queues
    {
      Room(queues[k], lists[k], free)
    }

    /** bp->c_next = cfreelist; cfreelist = bp, for the first block of queue k. */
    method FreeBlock(k: nat, bp: int)
      requires PoolOk(next[..], cfreelist, free, lists, home) && k < |lists| && lists[k] != [] && bp == lists[k][0]
      modifies next, this`cfreelist, this`free, this`lists, this`home
      ensures PoolOk(next[..], cfreelist, free, lists, home)
      ensures lists == old(lists)[k := old(lists)[k][1..]] && free == [bp] + old(free) && 0 < bp < next.Length
    {
      hide PoolOk;
      ShrinkPool(next[..], cfreelist, free, lists, home, k);
      ghost var n := next[..];
      next[bp] := cfreelist;
      assert next[..] == n[bp := cfreelist];
      cfreelist := bp;
      free, lists, home := [bp] + free, lists[k := lists[k][1..]], home[bp := -1];
    }

    /** Takes the first character of a queue that has one, and releases the block with its last character. */
    method TakeFirst(k: nat) returns (c: byte)
      requires Valid() && k < queues.Length && queues[k].cc > 0
      modifies next, queues, this`cfreelist, this`free, this`lists, this`home
      ensures Valid() && old(All())[k] != [] && c == old(All())[k][0]
      ensures All() == old(All())[k := old(All())[k][1..]]
    {
      hide PoolOk, QueuesOk, Texts;
      QueueAt(next[..], chars[..], cfreelist, free, queues[..], lists, home, k);
      var q := queues[k];
      GetTexts(chars[..], queues[..], lists, k);
      GetBlock(q, lists[k]);
      c := chars[q.cf];
      ghost var next2 := if |lists[k]| > 1 then lists[k][1] else 0;
      ghost var qs := queues[..];
      q := Clist(q.cc - 1, q.cf + 1, q.cl);
      if q.cc <= 0 {
        var bp := (q.cf - 1) / BLOCK;
        q := EMPTY;
        FreeBlock(k, bp);
      } else if q.cf % BLOCK == 0 {
        var bp := q.cf / BLOCK - 1;
        q := q.(cf := Info(next[bp]));
        FreeBlock(k, bp);
      }
      queues[k] := q;
      assert queues[..] == qs[k := Rest(qs[k], next2)];
      assert lists == old(lists)[k := if Releases(qs[k]) then old(lists)[k][1..] else old(lists)[k]];
    }

    /** c_cc = 0; c_cf = c_cl = NULL, for a queue found empty. */
    method Clear(k: nat)
      requires Valid() && k < queues.Length && queues[k].cc <= 0
      modifies queues
      ensures Valid() && All() == old(All()) && All()[k] == []
    {
      hide PoolOk, QueuesOk, Texts;
      QueueAt(next[..], chars[..], cfreelist, free, queues[..], lists, home, k);
      queues[k] := EMPTY;
      assert queues[..] == old(queues[..]);
    }

    /** The first character of queue k, or -1. */
    method Getc(k: nat) returns (c: int)
      requires Valid() && k < queues.Length
      modifies next, queues, this`cfreelist, this`free, this`lists, this`home
      ensures Valid()
      ensures c == if old(All())[k] == [] then -1 else old(All())[k][0]
      ensures All() == if old(All())[k] == [] then old(All()) else old(All())[k := old(All())[k][1..]]
    {
      hide PoolOk, QueuesOk, Texts;
      if queues[k].cc <= 0 {
        Clear(k);
        return -1;
      }
      c := TakeFirst(k);
    }

    /** Up to cc characters from the front of queue k. */
    method QToB(k: nat, cc: int) returns (cp: seq<byte>)
      requires Valid() && k < queues.Length
      modifies next, queues, this`cfreelist, this`free, this`lists, this`home
      ensures Valid() && |cp| == if cc <= 0 then 0 else if cc < |old(All())[k]| then cc else |old(All())[k]|
      ensures cp == old(All())[k][..|cp|] && All() == old(All())[k := old(All())[k][|cp|..]]
    {
      hide PoolOk, QueuesOk, Texts;
      cp := [];
      ghost var all := All();
      assert all[k][0..] == all[k];
      if cc <= 0 {
        return;
      }
      Lengths(next[..], chars[..], cfreelist, free, queues[..], lists, home, k);
      if queues[k].cc <= 0 {
        Clear(k);
        return;
      }
      var left := cc;
      while left > 0
        invariant Valid() && |cp| == cc - left && left >= 0 && |all[k]| - |cp| == queues[k].cc > 0
        invariant cp == all[k][..|cp|] && All() == all[k := all[k][|cp|..]]
      {
        var c := TakeFirst(k);
        assert all[k][|cp|..][0] == all[k][|cp|] && all[k][|cp|..][1..] == all[k][|cp| + 1..];
        cp := cp + [c];
        left := left - 1;
        Lengths(next[..], chars[..], cfreelist, free, queues[..], lists, home, k);
        if queues[k].cc <= 0 {
          break;
        }
      }
    }

    /** The first free block goes behind block last of queue k, or, with last 0, into an empty queue. */
    method TakeBlock(k: nat, last: int)
      requires PoolOk(next[..], cfreelist, free, lists, home) && k < |lists| && free != []
      requires last == if lists[k] == [] then 0 else lists[k][|lists[k]| - 1]
      modifies next, this`cfreelist, this`free, this`lists, this`home
      ensures PoolOk(next[..], cfreelist, free, lists, home) && free == old(free)[1..]
      ensures lists == old(lists)[k := old(lists)[k] + [old(cfreelist)]]
    {
      ghost var n := next[..];
      FirstFree(n, cfreelist, free, lists, home, k);
      hide PoolOk;
      var bp := cfreelist;
      ghost var n' := (if lists[k] == [] then n else n[last := bp])[bp := 0];
      GrowPool(n, cfreelist, free, lists, home, k, n');
      if last != 0 {
        next[last] := bp;
      }
      cfreelist := next[bp];
      next[bp] := 0;
      assert next[..] == n';
      free, lists, home := free[1..], lists[k := lists[k] + [bp]], home[bp := k];
    }

    /** Adds a character to queue k. It fails, with -1, exactly when its block is full and no block is free. */
    method Putc(c: int, k: nat) returns (r: int)
      requires Valid() && k < queues.Length
      modifies next, chars, queues, this`cfreelist, this`free, this`lists, this`home
      ensures Valid()
      ensures r == if old(RoomFor(k)) == 0 then -1 else 0
      ensures All() == if r == -1 then old(All()) else Plus(old(All()), k, [Low(c)])
      ensures RoomFor(k) == old(RoomFor(k)) - (if r == -1 then 0 else 1)
    {
      hide PoolOk, QueuesOk, Texts;
      QueueAt(next[..], chars[..], cfreelist, free, queues[..], lists, home, k);
      FreeAt(next[..], cfreelist, free, lists, home);
      var q := queues[k];
      if q.cl == 0 || q.cc < 0 {
        if cfreelist == 0 {
          return -1;
        }
        PutInNew(k, 0, c);
      } else {
        PutPlace(q, lists[k]);
        if q.cl % BLOCK == 0 {
          var last := q.cl / BLOCK - 1;
          if cfreelist == 0 {
            Unlink(k, last);
            return -1;
          }
          PutInNew(k, last, c);
        } else {
          PutBehind(k, c);
        }
      }
      r := 0;
    }

    /** A character that fits in the last block. */
    method PutBehind(k: nat, c: int)
      requires Valid() && k < queues.Length && lists[k] != [] && queues[k].cl % BLOCK != 0
      modifies chars, queues
      ensures Valid() && All() == Plus(old(All()), k, [Low(c)])
      ensures RoomFor(k) == old(RoomFor(k)) - 1
    {
      hide PoolOk, QueuesOk, Texts;
      var q := queues[k];
      PutTexts(next[..], chars[..], cfreelist, free, queues[..], lists, home, k, Low(c));
      Store(k, q, q.cl, Low(c));
    }

    /** *cp++ = c; p->c_cc++; p->c_cl = cp. */
    method Store(k: nat, q: Clist, cp: nat, c: byte)
      requires k < queues.Length && cp < chars.Length
      modifies chars, queues
      ensures chars[..] == old(chars[..])[cp := c]
      ensures queues[..] == old(queues[..])[k := Clist(q.cc + 1, q.cf, cp + 1)]
    {
      chars[cp] := c;
      queues[k] := Clist(q.cc + 1, q.cf, cp + 1);
    }

    /** A character that needs a new block. */
    method PutInNew(k: nat, last: int, c: int)
      requires Valid() && k < queues.Length && free != []
      requires last == if lists[k] == [] then 0 else lists[k][|lists[k]| - 1]
      requires lists[k] == [] || queues[k].cl % BLOCK == 0
      modifies next, chars, queues, this`cfreelist, this`free, this`lists, this`home
      ensures Valid() && All() == Plus(old(All()), k, [Low(c)])
      ensures RoomFor(k) == old(RoomFor(k)) - 1
    {
      hide PoolOk, QueuesOk, Texts, Room;
      var q, bp := queues[k], cfreelist;
      PutNewTexts(next[..], chars[..], bp, free, queues[..], lists, home, k, Low(c));
      TakeBlock(k, last);
      if last == 0 {
        q := q.(cf := Info(bp));
      }
      Store(k, q, Info(bp), Low(c));
    }

    /** One turn of the loop of b_to_q, with the first block of an empty queue taken in it. */
    method NextByte(c: byte, k: nat) returns (room: bool)
      requires Valid() && k < queues.Length
      modifies next, chars, queues, this`cfreelist, this`free, this`lists, this`home
      ensures Valid() && room == (old(RoomFor(k)) > 0)
      ensures All() == if room then Plus(old(All()), k, [c]) else old(All())
      ensures RoomFor(k) == if room then old(RoomFor(k)) - 1 else 0
    {
      hide PoolOk, QueuesOk, Texts;
      QueueAt(next[..], chars[..], cfreelist, free, queues[..], lists, home, k);
      FreeAt(next[..], cfreelist, free, lists, home);
      var cq := queues[k].cl;
      if cq == 0 {
        if cfreelist == 0 {
          return false;
        }
        PutInNew(k, 0, c);
      } else {
        PutPlace(queues[k], lists[k]);
        if cq % BLOCK == 0 {
          if cfreelist == 0 {
            Unlink(k, cq / BLOCK - 1);
            return false;
          }
          PutInNew(k, cq / BLOCK - 1, c);
        } else {
          PutBehind(k, c);
        }
      }
      room := true;
    }

    /** Adds characters to queue k up to the first that does not fit, and says how many were left. */
    method BToQ(cp: seq<byte>, k: nat) returns (left: nat)
      requires Valid() && k < queues.Length
      modifies next, chars, queues, this`cfreelist, this`free, this`lists, this`home
      ensures Valid() && left == if |cp| <= old(RoomFor(k)) then 0 else |cp| - old(RoomFor(k))
      ensures All() == Plus(old(All()), k, cp[..|cp| - left])
      ensures RoomFor(k) == old(RoomFor(k)) - (|cp| - left)
    {
      hide PoolOk, QueuesOk, Texts;
      ghost var all := All();
      assert all[k] + cp[..0] == all[k] && all[k := all[k]] == all;
      QueueAt(next[..], chars[..], cfreelist, free, queues[..], lists, home, k);
      left := |cp|;
      while left > 0
        invariant Valid() && left <= |cp| && RoomFor(k) == old(RoomFor(k)) - (|cp| - left) >= 0
        invariant All() == all[k := all[k] + cp[..|cp| - left]]
      {
        var c := cp[|cp| - left];
        var room := NextByte(c, k);
        if !room {
          return;
        }
        assert cp[..|cp| - left + 1] == cp[..|cp| - left] + [c];
        assert (all[k] + cp[..|cp| - left]) + [c] == all[k] + cp[..|cp| - left + 1];
        left := left - 1;
      }
    }

    /** Repeated putc, up to the first failure: the same as BToQ. */
    method PutEach(cp: seq<byte>, k: nat) returns (left: nat)
      requires Valid() && k < queues.Length
      modifies next, chars, queues, this`cfreelist, this`free, this`lists, this`home
      ensures Valid() && left == if |cp| <= old(RoomFor(k)) then 0 else |cp| - old(RoomFor(k))
      ensures All() == Plus(old(All()), k, cp[..|cp| - left])
      ensures RoomFor(k) == old(RoomFor(k)) - (|cp| - left)
    {
      hide PoolOk, QueuesOk, Texts;
      ghost var all := All();
      assert all[k] + cp[..0] == all[k] && all[k := all[k]] == all;
      QueueAt(next[..], chars[..], cfreelist, free, queues[..], lists, home, k);
      left := |cp|;
      while left > 0
        invariant Valid() && left <= |cp| && RoomFor(k) == old(RoomFor(k)) - (|cp| - left) >= 0
        invariant All() == all[k := all[k] + cp[..|cp| - left]]
      {
        var c := cp[|cp| - left];
        var r := Putc(c, k);
        if r == -1 {
          return;
        }
        assert Low(c) == c;
        assert cp[..|cp| - left + 1] == cp[..|cp| - left] + [c];
        assert (all[k] + cp[..|cp| - left]) + [c] == all[k] + cp[..|cp| - left + 1];
        left := left - 1;
      }
    }

    /** bp->c_next = NULL for the last block of a queue. */
    method Unlink(k: nat, last: int)
      requires Valid() && k < queues.Length && lists[k] != [] && last == lists[k][|lists[k]| - 1]
      modifies next
      ensures Valid() && All() == old(All()) && RoomFor(k) == old(RoomFor(k))
    {
      hide PoolOk, QueuesOk, Texts;
      QueueAt(next[..], chars[..], cfreelist, free, queues[..], lists, home, k);
      CutEnd(next[..], cfreelist, free, lists, home, k);
      ghost var n := next[..];
      next[last] := 0;
      assert next[..] == n[last := 0];
    }

    /** The two low bytes of a number, or -1 and nothing: it asks for a free block, needed or not. */
    method Putw(c: int, k: nat) returns (r: int)
      requires Valid() && k < queues.Length
      modifies next, chars, queues, this`cfreelist, this`free, this`lists, this`home
      ensures Valid() && r == if old(free) == [] then -1 else 0
      ensures All() == if r == -1 then old(All()) else Plus(old(All()), k, [Low(c), Low(c / 256)])
    {
      hide PoolOk, QueuesOk, Texts;
      FreeAt(next[..], cfreelist, free, lists, home);
      if cfreelist == 0 {
        return -1;
      }
      QueueAt(next[..], chars[..], cfreelist, free, queues[..], lists, home, k);
      ghost var all := All();
      r := Putc(c, k);
      r := Putc(c / 256, k);
      assert (all[k] + [Low(c)]) + [Low(c / 256)] == all[k] + [Low(c), Low(c / 256)];
    }

    method Getw(k: nat) returns (c: int)
      requires Valid() && k < queues.Length
      modifies next, queues, this`cfreelist, this`free, this`lists, this`home
      ensures Valid()
      ensures |old(All())[k]| <= 1 ==> c == -1 && All() == old(All())
      ensures |old(All())[k]| > 1 ==>
              c == WordOf(old(All())[k][0], old(All())[k][1]) && All() == old(All())[k := old(All())[k][2..]]
    {
      hide PoolOk, QueuesOk, Texts;
      Lengths(next[..], chars[..], cfreelist, free, queues[..], lists, home, k);
      if queues[k].cc <= 1 {
        return -1;
      }
      var s := Getc(k);
      var t := Getc(k);
      c := WordOf(s, t);
    }

    /** A word put into an empty queue comes back as what 16 bits keep of it. */
    method WordThrough(c: int, k: nat) returns (r: int, w: int, ghost between: seq<seq<byte>>)
      requires Valid() && k < queues.Length && All()[k] == []
      modifies next, chars, queues, this`cfreelist, this`free, this`lists, this`home
      ensures Valid() && All() == old(All())
      ensures r == 0 ==> between == old(All())[k := [Low(c), Low(c / 256)]]
      ensures r == (if old(free) == [] then -1 else 0) && w == if r == 0 then c % 65536 else -1
    {
      hide PoolOk, QueuesOk, Texts;
      r := Putw(c, k);
      w, between := -1, All();
      if r == 0 {
        ghost var all := All();
        assert all[k] == [Low(c), Low(c / 256)] && all[k][2..] == [];
        w := Getw(k);
        assert WordOf(Low(c), Low(c / 256)) == c % 65536;
        assert all[k := []] == old(All());
      }
    }

    /** A character put in is got out behind those that were there before. */
    method Through(cs: seq<byte>, k: nat) returns (out: seq<byte>)
      requires Valid() && k < queues.Length
      modifies next, chars, queues, this`cfreelist, this`free, this`lists, this`home
      ensures Valid() && All() == old(All())[k := []]
      ensures out == old(All())[k] + cs[..if |cs| <= old(RoomFor(k)) then |cs| else old(RoomFor(k))]
    {
      hide PoolOk, QueuesOk, Texts;
      var left := BToQ(cs, k);
      Lengths(next[..], chars[..], cfreelist, free, queues[..], lists, home, k);
      ghost var all := All();
      out := QToB(k, queues[k].cc);
      assert all[k][|all[k]|..] == [] && out == all[k];
    }
  }

  function WordOf(low: int, high: int): int {
    low + 256 * high
  }

  lemma Lengths(next: seq<int>, chars: seq<byte>, head: int, free: seq<int>, queues: seq<Clist>, lists: seq<seq<int>>,
                home: seq<int>, k: nat)
    requires PoolOk(next, head, free, lists, home) && QueuesOk(queues, lists, |chars|) && k < |queues|
    ensures |Texts(chars, queues, lists)[k]| == queues[k].cc >= 0
  {
  }

  lemma AllBlocksFree(next: seq<int>, free: seq<int>, home: seq<int>, blocks: nat)
    requires |next| == |home| == blocks + 1 && |free| == blocks
    requires (forall i :: 0 <= i < blocks ==> free[i] == blocks - i)
             && (forall b :: 1 <= b <= blocks ==> next[b] == b - 1)
    requires forall b :: 0 <= b <= blocks ==> home[b] == -1
    ensures FreeOk(next, blocks, free) && Housed(free, home, -1) && Housed([], home, 0)
    ensures forall k :: k >= 0 ==> Housed([], home, k)
  {
    forall x
      ensures x in free <==> 0 < x <= blocks
    {
      if 0 < x <= blocks {
        assert free[blocks - x] == x;
      }
    }
  }

  lemma FreeAt(next: seq<int>, head: int, free: seq<int>, lists: seq<seq<int>>, home: seq<int>)
    requires PoolOk(next, head, free, lists, home)
    ensures head == 0 <==> free == []
  {
    assert free != [] ==> free[0] in free;
  }

  lemma FirstFree(next: seq<int>, head: int, free: seq<int>, lists: seq<seq<int>>, home: seq<int>, k: nat)
    requires PoolOk(next, head, free, lists, home) && free != [] && k < |lists|
    ensures 0 < head < |next| == |home| && home[head] == -1
    ensures lists[k] != [] ==> 0 < lists[k][|lists[k]| - 1] < |next| && lists[k][|lists[k]| - 1] != head
  {
    assert head == free[0] && head in free && Housed(lists[k], home, k);
    assert lists[k] != [] ==> lists[k][|lists[k]| - 1] in lists[k];
  }

  /** The link of the last block of a queue is not used. */
  lemma CutEnd(next: seq<int>, head: int, free: seq<int>, lists: seq<seq<int>>, home: seq<int>, k: nat)
    requires PoolOk(next, head, free, lists, home) && k < |lists| && lists[k] != []
    ensures var last := lists[k][|lists[k]| - 1];
            0 < last < |next| && PoolOk(next[last := 0], head, free, lists, home)
  {
    var last := lists[k][|lists[k]| - 1];
    assert Housed(lists[k], home, k) && last in lists[k];
    var next' := next[last := 0];
    assert last !in free;
    ChainFrame(next, next', free);
    forall j | 0 <= j < |lists|
      ensures Chain(next', lists[j]) && Housed(lists[j], home, j)
    {
      assert Chain(next, lists[j]) && Housed(lists[j], home, j);
      assert j != k ==> last !in lists[j];
      ChainFrame(next, next', lists[j]);
    }
  }

  /** What Valid says of one queue. */
  lemma QueueAt(next: seq<int>, chars: seq<byte>, head: int, free: seq<int>, queues: seq<Clist>, lists: seq<seq<int>>,
                home: seq<int>, k: nat)
    requires PoolOk(next, head, free, lists, home) && QueuesOk(queues, lists, |chars|) && k < |queues|
    ensures k < |lists| && QueueOk(queues[k], lists[k]) && Chain(next, lists[k]) && Housed(lists[k], home, k)
    ensures (queues[k].cc <= 0 <==> lists[k] == []) && (queues[k].cl == 0 <==> lists[k] == []) && queues[k].cc >= 0
    ensures Texts(chars, queues, lists)[k] == [] <==> lists[k] == []
    ensures lists[k] == [] ==> queues[k] == EMPTY
    ensures |lists[k]| > 1 ==> 0 < lists[k][0] < |next| && next[lists[k][0]] == lists[k][1]
    ensures |queues| == |lists| && |home| == |next|
  {
    NotEmpty(queues[k], lists[k], |chars|);
    assert |lists[k]| > 1 ==> next[lists[k][1 - 1]] == lists[k][1];
    assert lists[k] != [] ==> |Text(chars, queues[k], lists[k])| > 0;
  }
}
