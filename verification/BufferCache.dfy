/**
 * The buffer cache. A buffer header is an entry of the table hdr, and pointers
 * to headers are table indices: index NBUF is bfreelist, and the device tables
 * follow it. Processes interleave only where they sleep, so every method below
 * is one step that no other process can see the middle of; the completion of a
 * transfer, Iodone, is a step of its own.
 */
module BufferCache {
  import opened Sequences
  import opened Rings
  import opened BlockTree
  import opened BufferSteps

  /** The list a header belongs to: the last one is that of buffers without a device. */
  function Home(hd: Header, devices: nat): int {
    if hd.dev == NODEV then devices else Major(hd.dev)
  }

  /** Table index of the head of list d. */
  function Head(n: nat, devices: nat, d: int): int {
    if d == devices then n else n + 1 + d
  }

  // ---------------------------------------------------------------------------
  // The two lists.

  ghost predicate DeviceLists(f: seq<int>, b: seq<int>, h: seq<Header>, lists: seq<seq<int>>) {
    && |lists| > 0 && |f| == |h| + |lists|
    && (forall d :: 0 <= d < |lists| ==> Ring(f, b, Head(|h|, |lists| - 1, d), lists[d]))
    && (forall d :: 0 <= d < |lists| ==> Housed(lists[d], h, |lists| - 1, d))
    && (forall x :: 0 <= x < |h| ==> 0 <= Home(h[x], |lists| - 1) < |lists|)
  }

  /** s lists exactly the buffers whose home is list d. */
  ghost predicate Housed(s: seq<int>, h: seq<Header>, devices: nat, d: int) {
    forall x :: x in s <==> 0 <= x < |h| && Home(h[x], devices) == d
  }

  ghost predicate AvailList(f: seq<int>, b: seq<int>, h: seq<Header>, avail: seq<int>) {
    && |h| < |f| && Ring(f, b, |h|, avail)
    && forall x :: x in avail <==> 0 <= x < |h| && !h[x].busy
  }

  // ---------------------------------------------------------------------------
  // The contents.

  /** One buffer against the contents of its block on the disk and as last written by anyone. */
  ghost predicate BufferOk(hd: Header, io: bool, modified: bool, onDisk: Block, written: Block) {
    && (io ==> hd.busy && !hd.done && !hd.delwri && !modified && hd.dev != NODEV)
    && (hd.delwri ==> hd.done && hd.dev != NODEV)
    && (!hd.busy ==> !modified && !hd.wanted && !hd.async)
    && (hd.async ==> !modified)
    && (hd.dev != NODEV ==>
          && (hd.done && !modified ==> hd.data == written)
          && (io && !hd.reading ==> hd.data == written)
          && (!hd.delwri && !(io && !hd.reading) ==> onDisk == written))
  }

  ghost predicate Transparent(h: seq<Header>, inflight: set<int>, modified: set<int>,
                              disk: map<Key, Block>, logical: map<Key, Block>)
  {
    && (forall x :: x in inflight || x in modified ==> 0 <= x < |h|)
    && (forall x :: 0 <= x < |h| ==>
          BufferOk(h[x], x in inflight, x in modified, At(disk, h[x].Id()), At(logical, h[x].Id())))
    && (forall x, y :: 0 <= x < y < |h| && h[x].dev != NODEV ==> h[x].Id() != h[y].Id())
    && (forall k: Key :: k.dev != NODEV && (forall x :: 0 <= x < |h| ==> h[x].Id() != k) ==>
        At(disk, k) == At(logical, k))
  }

  /** Changing one buffer, and the contents of its block, without giving it to another block. */
  lemma ChangeBuffer(h: seq<Header>, inflight: set<int>, modified: set<int>,
                     disk: map<Key, Block>, logical: map<Key, Block>,
                     b: int, hd: Header, inflight': set<int>, modified': set<int>,
                     disk': map<Key, Block>, logical': map<Key, Block>)
    requires Transparent(h, inflight, modified, disk, logical)
    requires 0 <= b < |h| && hd.Id() == h[b].Id()
    requires forall x :: x != b ==> (x in inflight' <==> x in inflight) && (x in modified' <==> x in modified)
    requires forall k: Key :: (k != hd.Id() || k.dev == NODEV) ==>
             At(disk', k) == At(disk, k) && At(logical', k) == At(logical, k)
    requires BufferOk(hd, b in inflight', b in modified', At(disk', hd.Id()), At(logical', hd.Id()))
    ensures Transparent(h[b := hd], inflight', modified', disk', logical')
  {
    hide At;
    var h' := h[b := hd];
    assert forall x :: 0 <= x < |h| ==> h'[x].Id() == h[x].Id();
    forall x | 0 <= x < |h|
      ensures BufferOk(h'[x], x in inflight', x in modified', At(disk', h'[x].Id()), At(logical', h'[x].Id()))
    {
      if x != b && h[x].dev != NODEV {
        assert h[x].Id() != h[b].Id();
      }
    }
    forall k: Key | k.dev != NODEV && forall x :: 0 <= x < |h| ==> h'[x].Id() != k
      ensures At(disk', k) == At(logical', k)
    {
      assert h'[b].Id() != k;
      assert forall x :: 0 <= x < |h| ==> h[x].Id() != k by {
        forall x | 0 <= x < |h|
          ensures h[x].Id() != k
        {
          assert h'[x].Id() != k;
        }
      }
    }
  }

  /** Giving a buffer whose old block needs it no more to a block that has none. */
  lemma GiveBuffer(h: seq<Header>, inflight: set<int>, modified: set<int>,
                   disk: map<Key, Block>, logical: map<Key, Block>, b: int, hd: Header)
    requires Transparent(h, inflight, modified, disk, logical)
    requires 0 <= b < |h| && !h[b].delwri && b !in inflight && b !in modified
    requires hd.busy && !hd.done && !hd.delwri && !hd.async
    requires hd.dev == NODEV || forall x :: 0 <= x < |h| ==> h[x].Id() != hd.Id()
    ensures Transparent(h[b := hd], inflight, modified, disk, logical)
  {
    hide At;
    var h' := h[b := hd];
    forall x | 0 <= x < |h|
      ensures BufferOk(h'[x], x in inflight, x in modified, At(disk, h'[x].Id()), At(logical, h'[x].Id()))
    {
      if x == b && hd.dev != NODEV {
        assert At(disk, hd.Id()) == At(logical, hd.Id());
      }
    }
    forall k: Key | k.dev != NODEV && forall x :: 0 <= x < |h| ==> h'[x].Id() != k
      ensures At(disk, k) == At(logical, k)
    {
      if h[b].Id() != k {
        forall x | 0 <= x < |h|
          ensures h[x].Id() != k
        {
          assert h'[x].Id() != k;
        }
      }
    }
    forall x, y | 0 <= x < y < |h| && h'[x].dev != NODEV
      ensures h'[x].Id() != h'[y].Id()
    {
    }
  }

  // ---------------------------------------------------------------------------
  // Sleeping processes and holders.

  ghost predicate Sleepers(h: seq<Header>, inflight: set<int>, avail: seq<int>, freeWanted: bool,
                           sleepers: map<nat, Sleep>) {
    forall p :: p in sleepers ==>
      match sleepers[p]
      case OnBuffer(b) => 0 <= b < |h| && h[b].busy && h[b].wanted
      case OnTransfer(b) => 0 <= b < |h| && b in inflight && !h[b].async
      case OnFreeList => avail == [] && freeWanted
  }

  /** A busy buffer is held by one process, except that the driver owns an asynchronous one. */
  ghost predicate Holders(h: seq<Header>, holder: map<int, nat>) {
    forall x :: x in holder <==> 0 <= x < |h| && h[x].busy && !h[x].async
  }

  /** Flags and data do not matter to the lists, only what a buffer holds and whether it is busy. */
  lemma DeviceListsFrame(f: seq<int>, b: seq<int>, h: seq<Header>, lists: seq<seq<int>>, x: int, hd: Header)
    requires DeviceLists(f, b, h, lists) && 0 <= x < |h| && hd.dev == h[x].dev
    ensures DeviceLists(f, b, h[x := hd], lists)
  {
    hide Ring, Housed;
    var h', n := h[x := hd], |lists| - 1;
    assert forall y :: 0 <= y < |h| ==> Home(h'[y], n) == Home(h[y], n);
    forall d | 0 <= d < |lists|
      ensures Housed(lists[d], h', n, d)
    {
      HousedFrame(lists[d], h, n, d, x, hd);
    }
  }

  lemma HousedFrame(s: seq<int>, h: seq<Header>, devices: nat, d: int, x: int, hd: Header)
    requires Housed(s, h, devices, d) && 0 <= x < |h| && Home(hd, devices) == Home(h[x], devices)
    ensures Housed(s, h[x := hd], devices, d)
  {
    var h' := h[x := hd];
    assert forall y :: 0 <= y < |h| ==> Home(h'[y], devices) == Home(h[y], devices);
  }

  lemma AvailListFrame(f: seq<int>, b: seq<int>, h: seq<Header>, avail: seq<int>, x: int, hd: Header)
    requires AvailList(f, b, h, avail) && 0 <= x < |h| && hd.busy == h[x].busy
    ensures AvailList(f, b, h[x := hd], avail)
  {
    hide Ring;
    assert forall y :: 0 <= y < |h| ==> h[x := hd][y].busy == h[y].busy;
  }

  lemma AvailMember(f: seq<int>, b: seq<int>, h: seq<Header>, avail: seq<int>, x: int)
    requires AvailList(f, b, h, avail)
    ensures x in avail <==> 0 <= x < |h| && !h[x].busy
  {
  }

  /** Sleepers stay entitled to their wakeup as long as a buffer they wait for keeps its state. */
  lemma SleepersFrame(h: seq<Header>, inflight: set<int>, avail: seq<int>, freeWanted: bool, sleepers: map<nat, Sleep>,
                      b: int, hd: Header, inflight': set<int>, avail': seq<int>)
    requires Sleepers(h, inflight, avail, freeWanted, sleepers) && 0 <= b < |h|
    requires h[b].busy && h[b].wanted ==> hd.busy && hd.wanted
    requires b in inflight && !h[b].async ==> b in inflight' && !hd.async
    requires forall x :: x != b && x in inflight ==> x in inflight'
    requires avail == [] ==> avail' == []
    ensures Sleepers(h[b := hd], inflight', avail', freeWanted, sleepers)
  {
  }

  lemma HoldersFrame(h: seq<Header>, holder: map<int, nat>, b: int, hd: Header, holder': map<int, nat>)
    requires Holders(h, holder) && 0 <= b < |h|
    requires forall x :: x != b ==> (x in holder' <==> x in holder)
    requires b in holder' <==> hd.busy && !hd.async
    ensures Holders(h[b := hd], holder')
  {
  }

  /** A released buffer joins the available list at either end. */
  lemma JoinAvail(f: seq<int>, b: seq<int>, h: seq<Header>, avail: seq<int>, x: int, hd: Header)
    requires AvailList(f, b, h, avail) && 0 <= x < |h| && h[x].busy && !hd.busy
    ensures var n := |h|;
            && 0 <= f[n] < |f| && 0 <= b[n] < |f| && f[n] != x && b[n] != x
            && AvailList(f[x := f[n]][n := x], b[f[n] := x][x := n], h[x := hd], [x] + avail)
            && AvailList(f[b[n] := x][x := n], b[x := b[n]][n := x], h[x := hd], avail + [x])
  {
    var n := |h|;
    RingFront(f, b, n, avail, x);
    RingBack(f, b, n, avail, x);
    assert b[x := n][f[n] := x] == b[f[n] := x][x := n];
  }

  /** A buffer taken leaves it. */
  lemma LeaveAvail(f: seq<int>, b: seq<int>, h: seq<Header>, avail: seq<int>, x: int, hd: Header)
    requires AvailList(f, b, h, avail) && x in avail && hd.busy
    ensures 0 <= x < |h| && 0 <= f[x] < |f| && 0 <= b[x] < |f|
    ensures AvailList(f[b[x] := f[x]], b[f[x] := b[x]], h[x := hd], Without(avail, x))
  {
    hide Ring;
    RingRemove(f, b, |h|, avail, x);
  }

  /**
   * Links of a ring through entries 0 to n - 1 and header n, upwards and downwards; other headers link to
   * themselves.
   */
  function Up(n: nat, i: int): int {
    if i < n then i + 1 else if i == n then 0 else i
  }

  function Down(n: nat, i: int): int {
    if i == 0 && n > 0 then n else if i <= n && n > 0 then i - 1 else i
  }

  function Ascending(n: nat): (s: seq<int>)
    ensures |s| == n && forall i :: 0 <= i < n ==> s[i] == i
  {
    seq(n, i => i)
  }

  function Descending(n: nat): (s: seq<int>)
    ensures |s| == n && forall i :: 0 <= i < n ==> s[i] == n - 1 - i
  {
    seq(n, i => n - 1 - i)
  }

  const UNUSED: Header := Header(NODEV, 0, ZeroBlock(), false, false, false, false, false, false, false)

  lemma InitialAvail(f: seq<int>, b: seq<int>, h: seq<Header>)
    requires |f| == |b| > |h| && forall i :: 0 <= i < |f| ==> f[i] == Up(|h|, i) && b[i] == Down(|h|, i)
    requires forall x :: 0 <= x < |h| ==> !h[x].busy
    ensures AvailList(f, b, h, Ascending(|h|))
  {
    var s := Ascending(|h|);
    forall x
      ensures x in s <==> 0 <= x < |h|
    {
      assert 0 <= x < |h| ==> s[x] == x;
    }
  }

  lemma InitialLists(f: seq<int>, b: seq<int>, h: seq<Header>, lists: seq<seq<int>>)
    requires |lists| > 0 && |f| == |b| == |h| + |lists|
    requires forall i :: 0 <= i < |f| ==> f[i] == Down(|h|, i) && b[i] == Up(|h|, i)
    requires forall x :: 0 <= x < |h| ==> h[x].dev == NODEV
    requires forall d :: 0 <= d < |lists| ==> lists[d] == if d == |lists| - 1 then Descending(|h|) else []
    ensures DeviceLists(f, b, h, lists)
  {
    var n, k := |h|, |lists| - 1;
    forall d | 0 <= d < |lists|
      ensures Ring(f, b, Head(n, k, d), lists[d]) && Housed(lists[d], h, k, d)
    {
      if d == k {
        InitialUnassigned(f, b, h, k);
      }
    }
  }

  lemma InitialUnassigned(f: seq<int>, b: seq<int>, h: seq<Header>, devices: nat)
    requires |f| == |b| > |h| && forall i :: 0 <= i < |f| ==> f[i] == Down(|h|, i) && b[i] == Up(|h|, i)
    requires forall x :: 0 <= x < |h| ==> h[x].dev == NODEV
    ensures Ring(f, b, |h|, Descending(|h|)) && Housed(Descending(|h|), h, devices, devices)
  {
    var s := Descending(|h|);
    forall x
      ensures x in s <==> 0 <= x < |h|
    {
      assert 0 <= x < |h| ==> s[|h| - 1 - x] == x;
    }
  }

  class Cache {
    const forw: array<int>
    const back: array<int>
    const avForw: array<int>
    const avBack: array<int>
    const hdr: array<Header>
    const devices: nat
    var freeWanted: bool            // B_WANTED of bfreelist
    var inflight: set<int>          // requests in the drivers' queues
    var disk: map<Key, Block>       // what the devices hold
    ghost var logical: map<Key, Block>  // what was last written to each block
    ghost var lists: seq<seq<int>>
    ghost var avail: seq<int>
    var modified: set<int>          // held buffers of blocks changed since they were granted
    var holder: map<int, nat>
    var sleepers: map<nat, Sleep>

    /** What binit leaves: every buffer on the list without a device, last one first, and available, first one first. */
    constructor (buffers: nat, nblkdev: nat, contents: map<Key, Block>)
      ensures Valid() && hdr.Length == buffers && devices == nblkdev && disk == logical == contents
      ensures inflight == {} && modified == {} && holder == map[] && sleepers == map[] && !freeWanted
      ensures avail == Ascending(buffers) && forall x :: 0 <= x < buffers ==> hdr[x] == UNUSED
    {
      var all := buffers + nblkdev + 1;
      forw := new int[all](i => Down(buffers, i));
      back := new int[all](i => Up(buffers, i));
      avForw := new int[all](i => Up(buffers, i));
      avBack := new int[all](i => Down(buffers, i));
      hdr := new Header[buffers](_ => UNUSED);
      devices := nblkdev;
      freeWanted, inflight, modified, holder, sleepers := false, {}, {}, map[], map[];
      disk, logical := contents, contents;
      lists := seq(nblkdev + 1, d => if d == nblkdev then Descending(buffers) else []);
      avail := Ascending(buffers);
      new;
      hide DeviceLists, AvailList;
      InitialAvail(avForw[..], avBack[..], hdr[..]);
      InitialLists(forw[..], back[..], hdr[..], lists);
    }

    ghost predicate Tables() {
      && forw != back && forw != avForw && forw != avBack && back != avForw && back != avBack && avForw != avBack
      && forw.Length == back.Length == avForw.Length == avBack.Length
      && hdr.Length < forw.Length
    }

    /** The cache between two steps, with l for the logical contents. */
    ghost function View(l: map<Key, Block>): System
      reads this, hdr
    {
      System(hdr[..], inflight, modified, holder, sleepers, l, avail, freeWanted, devices)
    }

    ghost function Now(): System
      reads this, hdr
    {
      View(logical)
    }

    ghost predicate Lists()
      reads this`lists, this`avail, forw, back, avForw, avBack, hdr
    {
      && |lists| == devices + 1
      && DeviceLists(forw[..], back[..], hdr[..], lists)
      && AvailList(avForw[..], avBack[..], hdr[..], avail)
    }

    ghost predicate Valid()
      reads this, forw, back, avForw, avBack, hdr
    {
      && Tables() && Lists()
      && Transparent(hdr[..], inflight, modified, disk, logical)
      && Sleepers(hdr[..], inflight, avail, freeWanted, sleepers)
      && Holders(hdr[..], holder)
    }

    /** What the lemmas about the steps ask of the available list. */
    lemma AvailableIsListed()
      requires Valid()
      ensures Listed(Now())
    {
      hide DeviceLists, Sleepers, Holders, At, Ring;
      AvailDistinct(avForw[..], avBack[..], hdr[..], avail);
      forall b | b in avail
        ensures 0 <= b < hdr.Length && b !in inflight
      {
        AvailMember(avForw[..], avBack[..], hdr[..], avail, b);
        IdleBuffer(hdr[..], inflight, modified, disk, logical, b);
      }
    }

    /** Unlinks a buffer from the available list and marks it busy on behalf of a process. */
    method Notavail(pid: nat, b: int)
      requires Valid() && 0 <= b < hdr.Length && !hdr[b].busy
      modifies avForw, avBack, hdr, this`avail, this`holder
      ensures Valid() && hdr[..] == old(hdr[..])[b := old(hdr[b]).(busy := true)]
      ensures avail == Without(old(avail), b) && holder == old(holder)[b := pid]
    {
      hide DeviceLists, AvailList, Transparent, Sleepers, Holders, At;
      ghost var h, hd := hdr[..], hdr[b].(busy := true);
      AvailMember(avForw[..], avBack[..], h, avail, b);
      LeaveAvail(avForw[..], avBack[..], h, avail, b, hd);
      DeviceListsFrame(forw[..], back[..], h, lists, b, hd);
      IdleBuffer(h, inflight, modified, disk, logical, b);
      ChangeBuffer(h, inflight, modified, disk, logical, b, hd, inflight, modified, disk, logical);
      SleepersFrame(h, inflight, avail, freeWanted, sleepers, b, hd, inflight, Without(avail, b));
      HoldersFrame(h, holder, b, hd, holder[b := pid]);
      avForw[avBack[b]] := avForw[b];
      avBack[avForw[b]] := avBack[b];
      hdr[b] := hdr[b].(busy := true);
      avail := Without(avail, b);
      holder := holder[b := pid];
    }

    /** The links of a buffer put at either end of the available list. */
    method LinkAvail(b: int, age: bool)
      requires Tables() && 0 <= b < hdr.Length
      requires 0 <= avForw[hdr.Length] < avForw.Length && 0 <= avBack[hdr.Length] < avForw.Length
      requires avForw[hdr.Length] != b && avBack[hdr.Length] != b
      modifies avForw, avBack
      ensures var n, f, bk := hdr.Length, old(avForw[..]), old(avBack[..]);
              if age then
                avForw[..] == f[b := f[n]][n := b] && avBack[..] == bk[f[n] := b][b := n]
              else
                avForw[..] == f[bk[n] := b][b := n] && avBack[..] == bk[b := bk[n]][n := b]
    {
      var bfreelist := hdr.Length;
      if age {
        avBack[avForw[bfreelist]] := b;
        avForw[b] := avForw[bfreelist];
        avForw[bfreelist] := b;
        avBack[b] := bfreelist;
      } else {
        avForw[avBack[bfreelist]] := b;
        avBack[b] := avBack[bfreelist];
        avBack[bfreelist] := b;
        avForw[b] := bfreelist;
      }
    }

    /** Releases a buffer, with no transfer implied; the processes waiting for one are awakened. */
    method Brelse(b: int)
      requires Valid() && 0 <= b < hdr.Length && hdr[b].busy && b !in inflight && b !in modified
      modifies avForw, avBack, hdr, this`avail, this`holder, this`freeWanted, this`sleepers
      ensures Valid() && hdr[..] == old(hdr[..])[b := Released(old(hdr[b]))]
      ensures avail == if old(hdr[b]).age then [b] + old(avail) else old(avail) + [b]
      ensures holder == old(holder) - {b} && !freeWanted && sleepers ==
              AfterRelease(old(sleepers), old(hdr[b]).wanted, old(freeWanted), b)
    {
      hide DeviceLists, AvailList, Transparent, Sleepers, Holders, At;
      ghost var h, hd, n := hdr[..], Released(hdr[b]), hdr.Length;
      JoinAvail(avForw[..], avBack[..], h, avail, b, hd);
      DeviceListsFrame(forw[..], back[..], h, lists, b, hd);
      IdleBuffer(h, inflight, modified, disk, logical, b);
      ChangeBuffer(h, inflight, modified, disk, logical, b, hd, inflight, modified, disk, logical);
      HoldersFrame(h, holder, b, hd, holder - {b});
      ReleaseWakes(h, inflight, avail, freeWanted, sleepers, b, hd, if hdr[b].age then [b] + avail else avail + [b]);
      if hdr[b].wanted {
        sleepers := Woken(sleepers, b);
      }
      if freeWanted {
        freeWanted := false;
        sleepers := WokenFree(sleepers);
      }
      avail := if hdr[b].age then [b] + avail else avail + [b];
      LinkAvail(b, hdr[b].age);
      hdr[b] := hdr[b].(wanted := false, busy := false, async := false, age := false);
      holder := holder - {b};
    }

    /**
     * The holder of a buffer changes its contents. Unless the buffer belongs to no block, it must be released
     * by one of the writes.
     */
    method Modify(b: int, data: Block)
      requires Valid() && 0 <= b < hdr.Length && b in holder && b !in inflight
      modifies hdr, this`modified
      ensures Valid() && hdr[..] == old(hdr[..])[b := old(hdr[b]).(data := data)]
      ensures modified == if hdr[b].dev == NODEV then old(modified) else old(modified) + {b}
    {
      hide DeviceLists, AvailList, Transparent, Sleepers, At;
      ghost var h, hd := hdr[..], hdr[b].(data := data);
      FlagStep(forw[..], back[..], avForw[..], avBack[..], h, lists, avail, b, hd);
      IdleBuffer(h, inflight, modified, disk, logical, b);
      ghost var m := if hdr[b].dev == NODEV then modified else modified + {b};
      ChangeBuffer(h, inflight, modified, disk, logical, b, hd, inflight, m, disk, logical);
      SleepersFrame(h, inflight, avail, freeWanted, sleepers, b, hd, inflight, avail);
      HoldersFrame(h, holder, b, hd, holder);
      hdr[b] := hdr[b].(data := data);
      modified := if hdr[b].dev == NODEV then modified else modified + {b};
    }

    /** Starts writing a held buffer out. Unless the write is asynchronous the process sleeps until it is done. */
    method Bwrite(pid: nat, b: int)
      requires Valid() && 0 <= b < hdr.Length && hdr[b].busy && b !in inflight && hdr[b].dev != NODEV
      modifies hdr, this`inflight, this`logical, this`modified, this`sleepers
      ensures Valid() && hdr[..] == old(hdr[..])[b := Written(old(hdr[b]))]
      ensures inflight == old(inflight) + {b} && modified == old(modified) - {b}
      ensures logical == old(logical)[old(hdr[b]).Id() := old(hdr[b]).data]
      ensures sleepers == if old(hdr[b]).async then old(sleepers) else old(sleepers)[pid := OnTransfer(b)]
    {
      hide DeviceLists, AvailList, Transparent, Sleepers, At;
      ghost var h, hd, key := hdr[..], Written(hdr[b]), hdr[b].Id();
      FlagStep(forw[..], back[..], avForw[..], avBack[..], h, lists, avail, b, hd);
      IdleBuffer(h, inflight, modified, disk, logical, b);
      PutAt(logical, key, hd.data);
      ChangeBuffer(h, inflight, modified, disk, logical, b, hd, inflight + {b}, modified - {b}, disk,
                   logical[key := hd.data]);
      SleepersFrame(h, inflight, avail, freeWanted, sleepers, b, hd, inflight + {b}, avail);
      HoldersFrame(h, holder, b, hd, holder);
      var flag := hdr[b];
      hdr[b] := flag.(reading := false, done := false, delwri := false, age := false);
      inflight := inflight + {b};  // the strategy routine
      logical := logical[key := flag.data];
      modified := modified - {b};
      if !flag.async {
        assert hdr[..] == h[b := hd];
        SleepOnTransfer(hdr[..], inflight, avail, freeWanted, sleepers, pid, b);
        sleepers := sleepers[pid := OnTransfer(b)];
      } else if flag.delwri {
        hdr[b] := hdr[b].(age := true);
      }
      assert hdr[..] == h[b := hd];
    }

    /** Releases a buffer so that it is written out before it is given up; magnetic tapes are written at once. */
    method Bdwrite(pid: nat, b: int, tape: bool)
      requires Valid() && 0 <= b < hdr.Length && b in holder && b !in inflight && hdr[b].dev != NODEV
      modifies hdr, avForw, avBack, this`inflight, this`avail, this`holder, this`logical, this`modified,
               this`freeWanted, this`sleepers
      ensures Valid() && modified == old(modified) - {b} && holder == old(holder) - {b}
      ensures hdr[..] == old(hdr[..])[b := hdr[b]]
      ensures logical == old(logical)[old(hdr[b]).Id() := old(hdr[b]).data]
      ensures tape ==> inflight == old(inflight) + {b} && avail == old(avail)
      ensures !tape ==> inflight == old(inflight) && b in avail && hdr[b].delwri && hdr[b].done
      ensures View(old(logical)) == if tape then WriteGivenUp(old(Now()), b) else WriteDelayed(old(Now()), b)
    {
      hide DeviceLists, AvailList, Transparent, Sleepers, At;
      if tape {
        Bawrite(pid, b);
      } else {
        ghost var h, hd, key := hdr[..], hdr[b].(delwri := true, done := true), hdr[b].Id();
        FlagStep(forw[..], back[..], avForw[..], avBack[..], h, lists, avail, b, hd);
        IdleBuffer(h, inflight, modified, disk, logical, b);
        PutAt(logical, key, hd.data);
        ChangeBuffer(h, inflight, modified, disk, logical, b, hd, inflight, modified - {b}, disk,
                     logical[key := hd.data]);
        SleepersFrame(h, inflight, avail, freeWanted, sleepers, b, hd, inflight, avail);
        HoldersFrame(h, holder, b, hd, holder);
        hdr[b] := hdr[b].(delwri := true, done := true);
        logical := logical[key := hdr[b].data];
        modified := modified - {b};
        Brelse(b);
      }
    }

    /** Starts writing a held buffer out and gives it up. */
    method Bawrite(pid: nat, b: int)
      requires Valid() && 0 <= b < hdr.Length && b in holder && b !in inflight && hdr[b].dev != NODEV
      modifies hdr, this`inflight, this`holder, this`logical, this`modified, this`sleepers
      ensures Valid() && inflight == old(inflight) + {b} && modified == old(modified) - {b}
      ensures hdr[..] == old(hdr[..])[b := Written(old(hdr[b]).(async := true))] && holder == old(holder) - {b}
      ensures logical == old(logical)[old(hdr[b]).Id() := old(hdr[b]).data] && sleepers == old(sleepers)
    {
      hide DeviceLists, AvailList, Transparent, Sleepers, At;
      ghost var h, hd, hw, key := hdr[..], hdr[b].(async := true), Written(hdr[b].(async := true)), hdr[b].Id();
      FlagStep(forw[..], back[..], avForw[..], avBack[..], h, lists, avail, b, hw);
      IdleBuffer(h, inflight, modified, disk, logical, b);
      PutAt(logical, key, hd.data);
      ChangeBuffer(h, inflight, modified, disk, logical, b, hw, inflight + {b}, modified - {b}, disk,
                   logical[key := hd.data]);
      SleepersFrame(h, inflight, avail, freeWanted, sleepers, b, hw, inflight + {b}, avail);
      HoldersFrame(h, holder, b, hw, holder - {b});
      var flag := hdr[b].(async := true);
      hdr[b] := flag.(reading := false, done := false, delwri := false, age := flag.delwri);
      inflight := inflight + {b};
      logical := logical[key := flag.data];
      modified := modified - {b};
      holder := holder - {b};
    }

    /** The data have arrived, or are on the disk. The driver still has an asynchronous buffer. */
    method Arrive(b: int)
      requires Valid() && b in inflight
      modifies hdr, this`inflight, this`disk, this`sleepers
      ensures Valid() && 0 <= b < hdr.Length && Now() == Arrived(old(Now()), b)
      ensures b !in modified && hdr[b].busy && hdr[b].async == old(hdr[b].async)
      ensures hdr[b].async ==> forall p :: p in sleepers ==>
              sleepers[p] != OnTransfer(b) && (sleepers[p] == OnBuffer(b) ==> hdr[b].wanted)
    {
      hide DeviceLists, AvailList, Transparent, Sleepers, Holders, At;
      ghost var h := hdr[..];
      InflightBuffer(h, inflight, modified, disk, logical, b);
      ghost var was := disk;
      if hdr[b].reading {
        hdr[b] := hdr[b].(data := At(disk, hdr[b].Id()), done := true);
      } else {
        disk := disk[hdr[b].Id() := hdr[b].data];
        hdr[b] := hdr[b].(done := true);
      }
      if !hdr[b].async {
        hdr[b] := hdr[b].(wanted := false);
      }
      ghost var hd := hdr[b];
      inflight := inflight - {b};
      PutAt(was, hd.Id(), hd.data);
      FlagStep(forw[..], back[..], avForw[..], avBack[..], h, lists, avail, b, hd);
      ChangeBuffer(h, old(inflight), modified, was, logical, b, hd, inflight, modified, disk, logical);
      HoldersStep(h, holder, b, hd);
      DoneWakes(h, old(inflight), avail, freeWanted, sleepers, b, hd);
      assert hdr[..] == h[b := hd];
      if !hdr[b].async {
        sleepers := Woken(sleepers, b);
      }
    }

    /** Completion of a transfer, by the device's interrupt routine. */
    method Iodone(b: int)
      requires Valid() && b in inflight
      modifies hdr, avForw, avBack, this`inflight, this`avail, this`holder, this`disk, this`freeWanted, this`sleepers
      ensures Valid() && inflight == old(inflight) - {b} && 0 <= b < hdr.Length && hdr[b].done
      ensures hdr[b].busy == !old(hdr[b].async) && hdr[b].Id() == old(hdr[b].Id())
              && hdr[b].data == At(logical, hdr[b].Id())
      ensures hdr[..] == old(hdr[..])[b := hdr[b]] && holder == old(holder)
      ensures forall p :: p in sleepers ==>
              p in old(sleepers) && sleepers[p] != OnBuffer(b) && sleepers[p] != OnTransfer(b)
      ensures Now() == Finished(old(Now()), b)
    {
      hide DeviceLists, AvailList, Transparent, Sleepers, Holders, At;
      Arrive(b);
      HolderOf(hdr[..], holder, b);
      if hdr[b].async {
        Brelse(b);
      }
    }

    /** The search of getblk and incore: the buffer of a block, or -1. */
    method Search(dev: int, blkno: int) returns (b: int)
      requires Valid() && dev != NODEV && 0 <= Major(dev) < devices
      ensures -1 <= b < hdr.Length
      ensures b >= 0 ==> hdr[b].Id() == Key(dev, blkno)
      ensures b == -1 ==> forall x :: 0 <= x < hdr.Length ==> hdr[x].Id() != Key(dev, blkno)
      ensures b == Owner(hdr[..], Key(dev, blkno))
    {
      hide DeviceLists, AvailList, Transparent, Sleepers, Holders, Ring;
      var dp := Head(hdr.Length, devices, Major(dev));
      ghost var s, i := lists[Major(dev)], 0;
      ListOf(forw[..], back[..], hdr[..], lists, Major(dev));
      RingNext(forw[..], back[..], dp, s, 0);
      var bp := forw[dp];
      while bp != dp
        invariant 0 <= i <= |s| && bp == Node(dp, s, i + 1) && (bp == dp <==> i == |s|)
        invariant forall j :: 0 <= j < i ==> 0 <= s[j] < hdr.Length && hdr[s[j]].Id() != Key(dev, blkno)
        decreases |s| - i
      {
        assert bp == s[i] && s[i] in s;
        if hdr[bp].dev == dev && hdr[bp].blkno == blkno {
          OnlyOwner(hdr[..], inflight, modified, disk, logical, bp);
          return bp;
        }
        RingNext(forw[..], back[..], dp, s, i + 1);
        bp := forw[bp];
        i := i + 1;
      }
      b := -1;
      forall x | 0 <= x < hdr.Length
        ensures hdr[x].Id() != Key(dev, blkno)
      {
        if hdr[x].dev == dev {
          assert x in s;
        }
      }
    }

    /** Whether some buffer holds a block. */
    method Incore(dev: int, blkno: int) returns (r: bool)
      requires Valid() && dev != NODEV && 0 <= Major(dev) < devices
      ensures r <==> exists x :: 0 <= x < hdr.Length && hdr[x].Id() == Key(dev, blkno)
    {
      var b := Search(dev, blkno);
      r := b != -1;
    }

    /** Reassigns a held, clean buffer to another block, or to none. */
    method Relabel(b: int, dev: int, blkno: int)
      requires Valid() && 0 <= b < hdr.Length && b in holder && b !in inflight && b !in modified && !hdr[b].delwri
               && !hdr[b].wanted
      requires dev == NODEV || 0 <= Major(dev) < devices
      requires dev == NODEV || forall x :: 0 <= x < hdr.Length ==> hdr[x].Id() != Key(dev, blkno)
      modifies forw, back, hdr, this`lists
      ensures Valid() && hdr[..] == old(hdr[..])[b := Fresh(old(hdr[b]), dev, blkno)]
    {
      hide DeviceLists, AvailList, Transparent, Sleepers, At, Ring, DeviceListsBut;
      ghost var h, hd, f, bk := hdr[..], Fresh(hdr[b], dev, blkno), forw[..], back[..];
      ghost var d0, d1 := Home(hdr[b], devices), Home(hd, devices);
      LeaveList(f, bk, h, lists, b);
      ghost var f1, b1, lists1 := f[bk[b] := f[b]], bk[f[b] := bk[b]], lists[d0 := Without(lists[d0], b)];
      JoinList(f1, b1, h, lists1, b, hd);
      AvailListFrame(avForw[..], avBack[..], h, avail, b, hd);
      GiveBuffer(h, inflight, modified, disk, logical, b, hd);
      SleepersFrame(h, inflight, avail, freeWanted, sleepers, b, hd, inflight, avail);
      HoldersFrame(h, holder, b, hd, holder);
      var dp := if dev == NODEV then hdr.Length else Head(hdr.Length, devices, Major(dev));
      Splice(b, dp);
      hdr[b] := Fresh(hdr[b], dev, blkno);
      lists := lists1[d1 := [b] + lists1[d1]];
    }

    /** Takes a buffer out of its device list and puts it first on the list of header dp. */
    method Splice(b: int, dp: int)
      requires Tables() && 0 <= b < forw.Length && 0 <= dp < forw.Length && dp != b
      requires 0 <= forw[b] < forw.Length && 0 <= back[b] < forw.Length && forw[b] != b && back[b] != b
      requires var f := forw[..][back[b] := forw[b]];
               0 <= f[dp] < forw.Length && f[dp] != b
      modifies forw, back
      ensures var f, bk := old(forw[..]), old(back[..]);
              var f1, b1 := f[bk[b] := f[b]], bk[f[b] := bk[b]];
              forw[..] == f1[b := f1[dp]][dp := b] && back[..] == b1[b := dp][f1[dp] := b]
    {
      forw[back[b]] := forw[b];
      back[forw[b]] := back[b];
      forw[b] := forw[dp];
      back[b] := dp;
      back[forw[dp]] := b;
      forw[dp] := b;
    }

    /** The header of the first available buffer; when its write was delayed, the write is started instead. */
    method TakeOldest(pid: nat) returns (b: int)
      requires Valid() && avail != []
      modifies avForw, avBack, hdr, this`inflight, this`avail, this`holder, this`logical, this`modified, this`sleepers
      ensures Valid() && |avail| < |old(avail)| && modified == old(modified) && sleepers == old(sleepers)
      ensures SameContents(old(logical), logical) && OthersKept(old(hdr[..]), hdr[..], old(holder), holder,
                                                                old(inflight), inflight)
      ensures b < 0 ==> holder == old(holder)
      ensures b >= 0 ==>
                && b < hdr.Length && holder == old(holder)[b := pid] && b !in old(holder)
                && b !in inflight && b !in modified && !hdr[b].delwri && !hdr[b].wanted && inflight == old(inflight)
      ensures var s, x := old(Now()), old(avail[0]);
              && 0 <= x < hdr.Length && b == (if s.hdr[x].delwri then -1 else x)
              && View(s.logical) == if s.hdr[x].delwri then Flushed(s, x) else Taken(s, pid, x)
    {
      hide DeviceLists, AvailList, Transparent, Sleepers, At, Ring;
      FirstAvail(avForw[..], avBack[..], hdr[..], avail);
      b := avForw[hdr.Length];
      IdleBuffer(hdr[..], inflight, modified, disk, logical, b);
      HolderOf(hdr[..], holder, b);
      Notavail(pid, b);
      if hdr[b].delwri {
        ghost var key, data := hdr[b].Id(), hdr[b].data;
        PutAt(logical, key, data);
        Bawrite(pid, b);
        b := -1;
      }
    }

    /** Goes to sleep until a busy buffer is released. */
    method AwaitBuffer(pid: nat, b: int)
      requires Valid() && 0 <= b < hdr.Length && hdr[b].busy
      modifies hdr, this`sleepers
      ensures Valid() && hdr[..] == old(hdr[..])[b := old(hdr[b]).(wanted := true)]
              && sleepers == old(sleepers)[pid := OnBuffer(b)]
    {
      hide DeviceLists, AvailList, Transparent, Holders, At, Ring;
      ghost var h, hd := hdr[..], hdr[b].(wanted := true);
      FlagStep(forw[..], back[..], avForw[..], avBack[..], h, lists, avail, b, hd);
      IdleBuffer(h, inflight, modified, disk, logical, b);
      ChangeBuffer(h, inflight, modified, disk, logical, b, hd, inflight, modified, disk, logical);
      SleepersFrame(h, inflight, avail, freeWanted, sleepers, b, hd, inflight, avail);
      HoldersStep(h, holder, b, hd);
      hdr[b] := hdr[b].(wanted := true);
      sleepers := sleepers[pid := OnBuffer(b)];
    }

    /** Goes to sleep until some buffer is released. */
    method AwaitFree(pid: nat)
      requires Valid() && avail == []
      modifies this`freeWanted, this`sleepers
      ensures Valid() && freeWanted && sleepers == old(sleepers)[pid := OnFreeList]
    {
      hide DeviceLists, AvailList, Transparent, Holders;
      freeWanted := true;
      sleepers := sleepers[pid := OnFreeList];
    }

    /** The buffer that has the block: it is taken, or waited for while it is busy. */
    method TakeFound(pid: nat, b: int) returns (r: Grant)
      requires Valid() && 0 <= b < hdr.Length
      modifies avForw, avBack, hdr, this`avail, this`holder, this`sleepers
      ensures Valid() && SameContents(old(logical), logical)
      ensures OthersKept(old(hdr[..]), hdr[..], old(holder), holder, old(inflight), inflight)
      ensures (r, Now()) == FoundOf(old(Now()), pid, b)
      ensures r.Granted? ==> hdr[b].busy && b !in inflight && b !in modified && b !in old(holder)
    {
      hide DeviceLists, AvailList, Transparent, Sleepers, Holders, At, Ring, Without;
      ghost var h0, ho0, io0 := hdr[..], holder, inflight;
      IdleBuffer(h0, inflight, modified, disk, logical, b);
      HolderOf(h0, holder, b);
      if hdr[b].busy {
        AwaitBuffer(pid, b);
        return Asleep;
      }
      Notavail(pid, b);
      r := Granted(b);
    }

    /**
     * Assigns a buffer to a block: the one that has it, or the oldest available
     * one, writing delayed writes out on the way. No contents change.
     */
    method Getblk(pid: nat, dev: int, blkno: int) returns (r: Grant)
      requires Valid() && dev != NODEV && 0 <= Major(dev) < devices
      modifies forw, back, avForw, avBack, hdr, this`lists, this`inflight, this`avail, this`holder, this`logical,
               this`modified, this`sleepers, this`freeWanted
      ensures Valid() && SameContents(old(logical), logical) && modified == old(modified)
      ensures OthersKept(old(hdr[..]), hdr[..], old(holder), holder, old(inflight), inflight)
      ensures r.Granted? ==>
                && 0 <= r.b < hdr.Length && hdr[r.b].Id() == Key(dev, blkno) && hdr[r.b].busy
                && r.b !in old(holder) && holder == old(holder)[r.b := pid] && sleepers == old(sleepers)
                && r.b !in inflight && r.b !in modified
                && (hdr[r.b].done ==> hdr[r.b].data == At(logical, Key(dev, blkno)))
      ensures r.Asleep? ==> holder == old(holder) && pid in sleepers && sleepers == old(sleepers)[pid := sleepers[pid]]
      ensures (r, View(old(logical))) == GetOf(old(Now()), pid, Key(dev, blkno))
    {
      hide DeviceLists, AvailList, Transparent, Sleepers, Holders, At, Ring, SameContents, OthersKept, Owner, Without,
           Outgoing;
      ghost var h0, l0, ho0, io0, s0 := hdr[..], logical, holder, inflight, Now();
      NothingYet(h0, l0, ho0, io0);
      while true
        invariant Valid() && SameContents(l0, logical) && modified == old(modified)
        invariant OthersKept(h0, hdr[..], ho0, holder, io0, inflight) && holder == ho0 && sleepers == old(sleepers)
        invariant Drained(View(l0)) == Drained(s0) && (Owner(s0.hdr, Key(dev, blkno)) < 0 || View(l0) == s0)
        invariant forall x :: 0 <= x < hdr.Length ==> hdr[x].Id() == h0[x].Id()
        decreases |avail|
      {
        var b := Search(dev, blkno);
        ghost var h1, l1, ho1, io1, v1 := hdr[..], logical, holder, inflight, View(l0);
        if b >= 0 {
          r := TakeFound(pid, b);
          KeptAgain(h0, h1, hdr[..], l0, l1, logical, ho0, ho1, holder, io0, io1, inflight);
          IdleBuffer(hdr[..], inflight, modified, disk, logical, b);
          return;
        }
        FirstAvail(avForw[..], avBack[..], hdr[..], avail);
        if avForw[hdr.Length] == hdr.Length {
          AwaitFree(pid);
          return Asleep;
        }
        b := TakeOldest(pid);
        KeptAgain(h0, h1, hdr[..], l0, l1, logical, ho0, ho1, holder, io0, io1, inflight);
        if b >= 0 {
          ghost var h2, ho2, io2 := hdr[..], holder, inflight;
          Relabel(b, dev, blkno);
          KeptFlag(h0, h2, ho0, io0, io2, b, hdr[b], ho2, holder);
          IdleBuffer(hdr[..], inflight, modified, disk, logical, b);
          return Granted(b);
        }
      }
    }

    /** A buffer with no block. */
    method Geteblk(pid: nat) returns (r: Grant)
      requires Valid()
      modifies forw, back, avForw, avBack, hdr, this`lists, this`inflight, this`avail, this`holder, this`logical,
               this`modified, this`sleepers, this`freeWanted
      ensures Valid() && SameContents(old(logical), logical) && modified == old(modified)
      ensures OthersKept(old(hdr[..]), hdr[..], old(holder), holder, old(inflight), inflight)
      ensures r.Granted? ==>
                && 0 <= r.b < hdr.Length && hdr[r.b].dev == NODEV
                && r.b !in old(holder) && holder == old(holder)[r.b := pid] && sleepers == old(sleepers)
                && r.b !in inflight && r.b !in modified
      ensures r.Asleep? ==> holder == old(holder) && sleepers == old(sleepers)[pid := OnFreeList]
      ensures (r, View(old(logical))) == Claim(old(Now()), pid, Key(NODEV, 0))
    {
      hide DeviceLists, AvailList, Transparent, Sleepers, Holders, At, Ring, SameContents, OthersKept, Owner, Without,
           Outgoing;
      ghost var h0, l0, ho0, io0, s0 := hdr[..], logical, holder, inflight, Now();
      NothingYet(h0, l0, ho0, io0);
      while true
        invariant Valid() && SameContents(l0, logical) && modified == old(modified)
        invariant OthersKept(h0, hdr[..], ho0, holder, io0, inflight) && holder == ho0 && sleepers == old(sleepers)
        invariant Drained(View(l0)) == Drained(s0)
        decreases |avail|
      {
        ghost var h1, l1, ho1, io1, v1 := hdr[..], logical, holder, inflight, View(l0);
        FirstAvail(avForw[..], avBack[..], hdr[..], avail);
        if avForw[hdr.Length] == hdr.Length {
          AwaitFree(pid);
          return Asleep;
        }
        var b := TakeOldest(pid);
        KeptAgain(h0, h1, hdr[..], l0, l1, logical, ho0, ho1, holder, io0, io1, inflight);
        if b >= 0 {
          ghost var h2, ho2, io2 := hdr[..], holder, inflight;
          Relabel(b, NODEV, hdr[b].blkno);
          KeptFlag(h0, h2, ho0, io0, io2, b, hdr[b], ho2, holder);
          return Granted(b);
        }
      }
    }

    /** Starts reading a held buffer; an asynchronous read takes it from its holder. Nobody sleeps yet. */
    method StartRead(b: int, async: bool)
      requires Valid() && 0 <= b < hdr.Length && b in holder && b !in inflight && b !in modified
      requires !hdr[b].done && hdr[b].dev != NODEV
      modifies hdr, this`inflight, this`holder
      ensures Valid() && inflight == old(inflight) + {b} && holder == if async then old(holder) - {b} else old(holder)
      ensures hdr[..] == old(hdr[..])[b := old(hdr[b]).(reading := true, async := async)]
    {
      hide DeviceLists, AvailList, Transparent, Sleepers, At, Ring;
      ghost var h, hd := hdr[..], hdr[b].(reading := true, async := async);
      FlagStep(forw[..], back[..], avForw[..], avBack[..], h, lists, avail, b, hd);
      IdleBuffer(h, inflight, modified, disk, logical, b);
      ChangeBuffer(h, inflight, modified, disk, logical, b, hd, inflight + {b}, modified, disk, logical);
      SleepersFrame(h, inflight, avail, freeWanted, sleepers, b, hd, inflight + {b}, avail);
      HoldersFrame(h, holder, b, hd, if async then holder - {b} else holder);
      hdr[b] := hdr[b].(reading := true, async := async);
      inflight := inflight + {b};
      if async {
        holder := holder - {b};
      }
    }

    /** iowait, up to its sleep: the holder of a buffer waits for its transfer, if that is not over. */
    method Iowait(pid: nat, b: int)
      requires Valid() && 0 <= b < hdr.Length && b in holder && (hdr[b].done || b in inflight)
      modifies this`sleepers
      ensures Valid() && sleepers == if b in inflight then old(sleepers)[pid := OnTransfer(b)] else old(sleepers)
    {
      hide DeviceLists, AvailList, Transparent, Sleepers, Ring, At;
      IdleBuffer(hdr[..], inflight, modified, disk, logical, b);
      HolderOf(hdr[..], holder, b);
      if !hdr[b].done {
        SleepOnTransfer(hdr[..], inflight, avail, freeWanted, sleepers, pid, b);
        sleepers := sleepers[pid := OnTransfer(b)];
      }
    }

    /** A buffer for a block, being read if it is not ready; its holder goes on. */
    method Start(pid: nat, dev: int, blkno: int) returns (r: Grant)
      requires Valid() && dev != NODEV && 0 <= Major(dev) < devices
      modifies forw, back, avForw, avBack, hdr, this`lists, this`inflight, this`avail, this`holder, this`logical,
               this`modified, this`sleepers, this`freeWanted
      ensures Valid() && SameContents(old(logical), logical) && modified == old(modified)
      ensures OthersKept(old(hdr[..]), hdr[..], old(holder), holder, old(inflight), inflight)
      ensures r.Granted? ==>
                && 0 <= r.b < hdr.Length && hdr[r.b].Id() == Key(dev, blkno) && sleepers == old(sleepers)
                && r.b !in old(holder) && holder == old(holder)[r.b := pid]
                && (r.b in inflight || (hdr[r.b].done && hdr[r.b].data == At(logical, Key(dev, blkno))))
      ensures r.Asleep? ==> holder == old(holder) && pid in sleepers
      ensures (r, View(old(logical))) == StartOf(old(Now()), pid, Key(dev, blkno))
    {
      hide DeviceLists, AvailList, Transparent, Sleepers, Holders, At, Ring, SameContents, OthersKept,
           GetOf;
      r := Getblk(pid, dev, blkno);
      if r.Granted? && !hdr[r.b].done {
        ghost var h, io := hdr[..], inflight;
        StartRead(r.b, false);
        KeptNew(old(hdr[..]), h, old(holder), holder, old(inflight), io, r.b, hdr[r.b], holder, inflight);
      }
    }

    /**
     * Reads a block: a buffer that is ready holds what was last written to the
     * block; one that is not is being read, its holder asleep.
     */
    method Bread(pid: nat, dev: int, blkno: int) returns (r: Grant)
      requires Valid() && dev != NODEV && 0 <= Major(dev) < devices
      modifies forw, back, avForw, avBack, hdr, this`lists, this`inflight, this`avail, this`holder, this`logical,
               this`modified, this`sleepers, this`freeWanted
      ensures Valid() && SameContents(old(logical), logical) && modified == old(modified)
      ensures OthersKept(old(hdr[..]), hdr[..], old(holder), holder, old(inflight), inflight)
      ensures r.Granted? ==>
                && 0 <= r.b < hdr.Length && hdr[r.b].Id() == Key(dev, blkno)
                && r.b !in old(holder) && holder == old(holder)[r.b := pid]
                && if r.b in inflight then sleepers == old(sleepers)[pid := OnTransfer(r.b)]
                   else hdr[r.b].done && hdr[r.b].data == At(logical, Key(dev, blkno)) && sleepers == old(sleepers)
      ensures r.Asleep? ==> holder == old(holder) && pid in sleepers
      ensures (r, View(old(logical))) == BreadOf(old(Now()), pid, Key(dev, blkno))
    {
      hide DeviceLists, AvailList, Transparent, Sleepers, Holders, At, Ring, SameContents, OthersKept,
           StartOf;
      r := Start(pid, dev, blkno);
      if r.Granted? {
        Iowait(pid, r.b);
      }
    }

    /** The read-ahead of breada: a block that is in no buffer is read into one that nobody will hold. */
    method ReadAhead(pid: nat, dev: int, blkno: int) returns (asleep: bool)
      requires Valid() && dev != NODEV && 0 <= Major(dev) < devices
      modifies forw, back, avForw, avBack, hdr, this`lists, this`inflight, this`avail, this`holder, this`logical,
               this`modified, this`sleepers, this`freeWanted
      ensures Valid() && SameContents(old(logical), logical) && modified == old(modified) && holder == old(holder)
      ensures OthersKept(old(hdr[..]), hdr[..], old(holder), holder, old(inflight), inflight)
      ensures if asleep then pid in sleepers
              else exists x :: 0 <= x < hdr.Length && hdr[x].Id() == Key(dev, blkno)
      ensures (asleep, View(old(logical))) == ReadAheadOf(old(Now()), pid, Key(dev, blkno))
    {
      hide DeviceLists, AvailList, Transparent, Sleepers, Holders, At, Ring, SameContents, OthersKept,
           AheadOf;
      asleep := false;
      NothingYet(hdr[..], logical, holder, inflight);
      var in0 := Incore(dev, blkno);
      if !in0 {
        asleep := AheadBlock(pid, dev, blkno);
      }
    }

    /** The same when the block was in no buffer, again after each sleep. */
    method AheadBlock(pid: nat, dev: int, blkno: int) returns (asleep: bool)
      requires Valid() && dev != NODEV && 0 <= Major(dev) < devices
      modifies forw, back, avForw, avBack, hdr, this`lists, this`inflight, this`avail, this`holder, this`logical,
               this`modified, this`sleepers, this`freeWanted
      ensures Valid() && SameContents(old(logical), logical) && modified == old(modified) && holder == old(holder)
      ensures OthersKept(old(hdr[..]), hdr[..], old(holder), holder, old(inflight), inflight)
      ensures if asleep then pid in sleepers
              else exists x :: 0 <= x < hdr.Length && hdr[x].Id() == Key(dev, blkno)
      ensures (asleep, View(old(logical))) == AheadOf(old(Now()), pid, Key(dev, blkno))
    {
      hide DeviceLists, AvailList, Transparent, Sleepers, Holders, At, Ring, SameContents, OthersKept,
           GetOf, AfterRelease;
      asleep := false;
      var r := Getblk(pid, dev, blkno);
      if r.Asleep? {
        asleep := true;
      } else {
        ghost var h, io, ho := hdr[..], inflight, holder;
        if hdr[r.b].done {
          Brelse(r.b);
        } else {
          StartRead(r.b, true);
        }
        KeptNew(old(hdr[..]), h, old(holder), ho, old(inflight), io, r.b, hdr[r.b], holder, inflight);
        assert hdr[..][r.b].Id() == Key(dev, blkno);
      }
    }

    /** breada from its read-ahead on: bp is the buffer of its block, held and perhaps being read, or -1. */
    method BreadaFrom(pid: nat, dev: int, blkno: int, rablkno: int, bp: int) returns (r: Progress)
      requires Valid() && dev != NODEV && 0 <= Major(dev) < devices && -1 <= bp < hdr.Length
      requires bp >= 0 ==>
                 && bp in holder && holder[bp] == pid && hdr[bp].Id() == Key(dev, blkno)
                 && (bp in inflight || (hdr[bp].done && hdr[bp].data == At(logical, Key(dev, blkno))))
      modifies forw, back, avForw, avBack, hdr, this`lists, this`inflight, this`avail, this`holder, this`logical,
               this`modified, this`sleepers, this`freeWanted
      ensures Valid() && SameContents(old(logical), logical) && modified == old(modified)
      ensures OthersKept(old(hdr[..]), hdr[..], old(holder), holder, old(inflight), inflight)
      ensures !r.InFirst? && (!r.Got? ==> pid in sleepers && holder == old(holder))
      ensures r.InAhead? ==> rablkno != 0 && r.b == bp && (bp >= 0 ==> hdr[bp].Id() == Key(dev, blkno))
      ensures r.InBread? ==> bp < 0
      ensures r.Got? ==>
                && 0 <= r.b < hdr.Length && hdr[r.b].Id() == Key(dev, blkno) && holder == old(holder)[r.b := pid]
                && (if bp < 0 then r.b !in old(holder) else r.b == bp)
                && if r.b in inflight then pid in sleepers && sleepers[pid] == OnTransfer(r.b)
                   else hdr[r.b].done && hdr[r.b].data == At(logical, Key(dev, blkno))
      ensures (r, View(old(logical))) == BreadaRest(old(Now()), pid, Key(dev, blkno), bp, rablkno)
    {
      hide DeviceLists, AvailList, Transparent, Sleepers, Holders, At, Ring, SameContents, OthersKept, StartOf,
           BreadOf, ReadAheadOf;
      ghost var h0, l0, ho0, io0 := hdr[..], logical, holder, inflight;
      NothingYet(h0, l0, ho0, io0);
      if rablkno != 0 {
        var asleep := ReadAhead(pid, dev, rablkno);
        KeptAt(h0, hdr[..], l0, logical, ho0, holder, io0, inflight, bp);
        if asleep {
          return InAhead(bp);
        }
      }
      if bp < 0 {
        ghost var h1, l1, ho1, io1 := hdr[..], logical, holder, inflight;
        BreadWith(Now(), l0, pid, Key(dev, blkno));
        var g := Bread(pid, dev, blkno);
        KeptAgain(h0, h1, hdr[..], l0, l1, logical, ho0, ho1, holder, io0, io1, inflight);
        r := if g.Asleep? then InBread else Got(g.b);
      } else {
        Iowait(pid, bp);
        r := Got(bp);
      }
    }

    /**
     * breada, up to its first sleep: the read of the block is started before the read-ahead, and waited for
     * after it. A process that sleeps in the middle goes on with the steps that are left: Start, AheadBlock
     * and Iowait, or Bread.
     */
    method Breada(pid: nat, dev: int, blkno: int, rablkno: int) returns (r: Progress)
      requires Valid() && dev != NODEV && 0 <= Major(dev) < devices && pid !in sleepers
      modifies forw, back, avForw, avBack, hdr, this`lists, this`inflight, this`avail, this`holder, this`logical,
               this`modified, this`sleepers, this`freeWanted
      ensures Valid() && SameContents(old(logical), logical) && modified == old(modified)
      ensures OthersKept(old(hdr[..]), hdr[..], old(holder), holder, old(inflight), inflight)
      ensures !r.Got? ==> pid in sleepers
      ensures r.InAhead? ==> rablkno != 0 && holder == if r.b < 0 then old(holder) else old(holder)[r.b := pid]
      ensures r.InAhead? && r.b >= 0 ==> r.b < hdr.Length && r.b !in old(holder) && hdr[r.b].Id() == Key(dev, blkno)
      ensures r.InFirst? || r.InBread? ==> holder == old(holder)
      ensures r.Got? ==>
                && 0 <= r.b < hdr.Length && hdr[r.b].Id() == Key(dev, blkno)
                && r.b !in old(holder) && holder == old(holder)[r.b := pid]
                && if r.b in inflight then pid in sleepers && sleepers[pid] == OnTransfer(r.b)
                   else hdr[r.b].done && hdr[r.b].data == At(logical, Key(dev, blkno))
      ensures (r, View(old(logical))) == BreadaOf(old(Now()), pid, Key(dev, blkno), rablkno)
    {
      hide DeviceLists, AvailList, Transparent, Sleepers, Holders, At, Ring, SameContents, OthersKept,
           StartOf, BreadaRest;
      ghost var h0, l0, ho0, io0 := hdr[..], logical, holder, inflight;
      var in0 := Incore(dev, blkno);
      if in0 {
        r := BreadaFrom(pid, dev, blkno, rablkno, -1);
      } else {
        var g := Start(pid, dev, blkno);
        if g.Asleep? {
          return InFirst;
        }
        ghost var h1, l1, ho1, io1 := hdr[..], logical, holder, inflight;
        RestWith(Now(), l0, pid, Key(dev, blkno), g.b, rablkno);
        r := BreadaFrom(pid, dev, blkno, rablkno, g.b);
        KeptAgain(h0, h1, hdr[..], l0, l1, logical, ho0, ho1, holder, io0, io1, inflight);
      }
    }

    /** Starts all delayed writes of a device, or of all devices, whose buffers are available. */
    method Bflush(pid: nat, dev: int)
      requires Valid()
      modifies avForw, avBack, hdr, this`inflight, this`avail, this`holder, this`logical, this`modified, this`sleepers
      ensures Valid() && SameContents(old(logical), logical) && modified == old(modified) && sleepers == old(sleepers)
      ensures forall x :: x in avail ==> 0 <= x < hdr.Length && !ToFlush(hdr[x], dev)
      ensures OthersKept(old(hdr[..]), hdr[..], old(holder), holder, old(inflight), inflight)
      ensures View(old(logical)) == Swept(old(Now()), dev, 0)
    {
      hide DeviceLists, AvailList, Transparent, Sleepers, Holders, At, Ring, SameContents, OthersKept,
           Flushed;
      ghost var h0, l0, ho0, io0 := hdr[..], logical, holder, inflight;
      ghost var s0 := Now();
      NothingYet(h0, l0, ho0, io0);
      FirstAvail(avForw[..], avBack[..], hdr[..], avail);
      var bp := avForw[hdr.Length];
      ghost var i := 0;
      AvailNode(avForw[..], avBack[..], hdr[..], avail, 0);
      while bp != hdr.Length
        invariant Valid() && SameContents(l0, logical) && modified == old(modified) && sleepers == old(sleepers)
        invariant OthersKept(h0, hdr[..], ho0, holder, io0, inflight)
        invariant 0 <= i <= |avail| && bp == Node(hdr.Length, avail, i + 1) && (bp == hdr.Length <==> i == |avail|)
        invariant forall j :: 0 <= j < i ==> 0 <= avail[j] < hdr.Length && !ToFlush(hdr[avail[j]], dev)
        invariant Swept(View(l0), dev, i) == Swept(s0, dev, 0)
        decreases |avail|, |avail| - i
      {
        assert bp == avail[i];
        AvailAt(avForw[..], avBack[..], hdr[..], avail, i);
        if ToFlush(hdr[bp], dev) {
          ghost var h1, l1, ho1, io1 := hdr[..], logical, holder, inflight;
          AvailDistinct(avForw[..], avBack[..], hdr[..], avail);
          SweptOver(View(l0), dev, i);
          FlushedWith(Now(), l0, bp);
          StartDelayed(pid, bp);
          KeptAgain(h0, h1, hdr[..], l0, l1, logical, ho0, ho1, holder, io0, io1, inflight);
          FirstAvail(avForw[..], avBack[..], hdr[..], avail);
          bp := avForw[hdr.Length];
          i := 0;
          AvailNode(avForw[..], avBack[..], hdr[..], avail, 0);
        } else {
          AvailNode(avForw[..], avBack[..], hdr[..], avail, i + 1);
          bp := avForw[bp];
          i := i + 1;
        }
      }
    }

    /** Takes an available buffer whose write was delayed and starts the write. */
    method StartDelayed(pid: nat, b: int)
      requires Valid() && 0 <= b < hdr.Length && b in avail && hdr[b].delwri
      modifies avForw, avBack, hdr, this`inflight, this`avail, this`holder, this`logical, this`modified, this`sleepers
      ensures Valid() && |avail| < |old(avail)| && modified == old(modified) && sleepers == old(sleepers)
      ensures SameContents(old(logical), logical) && OthersKept(old(hdr[..]), hdr[..], old(holder), holder,
                                                                old(inflight), inflight)
      ensures View(old(logical)) == Flushed(old(Now()), b)
    {
      hide DeviceLists, AvailList, Transparent, Sleepers, At, Ring;
      AvailMember(avForw[..], avBack[..], hdr[..], avail, b);
      RemoveShortens(avForw[..], avBack[..], hdr[..], avail, b);
      IdleBuffer(hdr[..], inflight, modified, disk, logical, b);
      HolderOf(hdr[..], holder, b);
      Notavail(pid, b);
      PutAt(logical, hdr[b].Id(), hdr[b].data);
      Bawrite(pid, b);
    }

    predicate MayUse(pid: nat, b: int)
      reads this`holder, this`inflight, this`sleepers, hdr
    {
      Usable(hdr.Length, holder, inflight, sleepers, pid, b)
    }

    /**
     * One step of the system. Steps that no well-behaved process would take, such
     * as releasing a changed buffer unwritten, are skipped.
     */
    method Step(e: Event)
      requires Valid()
      modifies forw, back, avForw, avBack, hdr, this`lists, this`inflight, this`avail, this`holder, this`logical,
               this`modified, this`sleepers, this`freeWanted, this`disk
      ensures Valid() && Follows(e, old(Now()), Now())
    {
      hide DeviceLists, AvailList, Transparent, Sleepers, At, SameContents, OthersKept, Follows, Claim, Swept;
      ghost var s := Now();
      if Target(e) != -1 {
        Act(e);
      } else if !e.Empty? && !e.Flush? {
        Ask(e);
      } else if e.p in sleepers {
        Skipped(e, s);
      } else if e.Empty? {
        var r := Geteblk(e.p);
        OthersFollow(e, s, Now());
      } else {
        Bflush(e.p, e.dev);
        OthersFollow(e, s, Now());
      }
    }

    /** The steps of a process that asks for a block. */
    method Ask(e: Event)
      requires Valid() && Target(e) == -1 && !e.Empty? && !e.Flush?
      modifies forw, back, avForw, avBack, hdr, this`lists, this`inflight, this`avail, this`holder, this`logical,
               this`modified, this`sleepers, this`freeWanted
      ensures Valid() && Follows(e, old(Now()), Now())
    {
      hide DeviceLists, AvailList, Transparent, Sleepers, At, SameContents, OthersKept, Follows, GetOf, BreadOf,
           StartOf, BreadaOf, ReadAheadOf, AheadOf;
      ghost var s := Now();
      if e.p in sleepers || e.dev == NODEV || !(0 <= Major(e.dev) < devices) {
        Skipped(e, s);
        return;
      }
      match e {
        case Get(p, dev, blkno) =>
          var r := Getblk(p, dev, blkno);
        case Read(p, dev, blkno) =>
          var r := Bread(p, dev, blkno);
        case Begin(p, dev, blkno) =>
          var r := Start(p, dev, blkno);
        case Both(p, dev, blkno, rablkno) =>
          var r := Breada(p, dev, blkno, rablkno);
        case Ahead(p, dev, blkno) =>
          var r := ReadAhead(p, dev, blkno);
        case Again(p, dev, blkno) =>
          var r := AheadBlock(p, dev, blkno);
      }
      OthersFollow(e, s, Now());
    }

    /** The steps that concern one held buffer, or one transfer. */
    method Act(e: Event)
      requires Valid() && Target(e) != -1
      modifies avForw, avBack, hdr, this`inflight, this`avail, this`holder, this`logical, this`modified,
               this`sleepers, this`freeWanted, this`disk
      ensures Valid() && Follows(e, old(Now()), Now())
    {
      hide DeviceLists, AvailList, Transparent, Sleepers, At, SameContents, OthersKept, Follows, AfterRelease, Arrived,
          Written;
      ghost var s := Now();
      if e.Write? || e.Delay? || e.Async? {
        if Writable(e.p, e.b) {
          Put(e);
        } else {
          Skipped(e, s);
        }
        return;
      }
      if e.Release? || e.Done? {
        End(e);
        return;
      }
      match e {
        case Await(p, b) =>
          if p !in sleepers && b in holder && holder[b] == p && b in inflight {
            HolderOf(hdr[..], holder, b);
            Iowait(p, b);
            OneFollows(e, s, Now(), b);
          } else {
            Skipped(e, s);
          }
        case Change(p, b, data) =>
          if MayUse(p, b) {
            Modify(b, data);
          }
          ChangeFollows(p, b, data, s, Now());
      }
    }

    /** A buffer is given up by its holder, or its transfer is over. */
    method End(e: Event)
      requires Valid() && (e.Release? || e.Done?)
      modifies avForw, avBack, hdr, this`inflight, this`avail, this`holder, this`disk, this`freeWanted, this`sleepers
      ensures Valid() && Follows(e, old(Now()), Now())
    {
      hide DeviceLists, AvailList, Transparent, Sleepers, At, SameContents, OthersKept, Follows, AfterRelease,
           Arrived, Released;
      ghost var s := Now();
      match e {
        case Release(p, b) =>
          if MayUse(p, b) && b !in modified {
            HolderOf(hdr[..], holder, b);
            Brelse(b);
            OneFollows(e, s, Now(), b);
          } else {
            Skipped(e, s);
          }
        case Done(b) =>
          if b in inflight {
            Iodone(b);
            OneFollows(e, s, Now(), b);
          } else {
            Skipped(e, s);
          }
      }
    }

    /** One of the writes, by the holder of a buffer. */
    method Put(e: Event)
      requires Valid() && (e.Write? || e.Delay? || e.Async?) && Writable(e.p, e.b)
      modifies avForw, avBack, hdr, this`inflight, this`avail, this`holder, this`logical, this`modified,
               this`sleepers, this`freeWanted
      ensures Valid() && Follows(e, old(Now()), Now())
    {
      hide DeviceLists, AvailList, Transparent, Sleepers, At, SameContents, OthersKept, Follows, Written, ReleaseOf;
      ghost var s := Now();
      HolderOf(hdr[..], holder, e.b);
      GivenOne(s, e);
      match e {
        case Write(p, b) =>
          Bwrite(p, b);
        case Delay(p, b, tape) =>
          Bdwrite(p, b, tape);
        case Async(p, b) =>
          Bawrite(p, b);
      }
      OneFollows(e, s, Now(), e.b);
    }

    predicate Writable(pid: nat, b: int)
      reads this`holder, this`inflight, this`sleepers, hdr
    {
      MayUse(pid, b) && hdr[b].dev != NODEV
    }

    /**
     * Any interleaving of any processes and of completions, state by state what the events say: written is
     * the last contents given to a write of each block. They are what the cache and the disk hold together:
     * every buffer that can be read has the contents written last to its block.
     */
    method Run(events: seq<Event>) returns (ghost states: seq<System>, ghost written: map<Key, Block>)
      requires Valid()
      modifies forw, back, avForw, avBack, hdr, this`lists, this`inflight, this`avail, this`holder, this`logical,
               this`modified, this`sleepers, this`freeWanted, this`disk
      ensures Valid() && |states| == |events| + 1 && states[0] == old(Now()) && states[|events|] == Now()
      ensures forall i :: 0 <= i < |events| ==> Follows(events[i], states[i], states[i + 1])
      ensures written == AllWritten(events, states) && SameContents(old(logical) + written, logical)
      ensures forall b :: 0 <= b < hdr.Length && hdr[b].dev != NODEV && hdr[b].done && b !in modified ==>
                hdr[b].data == At(old(logical) + written, hdr[b].Id())
      ensures forall k: Key :: k.dev != NODEV && (forall b :: 0 <= b < hdr.Length ==> hdr[b].Id() != k) ==>
                At(disk, k) == At(old(logical) + written, k)
    {
      hide DeviceLists, AvailList, Transparent, Sleepers, Holders, At, SameContents, AllWritten, Follows, WriteOf;
      states, written := [Now()], map[];
      ghost var l0 := logical;
      NoneWritten(l0, events, states);
      for i := 0 to |events|
        invariant Valid() && |states| == i + 1 && states[0] == old(Now()) && states[i] == Now()
        invariant forall j :: 0 <= j < i ==> Follows(events[j], states[j], states[j + 1])
        invariant written == AllWritten(events[..i], states) && SameContents(l0 + written, logical)
      {
        ghost var before, s := states, Now();
        Step(events[i]);
        states := states + [Now()];
        MoreWritten(l0, events, before, i, s, Now());
        written := AllWritten(events[..i + 1], states);
      }
      assert events[..|events|] == events;
      Readable(hdr[..], inflight, modified, disk, logical, l0 + written);
    }
  }

  // ---------------------------------------------------------------------------
  // What one step does.

  /** The buffer, if any, that a step is about. */
  function Target(e: Event): int {
    match e
    case Await(_, b) => if b == -1 then -2 else b
    case Change(_, b, _) => if b == -1 then -2 else b
    case Write(_, b) => if b == -1 then -2 else b
    case Delay(_, b, _) => if b == -1 then -2 else b
    case Async(_, b) => if b == -1 then -2 else b
    case Release(_, b) => if b == -1 then -2 else b
    case Done(b) => if b == -1 then -2 else b
    case _ => -1
  }

  /** All that has been written, the last contents of each block. */
  function AllWritten(events: seq<Event>, states: seq<System>): map<Key, Block>
    requires |events| < |states|
  {
    if events == [] then map[]
    else AllWritten(events[..|events| - 1], states) + WriteOf(events[|events| - 1], states[|events| - 1])
  }

  /** Held buffers other than b are as they were, but for B_WANTED. */
  ghost predicate KeptBut(s: System, t: System, b: int) {
    forall x :: x in s.holder && x != b && 0 <= x < |s.hdr| ==>
      && x in t.holder && t.holder[x] == s.holder[x] && (x in t.inflight <==> x in s.inflight)
      && |t.hdr| == |s.hdr| && t.hdr[x].(wanted := s.hdr[x].wanted) == s.hdr[x]
  }

  /**
   * What a step does: it makes of the cache what Made says; only a write, by its holder, changes the contents of
   * a block, to those of the buffer; and a held buffer changes only by a step about it.
   */
  ghost predicate Follows(e: Event, s: System, t: System) {
    && |t.hdr| == |s.hdr| && With(t, s.logical) == Made(e, s)
    && SameContents(s.logical + WriteOf(e, s), t.logical)
    && KeptBut(s, t, Target(e))
  }

  /** A step that does nothing. */
  lemma Skipped(e: Event, s: System)
    requires WriteOf(e, s) == map[] && Made(e, s) == s
    ensures Follows(e, s, s)
  {
    assert s.logical + map[] == s.logical;
  }

  lemma GivenOne(s: System, e: Event)
    requires e.Write? || e.Delay? || e.Async?
    requires Usable(|s.hdr|, s.holder, s.inflight, s.sleepers, e.p, e.b) && s.hdr[e.b].dev != NODEV
    ensures Target(e) == e.b && s.logical + WriteOf(e, s) == s.logical[s.hdr[e.b].Id() := s.hdr[e.b].data]
  {
  }

  lemma OthersFollow(e: Event, s: System, t: System)
    requires Target(e) == -1 && SameContents(s.logical, t.logical)
    requires OthersKept(s.hdr, t.hdr, s.holder, t.holder, s.inflight, t.inflight)
    requires With(t, s.logical) == Made(e, s)
    ensures Follows(e, s, t)
  {
    assert s.logical + map[] == s.logical;
  }

  lemma OneFollows(e: Event, s: System, t: System, b: int)
    requires Target(e) == b && 0 <= b < |s.hdr| == |t.hdr| && t.hdr == s.hdr[b := t.hdr[b]]
    requires t.holder == s.holder || t.holder == s.holder - {b}
    requires s.inflight - {b} <= t.inflight <= s.inflight + {b} && t.logical == s.logical + WriteOf(e, s)
    requires With(t, s.logical) == Made(e, s)
    ensures Follows(e, s, t)
  {
  }

  lemma ChangeFollows(p: nat, b: int, data: Block, s: System, t: System)
    requires t == Changed(s, p, b, data)
    ensures Follows(Change(p, b, data), s, t)
  {
    hide At;
    var e := Change(p, b, data);
    assert s.logical + map[] == s.logical;
    assert With(t, s.logical) == t == Made(e, s);
    assert Target(e) != b ==> b == -1;
  }

  lemma NoneWritten(l0: map<Key, Block>, events: seq<Event>, states: seq<System>)
    requires |states| > 0
    ensures AllWritten(events[..0], states) == map[] && SameContents(l0 + map[], l0)
  {
    assert l0 + map[] == l0;
  }

  lemma IdleBuffer(h: seq<Header>, inflight: set<int>, modified: set<int>, disk: map<Key, Block>,
                   logical: map<Key, Block>, b: int)
    requires Transparent(h, inflight, modified, disk, logical) && 0 <= b < |h|
    ensures BufferOk(h[b], b in inflight, b in modified, At(disk, h[b].Id()), At(logical, h[b].Id()))
    ensures !h[b].busy ==> b !in inflight && b !in modified && !h[b].async && !h[b].wanted
  {
  }

  lemma ReleaseWakes(h: seq<Header>, inflight: set<int>, avail: seq<int>, freeWanted: bool, sleepers: map<nat, Sleep>,
                     b: int, hd: Header, avail': seq<int>)
    requires Sleepers(h, inflight, avail, freeWanted, sleepers) && 0 <= b < |h| && b !in inflight
    ensures Sleepers(h[b := hd], inflight, avail', false, AfterRelease(sleepers, h[b].wanted, freeWanted, b))
  {
  }

  lemma PutAt(m: map<Key, Block>, key: Key, data: Block)
    ensures At(m[key := data], key) == data && forall k :: k != key ==> At(m[key := data], k) == At(m, k)
  {
  }

  lemma FlagStep(f: seq<int>, b: seq<int>, af: seq<int>, ab: seq<int>, h: seq<Header>, lists: seq<seq<int>>,
                 avail: seq<int>,
                 x: int, hd: Header)
    requires DeviceLists(f, b, h, lists) && AvailList(af, ab, h, avail)
    requires 0 <= x < |h| && hd.dev == h[x].dev && hd.busy == h[x].busy
    ensures DeviceLists(f, b, h[x := hd], lists) && AvailList(af, ab, h[x := hd], avail)
  {
    DeviceListsFrame(f, b, h, lists, x, hd);
    AvailListFrame(af, ab, h, avail, x, hd);
  }

  lemma SleepOnTransfer(h: seq<Header>, inflight: set<int>, avail: seq<int>, freeWanted: bool,
                        sleepers: map<nat, Sleep>,
                        pid: nat, b: int)
    requires Sleepers(h, inflight, avail, freeWanted, sleepers) && 0 <= b < |h| && b in inflight && !h[b].async
    ensures Sleepers(h, inflight, avail, freeWanted, sleepers[pid := OnTransfer(b)])
  {
  }

  lemma OnlyOwner(h: seq<Header>, inflight: set<int>, modified: set<int>, disk: map<Key, Block>,
                  logical: map<Key, Block>, b: int)
    requires Transparent(h, inflight, modified, disk, logical) && 0 <= b < |h| && h[b].dev != NODEV
    ensures Owner(h, h[b].Id()) == b
  {
    var x := Owner(h, h[b].Id());
  }

  lemma InflightBuffer(h: seq<Header>, inflight: set<int>, modified: set<int>, disk: map<Key, Block>,
                       logical: map<Key, Block>, b: int)
    requires Transparent(h, inflight, modified, disk, logical) && b in inflight
    ensures 0 <= b < |h| && BufferOk(h[b], true, b in modified, At(disk, h[b].Id()), At(logical, h[b].Id()))
  {
  }

  lemma HoldersStep(h: seq<Header>, holder: map<int, nat>, b: int, hd: Header)
    requires Holders(h, holder) && 0 <= b < |h| && hd.busy == h[b].busy && hd.async == h[b].async
    ensures Holders(h[b := hd], holder)
  {
  }

  lemma DoneWakes(h: seq<Header>, inflight: set<int>, avail: seq<int>, freeWanted: bool, sleepers: map<nat, Sleep>,
                  b: int, hd: Header)
    requires Sleepers(h, inflight, avail, freeWanted, sleepers) && b in inflight && 0 <= b < |h|
    requires hd.busy == h[b].busy && hd.async == h[b].async && (hd.async ==> hd.wanted == h[b].wanted)
    ensures if hd.async then Sleepers(h[b := hd], inflight - {b}, avail, freeWanted, sleepers)
            else Sleepers(h[b := hd], inflight - {b}, avail, freeWanted, Woken(sleepers, b))
    ensures hd.async ==> forall p :: p in sleepers ==>
            sleepers[p] != OnTransfer(b) && (sleepers[p] == OnBuffer(b) ==> hd.wanted)
  {
  }

  // ---------------------------------------------------------------------------
  // Moving a buffer from one device list to another.

  /** The lists while buffer x is on none of them. */
  ghost predicate DeviceListsBut(f: seq<int>, b: seq<int>, h: seq<Header>, lists: seq<seq<int>>, x: int) {
    && |lists| > 0 && |f| == |h| + |lists| && 0 <= x < |h|
    && (forall d :: 0 <= d < |lists| ==> Ring(f, b, Head(|h|, |lists| - 1, d), lists[d]))
    && (forall d :: 0 <= d < |lists| ==> HousedBut(lists[d], h, |lists| - 1, d, x))
    && (forall y :: 0 <= y < |h| ==> 0 <= Home(h[y], |lists| - 1) < |lists|)
  }

  ghost predicate HousedBut(s: seq<int>, h: seq<Header>, devices: nat, d: int, x: int) {
    forall y :: y in s <==> 0 <= y < |h| && Home(h[y], devices) == d && y != x
  }

  lemma LeaveList(f: seq<int>, b: seq<int>, h: seq<Header>, lists: seq<seq<int>>, x: int)
    requires DeviceLists(f, b, h, lists) && 0 <= x < |h|
    ensures 0 <= f[x] < |f| == |b| && 0 <= b[x] < |f| && f[x] != x && b[x] != x
    ensures var d := Home(h[x], |lists| - 1);
            && 0 <= d < |lists|
            && DeviceListsBut(f[b[x] := f[x]], b[f[x] := b[x]], h, lists[d := Without(lists[d], x)], x)
  {
    var n, k := |h|, |lists| - 1;
    var d := Home(h[x], k);
    assert Housed(lists[d], h, k, d) && x in lists[d];
    assert Ring(f, b, Head(n, k, d), lists[d]);
    RingRemove(f, b, Head(n, k, d), lists[d], x);
    var f', b', lists' := f[b[x] := f[x]], b[f[x] := b[x]], lists[d := Without(lists[d], x)];
    forall e | 0 <= e < |lists|
      ensures Ring(f', b', Head(n, k, e), lists'[e]) && HousedBut(lists'[e], h, k, e, x)
    {
      assert Housed(lists[e], h, k, e);
      if e != d {
        OtherRing(f, b, f', b', h, lists, d, e);
      }
    }
  }

  /** A ring is untouched by changes to the links of another ring's nodes. */
  lemma OtherRing(f: seq<int>, b: seq<int>, f': seq<int>, b': seq<int>, h: seq<Header>, lists: seq<seq<int>>, d: int,
                  e: int)
    requires 0 <= d < |lists| && 0 <= e < |lists| && d != e && |f| == |h| + |lists| == |f'| == |b'|
    requires Ring(f, b, Head(|h|, |lists| - 1, e), lists[e])
    requires forall y :: y in lists[e] ==> 0 <= y < |h| && Home(h[y], |lists| - 1) == e
    requires forall y :: 0 <= y < |f| && !(y == Head(|h|, |lists| - 1, d) || (y < |h| && Home(h[y], |lists| - 1) == d))
                         ==> f'[y] == f[y] && b'[y] == b[y]
    ensures Ring(f', b', Head(|h|, |lists| - 1, e), lists[e])
  {
    RingFrame(f, b, f', b', Head(|h|, |lists| - 1, e), lists[e]);
  }

  lemma JoinList(f: seq<int>, b: seq<int>, h: seq<Header>, lists: seq<seq<int>>, x: int, hd: Header)
    requires DeviceListsBut(f, b, h, lists, x) && 0 <= Home(hd, |lists| - 1) < |lists|
    ensures var d := Home(hd, |lists| - 1);
            var dp := Head(|h|, |lists| - 1, d);
            && 0 <= dp < |f| == |b| && 0 <= f[dp] < |f| && dp != x && f[dp] != x
            && DeviceLists(f[x := f[dp]][dp := x], b[x := dp][f[dp] := x], h[x := hd], lists[d := [x] + lists[d]])
  {
    var n, k := |h|, |lists| - 1;
    var d := Home(hd, k);
    var dp := Head(n, k, d);
    assert Ring(f, b, dp, lists[d]) && HousedBut(lists[d], h, k, d, x);
    RingFront(f, b, dp, lists[d], x);
    var f', b', h', lists' := f[x := f[dp]][dp := x], b[x := dp][f[dp] := x], h[x := hd], lists[d := [x] + lists[d]];
    forall e | 0 <= e < |lists|
      ensures Ring(f', b', Head(n, k, e), lists'[e]) && Housed(lists'[e], h', k, e)
    {
      hide Ring;
      JoinHoused(lists[e], h, k, e, x, hd);
      if e != d {
        assert HousedBut(lists[e], h, k, e, x);
        assert forall y :: y in lists[e] ==> h'[y] == h[y];
        OtherRing(f, b, f', b', h', lists, d, e);
      }
    }
  }

  lemma JoinHoused(s: seq<int>, h: seq<Header>, devices: nat, d: int, x: int, hd: Header)
    requires HousedBut(s, h, devices, d, x) && 0 <= x < |h|
    ensures Housed(if Home(hd, devices) == d then [x] + s else s, h[x := hd], devices, d)
  {
  }

  lemma ListOf(f: seq<int>, b: seq<int>, h: seq<Header>, lists: seq<seq<int>>, d: int)
    requires DeviceLists(f, b, h, lists) && 0 <= d < |lists|
    ensures Ring(f, b, Head(|h|, |lists| - 1, d), lists[d])
    ensures forall x :: x in lists[d] <==> 0 <= x < |h| && Home(h[x], |lists| - 1) == d
  {
    assert Housed(lists[d], h, |lists| - 1, d);
  }

  /** Buffers held before are held still, by the same processes, with the same contents; requests stay queued. */
  ghost predicate OthersKept(h: seq<Header>, h': seq<Header>, holder: map<int, nat>, holder': map<int, nat>,
                             inflight: set<int>, inflight': set<int>)
  {
    && |h'| == |h| && inflight <= inflight'
    && (forall x :: x in holder ==>
          && x in holder' && holder'[x] == holder[x]
          && (0 <= x < |h| ==> h'[x].(wanted := h[x].wanted) == h[x] && (x in inflight' ==> x in inflight)))
  }

  lemma FirstAvail(f: seq<int>, b: seq<int>, h: seq<Header>, avail: seq<int>)
    requires AvailList(f, b, h, avail)
    ensures |h| < |f| && (avail == [] <==> f[|h|] == |h|)
    ensures avail != [] ==> f[|h|] == avail[0] && 0 <= avail[0] < |h| && !h[avail[0]].busy
    ensures avail != [] ==> |Without(avail, avail[0])| < |avail|
  {
    RingNext(f, b, |h|, avail, 0);
    assert avail != [] ==> avail[0] in avail;
  }

  lemma NothingYet(h: seq<Header>, l: map<Key, Block>, holder: map<int, nat>, inflight: set<int>)
    ensures SameContents(l, l) && OthersKept(h, h, holder, holder, inflight, inflight)
  {
  }

  lemma HolderOf(h: seq<Header>, holder: map<int, nat>, b: int)
    requires Holders(h, holder)
    ensures b in holder <==> 0 <= b < |h| && h[b].busy && !h[b].async
  {
  }

  /** A buffer that no earlier holder holds, or the flag B_WANTED of any, may change. */
  lemma KeptFlag(h0: seq<Header>, h1: seq<Header>, ho0: map<int, nat>, io0: set<int>, io1: set<int>,
                 b: int, hd: Header, ho1: map<int, nat>, ho2: map<int, nat>)
    requires OthersKept(h0, h1, ho0, ho1, io0, io1) && 0 <= b < |h1|
    requires b in ho0 ==> hd.(wanted := h1[b].wanted) == h1[b]
    requires forall x :: x in ho1 ==> x in ho2 && ho2[x] == ho1[x]
    ensures OthersKept(h0, h1[b := hd], ho0, ho2, io0, io1)
  {
  }

  /** A buffer that no earlier holder holds may be read into, and given up. */
  lemma KeptNew(h0: seq<Header>, h1: seq<Header>, ho0: map<int, nat>, ho1: map<int, nat>, io0: set<int>, io1: set<int>,
                b: int, hd: Header, ho2: map<int, nat>, io2: set<int>)
    requires OthersKept(h0, h1, ho0, ho1, io0, io1) && 0 <= b < |h1| && b !in ho0 && io1 <= io2 <= io1 + {b}
    requires forall x :: x in ho0 ==> x in ho2 && ho2[x] == ho0[x]
    ensures OthersKept(h0, h1[b := hd], ho0, ho2, io0, io2)
  {
  }

  lemma KeptAt(h: seq<Header>, h': seq<Header>, l: map<Key, Block>, l': map<Key, Block>, ho: map<int, nat>,
               ho': map<int, nat>,
               io: set<int>, io': set<int>, b: int)
    requires OthersKept(h, h', ho, ho', io, io') && SameContents(l, l')
    ensures |h'| == |h| && forall k :: At(l', k) == At(l, k)
    ensures b in ho && 0 <= b < |h| ==> h'[b].(wanted := h[b].wanted) == h[b] && (b in io' <==> b in io)
  {
  }

  lemma KeptAgain(h0: seq<Header>, h1: seq<Header>, h2: seq<Header>, l0: map<Key, Block>, l1: map<Key, Block>,
                  l2: map<Key, Block>,
                  ho0: map<int, nat>, ho1: map<int, nat>, ho2: map<int, nat>, io0: set<int>, io1: set<int>,
                      io2: set<int>)
    requires OthersKept(h0, h1, ho0, ho1, io0, io1) && OthersKept(h1, h2, ho1, ho2, io1, io2)
    requires SameContents(l0, l1) && SameContents(l1, l2)
    ensures OthersKept(h0, h2, ho0, ho2, io0, io2) && SameContents(l0, l2)
  {
    hide At;
  }

  lemma AvailNode(f: seq<int>, b: seq<int>, h: seq<Header>, avail: seq<int>, i: nat)
    requires AvailList(f, b, h, avail) && i <= |avail|
    ensures |h| < |f| && 0 <= Node(|h|, avail, i) < |f| && f[Node(|h|, avail, i)] == Node(|h|, avail, i + 1)
    ensures Node(|h|, avail, i + 1) == |h| <==> i == |avail|
  {
    RingNext(f, b, |h|, avail, i);
  }

  lemma AvailAt(f: seq<int>, b: seq<int>, h: seq<Header>, avail: seq<int>, i: nat)
    requires AvailList(f, b, h, avail) && i < |avail|
    ensures 0 <= avail[i] < |h| && !h[avail[i]].busy
  {
    assert avail[i] in avail;
  }

  lemma AvailDistinct(f: seq<int>, b: seq<int>, h: seq<Header>, avail: seq<int>)
    requires AvailList(f, b, h, avail)
    ensures Distinct(avail)
  {
  }

  lemma RemoveShortens(f: seq<int>, b: seq<int>, h: seq<Header>, avail: seq<int>, x: int)
    requires AvailList(f, b, h, avail) && x in avail
    ensures |Without(avail, x)| < |avail|
  {
    var k := Position(avail, x);
    WithoutIs(avail, x, k);
  }

  lemma MoreWritten(l0: map<Key, Block>, events: seq<Event>, states: seq<System>, i: nat, s: System, t: System)
    requires i < |events| && |states| == i + 1 && states[i] == s && Follows(events[i], s, t)
    requires SameContents(l0 + AllWritten(events[..i], states), s.logical)
    ensures SameContents(l0 + AllWritten(events[..i + 1], states + [t]), t.logical)
  {
    var w, written := WriteOf(events[i], s), AllWritten(events[..i], states);
    assert events[..i + 1][..i] == events[..i];
    SameWritten(events[..i], states, states + [t]);
    forall k
      ensures At(t.logical, k) == At(l0 + (written + w), k)
    {
      assert At(s.logical, k) == At(l0 + written, k) && At(t.logical, k) == At(s.logical + w, k);
    }
  }

  lemma {:induction false} SameWritten(events: seq<Event>, states: seq<System>, more: seq<System>)
    requires |events| < |states| <= |more| && forall j :: 0 <= j < |states| ==> more[j] == states[j]
    ensures AllWritten(events, more) == AllWritten(events, states)
  {
    if events != [] {
      SameWritten(events[..|events| - 1], states, more);
    }
  }

  lemma Readable(h: seq<Header>, inflight: set<int>, modified: set<int>, disk: map<Key, Block>,
                 logical: map<Key, Block>,
                 expected: map<Key, Block>)
    requires Transparent(h, inflight, modified, disk, logical) && SameContents(expected, logical)
    ensures forall b :: 0 <= b < |h| && h[b].dev != NODEV && h[b].done && b !in modified ==>
            h[b].data == At(expected, h[b].Id())
    ensures forall k: Key :: k.dev != NODEV && (forall b :: 0 <= b < |h| ==> h[b].Id() != k) ==>
            At(disk, k) == At(expected, k)
  {
    hide At;
  }
}
