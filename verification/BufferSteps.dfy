/**
 * The buffer cache step by step, on values: what each call makes of the headers, the available list, the
 * transfers, the holders and the sleepers. Module BufferCache proves that the linked lists take these steps.
 */
module BufferSteps {
  import opened Sequences
  import opened Rings
  import opened BlockTree

  const NODEV: int := -1

  datatype Key = Key(dev: int, blkno: int)

  datatype Header = Header(dev: int, blkno: int, data: Block, busy: bool, done: bool, delwri: bool,
                           wanted: bool, age: bool, async: bool, reading: bool)
  {
    function Id(): Key {
      Key(dev, blkno)
    }
  }

  /** Why a process sleeps: a busy buffer, the transfer of its own buffer, or no available buffer. */
  datatype Sleep = OnBuffer(b: int) | OnTransfer(b: int) | OnFreeList

  /** What asking for a buffer leads to: a buffer, or sleep, after which the process asks again. */
  datatype Grant = Granted(b: int) | Asleep

  /**
   * How far breada has come: asleep for its block, asleep for the other one, perhaps holding the first,
   * asleep in bread, or through.
   */
  datatype Progress = InFirst | InAhead(b: int) | InBread | Got(b: int)

  function Major(dev: int): int {
    dev / 256 % 256
  }

  datatype Event =
    | Get(p: nat, dev: int, blkno: int)
    | Read(p: nat, dev: int, blkno: int)
    | Begin(p: nat, dev: int, blkno: int)
    | Both(p: nat, dev: int, blkno: int, rablkno: int)
    | Ahead(p: nat, dev: int, blkno: int)
    | Again(p: nat, dev: int, blkno: int)
    | Await(p: nat, b: int)
    | Empty(p: nat)
    | Flush(p: nat, dev: int)
    | Change(p: nat, b: int, data: Block)
    | Write(p: nat, b: int)
    | Delay(p: nat, b: int, tape: bool)
    | Async(p: nat, b: int)
    | Release(p: nat, b: int)
    | Done(b: int)

  /** The cache between two steps: logical is what was last written to each block. */
  datatype System = System(hdr: seq<Header>, inflight: set<int>, modified: set<int>, holder: map<int, nat>,
                           sleepers: map<nat, Sleep>, logical: map<Key, Block>, avail: seq<int>, freeWanted: bool,
                           devices: nat)

  function At(m: map<Key, Block>, k: Key): Block {
    if k in m then m[k] else ZeroBlock()
  }

  /** The processes sleeping on an address are awakened. */
  function Woken(sleepers: map<nat, Sleep>, b: int): map<nat, Sleep> {
    map p | p in sleepers && sleepers[p] != OnBuffer(b) && sleepers[p] != OnTransfer(b) :: sleepers[p]
  }

  function WokenFree(sleepers: map<nat, Sleep>): map<nat, Sleep> {
    map p | p in sleepers && sleepers[p] != OnFreeList :: sleepers[p]
  }

  function Released(hd: Header): Header {
    hd.(wanted := false, busy := false, async := false, age := false)
  }

  /** Who still sleeps after a release. */
  function AfterRelease(sleepers: map<nat, Sleep>, wanted: bool, freeWanted: bool, b: int): map<nat, Sleep> {
    var s := if wanted then Woken(sleepers, b) else sleepers;
    if freeWanted then WokenFree(s) else s
  }

  /** A header whose write has been started. */
  function Written(hd: Header): Header {
    hd.(reading := false, done := false, delwri := false, age := hd.async && hd.delwri)
  }

  /** b_flags = B_BUSY, and a new block. The contents of the buffer stay what they were. */
  function Fresh(hd: Header, dev: int, blkno: int): Header {
    Header(dev, blkno, hd.data, true, false, false, false, false, false, false)
  }

  predicate ToFlush(hd: Header, dev: int) {
    hd.delwri && (dev == NODEV || dev == hd.dev)
  }

  /** A process may do something to a buffer: it is awake and holds it, and its own transfer is over. */
  predicate Usable(n: nat, holder: map<int, nat>, inflight: set<int>, sleepers: map<nat, Sleep>, pid: nat, b: int) {
    pid !in sleepers && b in holder && holder[b] == pid && b !in inflight && 0 <= b < n
  }

  /** The contents written by a step, and the block: those of a buffer that its holder gives to one of the writes. */
  function WriteOf(e: Event, s: System): map<Key, Block> {
    match e
    case Write(p, b) => Given(s, p, b)
    case Delay(p, b, _) => Given(s, p, b)
    case Async(p, b) => Given(s, p, b)
    case _ => map[]
  }

  function Given(s: System, p: nat, b: int): map<Key, Block> {
    if Usable(|s.hdr|, s.holder, s.inflight, s.sleepers, p, b) && s.hdr[b].dev != NODEV
    then map[s.hdr[b].Id() := s.hdr[b].data] else map[]
  }

  function Changed(s: System, p: nat, b: int, data: Block): System {
    if Usable(|s.hdr|, s.holder, s.inflight, s.sleepers, p, b)
    then s.(hdr := s.hdr[b := s.hdr[b].(data := data)],
            modified := if s.hdr[b].dev == NODEV then s.modified else s.modified + {b})
    else s
  }

  /** The same contents of every block. */
  ghost predicate SameContents(l: map<Key, Block>, m: map<Key, Block>) {
    forall k :: At(m, k) == At(l, k)
  }

  // ---------------------------------------------------------------------------
  // Finding and giving up buffers.

  /** The buffer of a block, or -1. */
  function Owner(h: seq<Header>, key: Key): (b: int)
    ensures -1 <= b < |h| && (b >= 0 ==> h[b].Id() == key)
    ensures b < 0 ==> forall x :: 0 <= x < |h| ==> h[x].Id() != key
  {
    if h == [] then -1 else if h[|h| - 1].Id() == key then |h| - 1 else Owner(h[..|h| - 1], key)
  }

  /** The first available buffer, or -1. */
  function Oldest(s: System): (b: int)
    ensures -1 <= b < |s.hdr| && (b >= 0 ==> s.avail != [] && b == s.avail[0])
  {
    if s.avail != [] && 0 <= s.avail[0] < |s.hdr| then s.avail[0] else -1
  }

  /** A buffer taken off the available list for a process. */
  function Taken(s: System, pid: nat, b: int): System
    requires 0 <= b < |s.hdr|
  {
    s.(hdr := s.hdr[b := s.hdr[b].(busy := true)], avail := Without(s.avail, b), holder := s.holder[b := pid])
  }

  /** The header of a buffer whose delayed write is started for nobody. */
  function Outgoing(hd: Header): (r: Header)
    ensures r.Id() == hd.Id()
  {
    Written(hd.(busy := true, async := true))
  }

  function Flushed(s: System, b: int): System
    requires 0 <= b < |s.hdr|
  {
    s.(hdr := s.hdr[b := Outgoing(s.hdr[b])], avail := Without(s.avail, b), inflight := s.inflight + {b})
  }

  /** The delayed writes in front of the available list are started. */
  function Drained(s: System): (t: System)
    ensures |t.hdr| == |s.hdr|
    decreases |s.avail|
  {
    var b := Oldest(s);
    if b >= 0 && s.hdr[b].delwri then Drained(Flushed(s, b)) else s
  }

  /** All delayed writes of a device that are available, from place i of the list on, are started. */
  function Swept(s: System, dev: int, i: nat): (t: System)
    requires i <= |s.avail|
    ensures |t.hdr| == |s.hdr|
    decreases |s.avail| - i
  {
    if i == |s.avail| then s
    else
      var b := s.avail[i];
      if 0 <= b < |s.hdr| && ToFlush(s.hdr[b], dev) then
        WithoutShorter(s.avail, i);
        Swept(Flushed(s, b), dev, i)
      else Swept(s, dev, i + 1)
  }

  lemma {:induction false} WithoutShorter(s: seq<int>, i: nat)
    requires i < |s|
    ensures |Without(s, s[i])| == |s| - 1
  {
    if s[0] != s[i] {
      WithoutShorter(s[1..], i - 1);
    }
  }

  function ReleaseOf(s: System, b: int): System
    requires 0 <= b < |s.hdr|
  {
    s.(hdr := s.hdr[b := Released(s.hdr[b])],
       avail := if s.hdr[b].age then [b] + s.avail else s.avail + [b], holder := s.holder - {b}, freeWanted := false,
       sleepers := AfterRelease(s.sleepers, s.hdr[b].wanted, s.freeWanted, b))
  }

  /** The oldest available buffer without a delayed write, given to a block, or to none; or sleep. */
  function Claim(s: System, pid: nat, key: Key): (r: (Grant, System))
    ensures |r.1.hdr| == |s.hdr| && (r.0.Granted? ==> 0 <= r.0.b < |s.hdr|)
  {
    var u := Drained(s);
    var b := Oldest(u);
    if b < 0 then (Asleep, u.(freeWanted := true, sleepers := u.sleepers[pid := OnFreeList]))
    else
      var v := Taken(u, pid, b);
      (Granted(b), v.(hdr := v.hdr[b := Fresh(v.hdr[b], key.dev, if key.dev == NODEV then v.hdr[b].blkno
                                              else key.blkno)]))
  }

  /** The buffer that has a block, or sleep on it while it is busy. */
  function FoundOf(s: System, pid: nat, x: int): (Grant, System)
    requires 0 <= x < |s.hdr|
  {
    if s.hdr[x].busy then
      (Asleep, s.(hdr := s.hdr[x := s.hdr[x].(wanted := true)], sleepers := s.sleepers[pid := OnBuffer(x)]))
    else (Granted(x), Taken(s, pid, x))
  }

  /** getblk, up to its first sleep. */
  function GetOf(s: System, pid: nat, key: Key): (r: (Grant, System))
    ensures |r.1.hdr| == |s.hdr| && (r.0.Granted? ==> 0 <= r.0.b < |s.hdr|)
  {
    var x := Owner(s.hdr, key);
    if x < 0 then Claim(s, pid, key) else FoundOf(s, pid, x)
  }

  /** The read of a held buffer is queued; an asynchronous one takes the buffer from its holder. */
  function Reading(s: System, b: int, async: bool): System
    requires 0 <= b < |s.hdr|
  {
    s.(hdr := s.hdr[b := s.hdr[b].(reading := true, async := async)], inflight := s.inflight + {b},
       holder := if async then s.holder - {b} else s.holder)
  }

  function StartOf(s: System, pid: nat, key: Key): (r: (Grant, System))
    ensures |r.1.hdr| == |s.hdr| && (r.0.Granted? ==> 0 <= r.0.b < |s.hdr|)
  {
    var g := GetOf(s, pid, key);
    if g.0.Granted? && !g.1.hdr[g.0.b].done then (g.0, Reading(g.1, g.0.b, false)) else g
  }

  /** iowait, up to its sleep. */
  function Waiting(s: System, pid: nat, b: int): System {
    if b in s.inflight then s.(sleepers := s.sleepers[pid := OnTransfer(b)]) else s
  }

  function BreadOf(s: System, pid: nat, key: Key): (r: (Grant, System))
    ensures |r.1.hdr| == |s.hdr| && (r.0.Granted? ==> 0 <= r.0.b < |s.hdr|)
  {
    var g := StartOf(s, pid, key);
    if g.0.Granted? then (g.0, Waiting(g.1, pid, g.0.b)) else g
  }

  /** The read-ahead of a block that was in no buffer; the flag says that the process sleeps. */
  function AheadOf(s: System, pid: nat, key: Key): (r: (bool, System))
    ensures |r.1.hdr| == |s.hdr|
  {
    var g := GetOf(s, pid, key);
    if g.0.Asleep? then (true, g.1)
    else if g.1.hdr[g.0.b].done then (false, ReleaseOf(g.1, g.0.b))
    else (false, Reading(g.1, g.0.b, true))
  }

  function ReadAheadOf(s: System, pid: nat, key: Key): (r: (bool, System))
    ensures |r.1.hdr| == |s.hdr|
  {
    if Owner(s.hdr, key) < 0 then AheadOf(s, pid, key) else (false, s)
  }

  /** breada from its read-ahead on, up to its first sleep; b is the buffer of its block, or -1. */
  function BreadaRest(s: System, pid: nat, key: Key, b: int, rablkno: int): (Progress, System) {
    var a := if rablkno != 0 then ReadAheadOf(s, pid, Key(key.dev, rablkno)) else (false, s);
    if a.0 then (InAhead(b), a.1)
    else if b < 0 then
      var g := BreadOf(a.1, pid, key);
      (if g.0.Asleep? then InBread else Got(g.0.b), g.1)
    else (Got(b), Waiting(a.1, pid, b))
  }

  /** breada, up to its first sleep. */
  function BreadaOf(s: System, pid: nat, key: Key, rablkno: int): (Progress, System) {
    if Owner(s.hdr, key) >= 0 then BreadaRest(s, pid, key, -1, rablkno)
    else
      var g := StartOf(s, pid, key);
      if g.0.Asleep? then (InFirst, g.1) else BreadaRest(g.1, pid, key, g.0.b, rablkno)
  }

  // ---------------------------------------------------------------------------
  // The other steps.

  function WriteStarted(s: System, pid: nat, b: int): System
    requires 0 <= b < |s.hdr|
  {
    s.(hdr := s.hdr[b := Written(s.hdr[b])], inflight := s.inflight + {b}, modified := s.modified - {b},
       sleepers := if s.hdr[b].async then s.sleepers else s.sleepers[pid := OnTransfer(b)])
  }

  function WriteGivenUp(s: System, b: int): System
    requires 0 <= b < |s.hdr|
  {
    s.(hdr := s.hdr[b := Written(s.hdr[b].(async := true))], inflight := s.inflight + {b},
       modified := s.modified - {b}, holder := s.holder - {b})
  }

  function WriteDelayed(s: System, b: int): System
    requires 0 <= b < |s.hdr|
  {
    ReleaseOf(s.(hdr := s.hdr[b := s.hdr[b].(delwri := true, done := true)], modified := s.modified - {b}), b)
  }

  /** The data have arrived, or are on the disk; the holder, if there is one, is awakened. */
  function Arrived(s: System, b: int): System
    requires 0 <= b < |s.hdr|
  {
    var hd := s.hdr[b].(data := At(s.logical, s.hdr[b].Id()), done := true);
    s.(hdr := s.hdr[b := if hd.async then hd else hd.(wanted := false)], inflight := s.inflight - {b},
       sleepers := if hd.async then s.sleepers else Woken(s.sleepers, b))
  }

  /** The end of a transfer; a buffer without a holder is given up. */
  function Finished(s: System, b: int): System
    requires 0 <= b < |s.hdr|
  {
    if s.hdr[b].async then ReleaseOf(Arrived(s, b), b) else Arrived(s, b)
  }

  predicate Asks(s: System, pid: nat, dev: int) {
    pid !in s.sleepers && dev != NODEV && 0 <= Major(dev) < s.devices
  }

  predicate Uses(s: System, pid: nat, b: int) {
    Usable(|s.hdr|, s.holder, s.inflight, s.sleepers, pid, b)
  }

  /**
   * The cache after a step, but for the logical contents. Steps that no well-behaved process would take, such
   * as releasing a changed buffer unwritten, are skipped.
   */
  function Made(e: Event, s: System): System {
    match e
    case Get(p, dev, blkno) => if Asks(s, p, dev) then GetOf(s, p, Key(dev, blkno)).1 else s
    case Read(p, dev, blkno) => if Asks(s, p, dev) then BreadOf(s, p, Key(dev, blkno)).1 else s
    case Begin(p, dev, blkno) => if Asks(s, p, dev) then StartOf(s, p, Key(dev, blkno)).1 else s
    case Both(p, dev, blkno, ra) => if Asks(s, p, dev) then BreadaOf(s, p, Key(dev, blkno), ra).1 else s
    case Ahead(p, dev, blkno) => if Asks(s, p, dev) then ReadAheadOf(s, p, Key(dev, blkno)).1 else s
    case Again(p, dev, blkno) => if Asks(s, p, dev) then AheadOf(s, p, Key(dev, blkno)).1 else s
    case Await(p, b) => if p !in s.sleepers && b in s.holder && s.holder[b] == p then Waiting(s, p, b) else s
    case Empty(p) => if p !in s.sleepers then Claim(s, p, Key(NODEV, 0)).1 else s
    case Flush(p, dev) => if p !in s.sleepers then Swept(s, dev, 0) else s
    case Change(p, b, data) => Changed(s, p, b, data)
    case Write(p, b) => if Uses(s, p, b) && s.hdr[b].dev != NODEV then WriteStarted(s, p, b) else s
    case Delay(p, b, tape) =>
      if !(Uses(s, p, b) && s.hdr[b].dev != NODEV) then s
      else if tape then WriteGivenUp(s, b) else WriteDelayed(s, b)
    case Async(p, b) => if Uses(s, p, b) && s.hdr[b].dev != NODEV then WriteGivenUp(s, b) else s
    case Release(p, b) => if Uses(s, p, b) && b !in s.modified then ReleaseOf(s, b) else s
    case Done(b) => if b in s.inflight && 0 <= b < |s.hdr| then Finished(s, b) else s
  }

  // ---------------------------------------------------------------------------
  // What the steps mean.

  lemma {:induction false} OwnerIs(h: seq<Header>, key: Key, x: int)
    requires 0 <= x < |h| && h[x].Id() == key
    requires forall y :: 0 <= y < |h| && y != x ==> h[y].Id() != key
    ensures Owner(h, key) == x
  {
  }

  /** The buffers at the front of the available list whose writes are delayed. */
  function Delayed(h: seq<Header>, avail: seq<int>): (n: nat)
    ensures n <= |avail|
    ensures forall i :: 0 <= i < n ==> 0 <= avail[i] < |h| && h[avail[i]].delwri
    ensures n < |avail| ==> !(0 <= avail[n] < |h| && h[avail[n]].delwri)
  {
    if avail != [] && 0 <= avail[0] < |h| && h[avail[0]].delwri then 1 + Delayed(h, avail[1..]) else 0
  }

  /** The front of the available list, n buffers, has been started. */
  ghost predicate FrontStarted(s: System, t: System, n: nat) {
    && n <= |s.avail| && t.avail == s.avail[n..]
    && t.inflight == s.inflight + (set b | b in s.avail[..n])
    && |t.hdr| == |s.hdr|
    && (forall x :: 0 <= x < |s.hdr| ==> t.hdr[x] == if x in s.avail[..n] then Outgoing(s.hdr[x]) else s.hdr[x])
    && t == s.(hdr := t.hdr, avail := t.avail, inflight := t.inflight)
  }

  /** Exactly the delayed writes at the front are started; the others stay available, in their order. */
  lemma {:induction false} DrainedIs(s: System)
    requires Distinct(s.avail)
    ensures FrontStarted(s, Drained(s), Delayed(s.hdr, s.avail))
    decreases |s.avail|
  {
    hide FrontStarted;
    var b := Oldest(s);
    if b >= 0 && s.hdr[b].delwri {
      var u := Flushed(s, b);
      var n := Delayed(s.hdr, s.avail[1..]);
      DelayedFrame(s.hdr, u.hdr, s.avail[1..]);
      DrainedIs(u);
      OneMoreStarted(s, Drained(u), n);
    } else {
      NoneStarted(s);
    }
  }

  lemma NoneStarted(s: System)
    ensures FrontStarted(s, s, 0)
  {
    assert s.inflight + (set b | b in s.avail[..0]) == s.inflight;
  }

  lemma OneMoreStarted(s: System, t: System, n: nat)
    requires Distinct(s.avail) && Oldest(s) >= 0 && FrontStarted(Flushed(s, Oldest(s)), t, n)
    ensures FrontStarted(s, t, n + 1)
  {
    hide Outgoing;
    var b := Oldest(s);
    var front, more := s.avail[1..][..n], s.avail[..n + 1];
    assert more == [b] + front && b !in front;
    assert (set x | x in more) == {b} + (set x | x in front);
  }

  lemma {:induction false} DelayedFrame(h: seq<Header>, h': seq<Header>, avail: seq<int>)
    requires |h'| == |h| && forall x :: x in avail && 0 <= x < |h| ==> h'[x] == h[x]
    ensures Delayed(h', avail) == Delayed(h, avail)
  {
    if avail != [] {
      DelayedFrame(h, h', avail[1..]);
    }
  }

  /** The available list names idle buffers, each of them once. */
  ghost predicate Listed(s: System) {
    Distinct(s.avail) && forall b :: b in s.avail ==> 0 <= b < |s.hdr| && b !in s.inflight
  }

  /**
   * Who gets a buffer and who sleeps, and on what: a process sleeps on the buffer of its block if that is busy,
   * and on the free list if no buffer has the block and none is available but for delayed writes. Otherwise it gets
   * the buffer of its block, or the oldest available one whose write is not delayed.
   */
  lemma GetCases(s: System, pid: nat, key: Key)
    requires Listed(s) && key.dev != NODEV
    ensures var g, x := GetOf(s, pid, key), Owner(s.hdr, key);
            && (g.0.Asleep? <==> if x >= 0 then s.hdr[x].busy else forall b :: b in s.avail ==> s.hdr[b].delwri)
            && (g.0.Asleep? ==> g.1.sleepers == s.sleepers[pid := if x >= 0 then OnBuffer(x) else OnFreeList])
            && (g.0.Asleep? && x < 0 ==> g.1.avail == [] && g.1.freeWanted)
            && (g.0.Granted? && x >= 0 ==> g.0.b == x && g.1.hdr == s.hdr[x := s.hdr[x].(busy := true)])
            && (g.0.Granted? && x < 0 ==>
                  var n := Delayed(s.hdr, s.avail);
                  && n < |s.avail| && g.0.b == s.avail[n] && !s.hdr[s.avail[n]].delwri && g.1.hdr[g.0.b].Id() == key
                  && forall i :: 0 <= i < n ==> s.hdr[s.avail[i]].delwri)
  {
    if Owner(s.hdr, key) < 0 {
      ClaimCases(s, pid, key);
    }
  }

  /** What is left after the delayed writes at the front have been started. */
  lemma DrainedFront(s: System)
    requires Listed(s)
    ensures var u, n := Drained(s), Delayed(s.hdr, s.avail);
            && u.avail == s.avail[n..] && u.inflight == s.inflight + (set b | b in s.avail[..n])
            && u.sleepers == s.sleepers && (forall x :: 0 <= x < |s.hdr| ==> u.hdr[x].Id() == s.hdr[x].Id())
            && Oldest(u) == if n == |s.avail| then -1 else s.avail[n]
  {
    hide Outgoing;
    DrainedIs(s);
    var n := Delayed(s.hdr, s.avail);
    if n < |s.avail| {
      assert s.avail[n] in s.avail;
    }
  }

  lemma AllDelayed(s: System)
    requires Listed(s)
    ensures Delayed(s.hdr, s.avail) == |s.avail| <==> forall b :: b in s.avail ==> s.hdr[b].delwri
  {
    var n := Delayed(s.hdr, s.avail);
    if n < |s.avail| {
      assert s.avail[n] in s.avail;
    } else {
      assert forall b :: b in s.avail ==> exists i :: 0 <= i < n && s.avail[i] == b;
    }
  }

  lemma ClaimCases(s: System, pid: nat, key: Key)
    requires Listed(s)
    ensures var g, n := Claim(s, pid, key), Delayed(s.hdr, s.avail);
            && (g.0.Asleep? <==> n == |s.avail|) && (g.0.Asleep? <==> forall b :: b in s.avail ==> s.hdr[b].delwri)
            && (g.0.Asleep? ==> g.1.avail == [] && g.1.freeWanted && g.1.sleepers == s.sleepers[pid := OnFreeList])
            && (g.0.Granted? ==> g.0.b == s.avail[n] && !s.hdr[s.avail[n]].delwri && g.1.avail == s.avail[n + 1..]
                                 && g.1.hdr[g.0.b].dev == key.dev && (key.dev != NODEV ==> g.1.hdr[g.0.b].Id() == key)
                                 && g.1.hdr[g.0.b].busy && !g.1.hdr[g.0.b].done)
            && g.1.inflight == s.inflight + (set b | b in s.avail[..n])
            && forall x :: 0 <= x < |s.hdr| ==> g.1.hdr[x].Id() == s.hdr[x].Id() || g.0 == Granted(x)
  {
    hide Drained, Listed, Oldest;
    DrainedFront(s);
    AllDelayed(s);
    var n := Delayed(s.hdr, s.avail);
    if n < |s.avail| {
      NthInRange(s, n);
    }
  }

  lemma NthInRange(s: System, n: nat)
    requires Listed(s) && n < |s.avail|
    ensures 0 <= s.avail[n] < |s.hdr|
  {
    assert s.avail[n] in s.avail;
  }

  /** The available list stays as it should, without the buffer taken. */
  lemma ClaimListed(s: System, pid: nat, key: Key)
    requires Listed(s)
    ensures var g := Claim(s, pid, key);
            Listed(g.1) && (g.0.Granted? ==> g.0.b !in g.1.avail && g.0.b !in g.1.inflight)
  {
    hide Claim;
    ClaimCases(s, pid, key);
    var g, n := Claim(s, pid, key), Delayed(s.hdr, s.avail);
    if g.0.Granted? {
      var rest := s.avail[n + 1..];
      forall b | b in rest
        ensures b in s.avail && b !in s.avail[..n] && b != s.avail[n]
      {
        var i :| 0 <= i < |rest| && rest[i] == b;
        assert s.avail[n + 1 + i] == b;
      }
      assert s.avail[n] in s.avail && s.avail[n] !in s.avail[..n];
    }
  }

  /** A buffer is being read, or written, for a block. */
  ghost predicate InFlight(s: System, key: Key, x: int) {
    x in s.inflight && x !in s.avail && 0 <= x < |s.hdr| && s.hdr[x].Id() == key
  }

  lemma {:induction false} DrainedKeeps(s: System, key: Key, x: int)
    requires InFlight(s, key, x)
    ensures InFlight(Drained(s), key, x)
    decreases |s.avail|
  {
    var b := Oldest(s);
    if b >= 0 && s.hdr[b].delwri {
      DrainedKeeps(Flushed(s, b), key, x);
    }
  }

  lemma {:induction false} WithoutWithin(s: seq<int>, x: int)
    ensures forall y :: y in Without(s, x) ==> y in s
  {
    if s != [] && s[0] != x {
      WithoutWithin(s[1..], x);
    }
  }

  /** A transfer in flight goes on while a process asks for a block. */
  lemma GetKeeps(s: System, pid: nat, key: Key, other: Key, x: int)
    requires InFlight(s, other, x) && (Owner(s.hdr, key) == x ==> s.hdr[x].busy)
    ensures InFlight(GetOf(s, pid, key).1, other, x)
  {
    hide Outgoing;
    DrainedKeeps(s, other, x);
    var u := Drained(s);
    WithoutWithin(u.avail, Oldest(u));
    WithoutWithin(s.avail, Owner(s.hdr, key));
  }

  lemma BreadKeeps(s: System, pid: nat, key: Key, other: Key, x: int)
    requires InFlight(s, other, x) && (Owner(s.hdr, key) == x ==> s.hdr[x].busy)
    ensures InFlight(BreadOf(s, pid, key).1, other, x)
  {
    hide GetOf;
    GetKeeps(s, pid, key, other, x);
  }

  /** A block that is in no buffer is being read after a process that did not sleep has asked for it. */
  lemma StartReads(s: System, pid: nat, key: Key)
    requires Listed(s) && Owner(s.hdr, key) < 0 && key.dev != NODEV
    ensures var g := StartOf(s, pid, key);
            g.0.Granted? ==> Listed(g.1) && InFlight(g.1, key, g.0.b)
                             && forall x :: 0 <= x < |s.hdr| && x != g.0.b ==> g.1.hdr[x].Id() == s.hdr[x].Id()
  {
    hide Claim;
    ClaimCases(s, pid, key);
    ClaimListed(s, pid, key);
  }

  lemma AheadReads(s: System, pid: nat, key: Key)
    requires Listed(s) && Owner(s.hdr, key) < 0 && key.dev != NODEV
    ensures var a := AheadOf(s, pid, key);
            !a.0 ==> exists x :: InFlight(a.1, key, x) && a.1.hdr[x].busy
  {
    hide Claim;
    ClaimCases(s, pid, key);
    ClaimListed(s, pid, key);
    var g := Claim(s, pid, key);
    if g.0.Granted? {
      var t := Reading(g.1, g.0.b, true);
      assert InFlight(t, key, g.0.b) && t.hdr[g.0.b].busy;
    }
  }

  /** breada starts its read-ahead: unless it sleeps before it, the other block is on its way afterwards. */
  lemma BreadaReadsAhead(s: System, pid: nat, key: Key, rablkno: int)
    requires Listed(s) && key.dev != NODEV && rablkno != 0 && Owner(s.hdr, Key(key.dev, rablkno)) < 0
    ensures var r := BreadaOf(s, pid, key, rablkno);
            r.0.Got? || r.0.InBread? ==> exists x :: InFlight(r.1, Key(key.dev, rablkno), x)
  {
    hide StartOf, AheadOf, BreadOf;
    var other := Key(key.dev, rablkno);
    if Owner(s.hdr, key) >= 0 {
      AheadReads(s, pid, other);
      var a := AheadOf(s, pid, other);
      if !a.0 {
        var x :| InFlight(a.1, other, x) && a.1.hdr[x].busy;
        BreadKeeps(a.1, pid, key, other, x);
      }
    } else {
      StartReads(s, pid, key);
      var g := StartOf(s, pid, key);
      if g.0.Granted? {
        if Owner(g.1.hdr, other) < 0 {
          AheadReads(g.1, pid, other);
          var a := AheadOf(g.1, pid, other);
          if !a.0 {
            var x :| InFlight(a.1, other, x) && a.1.hdr[x].busy;
            assert InFlight(Waiting(a.1, pid, g.0.b), other, x);
          }
        } else {
          assert InFlight(Waiting(g.1, pid, g.0.b), other, g.0.b);
        }
      }
    }
  }

  // ---------------------------------------------------------------------------
  // The steps of asking for buffers pay no heed to the logical contents.

  function With(s: System, l: map<Key, Block>): System {
    s.(logical := l)
  }

  lemma FlushedWith(s: System, l: map<Key, Block>, b: int)
    requires 0 <= b < |s.hdr|
    ensures Flushed(With(s, l), b) == With(Flushed(s, b), l)
  {
  }

  lemma {:induction false} DrainedWith(s: System, l: map<Key, Block>)
    ensures Drained(With(s, l)) == With(Drained(s), l)
    decreases |s.avail|
  {
    var b := Oldest(s);
    if b >= 0 && s.hdr[b].delwri {
      DrainedWith(Flushed(s, b), l);
      assert Flushed(With(s, l), b) == With(Flushed(s, b), l);
    }
  }

  lemma GetWith(s: System, l: map<Key, Block>, pid: nat, key: Key)
    ensures var g := GetOf(s, pid, key);
            GetOf(With(s, l), pid, key) == (g.0, With(g.1, l))
  {
    hide Drained;
    DrainedWith(s, l);
  }

  lemma BreadWith(s: System, l: map<Key, Block>, pid: nat, key: Key)
    ensures var g := BreadOf(s, pid, key);
            BreadOf(With(s, l), pid, key) == (g.0, With(g.1, l))
  {
    hide GetOf;
    GetWith(s, l, pid, key);
  }

  lemma ReadAheadWith(s: System, l: map<Key, Block>, pid: nat, key: Key)
    ensures var g := ReadAheadOf(s, pid, key);
            ReadAheadOf(With(s, l), pid, key) == (g.0, With(g.1, l))
  {
    hide GetOf;
    GetWith(s, l, pid, key);
  }

  lemma RestWith(s: System, l: map<Key, Block>, pid: nat, key: Key, b: int, rablkno: int)
    ensures var g := BreadaRest(s, pid, key, b, rablkno);
            BreadaRest(With(s, l), pid, key, b, rablkno) == (g.0, With(g.1, l))
  {
    hide ReadAheadOf, BreadOf;
    ReadAheadWith(s, l, pid, Key(key.dev, rablkno));
    BreadWith(if rablkno != 0 then ReadAheadOf(s, pid, Key(key.dev, rablkno)).1 else s, l, pid, key);
  }

  /** A flush that starts over after each write does no more than one that goes on. */
  lemma {:induction false} SweptFrom(s: System, dev: int, i: nat)
    requires i <= |s.avail|
    requires forall j :: 0 <= j < i && 0 <= s.avail[j] < |s.hdr| ==> !ToFlush(s.hdr[s.avail[j]], dev)
    ensures Swept(s, dev, 0) == Swept(s, dev, i)
  {
    if i > 0 {
      SweptFrom(s, dev, i - 1);
    }
  }

  /** Exactly the delayed writes of the device that are available are started. */
  lemma {:induction false} SweptIs(s: System, dev: int, i: nat, x: int)
    requires i <= |s.avail| && Distinct(s.avail) && 0 <= x < |s.hdr|
    ensures Swept(s, dev, i).hdr[x] ==
            if x in s.avail[i..] && ToFlush(s.hdr[x], dev) then Outgoing(s.hdr[x]) else s.hdr[x]
    decreases |s.avail| - i
  {
    hide Outgoing;
    if i < |s.avail| {
      var b := s.avail[i];
      assert s.avail[i..] == [b] + s.avail[i + 1..];
      if 0 <= b < |s.hdr| && ToFlush(s.hdr[b], dev) {
        FlushedRest(s, i);
        SweptIs(Flushed(s, b), dev, i, x);
      } else {
        SweptIs(s, dev, i + 1, x);
      }
    }
  }

  lemma FlushedRest(s: System, i: nat)
    requires i < |s.avail| && Distinct(s.avail)
    ensures var a, b := Without(s.avail, s.avail[i]), s.avail[i];
            |a| == |s.avail| - 1 && Distinct(a) && a[i..] == s.avail[i + 1..] && b !in s.avail[i + 1..]
  {
    WithoutIs(s.avail, s.avail[i], i);
  }

  lemma SweptOver(s: System, dev: int, i: nat)
    requires i < |s.avail| && Distinct(s.avail) && 0 <= s.avail[i] < |s.hdr|
    requires forall j :: 0 <= j < i && 0 <= s.avail[j] < |s.hdr| ==> !ToFlush(s.hdr[s.avail[j]], dev)
    requires ToFlush(s.hdr[s.avail[i]], dev)
    ensures Swept(Flushed(s, s.avail[i]), dev, 0) == Swept(s, dev, i)
  {
    WithoutIs(s.avail, s.avail[i], i);
    SweptFrom(Flushed(s, s.avail[i]), dev, i);
  }
}
