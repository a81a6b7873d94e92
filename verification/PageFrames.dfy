/**
 * Page frames: a bitmap of the allocated ones, and a stack of frames known to be
 * free. Memmap is kept as one boolean a frame, true for allocated.
 */
module PageFrames {
  import opened Sequences

  /** The clear bits among the frames lo to hi - 1. */
  function FreeCount(bits: seq<bool>, lo: nat, hi: nat): (n: nat)
    requires lo <= hi <= |bits|
    ensures n <= hi - lo
  {
    if lo == hi then 0 else FreeCount(bits, lo, hi - 1) + (if bits[hi - 1] then 0 else 1)
  }

  lemma {:induction false} CountFlip(bits: seq<bool>, lo: nat, hi: nat, k: nat, b: bool)
    requires lo <= hi <= |bits| && lo <= k < hi && bits[k] != b
    ensures FreeCount(bits[k := b], lo, hi) == FreeCount(bits, lo, hi) + (if b then -1 else 1)
  {
    if k < hi - 1 {
      CountFlip(bits, lo, hi - 1, k, b);
    } else {
      CountSame(bits, bits[k := b], lo, hi - 1);
    }
  }

  lemma {:induction false} CountSame(bits: seq<bool>, bits': seq<bool>, lo: nat, hi: nat)
    requires lo <= hi <= |bits| == |bits'| && forall k :: lo <= k < hi ==> bits[k] == bits'[k]
    ensures FreeCount(bits, lo, hi) == FreeCount(bits', lo, hi)
  {
    if lo < hi {
      CountSame(bits, bits', lo, hi - 1);
    }
  }

  /** All frames are free exactly if the count says so, and none is exactly if it is zero. */
  lemma {:induction false} CountBounds(bits: seq<bool>, lo: nat, hi: nat)
    requires lo <= hi <= |bits|
    ensures FreeCount(bits, lo, hi) == 0 <==> forall k :: lo <= k < hi ==> bits[k]
    ensures FreeCount(bits, lo, hi) == hi - lo <==> forall k :: lo <= k < hi ==> !bits[k]
  {
    if lo < hi {
      CountBounds(bits, lo, hi - 1);
    }
  }

  /** Different free frames. */
  ghost predicate AllFree(s: seq<int>, bits: seq<bool>, lo: nat, hi: nat) {
    hi <= |bits| && Distinct(s) && forall i :: 0 <= i < |s| ==> lo <= s[i] < hi && !bits[s[i]]
  }

  class Memory {
    const memmap: array<bool>
    const pnum: array<int>      // m_pnum
    const firstfree: nat
    const maxfree: nat
    var mfree: nat              // m_free
    var freemem: nat
    var lastpos: nat
    ghost var stale: nat        // entries at the bottom of the stack that will not be reached

    /** The part of the stack that is used: the free frames it offers. */
    ghost function Live(): seq<int>
      requires stale <= mfree <= pnum.Length
      reads this, pnum
    {
      pnum[stale..mfree]
    }

    /** As set up by meminit: the first scan has not happened yet, and nothing is allocated. */
    ghost predicate Untouched()
      reads this
    {
      lastpos == maxfree && mfree == 0 && freemem == maxfree - firstfree
    }

    /**
     * With fewer frames than the stack has places, the first scan goes round until the
     * stack is full; the top entries are then all the free frames, and stay so.
     */
    ghost predicate Valid()
      reads this, memmap, pnum
    {
      && firstfree <= maxfree <= memmap.Length && 0 < pnum.Length
      && freemem == FreeCount(memmap[..], firstfree, maxfree)
      && stale <= mfree <= pnum.Length
      && AllFree(Live(), memmap[..], firstfree, maxfree)
      && (stale > 0 ==> mfree - stale == freemem && stale + (maxfree - firstfree) == pnum.Length)
      && (firstfree <= lastpos < maxfree || (Untouched() && stale == 0))
    }

    constructor (frames: nat, nicmem: nat, first: nat, last: nat)
      requires first <= last <= frames && 0 < nicmem
      ensures Valid() && Untouched() && fresh(memmap) && fresh(pnum) && firstfree == first && maxfree == last
      ensures pnum.Length == nicmem && memmap.Length == frames
    {
      memmap := new bool[frames](_ => false);
      pnum := new int[nicmem](_ => 0);
      firstfree, maxfree, lastpos := first, last, last;
      freemem := last - first;
      mfree, stale := 0, 0;
      new;
      CountBounds(memmap[..], first, last);
    }

    /** A scan that goes round from the frame after lastpos back to it, until the stack is full. */
    method Scan()
      requires Valid() && mfree == 0 && freemem > 0 && lastpos < maxfree
      modifies this`mfree, this`lastpos, pnum
      ensures Valid() && mfree > 0
      ensures mfree == pnum.Length || forall k :: firstfree <= k < maxfree && !memmap[k] ==> k in pnum[..mfree]
    {
      hide AllSeen;
      CountBounds(memmap[..], firstfree, maxfree);
      var pos := lastpos + 1;
      if pos >= maxfree {
        pos := firstfree;
      }
      var round := false;
      NoneSeen(memmap[..], pos, lastpos, firstfree, maxfree);
      while mfree < pnum.Length && !round
        invariant lastpos == old(lastpos) && firstfree <= pos < maxfree && mfree <= pnum.Length
        invariant AllFree(pnum[..mfree], memmap[..], firstfree, maxfree)
        invariant forall i :: 0 <= i < mfree ==> Visited(pnum[i], pos, lastpos, firstfree, maxfree, round)
        invariant AllSeen(memmap[..], pnum[..mfree], pos, lastpos, firstfree, maxfree, round)
        invariant round ==> pos == lastpos
        decreases (if round then 0 else 1), (if pos > lastpos then maxfree else 0), maxfree - pos
      {
        ghost var before, at := pnum[..mfree], pos;
        if !memmap[pos] {
          pnum[mfree] := pos;
          mfree := mfree + 1;
          assert pnum[..mfree] == before + [pos];
        }
        SeenMore(memmap[..], before, at, lastpos, firstfree, maxfree);
        if pos == lastpos {
          round := true;
        } else {
          pos := pos + 1;
          if pos >= maxfree {
            pos := firstfree;
          }
        }
      }
      SeenAll(memmap[..], pnum[..mfree], pos, lastpos, firstfree, maxfree);
      lastpos := pos;
    }

    /** The first scan, which starts from outside the range and so goes on until the stack is full. */
    method FirstScan()
      requires Valid() && Untouched() && freemem > 0
      modifies this`mfree, this`lastpos, this`stale, pnum
      ensures Valid() && mfree > stale && lastpos < maxfree
    {
      CountBounds(memmap[..], firstfree, maxfree);
      var pos := lastpos + 1;
      if pos >= maxfree {
        pos := firstfree;
      }
      while mfree < pnum.Length
        invariant lastpos == maxfree && firstfree <= pos < maxfree && mfree <= pnum.Length
        invariant Window(pnum[..mfree], pos, firstfree, maxfree)
        decreases pnum.Length - mfree
      {
        if !memmap[pos] {
          WindowPush(pnum[..mfree], pos, firstfree, maxfree);
          pnum[mfree] := pos;
          mfree := mfree + 1;
          assert pnum[..mfree] == pnum[..mfree - 1] + [pos];
        }
        if pos == lastpos {
          break;
        }
        pos := pos + 1;
        if pos >= maxfree {
          pos := firstfree;
        }
      }
      lastpos := pos;
      stale := if mfree > maxfree - firstfree then mfree - (maxfree - firstfree) else 0;
      WindowFree(pnum[..mfree], pos, firstfree, maxfree, memmap[..], stale);
      assert pnum[..mfree][stale..] == pnum[stale..mfree];
    }

    /** Makes sure that a free frame is on the stack; the stack cannot stay empty ("lost mem"). */
    method Refill()
      requires Valid() && freemem > 0
      modifies this`mfree, this`lastpos, this`stale, pnum
      ensures Valid() && mfree > stale && lastpos < maxfree
    {
      if mfree == 0 {
        if lastpos < maxfree {
          Scan();
        } else {
          FirstScan();
        }
      }
    }

    /** Takes the frame on top of the stack, which is free (no "dup alloc"). */
    method Pop() returns (pos: nat)
      requires Valid() && mfree > stale && lastpos < maxfree
      modifies this`mfree, this`freemem, memmap
      ensures Valid() && firstfree <= pos < maxfree && !old(memmap[pos]) && lastpos < maxfree
      ensures forall k :: 0 <= k < memmap.Length ==> memmap[k] == (old(memmap[k]) || k == pos)
      ensures freemem == old(freemem) - 1
    {
      ghost var live := Live();
      mfree := mfree - 1;
      assert live[|live| - 1] == pnum[mfree];
      pos := pnum[mfree];
      assert !memmap[pos];
      CountFlip(memmap[..], firstfree, maxfree, pos, true);
      CountBounds(memmap[..], firstfree, maxfree);
      ghost var bits := memmap[..];
      memmap[pos] := true;
      assert memmap[..] == bits[pos := true];
      StillFree(live, bits, firstfree, maxfree);
      assert Live() == live[..|live| - 1];
      freemem := freemem - 1;
    }

    /** All of size frames, or none. */
    method Memall(size: int) returns (n: int, base: seq<int>)
      requires Valid()
      modifies this`mfree, this`lastpos, this`stale, this`freemem, pnum, memmap
      ensures Valid() && n == |base| == if 0 < size <= old(freemem) then size else 0
      ensures AllFree(base, old(memmap[..]), firstfree, maxfree) && freemem == old(freemem) - n
      ensures forall k :: 0 <= k < memmap.Length ==> memmap[k] == (old(memmap[k]) || k in base)
    {
      base := [];
      if size <= 0 || size > freemem {
        return 0, base;
      }
      var i := size;
      while i > 0
        invariant Valid() && 0 <= i == size - |base| && freemem == old(freemem) - |base|
        invariant AllFree(base, old(memmap[..]), firstfree, maxfree)
        invariant forall k :: 0 <= k < memmap.Length ==> memmap[k] == (old(memmap[k]) || k in base)
      {
        Refill();
        var pos := Pop();
        base := base + [pos];
        i := i - 1;
      }
      n := size;
    }

    /** Frees one frame; a frame that is out of range or already free is a panic. */
    method Release(x: int) returns (ok: bool)
      requires Valid()
      modifies this`mfree, this`freemem, pnum, memmap
      ensures ok <==> firstfree <= x < maxfree && old(memmap[x])
      ensures ok ==> Valid() && freemem == old(freemem) + 1
      ensures ok ==> forall k :: 0 <= k < memmap.Length ==> memmap[k] == (old(memmap[k]) && k != x)
    {
      if x < firstfree || x >= maxfree {
        return false;
      }
      ghost var live, bits := Live(), memmap[..];
      CountBounds(memmap[..], firstfree, maxfree);
      if mfree < pnum.Length {
        pnum[mfree] := x;
        mfree := mfree + 1;
      }
      if !memmap[x] {
        return false;
      }
      CountFlip(memmap[..], firstfree, maxfree, x, false);
      memmap[x] := false;
      assert memmap[..] == bits[x := false];
      FreeToo(live, bits, firstfree, maxfree, x);
      assert Live() == live || Live() == live + [x];
      freemem := freemem + 1;
      ok := true;
    }

    /** Frees frames, in order; a panic exactly if one is out of range, free, or there twice. */
    method Memfree(base: seq<int>) returns (ok: bool)
      requires Valid()
      modifies this`mfree, this`freemem, pnum, memmap
      ensures ok <==> Distinct(base) && forall x :: x in base ==> firstfree <= x < maxfree && old(memmap[x])
      ensures ok ==> Valid() && freemem == old(freemem) + |base|
      ensures ok ==> forall k :: 0 <= k < memmap.Length ==> memmap[k] == (old(memmap[k]) && k !in base)
    {
      for i := 0 to |base|
        invariant Valid() && freemem == old(freemem) + i
        invariant Distinct(base[..i]) && forall x :: x in base[..i] ==> firstfree <= x < maxfree && old(memmap[x])
        invariant forall k :: 0 <= k < memmap.Length ==> memmap[k] == (old(memmap[k]) && k !in base[..i])
      {
        ok := Release(base[i]);
        if !ok {
          Offender(base, i, old(memmap[..]), firstfree, maxfree);
          return;
        }
        assert base[..i + 1] == base[..i] + [base[i]];
      }
      assert base[..|base|] == base;
      ok := true;
    }
  }

  lemma StillFree(live: seq<int>, bits: seq<bool>, lo: nat, hi: nat)
    requires live != [] && AllFree(live, bits, lo, hi)
    ensures AllFree(live[..|live| - 1], bits[live[|live| - 1] := true], lo, hi)
  {
  }

  lemma FreeToo(live: seq<int>, bits: seq<bool>, lo: nat, hi: nat, x: nat)
    requires AllFree(live, bits, lo, hi) && lo <= x < hi && bits[x]
    ensures AllFree(live, bits[x := false], lo, hi) && AllFree(live + [x], bits[x := false], lo, hi)
  {
  }

  lemma Offender(base: seq<int>, i: nat, bits: seq<bool>, lo: nat, hi: nat)
    requires i < |base| && lo <= hi <= |bits|
    requires !(lo <= base[i] < hi && bits[base[i]] && base[i] !in base[..i])
    ensures !(Distinct(base) && forall x :: x in base ==> lo <= x < hi && bits[x])
  {
    if base[i] in base[..i] {
      var j :| 0 <= j < i && base[..i][j] == base[i];
      assert base[j] == base[i];
    } else {
      assert base[i] in base;
    }
  }

  function Next(pos: int, first: int, max: int): int {
    if pos + 1 >= max then first else pos + 1
  }

  /** Frame x is d places before pos, going round n frames. */
  predicate Behind(x: int, pos: int, d: int, n: int) {
    x + d == pos || x + d == pos + n
  }

  /** The last entries, as many as there are frames, are the frames before pos, going round. */
  ghost predicate Window(s: seq<int>, pos: int, first: int, max: int) {
    forall i :: 0 <= i < |s| ==> first <= s[i] < max && (i >= |s| - (max - first) ==>
                                                         Behind(s[i], pos, |s| - i, max - first))
  }

  lemma WindowPush(s: seq<int>, pos: int, first: int, max: int)
    requires Window(s, pos, first, max) && first <= pos < max
    ensures Window(s + [pos], Next(pos, first, max), first, max)
  {
  }

  lemma WindowFree(s: seq<int>, pos: int, first: nat, max: nat, bits: seq<bool>, stale: nat)
    requires Window(s, pos, first, max) && first <= max <= |bits| && forall k :: first <= k < max ==> !bits[k]
    requires stale <= |s| && |s| - stale <= max - first
    ensures AllFree(s[stale..], bits, first, max)
  {
    var r := s[stale..];
    forall i, j | 0 <= i < j < |r|
      ensures r[i] != r[j]
    {
      assert Behind(s[stale + i], pos, |s| - (stale + i), max - first);
      assert Behind(s[stale + j], pos, |s| - (stale + j), max - first);
    }
  }

  /** The frames a scan has looked at when it is about to look at pos, or, after a round, all. */
  predicate Visited(k: int, pos: nat, lastpos: nat, first: nat, max: nat, round: bool) {
    first <= k < max && (round || if pos > lastpos then lastpos < k < pos else k < pos || lastpos < k)
  }

  /** Every free frame that a scan has looked at is on the stack. */
  ghost predicate AllSeen(bits: seq<bool>, live: seq<int>, pos: nat, last: nat, first: nat, max: nat, round: bool)
    requires max <= |bits|
  {
    forall k :: first <= k < max && Visited(k, pos, last, first, max, round) ==> bits[k] || k in live
  }

  lemma NoneSeen(bits: seq<bool>, pos: nat, last: nat, first: nat, max: nat)
    requires first <= last < max <= |bits| && pos == if last + 1 >= max then first else last + 1
    ensures AllSeen(bits, [], pos, last, first, max, false)
  {
  }

  lemma SeenMore(bits: seq<bool>, live: seq<int>, pos: nat, last: nat, first: nat, max: nat)
    requires first <= pos < max <= |bits| && first <= last < max && AllSeen(bits, live, pos, last, first, max, false)
    ensures var live' := if bits[pos] then live else live + [pos];
            if pos == last then AllSeen(bits, live', pos, last, first, max, true)
            else AllSeen(bits, live', if pos + 1 >= max then first else pos + 1, last, first, max, false)
  {
  }

  /** After a round all free frames are on the stack. */
  lemma SeenAll(bits: seq<bool>, live: seq<int>, pos: nat, last: nat, first: nat, max: nat)
    requires max <= |bits|
    ensures AllSeen(bits, live, pos, last, first, max, true) ==>
              forall k :: first <= k < max && !bits[k] ==> k in live
  {
  }
}
