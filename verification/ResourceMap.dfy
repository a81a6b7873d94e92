/**
 * Resource maps: free space kept as an array of runs in increasing order, ended
 * by a run of size zero. Malloc and Mfree work on the array in place.
 */
module ResourceMap {
  datatype Entry = Entry(size: int, addr: int)

  predicate Covers(e: Entry, u: int) {
    e.addr <= u < e.addr + e.size
  }

  /** Unit u is free. */
  predicate In(r: seq<Entry>, u: int) {
    exists i :: 0 <= i < |r| && Covers(r[i], u)
  }

  /** The runs are not empty, in order, and apart: two that touch would have been joined. Unit 0 is in none. */
  ghost predicate Sorted(r: seq<Entry>) {
    && (forall i :: 0 <= i < |r| ==> r[i].size > 0 && r[i].addr > 0)
    && forall i, j :: 0 <= i < j < |r| ==> r[i].addr + r[i].size < r[j].addr
  }

  /** The units from b on, size of them, are all free. */
  ghost predicate Fits(r: seq<Entry>, b: int, size: nat) {
    forall u :: b <= u < b + size ==> In(r, u)
  }

  lemma SameRun(r: seq<Entry>, i: nat, j: nat, u: int)
    requires Sorted(r) && i < |r| && j < |r| && r[i].addr < u <= r[i].addr + r[i].size && Covers(r[j], u)
    ensures i == j
  {
  }

  /** Free space that hangs together is part of one run. */
  lemma {:induction false} OneRun(r: seq<Entry>, b: int, size: nat) returns (i: nat)
    requires Sorted(r) && size > 0 && Fits(r, b, size)
    ensures i < |r| && r[i].addr <= b && b + size <= r[i].addr + r[i].size
  {
    assert In(r, b);
    i :| 0 <= i < |r| && Covers(r[i], b);
    var k := 1;
    while k < size
      invariant 1 <= k <= size && b + k <= r[i].addr + r[i].size
    {
      assert In(r, b + k);
      var j :| 0 <= j < |r| && Covers(r[j], b + k);
      SameRun(r, i, j, b + k);
      k := k + 1;
    }
  }

  /** The least free unit, and the first one after it that is not, are the ends of the first run. */
  lemma FirstRun(r: seq<Entry>)
    requires Sorted(r) && r != []
    ensures In(r, r[0].addr) && !In(r, r[0].addr + r[0].size)
    ensures forall u :: In(r, u) ==> u >= r[0].addr
    ensures forall u :: In(r[1..], u) <==> In(r, u) && u > r[0].addr + r[0].size
    ensures forall u :: r[0].addr <= u < r[0].addr + r[0].size ==> In(r, u)
  {
    assert Covers(r[0], r[0].addr);
    var t := r[1..];
    forall u
      ensures In(t, u) <==> In(r, u) && u > r[0].addr + r[0].size
    {
      if In(t, u) {
        var i :| 0 <= i < |t| && Covers(t[i], u);
        assert Covers(r[i + 1], u);
      }
      if In(r, u) && u > r[0].addr + r[0].size {
        var i :| 0 <= i < |r| && Covers(r[i], u);
        assert Covers(t[i - 1], u);
      }
    }
    forall u | r[0].addr <= u < r[0].addr + r[0].size
      ensures In(r, u)
    {
      assert Covers(r[0], u);
    }
  }

  /** The runs are determined by what is free. */
  lemma {:induction false} Canonical(r: seq<Entry>, s: seq<Entry>)
    requires Sorted(r) && Sorted(s) && forall u :: In(r, u) <==> In(s, u)
    ensures r == s
  {
    if r == [] || s == [] {
      if r != [] {
        FirstRun(r);
      } else if s != [] {
        FirstRun(s);
      }
    } else {
      FirstRun(r);
      FirstRun(s);
      SameEnd(r, s);
      SameEnd(s, r);
      assert forall u :: In(r[1..], u) <==> In(s[1..], u);
      Canonical(r[1..], s[1..]);
      assert r == [r[0]] + r[1..] && s == [s[0]] + s[1..];
    }
  }

  lemma SameEnd(r: seq<Entry>, s: seq<Entry>)
    requires Sorted(r) && Sorted(s) && r != [] && s != [] && forall u :: In(r, u) <==> In(s, u)
    ensures r[0].addr == s[0].addr && r[0].size <= s[0].size
  {
    FirstRun(r);
    FirstRun(s);
    assert In(s, r[0].addr) && In(r, s[0].addr);
    assert !In(r, s[0].addr + s[0].size);
  }

  /** Runs apart from each other among the units lo to hi are at most half as many as there are units, rounded up. */
  lemma {:induction false} FewRuns(r: seq<Entry>, lo: int, hi: int)
    requires Sorted(r) && lo <= hi + 1 && forall u :: In(r, u) ==> lo <= u <= hi
    ensures 2 * |r| <= hi - lo + 2
  {
    if r != [] {
      FirstRun(r);
      var e := r[0].addr + r[0].size;
      if |r| > 1 {
        assert Covers(r[1], r[1].addr) && In(r, r[1].addr);
        assert forall u :: In(r[1..], u) ==> e + 1 <= u <= hi;
        FewRuns(r[1..], e + 1, hi);
      }
    }
  }

  // ---------------------------------------------------------------------------
  // Replacing a run in the middle.

  lemma InJoin(p: seq<Entry>, q: seq<Entry>, u: int)
    ensures In(p + q, u) <==> In(p, u) || In(q, u)
  {
    var t := p + q;
    if In(t, u) {
      var i :| 0 <= i < |t| && Covers(t[i], u);
      assert i < |p| ==> Covers(p[i], u);
      assert i >= |p| ==> Covers(q[i - |p|], u);
    }
    if In(p, u) {
      var i :| 0 <= i < |p| && Covers(p[i], u);
      assert Covers(t[i], u);
    }
    if In(q, u) {
      var i :| 0 <= i < |q| && Covers(q[i], u);
      assert Covers(t[|p| + i], u);
    }
  }

  lemma InMiddle(p: seq<Entry>, e: Entry, s: seq<Entry>, u: int)
    ensures In(p + [e] + s, u) <==> In(p, u) || Covers(e, u) || In(s, u)
  {
    InJoin(p + [e], s, u);
    InJoin(p, [e], u);
    assert Covers(e, u) ==> Covers([e][0], u);
  }

  lemma SortedMiddle(p: seq<Entry>, e: Entry, s: seq<Entry>)
    requires Sorted(p) && Sorted(s) && e.size > 0 && e.addr > 0
    requires forall i :: 0 <= i < |p| ==> p[i].addr + p[i].size < e.addr
    requires forall i :: 0 <= i < |s| ==> e.addr + e.size < s[i].addr
    ensures Sorted(p + [e] + s)
  {
  }

  lemma SortedParts(p: seq<Entry>, s: seq<Entry>)
    requires Sorted(p + s)
    ensures Sorted(p) && Sorted(s)
    ensures forall i, j :: 0 <= i < |p| && 0 <= j < |s| ==> p[i].addr + p[i].size < s[j].addr
  {
    var t := p + s;
    assert forall i :: 0 <= i < |p| ==> p[i] == t[i];
    assert forall j :: 0 <= j < |s| ==> s[j] == t[|p| + j];
  }

  lemma Around(p: seq<Entry>, e: Entry, s: seq<Entry>)
    requires Sorted(p + [e] + s)
    ensures Sorted(p) && Sorted(s) && e.size > 0 && e.addr > 0
    ensures forall i :: 0 <= i < |p| ==> p[i].addr + p[i].size < e.addr
    ensures forall i :: 0 <= i < |s| ==> e.addr + e.size < s[i].addr
    ensures Sorted(p + s)
  {
    SortedParts(p + [e], s);
    SortedParts(p, [e]);
    assert (p + [e])[|p|] == e && [e][0] == e;
    assert forall i :: 0 <= i < |p| ==> (p + [e])[i] == p[i];
    SortedBoth(p, s);
  }

  lemma SortedBoth(p: seq<Entry>, s: seq<Entry>)
    requires Sorted(p) && Sorted(s)
    requires forall i, j :: 0 <= i < |p| && 0 <= j < |s| ==> p[i].addr + p[i].size < s[j].addr
    ensures Sorted(p + s)
  {
  }

  /** Taking size units from the front of the run between p and s. */
  lemma Take(p: seq<Entry>, e: Entry, s: seq<Entry>, size: nat, u: int)
    requires Sorted(p + [e] + s) && 0 < size <= e.size
    ensures size < e.size ==> Sorted(p + [Entry(e.size - size, e.addr + size)] + s)
    ensures size == e.size ==> Sorted(p + s)
    ensures (if size < e.size then In(p + [Entry(e.size - size, e.addr + size)] + s, u) else In(p + s, u))
            <==> In(p + [e] + s, u) && !(e.addr <= u < e.addr + size)
  {
    hide In;
    Around(p, e, s);
    Outside(p, e, s, u);
    InMiddle(p, e, s, u);
    if size < e.size {
      SortedMiddle(p, Entry(e.size - size, e.addr + size), s);
      InMiddle(p, Entry(e.size - size, e.addr + size), s, u);
    } else {
      InJoin(p, s, u);
    }
  }

  /** A range that is not free lies between the runs before it and the runs after it. */
  ghost predicate Between(p: seq<Entry>, a: int, size: nat, s: seq<Entry>) {
    && Sorted(p + s) && a > 0
    && (forall i :: 0 <= i < |p| ==> p[i].addr + p[i].size <= a)
    && (forall i :: 0 <= i < |s| ==> a + size <= s[i].addr)
  }

  lemma BetweenRuns(p: seq<Entry>, a: int, size: nat, s: seq<Entry>)
    requires Sorted(p + s) && a > 0 && size > 0 && forall u :: a <= u < a + size ==> !In(p + s, u)
    requires forall i :: 0 <= i < |p| ==> p[i].addr <= a
    requires forall i :: 0 <= i < |s| ==> a < s[i].addr
    ensures Between(p, a, size, s)
  {
    var t := p + s;
    forall i | 0 <= i < |p|
      ensures p[i].addr + p[i].size <= a
    {
      assert t[i] == p[i] && !In(t, a);
      assert Covers(t[i], a) ==> In(t, a);
    }
    forall i | 0 <= i < |s|
      ensures a + size <= s[i].addr
    {
      assert t[|p| + i] == s[i] && Covers(t[|p| + i], s[i].addr);
      assert In(t, s[i].addr);
    }
  }

  /** Putting back a range that touches neither neighbour. */
  lemma PutApart(p: seq<Entry>, a: int, size: nat, s: seq<Entry>, u: int)
    requires Between(p, a, size, s) && size > 0
    requires p != [] ==> p[|p| - 1].addr + p[|p| - 1].size != a
    requires s != [] ==> a + size != s[0].addr
    ensures Sorted(p + [Entry(size, a)] + s)
    ensures In(p + [Entry(size, a)] + s, u) <==> In(p + s, u) || a <= u < a + size
  {
    SortedParts(p, s);
    SortedMiddle(p, Entry(size, a), s);
    InMiddle(p, Entry(size, a), s, u);
    InJoin(p, s, u);
  }

  /** One that touches the run before it. */
  lemma PutAfter(p: seq<Entry>, e: Entry, a: int, size: nat, s: seq<Entry>, u: int)
    requires Between(p + [e], a, size, s) && e.addr + e.size == a
    requires s != [] ==> a + size != s[0].addr
    ensures Sorted(p + [Entry(e.size + size, e.addr)] + s)
    ensures In(p + [Entry(e.size + size, e.addr)] + s, u) <==> In(p + [e] + s, u) || a <= u < a + size
  {
    Around(p, e, s);
    SortedMiddle(p, Entry(e.size + size, e.addr), s);
    InMiddle(p, Entry(e.size + size, e.addr), s, u);
    InMiddle(p, e, s, u);
  }

  /** One that touches the run after it. */
  lemma PutBefore(p: seq<Entry>, a: int, size: nat, e: Entry, s: seq<Entry>, u: int)
    requires Between(p, a, size, [e] + s) && a + size == e.addr
    requires p != [] ==> p[|p| - 1].addr + p[|p| - 1].size != a
    ensures Sorted(p + [Entry(size + e.size, a)] + s)
    ensures In(p + [Entry(size + e.size, a)] + s, u) <==> In(p + [e] + s, u) || a <= u < a + size
  {
    assert p + ([e] + s) == p + [e] + s;
    Around(p, e, s);
    assert ([e] + s)[0] == e;
    SortedMiddle(p, Entry(size + e.size, a), s);
    InMiddle(p, Entry(size + e.size, a), s, u);
    InMiddle(p, e, s, u);
  }

  /** One that fills the gap between two runs. */
  lemma PutBoth(p: seq<Entry>, d: Entry, a: int, size: nat, e: Entry, s: seq<Entry>, u: int)
    requires Between(p + [d], a, size, [e] + s) && d.addr + d.size == a && a + size == e.addr
    ensures Sorted(p + [Entry(d.size + size + e.size, d.addr)] + s)
    ensures In(p + [Entry(d.size + size + e.size, d.addr)] + s, u) <==> In(p + [d] + ([e] + s), u) || a <= u < a + size
  {
    Around(p, d, [e] + s);
    assert (p + [d]) + ([e] + s) == (p + [d]) + [e] + s;
    Around(p + [d], e, s);
    assert (p + [d])[|p|] == d && ([e] + s)[0] == e;
    var big := Entry(d.size + size + e.size, d.addr);
    SortedMiddle(p, big, s);
    InMiddle(p, big, s, u);
    InMiddle(p, d, [e] + s, u);
    InMiddle([], e, s, u);
    assert [] + [e] + s == [e] + s;
  }

  lemma Outside(p: seq<Entry>, e: Entry, s: seq<Entry>, u: int)
    requires forall i :: 0 <= i < |p| ==> p[i].addr + p[i].size < e.addr
    requires forall i :: 0 <= i < |s| ==> e.addr + e.size < s[i].addr
    ensures e.addr - 1 <= u <= e.addr + e.size ==> !In(p, u) && !In(s, u)
  {
  }

  lemma TakeAt(r: seq<Entry>, i: nat, size: nat, r': seq<Entry>)
    requires Sorted(r) && i < |r| && 0 < size <= r[i].size && forall k :: 0 <= k < i ==> r[k].size < size
    requires r' == if r[i].size == size then r[..i] + r[i + 1..]
                   else r[..i] + [Entry(r[i].size - size, r[i].addr + size)] + r[i + 1..]
    ensures Sorted(r') && Granted(r, r', size, r[i].addr)
  {
    hide Sorted, Fits, In;
    Parts(r, i);
    forall u
      ensures In(r', u) <==> In(r, u) && !(r[i].addr <= u < r[i].addr + size)
    {
      Take(r[..i], r[i], r[i + 1..], size, u);
    }
    Take(r[..i], r[i], r[i + 1..], size, 0);
    FitsIn(r, i, size);
    forall b | Fits(r, b, size)
      ensures r[i].addr <= b
    {
      var j := OneRun(r, b, size);
      LaterRun(r, i, j);
    }
  }

  lemma Parts(r: seq<Entry>, i: nat)
    requires i < |r|
    ensures r == r[..i] + [r[i]] + r[i + 1..]
  {
  }

  lemma FitsIn(r: seq<Entry>, i: nat, size: nat)
    requires Sorted(r) && i < |r| && size <= r[i].size
    ensures Fits(r, r[i].addr, size) && r[i].addr != 0
  {
    assert forall u :: r[i].addr <= u < r[i].addr + size ==> Covers(r[i], u);
  }

  lemma LaterRun(r: seq<Entry>, i: nat, j: nat)
    requires Sorted(r) && i <= j < |r|
    ensures r[i].addr <= r[j].addr
  {
  }

  lemma Positive(r: seq<Entry>)
    requires Sorted(r)
    ensures forall k :: 0 <= k < |r| ==> r[k].size > 0
  {
  }

  lemma NothingTaken(r: seq<Entry>)
    requires r != []
    ensures Granted(r, r, 0, r[0].addr)
  {
  }

  lemma NoneFits(r: seq<Entry>, size: nat)
    requires Sorted(r) && (forall k :: 0 <= k < |r| ==> r[k].size < size) && (size == 0 ==> r == [])
    ensures Granted(r, r, size, 0)
  {
    if size > 0 {
      forall b
        ensures !Fits(r, b, size)
      {
        if Fits(r, b, size) {
          var j := OneRun(r, b, size);
        }
      }
    }
  }

  /** What Mfree makes of the runs, i being the first one above the range. */
  function Given(r: seq<Entry>, i: nat, size: nat, a: int): seq<Entry>
    requires i <= |r|
  {
    var left := i > 0 && r[i - 1].addr + r[i - 1].size == a;
    var right := i < |r| && a + size == r[i].addr;
    if left && right then r[..i - 1] + [Entry(r[i - 1].size + size + r[i].size, r[i - 1].addr)] + r[i + 1..]
    else if left then r[..i - 1] + [Entry(r[i - 1].size + size, r[i - 1].addr)] + r[i..]
    else if right then r[..i] + [Entry(size + r[i].size, a)] + r[i + 1..]
    else if size == 0 then r
    else r[..i] + [Entry(size, a)] + r[i..]
  }

  lemma GivenIs(r: seq<Entry>, i: nat, size: nat, a: int)
    requires Sorted(r) && i <= |r| && a > 0 && forall u :: a <= u < a + size ==> !In(r, u)
    requires (forall k :: 0 <= k < i ==> r[k].addr <= a) && forall k :: i <= k < |r| ==> a < r[k].addr
    ensures Sorted(Given(r, i, size, a)) && Returned(r, Given(r, i, size, a), size, a)
  {
    hide Sorted, In, Between;
    var r' := Given(r, i, size, a);
    if size == 0 {
      assert r' == r by {
        if i > 0 && r[i - 1].addr + r[i - 1].size == a {
          assert r[..i - 1] + [r[i - 1]] + r[i..] == r;
        }
      }
    } else {
      assert r[..i] + r[i..] == r;
      BetweenRuns(r[..i], a, size, r[i..]);
      GivenOne(r, i, size, a, 0);
      forall u
        ensures In(r', u) <==> In(r, u) || a <= u < a + size
      {
        GivenOne(r, i, size, a, u);
      }
    }
  }

  lemma GivenOne(r: seq<Entry>, i: nat, size: nat, a: int, u: int)
    requires i <= |r| && size > 0 && Between(r[..i], a, size, r[i..])
    ensures Sorted(Given(r, i, size, a))
    ensures In(Given(r, i, size, a), u) <==> In(r, u) || a <= u < a + size
  {
    hide Sorted, In, Between;
    var left := i > 0 && r[i - 1].addr + r[i - 1].size == a;
    var right := i < |r| && a + size == r[i].addr;
    assert r[..i] + r[i..] == r;
    if i > 0 {
      assert r[..i - 1] + [r[i - 1]] == r[..i];
    }
    if i < |r| {
      assert [r[i]] + r[i + 1..] == r[i..];
    }
    if left && right {
      PutBoth(r[..i - 1], r[i - 1], a, size, r[i], r[i + 1..], u);
    } else if left {
      PutAfter(r[..i - 1], r[i - 1], a, size, r[i..], u);
    } else if right {
      PutBefore(r[..i], a, size, r[i], r[i + 1..], u);
      assert r[..i] + [r[i]] + r[i + 1..] == r;
    } else {
      PutApart(r[..i], a, size, r[i..], u);
    }
  }

  // ---------------------------------------------------------------------------
  // The array.

  /** Takes size units from the front of the first run that has them. */
  ghost predicate Granted(r: seq<Entry>, r': seq<Entry>, size: nat, a: int) {
    if size == 0 then r' == r && a == if r == [] then 0 else r[0].addr
    else if a == 0 then r' == r && forall b :: !Fits(r, b, size)
    else
      && Fits(r, a, size) && (forall b :: Fits(r, b, size) ==> a <= b)
      && forall u :: In(r', u) <==> In(r, u) && !(a <= u < a + size)
  }

  ghost predicate Returned(r: seq<Entry>, r': seq<Entry>, size: nat, a: int) {
    forall u :: In(r', u) <==> In(r, u) || a <= u < a + size
  }

  datatype Op = Alloc(size: nat) | Release(size: nat, a: int)

  /** What an operation makes of the runs: got is the address of what was taken or put back, or 0. */
  ghost predicate Churned(hi: nat, op: Op, r: seq<Entry>, r': seq<Entry>, got: int) {
    match op
    case Alloc(size) => Granted(r, r', size, got)
    case Release(size, a) =>
      if 1 <= a && a + size <= hi + 1 && forall u :: a <= u < a + size ==> !In(r, u)
      then got == a && Returned(r, r', size, a)
      else got == 0 && r' == r
  }

  class Map {
    const m: array<Entry>
    ghost var used: nat

    /** The runs are at the front of the array, in order; what is left of it is empty. */
    ghost predicate InOrder()
      reads this, m
    {
      used <= m.Length && Sorted(m[..used]) && forall k :: used <= k < m.Length ==> m[k].size == 0
    }

    /** There is a terminator, too, as malloc and mfree need. */
    ghost predicate Valid()
      reads this, m
    {
      InOrder() && used < m.Length
    }

    /** The last entry is empty: in an array in order, that is the terminator. */
    predicate Terminated()
      reads m
    {
      m.Length > 0 && m[m.Length - 1].size == 0
    }

    ghost function Runs(): seq<Entry>
      requires used <= m.Length
      reads this, m
    {
      m[..used]
    }

    constructor (slots: nat)
      requires slots > 0
      ensures Valid() && Runs() == [] && m.Length == slots && fresh(m)
    {
      m := new Entry[slots](_ => Entry(0, 0));
      used := 0;
    }

    /** Moves the entries after i, terminator included, down by one. */
    method CloseUp(i: nat)
      requires i < used < m.Length && m[used].size == 0 && forall k :: i < k < used ==> m[k].size != 0
      modifies m
      ensures forall k :: 0 <= k < i || used <= k < m.Length ==> m[k] == old(m[k])
      ensures forall k :: i <= k < used ==> m[k] == old(m[k + 1])
    {
      var b, more := i, true;
      while more
        invariant i <= b <= used && (more ==> b < used) && (!more ==> b == used)
        invariant forall k :: 0 <= k < i || b < k < m.Length ==> m[k] == old(m[k])
        invariant b > i ==> m[b] == old(m[b])
        invariant forall k :: i <= k < b ==> m[k] == old(m[k + 1])
        decreases used - b
      {
        b := b + 1;
        m[b - 1] := m[b - 1].(addr := m[b].addr);
        m[b - 1] := m[b - 1].(size := m[b].size);
        more := m[b - 1].size != 0;
      }
    }

    /** Moves the entries from i on up by one and puts a new one at i. */
    method OpenUp(i: nat, size0: int, a0: int)
      requires i <= used < m.Length && size0 != 0
      requires m[used].size == 0 && forall k :: i <= k < used ==> m[k].size != 0
      modifies m
      ensures forall k :: 0 <= k < i || used < k < m.Length ==> m[k] == old(m[k])
      ensures m[i] == Entry(size0, a0) && forall k :: i < k <= used ==> m[k] == old(m[k - 1])
    {
      var bp, size, a := i, size0, a0;
      while size != 0
        invariant i <= bp <= used + 1 && (bp == used + 1 ==> size == 0)
        invariant forall k :: 0 <= k < i || bp <= k < m.Length ==> m[k] == old(m[k])
        invariant bp > i ==> m[i] == Entry(size0, a0) && Entry(size, a) == old(m[bp - 1])
        invariant bp == i ==> Entry(size, a) == Entry(size0, a0)
        invariant forall k :: i < k < bp ==> m[k] == old(m[k - 1])
        decreases used + 1 - bp
      {
        var t := m[bp].addr;
        m[bp] := m[bp].(addr := a);
        a := t;
        t := m[bp].size;
        m[bp] := m[bp].(size := size);
        bp := bp + 1;
        size := t;
      }
    }

    /** Takes size units from the front of run i. */
    method TakeFrom(i: nat, size: nat)
      requires Valid() && i < used && size <= m[i].size
      modifies m, this
      ensures used <= m.Length && forall k :: used <= k < m.Length ==> m[k].size == 0
      ensures used < m.Length
      ensures var r := old(Runs());
              Runs() == if r[i].size == size then r[..i] + r[i + 1..]
                        else r[..i] + [Entry(r[i].size - size, r[i].addr + size)] + r[i + 1..]
    {
      Positive(Runs());
      hide Sorted;
      ghost var r := Runs();
      m[i] := m[i].(addr := m[i].addr + size);
      m[i] := m[i].(size := m[i].size - size);
      if m[i].size == 0 {
        CloseUp(i);
        used := used - 1;
        Removed(r, i, Runs());
      } else {
        ReplacedIs(Entry(r[i].size - size, r[i].addr + size), r, i, Runs());
      }
    }

    /** First fit: the lowest place that has size free units together, or 0 if there is none. */
    method Malloc(size: nat) returns (a: int)
      requires Valid()
      modifies m, this
      ensures Valid() && Granted(old(Runs()), Runs(), size, a)
      ensures a != 0 ==> used < old(used) || Touches(Runs(), size, a)
    {
      hide Granted;
      ghost var r := Runs();
      var bp := 0;
      while m[bp].size != 0
        invariant 0 <= bp <= used && (size == 0 ==> bp == 0) && forall k :: 0 <= k < bp ==> m[k].size < size
        decreases used - bp
      {
        if m[bp].size >= size {
          a := m[bp].addr;
          TakeFrom(bp, size);
          if size == 0 {
            assert Runs() == r;
            NothingTaken(r);
          } else {
            TakeAt(r, bp, size, Runs());
            assert used == old(used) ==> Runs()[bp].addr == a + size;
          }
          return;
        }
        bp := bp + 1;
      }
      NoneFits(r, size);
      a := 0;
    }

    /** Adds a range to the end of the run before i, and that run to the next one if the range fills the gap. */
    method JoinLeft(i: nat, size: nat, a: int)
      requires Valid() && 0 < i <= used && m[i - 1].addr + m[i - 1].size == a
      modifies m, this
      ensures used <= old(used) && forall k :: used <= k < m.Length ==> m[k].size == 0
      ensures Runs() == Given(old(Runs()), i, size, a)
    {
      Positive(Runs());
      hide Sorted, Given;
      ghost var r := Runs();
      m[i - 1] := m[i - 1].(size := m[i - 1].size + size);
      if a + size == m[i].addr {
        m[i - 1] := m[i - 1].(size := m[i - 1].size + m[i].size);
        if m[i].size != 0 {
          CloseUp(i);
          used := used - 1;
          GivenBoth(r, i, size, a, Runs());
          return;
        }
      }
      GivenLeft(r, i, size, a, Runs());
    }

    /** Adds a range to the front of run i, or as a run of its own. */
    method JoinRight(i: nat, size: nat, a: int)
      requires Valid() && i <= used && !(i > 0 && m[i - 1].addr + m[i - 1].size == a)
      modifies m, this
      ensures used == old(used) + (if size == 0 || (i < old(used) && a + size == old(m[i].addr)) then 0 else 1)
      ensures used <= m.Length && forall k :: used <= k < m.Length ==> m[k].size == 0
      ensures Runs() == Given(old(Runs()), i, size, a)
    {
      Positive(Runs());
      hide Sorted, Given;
      ghost var r := Runs();
      if a + size == m[i].addr && m[i].size != 0 {
        m[i] := m[i].(addr := m[i].addr - size);
        m[i] := m[i].(size := m[i].size + size);
        GivenRight(r, i, size, a, Runs());
      } else if size != 0 {
        OpenUp(i, size, a);
        used := used + 1;
        GivenApart(r, i, size, a, Runs());
      } else {
        GivenNothing(r, i, a);
      }
    }

    /**
     * Puts back a range none of which is free, joining it to the runs it touches. There is no test for
     * a full array: a range that touches no run may take the place of the terminator.
     */
    method Mfree(size: nat, a: int)
      requires Valid() && a > 0 && forall u :: a <= u < a + size ==> !In(Runs(), u)
      modifies m, this
      ensures InOrder() && Returned(old(Runs()), Runs(), size, a)
      ensures Valid() <==> old(used) + 1 < m.Length || Touches(old(Runs()), size, a) || size == 0
    {
      hide Returned, Given, In;
      ghost var r := Runs();
      var bp := 0;
      while m[bp].addr <= a && m[bp].size != 0
        invariant 0 <= bp <= used && forall k :: 0 <= k < bp ==> m[k].addr <= a
        decreases used - bp
      {
        bp := bp + 1;
      }
      TouchesHere(r, bp, size, a);
      GivenIs(r, bp, size, a);
      if bp > 0 && m[bp - 1].addr + m[bp - 1].size == a {
        JoinLeft(bp, size, a);
      } else {
        JoinRight(bp, size, a);
      }
    }

    /** Giving back what was just taken restores the array. */
    method TakeAndPut(size: nat) returns (a: int, ghost without: seq<Entry>)
      requires Valid()
      modifies m, this
      ensures Valid() && Runs() == old(Runs()) && Granted(old(Runs()), without, size, a)
      ensures a != 0 && size > 0 ==> Returned(without, Runs(), size, a)
    {
      a := Malloc(size);
      without := Runs();
      if a != 0 && size > 0 {
        assert forall u :: a <= u < a + size ==> In(old(Runs()), u) && !In(Runs(), u);
        FirstFree(old(Runs()), a);
        Mfree(size, a);
        assert forall u :: In(Runs(), u) <==> In(old(Runs()), u);
        Canonical(Runs(), old(Runs()));
      }
    }

    /**
     * Any sequence of allocations and releases over the units 1 to hi, step by step what the operations say: with
     * more entries than half as many units, rounded up, the array never loses its terminator.
     */
    method Churn(hi: nat, ops: seq<Op>) returns (got: seq<int>, ghost states: seq<seq<Entry>>)
      requires Valid() && 2 * m.Length > hi + 1 && forall u :: In(Runs(), u) ==> 1 <= u <= hi
      modifies m, this
      ensures Valid() && 2 * used <= hi + 1 && forall u :: In(Runs(), u) ==> 1 <= u <= hi
      ensures |got| == |ops| && |states| == |ops| + 1 && states[0] == old(Runs()) && states[|ops|] == Runs()
      ensures forall k :: 0 <= k < |ops| ==> Churned(hi, ops[k], states[k], states[k + 1], got[k])
    {
      hide Churned, Granted, Returned;
      got, states := [], [Runs()];
      for k := 0 to |ops|
        invariant Valid() && forall u :: In(Runs(), u) ==> 1 <= u <= hi
        invariant |got| == k && |states| == k + 1 && states[0] == old(Runs()) && states[k] == Runs()
        invariant forall j :: 0 <= j < k ==> Churned(hi, ops[j], states[j], states[j + 1], got[j])
      {
        var a := ChurnOne(hi, ops[k]);
        got, states := got + [a], states + [Runs()];
      }
      FewRuns(Runs(), 1, hi);
    }

    /** One operation; a release of units that are not all in use is skipped. */
    method ChurnOne(hi: nat, op: Op) returns (got: int)
      requires Valid() && 2 * m.Length > hi + 1 && forall u :: In(Runs(), u) ==> 1 <= u <= hi
      modifies m, this
      ensures Valid() && forall u :: In(Runs(), u) ==> 1 <= u <= hi
      ensures Churned(hi, op, old(Runs()), Runs(), got)
    {
      FewRuns(Runs(), 1, hi);
      match op {
        case Alloc(size) =>
          got := Malloc(size);
        case Release(size, a) =>
          got := 0;
          AllUnits(m[..], used);
          if 1 <= a && a + size <= hi + 1 && forall u :: a <= u < a + size ==> !In(m[..], u) {
            Mfree(size, a);
            FewRuns(Runs(), 1, hi);
            got := a;
          }
      }
    }
  }

  /** The array after a change of run i only. */
  ghost predicate Replaced(e: Entry, r: seq<Entry>, i: nat, r': seq<Entry>) {
    i < |r| == |r'| && r'[i] == e && forall k :: 0 <= k < |r| && k != i ==> r'[k] == r[k]
  }

  lemma Removed(r: seq<Entry>, i: nat, r': seq<Entry>)
    requires i < |r| == |r'| + 1
    requires (forall k :: 0 <= k < i ==> r'[k] == r[k]) && forall k :: i <= k < |r'| ==> r'[k] == r[k + 1]
    ensures r' == r[..i] + r[i + 1..]
  {
  }

  lemma ReplacedIs(e: Entry, r: seq<Entry>, i: nat, r': seq<Entry>)
    requires Replaced(e, r, i, r')
    ensures r' == r[..i] + [e] + r[i + 1..]
  {
  }

  lemma GivenApart(r: seq<Entry>, i: nat, size: nat, a: int, r': seq<Entry>)
    requires i <= |r| && |r'| == |r| + 1 && r'[i] == Entry(size, a) && size > 0
    requires !(i > 0 && r[i - 1].addr + r[i - 1].size == a) && !(i < |r| && a + size == r[i].addr)
    requires (forall k :: 0 <= k < i ==> r'[k] == r[k]) && forall k :: i < k < |r'| ==> r'[k] == r[k - 1]
    ensures r' == Given(r, i, size, a)
  {
  }

  lemma GivenRight(r: seq<Entry>, i: nat, size: nat, a: int, r': seq<Entry>)
    requires i < |r| && a + size == r[i].addr && !(i > 0 && r[i - 1].addr + r[i - 1].size == a)
    requires Replaced(Entry(r[i].size + size, r[i].addr - size), r, i, r')
    ensures r' == Given(r, i, size, a)
  {
    ReplacedIs(r'[i], r, i, r');
  }

  lemma GivenLeft(r: seq<Entry>, i: nat, size: nat, a: int, r': seq<Entry>)
    requires 0 < i <= |r| && r[i - 1].addr + r[i - 1].size == a && !(i < |r| && a + size == r[i].addr)
    requires Replaced(Entry(r[i - 1].size + size, r[i - 1].addr), r, i - 1, r')
    ensures r' == Given(r, i, size, a)
  {
    ReplacedIs(r'[i - 1], r, i - 1, r');
  }

  lemma GivenNothing(r: seq<Entry>, i: nat, a: int)
    requires i <= |r| && !(i > 0 && r[i - 1].addr + r[i - 1].size == a) && !(i < |r| && a == r[i].addr)
    ensures Given(r, i, 0, a) == r
  {
  }

  lemma GivenBoth(r: seq<Entry>, i: nat, size: nat, a: int, r': seq<Entry>)
    requires 0 < i < |r| == |r'| + 1 && r[i - 1].addr + r[i - 1].size == a && a + size == r[i].addr
    requires r'[i - 1] == Entry(r[i - 1].size + size + r[i].size, r[i - 1].addr)
    requires (forall k :: 0 <= k < i - 1 ==> r'[k] == r[k]) && forall k :: i <= k < |r'| ==> r'[k] == r[k + 1]
    ensures r' == Given(r, i, size, a)
  {
  }

  lemma FirstFree(r: seq<Entry>, a: int)
    requires Sorted(r) && In(r, a)
    ensures a > 0
  {
  }

  lemma AllUnits(s: seq<Entry>, used: nat)
    requires used <= |s| && forall k :: used <= k < |s| ==> s[k].size == 0
    ensures forall u :: In(s, u) <==> In(s[..used], u)
  {
    forall u
      ensures In(s, u) <==> In(s[..used], u)
    {
      assert s == s[..used] + s[used..];
      InJoin(s[..used], s[used..], u);
    }
  }

  /** The map of the buffered data paths of a UNIBUS adapter: 15 entries for the units 1 to 15. */
  method BdpMap(ops: seq<Op>) returns (bdp: Map, got: seq<int>, ghost states: seq<seq<Entry>>)
    ensures bdp.Valid() && bdp.m.Length == 15 && bdp.used <= 8 && forall u :: In(bdp.Runs(), u) ==> 1 <= u <= 15
    ensures |got| == |ops| && |states| == |ops| + 1 && states[|ops|] == bdp.Runs()
    ensures forall u :: In(states[0], u) <==> 1 <= u <= 15
    ensures forall k :: 0 <= k < |ops| ==> Churned(15, ops[k], states[k], states[k + 1], got[k])
  {
    bdp := new Map(15);
    bdp.Mfree(15, 1);
    got, states := bdp.Churn(15, ops);
  }

  /** Runs of one unit each, every other unit from 1 on. */
  function Comb(n: nat): seq<Entry> {
    seq(n, j => Entry(1, 1 + 2 * j))
  }

  lemma CombNext(n: nat, r: seq<Entry>)
    requires Sorted(r) && Returned(Comb(n), r, 1, 1 + 2 * n)
    ensures r == Comb(n + 1)
  {
    forall u
      ensures In(Comb(n + 1), u) <==> In(Comb(n), u) || u == 1 + 2 * n
    {
      if In(Comb(n), u) {
        var i :| 0 <= i < n && Covers(Comb(n)[i], u);
        assert Covers(Comb(n + 1)[i], u);
      }
      if In(Comb(n + 1), u) {
        var i :| 0 <= i <= n && Covers(Comb(n + 1)[i], u);
        assert i < n ==> Covers(Comb(n)[i], u);
      }
      assert Covers(Comb(n + 1)[n], 1 + 2 * n);
    }
    Canonical(r, Comb(n + 1));
  }

  /**
   * An array of any length, and as few as 2 * slots - 1 units: when every other one has been
   * given back, every entry is in use, and the next call will look past the end.
   */
  method NoTerminator(slots: nat) returns (mp: Map)
    requires slots > 0
    ensures mp.m.Length == slots && mp.InOrder() && mp.Runs() == Comb(slots) && !mp.Valid()
  {
    mp := new Map(slots);
    for k := 0 to slots
      invariant fresh(mp) && fresh(mp.m) && mp.m.Length == slots && mp.InOrder() && mp.Runs() == Comb(k)
    {
      mp.Mfree(1, 1 + 2 * k);
      CombNext(k, mp.Runs());
    }
  }

  ghost predicate Touches(r: seq<Entry>, size: nat, a: int) {
    exists i :: 0 <= i < |r| && (r[i].addr + r[i].size == a || a + size == r[i].addr)
  }

  lemma TouchesHere(r: seq<Entry>, i: nat, size: nat, a: int)
    requires Sorted(r) && i <= |r| && forall u :: a <= u < a + size ==> !In(r, u)
    requires (forall k :: 0 <= k < i ==> r[k].addr <= a) && forall k :: i <= k < |r| ==> a < r[k].addr
    ensures Touches(r, size, a) ==>
              size == 0 || (i > 0 && r[i - 1].addr + r[i - 1].size == a) || (i < |r| && a + size == r[i].addr)
  {
    if Touches(r, size, a) && size > 0 {
      var k :| 0 <= k < |r| && (r[k].addr + r[k].size == a || a + size == r[k].addr);
      if i < |r| {
        assert Covers(r[i], r[i].addr) && In(r, r[i].addr);
      }
    }
  }
}
