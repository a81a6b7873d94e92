/**
 * The callout table: functions to be called by the clock interrupt. An entry
 * holds only the time by which it comes later than the one before, so that a
 * tick changes one entry. The table is shown to be a queue of absolute deadlines.
 */
module Callout {
  /** A table entry; func 0 is the null pointer that ends the table. */
  datatype Callo = Callo(time: int, arg: int, func: int)

  /** A call that is due at tick number deadline. */
  datatype Timer = Timer(func: int, arg: int, deadline: int)

  /** A call of timeout made by a called function. */
  datatype Request = Request(func: int, arg: int, delay: int)

  /** What timeout does: enter the call, panic, or write past the end of the table. */
  datatype Outcome = Entered | Panicked | Overran

  function Max0(x: int): int {
    if x > 0 then x else 0
  }

  /** The time left before entry k - 1 is due. */
  function Sum(t: seq<Callo>, k: nat): int
    requires k <= |t|
  {
    if k == 0 then 0 else Sum(t, k - 1) + t[k - 1].time
  }

  ghost predicate Ordered(q: seq<Timer>) {
    forall i, j :: 0 <= i < j < |q| ==> q[i].deadline <= q[j].deadline
  }

  /** How many deadlines are no later than d. */
  function Place(q: seq<Timer>, d: int): (k: nat)
    ensures k <= |q|
  {
    if q != [] && q[0].deadline <= d then 1 + Place(q[1..], d) else 0
  }

  lemma {:induction false} PlaceIs(q: seq<Timer>, d: int)
    requires Ordered(q)
    ensures forall i :: 0 <= i < |q| ==> (q[i].deadline <= d <==> i < Place(q, d))
  {
    if q != [] {
      PlaceIs(q[1..], d);
      forall i | 0 <= i < |q|
        ensures q[i].deadline <= d <==> i < Place(q, d)
      {
        if i > 0 {
          assert q[i] == q[1..][i - 1];
        }
      }
    }
  }

  /** A new deadline goes after every earlier or equal one. */
  function Insert(q: seq<Timer>, x: Timer): seq<Timer> {
    q[..Place(q, x.deadline)] + [x] + q[Place(q, x.deadline)..]
  }

  lemma InsertOrdered(q: seq<Timer>, x: Timer)
    requires Ordered(q)
    ensures Ordered(Insert(q, x))
  {
    PlaceIs(q, x.deadline);
  }

  /** The entries are those of the queue, and the time left of each is what its deadline says. */
  ghost predicate Holds(t: seq<Callo>, q: seq<Timer>, now: int) {
    && |q| < |t| && t[|q|].func == 0
    && (forall k :: 0 <= k < |q| ==> t[k].func == q[k].func != 0 && t[k].arg == q[k].arg && t[k].time >= 0)
    && (forall k :: 0 <= k < |q| ==> Sum(t, k + 1) == Max0(q[k].deadline - now))
  }

  lemma {:induction false} SumSame(t: seq<Callo>, t': seq<Callo>, k: nat)
    requires k <= |t| && k <= |t'| && forall j :: 0 <= j < k ==> t[j].time == t'[j].time
    ensures Sum(t, k) == Sum(t', k)
  {
    if k > 0 {
      SumSame(t, t', k - 1);
    }
  }

  lemma {:induction false} SumGrows(t: seq<Callo>, i: nat, k: nat)
    requires i <= k <= |t| && forall j :: 0 <= j < k ==> t[j].time >= 0
    ensures Sum(t, i) <= Sum(t, k)
  {
    if i < k {
      SumGrows(t, i, k - 1);
    }
  }

  // ---------------------------------------------------------------------------
  // What the steps do to the table.

  lemma {:induction false} SumShifted(t: seq<Callo>, t': seq<Callo>, i: nat, k: nat)
    requires i <= k < |t| && k + 1 < |t'|
    requires Sum(t', i + 1) + t'[i + 1].time == Sum(t, i + 1)
    requires forall j :: i < j <= k ==> t'[j + 1].time == t[j].time
    ensures Sum(t', k + 2) == Sum(t, k + 1)
  {
    if i < k {
      SumShifted(t, t', i, k - 1);
    }
  }

  /** The table t' is t with x entered at place i. */
  ghost predicate EnteredAt(t: seq<Callo>, n: nat, now: int, x: Timer, i: nat, t': seq<Callo>) {
    && i <= n && |t'| == |t| && n + 1 < |t|
    && (forall k :: 0 <= k < i ==> t'[k] == t[k])
    && t'[i] == Callo(x.deadline - now - Sum(t, i), x.arg, x.func)
    && t'[i + 1] == t[i].(time := t[i].time - t'[i].time)
    && forall k :: i + 1 < k <= n + 1 ==> t'[k] == t[k - 1]
  }

  lemma InsertSum(t: seq<Callo>, n: nat, now: int, x: Timer, i: nat, t': seq<Callo>, k: nat)
    requires EnteredAt(t, n, now, x, i, t') && k <= n
    ensures k < i ==> Sum(t', k + 1) == Sum(t, k + 1)
    ensures k == i ==> Sum(t', k + 1) == x.deadline - now
    ensures k > i ==> Sum(t', k + 1) == Sum(t, k)
  {
    SumSame(t, t', i);
    if k < i {
      SumSame(t, t', k + 1);
    } else if k > i {
      SumShifted(t, t', i, k - 1);
    }
  }

  /** Entering a call at its place keeps the time left of every other. */
  lemma InsertHolds(t: seq<Callo>, q: seq<Timer>, now: int, x: Timer, i: nat, t': seq<Callo>)
    requires Holds(t, q, now) && Ordered(q) && i == Place(q, x.deadline) && x.deadline >= now && x.func != 0
    requires EnteredAt(t, |q|, now, x, i, t')
    ensures Holds(t', Insert(q, x), now)
  {
    hide Place, Sum;
    PlaceIs(q, x.deadline);
    LeftOf(t, q, now, i);
    var q' := Insert(q, x);
    forall k | 0 <= k < |q'|
      ensures t'[k].func == q'[k].func != 0 && t'[k].arg == q'[k].arg && t'[k].time >= 0
      ensures Sum(t', k + 1) == Max0(q'[k].deadline - now)
    {
      InsertSum(t, |q|, now, x, i, t', k);
      assert q'[k] == if k < i then q[k] else if k == i then x else q[k - 1];
      assert k > i ==> Sum(t, k - 1 + 1) == Max0(q[k - 1].deadline - now);
    }
  }

  /** The time left before place i, and of the entry there. */
  lemma LeftOf(t: seq<Callo>, q: seq<Timer>, now: int, i: nat)
    requires Holds(t, q, now) && i <= |q|
    ensures Sum(t, i) == if i == 0 then 0 else Max0(q[i - 1].deadline - now)
    ensures i < |q| ==> t[i].time == Max0(q[i].deadline - now) - Sum(t, i)
  {
    assert i > 0 ==> Sum(t, i - 1 + 1) == Max0(q[i - 1].deadline - now);
    assert i < |q| ==> Sum(t, i + 1) == Max0(q[i].deadline - now);
  }

  /** Where timeout stops: every entry before is due no later than the new one, and the next one is due later. */
  lemma StopsAt(t: seq<Callo>, q: seq<Timer>, now: int, d: int, i: nat)
    requires Holds(t, q, now) && Ordered(q) && d >= now && i <= |q|
    requires forall k :: 1 <= k <= i ==> Sum(t, k) <= d - now
    requires i == |q| || Sum(t, i + 1) > d - now
    ensures i == Place(q, d)
  {
    PlaceIs(q, d);
    assert i < |q| ==> Sum(t, i + 1) == Max0(q[i].deadline - now);
    if i > 0 {
      assert Sum(t, i - 1 + 1) == Max0(q[i - 1].deadline - now);
    }
  }

  lemma {:induction false} SumLess(t: seq<Callo>, p: nat, k: nat)
    requires p < |t| && k <= |t|
    ensures Sum(t[p := t[p].(time := t[p].time - 1)], k) == Sum(t, k) - (if p < k then 1 else 0)
  {
    if k > 0 {
      SumLess(t, p, k - 1);
    }
  }

  lemma {:induction false} SumZero(t: seq<Callo>, k: nat)
    requires k <= |t| && forall j :: 0 <= j < k ==> t[j].time == 0
    ensures Sum(t, k) == 0
  {
    if k > 0 {
      SumZero(t, k - 1);
    }
  }

  /** A tick: one less for the first entry with time left brings every entry not yet due one tick nearer. */
  lemma TickHolds(t: seq<Callo>, q: seq<Timer>, now: int, p: nat)
    requires Holds(t, q, now) && p <= |q|
    requires (forall j :: 0 <= j < p ==> t[j].time <= 0) && (p < |q| ==> t[p].time > 0)
    ensures Holds(t[p := t[p].(time := t[p].time - 1)], q, now + 1)
  {
    var t' := t[p := t[p].(time := t[p].time - 1)];
    forall k | 0 <= k < |q|
      ensures Sum(t', k + 1) == Max0(q[k].deadline - (now + 1))
    {
      SumLess(t, p, k + 1);
      if k < p {
        SumZero(t, k + 1);
      } else {
        SumGrows(t, p + 1, k + 1);
        SumZero(t, p);
      }
    }
  }

  lemma {:induction false} SumDropped(t: seq<Callo>, t': seq<Callo>, z: nat, k: nat)
    requires z + k <= |t| && k <= |t'| && forall j :: 0 <= j < k ==> t'[j].time == t[z + j].time
    ensures Sum(t', k) == Sum(t, z + k) - Sum(t, z)
  {
    if k > 0 {
      SumDropped(t, t', z, k - 1);
    }
  }

  /** Moving the rest down over the entries called. */
  lemma DropHolds(t: seq<Callo>, q: seq<Timer>, now: int, z: nat, t': seq<Callo>)
    requires Holds(t, q, now) && z <= |q| && |t'| == |t| && forall j :: 0 <= j < z ==> t[j].time <= 0
    requires (forall k :: 0 <= k < |q| - z ==> t'[k] == t[z + k]) && t'[|q| - z].func == 0
    ensures Holds(t', q[z..], now)
  {
    SumZero(t, z);
    forall k | 0 <= k < |q| - z
      ensures Sum(t', k + 1) == Max0(q[z..][k].deadline - now)
    {
      SumDropped(t, t', z, k + 1);
    }
  }

  class Table {
    const callout: array<Callo>
    ghost var queue: seq<Timer>
    ghost var now: int
    ghost var calls: seq<Call>            // every call made so far
    ghost var bases: seq<int>              // the ticks at base priority
    ghost var entered: multiset<Timer>     // everything ever entered

    ghost predicate Valid()
      reads this, callout
    {
      callout.Length > 0 && Ordered(queue) && Holds(callout[..], queue, now)
    }

    ghost function Past(): History
      reads this
    {
      History(queue, now, calls, bases, entered)
    }

    constructor (ncall: nat)
      requires ncall > 0
      ensures Valid() && Past() == History([], 0, [], [], multiset{}) && callout.Length == ncall && fresh(callout)
    {
      callout := new Callo[ncall](_ => Callo(0, 0, 0));
      queue, now, calls, bases, entered := [], 0, [], [], multiset{};
    }

    /** The end of the table, seen from place i. */
    method End(i: nat) returns (p2: nat)
      requires Valid() && i <= |queue|
      ensures p2 == |queue|
    {
      p2 := i;
      while callout[p2].func != 0
        invariant i <= p2 <= |queue|
        decreases |queue| - p2
      {
        p2 := p2 + 1;
      }
    }

    /** Moves the entries from place i on up by one; the last of them ends the table. */
    method OpenUp(i: nat, n: nat)
      requires i <= n && n + 1 < callout.Length
      modifies callout
      ensures forall k :: 0 <= k <= i || n + 1 < k < callout.Length ==> callout[k] == old(callout[k])
      ensures forall k :: i < k <= n + 1 ==> callout[k] == old(callout[k - 1])
    {
      var p2: int := n;
      while p2 >= i
        invariant i - 1 <= p2 <= n
        invariant forall k :: (0 <= k <= p2 + 1 && k <= n) || n + 1 < k < callout.Length ==>
                  callout[k] == old(callout[k])
        invariant forall k :: p2 + 1 < k <= n + 1 ==> callout[k] == old(callout[k - 1])
      {
        callout[p2 + 1] := callout[p2];
        p2 := p2 - 1;
      }
    }

    /** The scan of timeout: the place of a delay, and what is left of it there. */
    method FindPlace(tim: int) returns (i: nat, t: int)
      requires Valid() && tim >= 0
      ensures i == Place(queue, now + tim) <= |queue| < callout.Length && t == tim - Sum(callout[..], i) >= 0
      ensures i < |queue| ==> callout[i].time > t
    {
      i, t := 0, tim;
      while callout[i].func != 0 && callout[i].time <= t
        invariant 0 <= i <= |queue| && t == tim - Sum(callout[..], i) >= 0
        invariant forall k :: 1 <= k <= i ==> Sum(callout[..], k) <= tim
        decreases |queue| - i
      {
        t := t - callout[i].time;
        i := i + 1;
      }
      StopsAt(callout[..], queue, now, now + tim, i);
    }

    /**
     * timeout: enters a call that is due after tim ticks. The test for a full table looks
     * at the place of the entry only: with one entry free, and the place before the
     * end, the entries are moved up past the end of the table.
     */
    method Timeout(func: int, arg: int, tim: int) returns (r: Outcome)
      requires Valid() && func != 0 && tim >= 0
      modifies callout, this`queue, this`entered
      ensures Valid()
      ensures r.Entered? <==> |old(queue)| + 1 < callout.Length
      ensures r.Overran? <==> Overruns(old(queue), callout.Length, now + tim)
      ensures r.Panicked? <==>
              |old(queue)| + 1 == callout.Length && forall k :: 0 <= k < |old(queue)| ==>
                  old(queue)[k].deadline <= now + tim
      ensures Past() == if r.Entered? then Entering(old(Past()), Request(func, arg, tim)) else old(Past())
    {
      hide Insert, Place, Sum;
      var i, t := FindPlace(tim);
      PlaceIs(queue, now + tim);
      ghost var before := callout[..];
      if i >= callout.Length - 1 {
        return Panicked;
      }
      var n := End(i);
      if n + 1 >= callout.Length {
        return Overran;
      }
      ghost var x := Timer(func, arg, now + tim);
      InsertOrdered(queue, x);
      callout[i] := callout[i].(time := callout[i].time - t);
      OpenUp(i, n);
      callout[i] := Callo(t, arg, func);
      InsertHolds(before, queue, now, x, i, callout[..]);
      queue, entered := Insert(queue, x), entered + multiset{x};
      r := Entered;
    }

    /** One called function, and the calls of timeout that it makes. */
    method Call(reqs: seq<Request>) returns (ok: bool)
      requires Valid() && Proper(reqs)
      modifies callout, this`queue, this`entered
      ensures Valid()
      ensures ok ==> queue == InsertAll(old(queue), reqs, now) && entered == old(entered) + multiset(Stamped(reqs, now))
      ensures ok <==> |old(queue)| + |reqs| < callout.Length
    {
      hide Insert, InsertAll, Stamped, Place, Sum, Holds;
      ok := true;
      CallStart(queue, now);
      RoomLeft(callout[..], queue, now);
      for k := 0 to |reqs|
        invariant Valid() && |queue| == |old(queue)| + k < callout.Length
        invariant queue == InsertAll(old(queue), reqs[..k], now)
        invariant entered == old(entered) + multiset(Stamped(reqs[..k], now))
      {
        CallNext(old(queue), reqs, k, now);
        var r := Timeout(reqs[k].func, reqs[k].arg, reqs[k].delay);
        if !r.Entered? {
          return false;
        }
        RoomLeft(callout[..], queue, now);
      }
      assert reqs[..|reqs|] == reqs;
    }

    /**
     * Calls every entry with no time left, in order; each call is recorded where it is made. What they
     * enter goes behind all of those.
     */
    method Fire(plan: (int, int) -> seq<Request>) returns (p1: nat, ok: bool)
      requires Valid() && forall f, a :: Proper(plan(f, a))
      modifies callout, this`queue, this`calls, this`entered
      ensures Valid()
      ensures ok ==> Past() == AllCalled(old(Past()), plan) && p1 == Place(old(queue), now)
      ensures ok <==> |old(queue)| + |Plans(old(queue)[..Place(old(queue), now)], plan)| < callout.Length
    {
      hide Insert, Place, Sum, InsertAll, Plans, Holds, Stamp, Stamped, Fired, AllCalled;
      ghost var h := Past();
      ghost var z := Place(queue, now);
      p1, ok := 0, true;
      FiredNone(h, plan);
      FiredNext(callout[..], h, plan, 0, Past());
      while callout[p1].func != 0 && callout[p1].time <= 0
        invariant Valid() && ok && p1 <= z && Fired(h, plan, p1, Past())
        invariant p1 < callout.Length && (callout[p1].func != 0 && callout[p1].time <= 0 <==> p1 < z)
        decreases z - p1
      {
        FiredNext(callout[..], h, plan, p1, Past());
        ghost var was := Past();
        calls := calls + [Called(queue[p1], now)];
        ok := Call(plan(callout[p1].func, callout[p1].arg));
        if !ok {
          FireRoom(h.queue, plan, now, p1);
          return;
        }
        FiredOne(h, plan, p1, was, Past());
        p1 := p1 + 1;
        FiredNext(callout[..], h, plan, p1, Past());
      }
      FiredAll(h, plan, p1, Past());
      RoomLeft(callout[..], queue, now);
    }

    /** Moves the rest of the table down over the entries called. */
    method Compact(z: nat)
      requires Valid() && 0 < z <= |queue|
      modifies callout
      ensures forall k :: 0 <= k < |queue| - z ==> callout[k] == old(callout[z + k])
      ensures callout[|queue| - z].func == 0
    {
      var p1, p2 := z, 0;
      callout[p2] := callout[p2].(func := callout[p1].func);
      while callout[p2].func != 0
        invariant p1 == z + p2 <= |queue| && callout[p2].func == callout[p1].func
        invariant forall k :: p2 < k < callout.Length ==> callout[k] == old(callout[k])
        invariant forall k :: 0 <= k < p2 ==> callout[k] == old(callout[z + k])
        decreases |queue| - p1
      {
        callout[p2] := callout[p2].(time := callout[p1].time);
        callout[p2] := callout[p2].(arg := callout[p1].arg);
        p1 := p1 + 1;
        p2 := p2 + 1;
        callout[p2] := callout[p2].(func := callout[p1].func);
      }
    }

    /** The entries called leave the table, if there are any. */
    method Drop(z: nat)
      requires Valid() && z <= |queue| && Ordered(queue[z..]) && forall j :: 0 <= j < z ==> callout[..][j].time <= 0
      modifies callout, this`queue
      ensures Valid() && queue == old(queue)[z..]
    {
      hide Sum;
      if z > 0 {
        ghost var t := callout[..];
        Compact(z);
        DropHolds(t, queue, now, z, callout[..]);
      }
      queue := queue[z..];
    }

    /** One less for the first entry with time left. */
    method Tick()
      requires Valid() && queue != []
      modifies callout, this`now
      ensures Valid() && now == old(now) + 1
    {
      hide Sum;
      var p2 := 0;
      while callout[p2].time <= 0 && callout[p2].func != 0
        invariant 0 <= p2 <= |queue| && forall j :: 0 <= j < p2 ==> callout[j].time <= 0
        decreases |queue| - p2
      {
        p2 := p2 + 1;
      }
      TickHolds(callout[..], queue, now, p2);
      callout[p2] := callout[p2].(time := callout[p2].time - 1);
      now := now + 1;
    }

    /**
     * A clock interrupt. At base priority it calls what is due, in the order of the
     * deadlines; what the called functions enter is due later. high says that the
     * interrupted priority was not the base one.
     */
    method Clock(high: bool, plan: (int, int) -> seq<Request>) returns (z: nat, ok: bool)
      requires Valid() && forall f, a :: Proper(plan(f, a))
      modifies callout, this
      ensures now == old(now) + 1
      ensures ok ==> Valid() && Past() == Ticked(old(Past()), high, plan)
      ensures ok ==> z == if high then 0 else Place(old(queue), now)
      ensures ok <==> Roomy(old(Past()), Event.Tick(high), plan, callout.Length)
    {
      hide Insert, Place, Sum, InsertAll, Plans, Stamp, Stamped, AllCalled, Ticked, Roomy;
      z, ok := 0, true;
      ghost var h := Past();
      QuietTick(h, high, plan, callout.Length);
      if callout[0].func == 0 {
        now, bases := now + 1, if high then bases else bases + [now + 1];
        return;
      }
      Tick();
      if high {
        return;
      }
      bases := bases + [now];
      TickRoom(h, Past(), plan, callout.Length);
      z, ok := Fire(plan);
      if ok {
        Due(callout[..], h, Past(), plan);
        Drop(z);
      }
    }

    /**
     * Any sequence of ticks and calls of timeout, with positive delays. What happens is what the events
     * say, as long as the table has room, and it has room exactly if the events say so. No call is early
     * or late: each comes at the first base tick not before its deadline. The calls come in the order of
     * the deadlines, and everything entered is called once or still pending.
     */
    method Run(events: seq<Event>, plan: (int, int) -> seq<Request>) returns (ok: bool)
      requires Valid() && Kept(Past()) && forall f, a :: Proper(plan(f, a))
      requires forall e :: e in events && e.Enter? ==> e.req.func != 0 && e.req.delay > 0
      modifies callout, this
      ensures ok <==> forall k :: 0 <= k < |events| ==> Roomy(After(old(Past()), events[..k], plan), events[k], plan,
                                                              callout.Length)
      ensures ok ==> Valid() && Past() == After(old(Past()), events, plan) && Kept(Past())
      ensures ok ==> OnTime(calls, bases) && InOrder(calls) && entered == multiset(Timers(calls)) + multiset(queue)
    {
      hide Insert, Place, Sum, Holds, InsertAll, Plans, OnTime, InOrder, Timers, Stamp, Stamped, Kept, Ticked, Entering,
          Roomy, After;
      ok := true;
      ghost var h := Past();
      AfterNone(h, plan);
      for k := 0 to |events|
        invariant Valid() && Kept(Past()) && Past() == After(h, events[..k], plan)
        invariant forall j :: 0 <= j < k ==> Roomy(After(h, events[..j], plan), events[j], plan, callout.Length)
      {
        AfterNext(h, events, k, plan);
        assert events[k] in events;
        ghost var before := Past();
        match events[k] {
          case Enter(req) =>
            RoomToEnter(before, req, plan, callout.Length);
            var r := Timeout(req.func, req.arg, req.delay);
            ok := r.Entered?;
            if ok {
              EnteringKept(before, req);
            }
          case Tick(high) =>
            var z;
            z, ok := Clock(high, plan);
            if ok {
              TickedKept(before, high, plan);
            }
        }
        if !ok {
          return;
        }
      }
      assert events[..|events|] == events;
      KeptSays(Past());
    }
  }

  /**
   * The call goes past the end of a table with n entries, unnoticed: one of them is free, and something later
   * is pending.
   */
  ghost predicate Overruns(q: seq<Timer>, n: nat, deadline: int) {
    |q| + 1 == n && exists k :: 0 <= k < |q| && q[k].deadline > deadline
  }

  /** A table of any size with one entry free, all others due in five ticks: a call due in three goes past the end. */
  method GuardMisses(ncall: nat) returns (table: Table, r: Outcome)
    requires ncall >= 2
    ensures table.Valid() && table.callout.Length == ncall && table.now == 0
    ensures table.queue == seq(ncall - 1, _ => Timer(1, 0, 5)) && Overruns(table.queue, ncall, 3) && r == Overran
  {
    table := new Table(ncall);
    for n := 0 to ncall - 1
      invariant table.Valid() && table.now == 0 && table.callout.Length == ncall && fresh(table.callout)
      invariant table.queue == seq(n, _ => Timer(1, 0, 5))
    {
      PlaceIs(table.queue, 5);
      r := table.Timeout(1, 0, 5);
    }
    assert table.queue[0].deadline == 5;
    r := table.Timeout(1, 0, 3);
  }

  datatype Event = Tick(high: bool) | Enter(req: Request)

  /** A function called, and the tick at which it was. */
  datatype Call = Called(timer: Timer, at: int)

  function Stamp(q: seq<Timer>, at: int): seq<Call> {
    if q == [] then [] else [Called(q[0], at)] + Stamp(q[1..], at)
  }

  function Timers(log: seq<Call>): seq<Timer> {
    if log == [] then [] else [log[0].timer] + Timers(log[1..])
  }

  function Stamped(reqs: seq<Request>, now: int): seq<Timer> {
    if reqs == [] then [] else [Timer(reqs[0].func, reqs[0].arg, now + reqs[0].delay)] + Stamped(reqs[1..], now)
  }

  ghost predicate Pending(q: seq<Timer>, base: int) {
    forall k :: 0 <= k < |q| ==> q[k].deadline > base
  }

  /** Each call is made at the first base tick that is not before its deadline. */
  ghost predicate OnTime(log: seq<Call>, bases: seq<int>) {
    && (forall i :: 0 <= i < |log| ==> log[i].timer.deadline <= log[i].at && log[i].at in bases)
    && forall i, j :: 0 <= i < |log| && 0 <= j < |bases| && bases[j] < log[i].at ==> bases[j] < log[i].timer.deadline
  }

  ghost predicate InOrder(log: seq<Call>) {
    forall i, j :: 0 <= i < j < |log| ==> log[i].timer.deadline <= log[j].timer.deadline
  }

  // ---------------------------------------------------------------------------
  // What events do, without the table.

  /** What is pending, the time, and all that has been: the calls made, the ticks at base priority, what was entered. */
  datatype History = History(queue: seq<Timer>, now: int, calls: seq<Call>, bases: seq<int>, entered: multiset<Timer>)

  ghost function Entering(h: History, req: Request): History {
    var x := Timer(req.func, req.arg, h.now + req.delay);
    h.(queue := Insert(h.queue, x), entered := h.entered + multiset{x})
  }

  /** All that is due has been called, but is still in the table. */
  ghost function AllCalled(h: History, plan: (int, int) -> seq<Request>): History {
    var z := Place(h.queue, h.now);
    var reqs := Plans(h.queue[..z], plan);
    h.(queue := h.queue[..z] + InsertAll(h.queue[z..], reqs, h.now),
       calls := h.calls + Stamp(h.queue[..z], h.now), entered := h.entered + multiset(Stamped(reqs, h.now)))
  }

  /** A tick; at base priority, what is due then is called, and no longer pending. */
  ghost function Ticked(h: History, high: bool, plan: (int, int) -> seq<Request>): History {
    var t := h.(now := h.now + 1);
    if high then t
    else
      var c := AllCalled(t.(bases := h.bases + [t.now]), plan);
      var z := Place(t.queue, t.now);
      c.(queue := InsertAll(t.queue[z..], Plans(t.queue[..z], plan), t.now))
  }

  ghost function After(h: History, events: seq<Event>, plan: (int, int) -> seq<Request>): History {
    if events == [] then h
    else
      Next(After(h, events[..|events| - 1], plan), events[|events| - 1], plan)
  }

  ghost function Next(h: History, e: Event, plan: (int, int) -> seq<Request>): History {
    match e
    case Enter(req) => Entering(h, req)
    case Tick(high) => Ticked(h, high, plan)
  }

  lemma AfterNone(h: History, plan: (int, int) -> seq<Request>)
    ensures After(h, [], plan) == h
  {
  }

  lemma AfterNext(h: History, events: seq<Event>, k: nat, plan: (int, int) -> seq<Request>)
    requires k < |events|
    ensures After(h, events[..k + 1], plan) == Next(After(h, events[..k], plan), events[k], plan)
  {
    assert events[..k + 1][..k] == events[..k];
  }

  /** A table of n entries has room for an event: what is due goes only when all of it has been called. */
  ghost predicate Roomy(h: History, e: Event, plan: (int, int) -> seq<Request>, n: nat) {
    match e
    case Enter(_) => |h.queue| + 1 < n
    case Tick(high) => high || |h.queue| + |Plans(h.queue[..Place(h.queue, h.now + 1)], plan)| < n
  }

  /**
   * What any run keeps: everything pending is due after the last base tick, and what has been
   * entered has been called once or is pending.
   */
  ghost predicate Kept(h: History) {
    && (forall b :: b in h.bases ==> b <= h.now && Pending(h.queue, b))
    && OnTime(h.calls, h.bases) && InOrder(h.calls)
    && h.entered == multiset(Timers(h.calls)) + multiset(h.queue)
  }

  lemma KeptSays(h: History)
    requires Kept(h)
    ensures OnTime(h.calls, h.bases) && InOrder(h.calls) && h.entered == multiset(Timers(h.calls)) + multiset(h.queue)
  {
  }

  lemma RoomToEnter(h: History, req: Request, plan: (int, int) -> seq<Request>, n: nat)
    ensures Roomy(h, Enter(req), plan, n) <==> |h.queue| + 1 < n
  {
  }

  lemma Untouched(q: seq<Timer>, plan: (int, int) -> seq<Request>, now: int)
    ensures q[..0] == [] && q[0..] == q && Plans([], plan) == [] && InsertAll(q, [], now) == q
    ensures Stamp([], now) == [] && Stamped([], now) == []
  {
  }

  /** A tick at which nothing is called: at another priority, or with nothing pending. */
  lemma QuietTick(h: History, high: bool, plan: (int, int) -> seq<Request>, n: nat)
    ensures high ==> Ticked(h, true, plan) == h.(now := h.now + 1) && Roomy(h, Event.Tick(true), plan, n)
    ensures h.queue == [] && n > 0 ==>
              && Ticked(h, high, plan) == h.(now := h.now + 1, bases := if high then h.bases else h.bases + [h.now + 1])
              && Roomy(h, Event.Tick(high), plan, n)
  {
    Untouched(h.queue, plan, h.now + 1);
  }

  lemma TickRoom(h: History, t: History, plan: (int, int) -> seq<Request>, n: nat)
    requires t.queue == h.queue && t.now == h.now + 1
    ensures Roomy(h, Event.Tick(false), plan, n) <==> |t.queue| + |Plans(t.queue[..Place(t.queue, t.now)], plan)| < n
  {
  }

  lemma EnteringKept(h: History, req: Request)
    requires Kept(h) && req.delay > 0
    ensures Kept(Entering(h, req))
  {
    hide OnTime, InOrder, Timers, Insert, Pending;
    var x := Timer(req.func, req.arg, h.now + req.delay);
    InsertOne(h.queue, x);
    assert multiset(Timers(h.calls)) + multiset(h.queue) + multiset{x} == multiset(Timers(h.calls))
           + multiset(Insert(h.queue, x));
  }

  lemma TickedKept(h: History, high: bool, plan: (int, int) -> seq<Request>)
    requires Kept(h) && Ordered(h.queue) && forall f, a :: Proper(plan(f, a))
    ensures Kept(Ticked(h, high, plan))
  {
    hide OnTime, InOrder, Timers, Pending, Insert, Place, InsertAll, Plans, Stamp, Stamped;
    var now, q := h.now + 1, h.queue;
    var z := Place(q, now);
    if !high {
      CallsOf(q, z, Plans(q[..z], plan), plan, now);
      LogMore(h.calls, h.bases, q, z, now);
      ghost var s, m := multiset(Stamped(Plans(q[..z], plan), now)), multiset(Timers(h.calls));
      assert m + multiset(q) + s == m + (multiset(q) + s) == (m + multiset(q[..z]))
             + multiset(InsertAll(q[z..], Plans(q[..z], plan), now));
      assert multiset(Timers(h.calls) + q[..z]) == m + multiset(q[..z]);
      PendingEarlier(InsertAll(q[z..], Plans(q[..z], plan), now), now);
    }
  }

  lemma PendingEarlier(q: seq<Timer>, now: int)
    requires Pending(q, now)
    ensures forall b :: b <= now ==> Pending(q, b)
  {
  }

  lemma {:induction false} StampAppend(a: seq<Timer>, b: seq<Timer>, at: int)
    ensures Stamp(a + b, at) == Stamp(a, at) + Stamp(b, at)
  {
    if a == [] {
      assert a + b == b;
    } else {
      assert (a + b)[1..] == a[1..] + b;
      StampAppend(a[1..], b, at);
    }
  }

  lemma StampNext(q: seq<Timer>, at: int, k: nat)
    requires k < |q|
    ensures Stamp(q[..k + 1], at) == Stamp(q[..k], at) + [Called(q[k], at)]
  {
    assert q[..k + 1] == q[..k] + [q[k]];
    StampAppend(q[..k], [q[k]], at);
    assert [q[k]][1..] == [];
  }

  lemma {:induction false} StampedAppend(a: seq<Request>, b: seq<Request>, now: int)
    ensures Stamped(a + b, now) == Stamped(a, now) + Stamped(b, now)
  {
    if a == [] {
      assert a + b == b;
    } else {
      assert (a + b)[1..] == a[1..] + b;
      StampedAppend(a[1..], b, now);
    }
  }

  lemma InsertOne(q: seq<Timer>, x: Timer)
    ensures multiset(Insert(q, x)) == multiset(q) + multiset{x}
    ensures forall base :: Pending(q, base) && x.deadline > base ==> Pending(Insert(q, x), base)
  {
    hide Place;
    var p := Place(q, x.deadline);
    assert q == q[..p] + q[p..];
  }

  lemma {:induction false} InsertMany(q: seq<Timer>, reqs: seq<Request>, now: int)
    ensures multiset(InsertAll(q, reqs, now)) == multiset(q) + multiset(Stamped(reqs, now))
    decreases |reqs|
  {
    hide Insert;
    if reqs != [] {
      var x := Timer(reqs[0].func, reqs[0].arg, now + reqs[0].delay);
      InsertOne(q, x);
      InsertMany(Insert(q, x), reqs[1..], now);
    }
  }

  lemma {:induction false} StampIs(q: seq<Timer>, at: int)
    ensures |Stamp(q, at)| == |q| && forall k :: 0 <= k < |q| ==> Stamp(q, at)[k] == Called(q[k], at)
    ensures Timers(Stamp(q, at)) == q
  {
    if q != [] {
      StampIs(q[1..], at);
    }
  }

  lemma {:induction false} TimersAppend(a: seq<Call>, b: seq<Call>)
    ensures Timers(a + b) == Timers(a) + Timers(b)
  {
    if a == [] {
      assert a + b == b;
    } else {
      assert (a + b)[1..] == a[1..] + b;
      TimersAppend(a[1..], b);
    }
  }

  lemma CallsOf(q: seq<Timer>, z: nat, reqs: seq<Request>, plan: (int, int) -> seq<Request>, now: int)
    requires Ordered(q) && z <= |q| && reqs == Plans(q[..z], plan) && forall f, a :: Proper(plan(f, a))
    ensures multiset(q) + multiset(Stamped(reqs, now)) == multiset(q[..z]) + multiset(InsertAll(q[z..], reqs, now))
    ensures z == Place(q, now) ==> Pending(InsertAll(q[z..], reqs, now), now)
  {
    hide Insert, Place, InsertAll, Plans;
    assert q == q[..z] + q[z..];
    InsertMany(q[z..], reqs, now);
    if z == Place(q, now) {
      PlaceIs(q, now);
      ProperPlans(q[..z], plan);
      InsertAllLater(q[z..], reqs, now);
    }
  }

  lemma LogMore(log: seq<Call>, bases: seq<int>, q: seq<Timer>, z: nat, now: int)
    requires OnTime(log, bases) && InOrder(log) && Ordered(q) && z == Place(q, now)
    requires forall b :: b in bases ==> b < now && Pending(q, b)
    ensures var log' := log + Stamp(q[..z], now);
            OnTime(log', bases + [now]) && InOrder(log') && Timers(log') == Timers(log) + q[..z]
  {
    hide Place, Stamp, Timers;
    PlaceIs(q, now);
    StampIs(q[..z], now);
    TimersAppend(log, Stamp(q[..z], now));
    assert forall j :: 0 <= j < |bases| ==> bases[j] in bases;
  }

  /**
   * What Fire leaves in front are entries with no time left; behind them the queue is in order, and what it
   * will be.
   */
  lemma Due(t: seq<Callo>, h: History, c: History, plan: (int, int) -> seq<Request>)
    requires c == AllCalled(h.(now := h.now + 1, bases := h.bases + [h.now + 1]), plan)
    requires Holds(t, c.queue, c.now) && Ordered(c.queue) && Ordered(h.queue)
    ensures var z := Place(h.queue, h.now + 1);
            && z <= |c.queue| && Ordered(c.queue[z..]) && Ticked(h, false, plan) == c.(queue := c.queue[z..])
            && forall j :: 0 <= j < z ==> t[j].time <= 0
  {
    hide Insert, Place, Sum, InsertAll, Plans, Stamp, Stamped;
    var z, q := Place(h.queue, c.now), h.queue;
    PlaceIs(q, c.now);
    assert c.queue[z..] == InsertAll(q[z..], Plans(q[..z], plan), c.now);
    forall j | 0 <= j < z
      ensures t[j].time <= 0
    {
      assert c.queue[j] == q[j] && (j > 0 ==> c.queue[j - 1] == q[j - 1]);
      LeftOf(t, c.queue, c.now, j);
    }
  }

  /**
   * While the entries of q with no time left are being called, p1 of them done, the queue is those, and
   * behind them the rest.
   */
  ghost predicate FireOk(q: seq<Timer>, plan: (int, int) -> seq<Request>, now: int, p1: nat, queue: seq<Timer>) {
    var z := Place(q, now);
    && p1 <= z
    && queue == q[..z] + InsertAll(q[z..], Plans(q[..p1], plan), now)
    && |queue| == |q| + |Plans(q[..p1], plan)|
  }

  ghost predicate Proper(reqs: seq<Request>) {
    forall k :: 0 <= k < |reqs| ==> reqs[k].func != 0 && reqs[k].delay > 0
  }

  function InsertAll(q: seq<Timer>, reqs: seq<Request>, now: int): seq<Timer>
    decreases |reqs|
  {
    if reqs == [] then q
    else InsertAll(Insert(q, Timer(reqs[0].func, reqs[0].arg, now + reqs[0].delay)), reqs[1..], now)
  }

  /** The calls of timeout that the functions of some entries make, one after the other. */
  function Plans(q: seq<Timer>, plan: (int, int) -> seq<Request>): seq<Request> {
    if q == [] then [] else plan(q[0].func, q[0].arg) + Plans(q[1..], plan)
  }

  lemma InsertLonger(q: seq<Timer>, x: Timer)
    ensures |Insert(q, x)| == |q| + 1
  {
  }

  lemma CallStart(q: seq<Timer>, now: int)
    ensures InsertAll(q, [], now) == q && Stamped([], now) == []
  {
  }

  lemma CallNext(q: seq<Timer>, reqs: seq<Request>, k: nat, now: int)
    requires k < |reqs|
    ensures var x := Timer(reqs[k].func, reqs[k].arg, now + reqs[k].delay);
            && InsertAll(q, reqs[..k + 1], now) == Insert(InsertAll(q, reqs[..k], now), x)
            && |InsertAll(q, reqs[..k + 1], now)| == |InsertAll(q, reqs[..k], now)| + 1
            && multiset(Stamped(reqs[..k + 1], now)) == multiset(Stamped(reqs[..k], now)) + multiset{x}
  {
    hide Insert, Place;
    var r := reqs[k];
    assert reqs[..k + 1] == reqs[..k] + [r];
    InsertAllAppend(q, reqs[..k], [r], now);
    InsertAllOne(InsertAll(q, reqs[..k], now), r, now);
    InsertLonger(InsertAll(q, reqs[..k], now), Timer(r.func, r.arg, now + r.delay));
    StampedAppend(reqs[..k], [r], now);
    assert [r][1..] == [];
  }

  /** A table that holds its queue has an entry more. */
  lemma RoomLeft(t: seq<Callo>, q: seq<Timer>, now: int)
    requires Holds(t, q, now)
    ensures |q| < |t|
  {
  }

  lemma InsertAllOne(q: seq<Timer>, r: Request, now: int)
    ensures InsertAll(q, [r], now) == Insert(q, Timer(r.func, r.arg, now + r.delay))
  {
    assert [r][1..] == [];
  }

  lemma {:induction false} InsertAllAppend(q: seq<Timer>, a: seq<Request>, b: seq<Request>, now: int)
    ensures InsertAll(q, a + b, now) == InsertAll(InsertAll(q, a, now), b, now)
    decreases |a|
  {
    if a == [] {
      assert a + b == b;
    } else {
      assert (a + b)[1..] == a[1..] + b;
      InsertAllAppend(Insert(q, Timer(a[0].func, a[0].arg, now + a[0].delay)), a[1..], b, now);
    }
  }

  lemma {:induction false} PlansAppend(q: seq<Timer>, r: seq<Timer>, plan: (int, int) -> seq<Request>)
    ensures Plans(q + r, plan) == Plans(q, plan) + Plans(r, plan)
  {
    if q == [] {
      assert q + r == r;
    } else {
      assert (q + r)[1..] == q[1..] + r;
      PlansAppend(q[1..], r, plan);
    }
  }

  lemma {:induction false} PlaceBehind(front: seq<Timer>, rest: seq<Timer>, d: int)
    requires forall k :: 0 <= k < |front| ==> front[k].deadline <= d
    ensures Place(front + rest, d) == |front| + Place(rest, d)
  {
    if front == [] {
      assert front + rest == rest;
    } else {
      assert (front + rest)[1..] == front[1..] + rest;
      PlaceBehind(front[1..], rest, d);
    }
  }

  /** What comes later than a whole front part goes in behind it. */
  lemma {:induction false} InsertAllBehind(front: seq<Timer>, rest: seq<Timer>, reqs: seq<Request>, now: int)
    requires Proper(reqs) && forall k :: 0 <= k < |front| ==> front[k].deadline <= now
    ensures InsertAll(front + rest, reqs, now) == front + InsertAll(rest, reqs, now)
    decreases |reqs|
  {
    if reqs != [] {
      var x := Timer(reqs[0].func, reqs[0].arg, now + reqs[0].delay);
      PlaceBehind(front, rest, x.deadline);
      assert Insert(front + rest, x) == front + Insert(rest, x);
      InsertAllBehind(front, Insert(rest, x), reqs[1..], now);
    }
  }

  lemma FireStart(q: seq<Timer>, plan: (int, int) -> seq<Request>, now: int)
    ensures FireOk(q, plan, now, 0, q)
  {
    var z := Place(q, now);
    assert q[..0] == [] && q[..z] + q[z..] == q;
  }

  lemma {:induction false} InsertAllLater(q: seq<Timer>, reqs: seq<Request>, now: int)
    requires Proper(reqs) && forall k :: 0 <= k < |q| ==> q[k].deadline > now
    ensures forall k :: 0 <= k < |InsertAll(q, reqs, now)| ==> InsertAll(q, reqs, now)[k].deadline > now
    decreases |reqs|
  {
    if reqs != [] {
      InsertAllLater(Insert(q, Timer(reqs[0].func, reqs[0].arg, now + reqs[0].delay)), reqs[1..], now);
    }
  }

  lemma {:induction false} ProperPlans(q: seq<Timer>, plan: (int, int) -> seq<Request>)
    requires forall f, a :: Proper(plan(f, a))
    ensures Proper(Plans(q, plan))
  {
    if q != [] {
      ProperPlans(q[1..], plan);
    }
  }

  /** The next entry has no time left exactly if it is one of those to be called. */
  lemma FireNext(t: seq<Callo>, queue: seq<Timer>, q: seq<Timer>, plan: (int, int) -> seq<Request>, now: int, p1: nat)
    requires Holds(t, queue, now) && Ordered(q) && FireOk(q, plan, now, p1, queue) && forall f, a :: Proper(plan(f, a))
    ensures p1 < |t| && (t[p1].func != 0 && t[p1].time <= 0 <==> p1 < Place(q, now))
    ensures p1 < Place(q, now) ==>
            p1 < |queue| && queue[p1] == q[p1] && t[p1].func == q[p1].func && t[p1].arg == q[p1].arg
  {
    hide Insert, Place, Sum, InsertAll, Plans;
    var z := Place(q, now);
    PlaceIs(q, now);
    ProperPlans(q[..p1], plan);
    InsertAllLater(q[z..], Plans(q[..p1], plan), now);
    LeftOf(t, queue, now, p1);
    assert p1 > 0 ==> queue[p1 - 1] == q[p1 - 1];
    assert p1 < z ==> queue[p1] == q[p1];
    assert p1 == z < |queue| ==> queue[p1] == InsertAll(q[z..], Plans(q[..p1], plan), now)[0];
  }

  lemma PlansNext(q: seq<Timer>, plan: (int, int) -> seq<Request>, p1: nat)
    requires p1 < |q|
    ensures Plans(q[..p1 + 1], plan) == Plans(q[..p1], plan) + plan(q[p1].func, q[p1].arg)
  {
    assert q[..p1 + 1] == q[..p1] + [q[p1]];
    PlansAppend(q[..p1], [q[p1]], plan);
    assert [q[p1]][1..] == [];
  }

  lemma {:induction false} InsertAllLength(q: seq<Timer>, reqs: seq<Request>, now: int)
    ensures |InsertAll(q, reqs, now)| == |q| + |reqs|
    decreases |reqs|
  {
    if reqs != [] {
      InsertAllLength(Insert(q, Timer(reqs[0].func, reqs[0].arg, now + reqs[0].delay)), reqs[1..], now);
    }
  }

  lemma FireCall(was: seq<Timer>, q: seq<Timer>, plan: (int, int) -> seq<Request>, now: int, p1: nat, queue: seq<Timer>)
    requires Ordered(q) && FireOk(q, plan, now, p1, was) && p1 < Place(q, now) && forall f, a :: Proper(plan(f, a))
    requires queue == InsertAll(was, plan(q[p1].func, q[p1].arg), now)
    ensures FireOk(q, plan, now, p1 + 1, queue)
  {
    hide Insert, Place, InsertAll, Plans;
    var z, reqs := Place(q, now), plan(q[p1].func, q[p1].arg);
    PlaceIs(q, now);
    InsertAllBehind(q[..z], InsertAll(q[z..], Plans(q[..p1], plan), now), reqs, now);
    InsertAllAppend(q[z..], Plans(q[..p1], plan), reqs, now);
    PlansNext(q, plan, p1);
    InsertAllLength(was, reqs, now);
  }

  lemma FireStamped(q: seq<Timer>, plan: (int, int) -> seq<Request>, now: int, p1: nat)
    requires p1 < |q|
    ensures Stamped(Plans(q[..p1 + 1], plan), now) == Stamped(Plans(q[..p1], plan), now)
            + Stamped(plan(q[p1].func, q[p1].arg), now)
  {
    PlansNext(q, plan, p1);
    StampedAppend(Plans(q[..p1], plan), plan(q[p1].func, q[p1].arg), now);
  }

  /** Of what is due in h, the first p1 entries have been called. */
  ghost predicate Fired(h: History, plan: (int, int) -> seq<Request>, p1: nat, c: History) {
    && c.now == h.now && c.bases == h.bases && FireOk(h.queue, plan, h.now, p1, c.queue)
    && c.calls == h.calls + Stamp(h.queue[..p1], h.now)
    && c.entered == h.entered + multiset(Stamped(Plans(h.queue[..p1], plan), h.now))
  }

  lemma FiredNone(h: History, plan: (int, int) -> seq<Request>)
    ensures Fired(h, plan, 0, h)
  {
    FireStart(h.queue, plan, h.now);
    Untouched(h.queue, plan, h.now);
  }

  lemma FiredNext(t: seq<Callo>, h: History, plan: (int, int) -> seq<Request>, p1: nat, c: History)
    requires Holds(t, c.queue, h.now) && Ordered(h.queue) && Fired(h, plan, p1, c) && forall f, a :: Proper(plan(f, a))
    ensures p1 <= Place(h.queue, h.now)
    ensures p1 < |t| && (t[p1].func != 0 && t[p1].time <= 0 <==> p1 < Place(h.queue, h.now))
    ensures p1 < Place(h.queue, h.now) ==>
              && p1 < |c.queue| && c.queue[p1] == h.queue[p1]
              && t[p1].func == h.queue[p1].func && t[p1].arg == h.queue[p1].arg
    ensures |c.queue| == |h.queue| + |Plans(h.queue[..p1], plan)|
  {
    hide Holds, Plans, InsertAll, Stamp, Stamped;
    FireNext(t, c.queue, h.queue, plan, h.now, p1);
  }

  lemma FiredOne(h: History, plan: (int, int) -> seq<Request>, p1: nat, was: History, c: History)
    requires Ordered(h.queue) && Fired(h, plan, p1, was) && p1 < Place(h.queue, h.now)
             && forall f, a :: Proper(plan(f, a))
    requires var x := h.queue[p1];
             && c.now == was.now && c.bases == was.bases && c.calls == was.calls + [Called(x, h.now)]
             && c.queue == InsertAll(was.queue, plan(x.func, x.arg), h.now)
             && c.entered == was.entered + multiset(Stamped(plan(x.func, x.arg), h.now))
    ensures Fired(h, plan, p1 + 1, c)
  {
    hide Plans, InsertAll, Stamp, Stamped, Place;
    StampNext(h.queue, h.now, p1);
    FireCall(was.queue, h.queue, plan, h.now, p1, c.queue);
    FireStamped(h.queue, plan, h.now, p1);
  }

  lemma FiredAll(h: History, plan: (int, int) -> seq<Request>, p1: nat, c: History)
    requires Fired(h, plan, p1, c) && p1 == Place(h.queue, h.now)
    ensures c == AllCalled(h, plan) && |c.queue| == |h.queue| + |Plans(h.queue[..p1], plan)|
  {
  }

  /** The calls made so far and the next ones are part of all of them. */
  lemma FireRoom(q: seq<Timer>, plan: (int, int) -> seq<Request>, now: int, p1: nat)
    requires p1 < Place(q, now)
    ensures |Plans(q[..p1], plan)| + |plan(q[p1].func, q[p1].arg)| <= |Plans(q[..Place(q, now)], plan)|
  {
    hide Place;
    var z := Place(q, now);
    PlansNext(q, plan, p1);
    assert q[..z] == q[..p1 + 1] + q[p1 + 1..z];
    PlansAppend(q[..p1 + 1], q[p1 + 1..z], plan);
  }
}
