/**
 * Swap space and shared texts: what swapping, exec, fork and exit do to the swap
 * map and to the counts of a text, each operation taken as a whole.
 */
module SwapSpace {
  import opened ResourceMap
  import opened Sequences
  import opened SwapSteps

  /** Each unit of swap space is free, or has one owner, whose range it is in and no one else's. */
  ghost predicate Partition(runs: seq<Entry>, nswap: nat, owner: map<int, Owner>, s: Tables) {
    && (forall u :: In(runs, u) ==> 1 <= u <= nswap)
    && (forall u :: u in owner <==> 1 <= u <= nswap && !In(runs, u))
    && (forall o, u :: Holds(RangeOf(s, o), u) ==> u in owner && owner[u] == o)
    && (forall u :: u in owner ==> Holds(RangeOf(s, owner[u]), u))
  }

  /** The units of a range given to an owner, and taken back. */
  ghost function Assigned(owner: map<int, Owner>, o: Owner, r: Range): map<int, Owner> {
    map u | u in owner.Keys + Units(r) :: if Holds(r, u) then o else owner[u]
  }

  ghost function Units(r: Range): set<int> {
    set u | r.addr <= u < r.addr + r.size && Holds(r, u)
  }

  ghost function Cleared(owner: map<int, Owner>, r: Range): map<int, Owner> {
    map u | u in owner && !Holds(r, u) :: owner[u]
  }

  /** Only the range of owner o is different. */
  ghost predicate OnlyChanged(s: Tables, t: Tables, o: Owner) {
    forall p :: p != o ==> RangeOf(t, p) == RangeOf(s, p)
  }

  /** An allocation for an owner that had nothing. */
  lemma TakeOk(runs: seq<Entry>, nswap: nat, owner: map<int, Owner>, s: Tables, o: Owner, runs': seq<Entry>, t: Tables,
               size: nat, a: int)
    requires Partition(runs, nswap, owner, s) && RangeOf(s, o).size == 0 && OnlyChanged(s, t, o)
    requires size > 0 && a != 0 && Granted(runs, runs', size, a) && RangeOf(t, o) == Range(a, size)
    ensures Partition(runs', nswap, Assigned(owner, o, Range(a, size)), t)
  {
    hide In, RangeOf;
    var r, owner' := Range(a, size), Assigned(owner, o, Range(a, size));
    TakeUnits(runs, nswap, owner, s, o, runs', size, a);
    forall p, u | Holds(RangeOf(t, p), u)
      ensures u in owner' && owner'[u] == p
    {
      if p != o {
        assert Holds(RangeOf(s, p), u) && u in owner && !In(runs, u);
        assert Holds(r, u) ==> In(runs, u);
      }
    }
    forall u | u in owner'
      ensures Holds(RangeOf(t, owner'[u]), u)
    {
      if !Holds(r, u) {
        assert Holds(RangeOf(s, owner[u]), u) && owner[u] != o;
      }
    }
  }

  lemma TakeUnits(runs: seq<Entry>, nswap: nat, owner: map<int, Owner>, s: Tables, o: Owner, runs': seq<Entry>,
                  size: nat, a: int)
    requires Partition(runs, nswap, owner, s) && size > 0 && a != 0 && Granted(runs, runs', size, a)
    ensures forall u :: In(runs', u) ==> 1 <= u <= nswap
    ensures forall u :: u in Assigned(owner, o, Range(a, size)) <==> 1 <= u <= nswap && !In(runs', u)
  {
    hide In, RangeOf;
    var r, owner' := Range(a, size), Assigned(owner, o, Range(a, size));
    forall u
      ensures u in owner' <==> 1 <= u <= nswap && !In(runs', u)
    {
      assert Holds(r, u) ==> In(runs, u);
    }
  }

  lemma GiveUnits(runs: seq<Entry>, nswap: nat, owner: map<int, Owner>, s: Tables, o: Owner, runs': seq<Entry>)
    requires Partition(runs, nswap, owner, s) && RangeOf(s, o).size >= 0
             && Returned(runs, runs', RangeOf(s, o).size, RangeOf(s, o).addr)
    ensures forall u :: In(runs', u) ==> 1 <= u <= nswap
    ensures forall u :: u in Cleared(owner, RangeOf(s, o)) <==> 1 <= u <= nswap && !In(runs', u)
  {
    hide In, RangeOf;
    var r := RangeOf(s, o);
    assert forall u :: Holds(r, u) ==> u in owner;
    assert forall u :: In(runs', u) <==> In(runs, u) || Holds(r, u);
  }

  /** The range of an owner given back. */
  lemma GiveOk(runs: seq<Entry>, nswap: nat, owner: map<int, Owner>, s: Tables, o: Owner, runs': seq<Entry>, t: Tables)
    requires Partition(runs, nswap, owner, s) && OnlyChanged(s, t, o) && RangeOf(s, o).size >= 0
             && RangeOf(t, o).size == 0
    requires Returned(runs, runs', RangeOf(s, o).size, RangeOf(s, o).addr)
    ensures Partition(runs', nswap, Cleared(owner, RangeOf(s, o)), t)
  {
    hide In, RangeOf;
    var r, owner' := RangeOf(s, o), Cleared(owner, RangeOf(s, o));
    assert forall u :: Holds(r, u) ==> u in owner && owner[u] == o;
    GiveUnits(runs, nswap, owner, s, o, runs');
    forall p, u | Holds(RangeOf(t, p), u)
      ensures u in owner' && owner'[u] == p
    {
      assert p != o && Holds(RangeOf(s, p), u) ;
    }
    forall u | u in owner'
      ensures Holds(RangeOf(t, owner'[u]), u)
    {
      assert owner'[u] == owner[u] && Holds(RangeOf(s, owner[u]), u) && owner[u] != o;
    }
  }

  // ---------------------------------------------------------------------------
  // The counts of a text.

  /** Processes that use text k, and those of them that are in core. */
  function Users(procs: seq<Proc>, k: int): int {
    if procs == [] then 0 else Users(procs[1..], k) + Uses(procs[0], k)
  }

  function Loaded(procs: seq<Proc>, k: int): int {
    if procs == [] then 0 else Loaded(procs[1..], k) + Loads(procs[0], k)
  }

  function Uses(p: Proc, k: int): int {
    if p.text == k then 1 else 0
  }

  function Loads(p: Proc, k: int): int {
    if p.text == k && !p.out then 1 else 0
  }

  lemma {:induction false} CountsChange(procs: seq<Proc>, j: nat, p: Proc, k: int)
    requires j < |procs|
    ensures Users(procs[j := p], k) == Users(procs, k) - Uses(procs[j], k) + Uses(p, k)
    ensures Loaded(procs[j := p], k) == Loaded(procs, k) - Loads(procs[j], k) + Loads(p, k)
  {
    if j > 0 {
      assert procs[j := p][1..] == procs[1..][j - 1 := p];
      CountsChange(procs[1..], j - 1, p, k);
    }
  }

  lemma {:induction false} CountsAtLeast(procs: seq<Proc>, j: nat, k: int)
    requires j < |procs|
    ensures Users(procs, k) >= Uses(procs[j], k) && Loaded(procs, k) >= Loads(procs[j], k)
    ensures Users(procs, k) >= Loaded(procs, k)
  {
    NotNegative(procs[1..], k);
    if j > 0 {
      CountsAtLeast(procs[1..], j - 1, k);
    }
  }

  lemma {:induction false} NotNegative(procs: seq<Proc>, k: int)
    ensures Users(procs, k) >= Loaded(procs, k) >= 0
  {
    if procs != [] {
      NotNegative(procs[1..], k);
    }
  }

  /** x_count is the number of processes that use the text, and x_ccount of those in core; nobody uses a free slot. */
  ghost predicate CountOk(s: Tables, k: int)
    requires 0 <= k < |s.texts|
  {
    if s.texts[k].iptr == 0 then Users(s.procs, k) == 0
    else s.texts[k].count == Users(s.procs, k) && s.texts[k].ccount == Loaded(s.procs, k) && s.texts[k].size > 0
  }

  predicate ProcOk(p: Proc, texts: nat) {
    -1 <= p.text < texts && p.size > 0 && (p.part ==> p.out)
  }

  ghost predicate TablesOk(s: Tables) {
    && (forall j :: 0 <= j < |s.procs| ==> ProcOk(s.procs[j], |s.texts|))
    && (forall k :: 0 <= k < |s.texts| ==> CountOk(s, k))
  }

  lemma TablesChange(s: Tables, j: nat, p: Proc, x: int, tx: Text)
    requires TablesOk(s) && j < |s.procs| && x < |s.texts| && ProcOk(p, |s.texts|)
    requires forall k :: 0 <= k < |s.texts| && k != x ==>
             Uses(p, k) == Uses(s.procs[j], k) && Loads(p, k) == Loads(s.procs[j], k)
    requires x >= 0 ==>
               if tx.iptr == 0 then Users(s.procs, x) - Uses(s.procs[j], x) + Uses(p, x) == 0
               else tx.count == Users(s.procs, x) - Uses(s.procs[j], x) + Uses(p, x)
                    && tx.ccount == Loaded(s.procs, x) - Loads(s.procs[j], x) + Loads(p, x) && tx.size > 0
    ensures TablesOk(Changed(s, j, p, x, tx))
  {
    hide Users, Loaded, Uses, Loads;
    var t := Changed(s, j, p, x, tx);
    forall k | 0 <= k < |s.texts|
      ensures CountOk(t, k)
    {
      assert CountOk(s, k);
      CountsChange(s.procs, j, p, k);
    }
  }

  class Swap {
    const swapmap: Map
    const nswap: nat
    const proc: array<Proc>
    const text: array<Text>
    var execs: map<nat, int>
    ghost var owner: map<int, Owner>

    ghost function State(): Tables
      reads this, proc, text
    {
      Tables(proc[..], text[..], execs)
    }

    ghost function Now(): Space
      requires swapmap.InOrder()
      reads this, proc, text, swapmap, swapmap.m
    {
      Space(State(), swapmap.Runs(), swapmap.m.Length)
    }

    /** Swap space is divided up, and the counts of texts are right. */
    ghost predicate Sound()
      reads this, proc, text, swapmap, swapmap.m
    {
      swapmap.InOrder() && Partition(swapmap.Runs(), nswap, owner, State()) && TablesOk(State())
    }

    /** The swap map has its terminator, too. */
    ghost predicate Valid()
      reads this, proc, text, swapmap, swapmap.m
    {
      Sound() && swapmap.Valid()
    }

    /** As startup leaves it: all swap space free, and no texts. */
    constructor (nproc: nat, ntext: nat, units: nat, entries: nat)
      requires entries > 1
      ensures Valid() && nswap == units && proc.Length == nproc && text.Length == ntext && execs == map[]
              && owner == map[]
      ensures fresh(swapmap) && fresh(swapmap.m) && fresh(proc) && fresh(text)
    {
      var free := new Map(entries);
      free.Mfree(units, 1);
      swapmap, nswap, execs, owner := free, units, map[], map[];
      proc := new Proc[nproc](_ => Proc(false, false, 4, 0, 0, -1));
      text := new Text[ntext](_ => NOTEXT);
      new;
      NobodyUses(proc[..]);
    }

    /**
     * xswap: an image not yet on its way out gets its space, and its text loses a process in core. blocks is
     * how much is swapped, 0 for all.
     */
    method XSwap(k: nat, blocks: nat) returns (ok: bool)
      requires Valid() && k < proc.Length && (proc[k].out ==> proc[k].part && blocks > 0)
      requires blocks > 0 ==> blocks <= proc[k].size
      modifies this, proc, text, swapmap, swapmap.m
      ensures Valid() && (ok ==> proc[k].out && proc[k].text == old(proc[k].text) && proc[k].size == old(proc[k].size))
      ensures ok && blocks > 0 ==> var gone := blocks + (if old(proc[k].out) then old(proc[k].swsize) else 0);
                                   proc[k].swsize == gone && proc[k].part == (gone != proc[k].size)
      ensures ok && blocks == 0 ==> !proc[k].part
      ensures forall j :: 0 <= j < proc.Length && j != k ==> proc[j] == old(proc[j])
      ensures ok && old(proc[k].out) ==> proc[k].swaddr == old(proc[k].swaddr)
      ensures ok <==> old(proc[k].out) || !Full(old(swapmap.Runs()), old(proc[k].size))
      ensures !ok ==> proc[..] == old(proc[..]) && text[..] == old(text[..])
      ensures SwappedOut(old(Now()), k, blocks, ok, Now())
    {
      hide Partition, TablesOk, Granted, Full, RangeOf, Users, Loaded;
      ProcAt(State(), k);
      if !proc[k].part {
        ok := GoOut(k);
        if !ok {
          return;
        }
      }
      Progress(k, blocks);
      ok := true;
    }

    /** The first part of xswap. */
    method GoOut(k: nat) returns (ok: bool)
      requires Valid() && k < proc.Length && !proc[k].out
      modifies this, proc, text, swapmap, swapmap.m
      ensures Valid() && (ok ==> proc[k] == old(proc[k]).(out := true, part := false, swaddr := proc[k].swaddr,
                                                          swsize := 0))
      ensures forall j :: 0 <= j < proc.Length && j != k ==> proc[j] == old(proc[j])
      ensures forall j :: 0 <= j < text.Length && j != old(proc[k].text) ==> text[j] == old(text[j])
      ensures forall j :: 0 <= j < text.Length ==> text[j].iptr == old(text[j].iptr)
      ensures ok <==> !Full(old(swapmap.Runs()), old(proc[k].size))
      ensures !ok ==> proc[..] == old(proc[..]) && text[..] == old(text[..])
      ensures if ok then GoesOut(old(Now()), k, Now(), OutAt(old(State()), k, proc[k].swaddr)) else Now() == old(Now())
    {
      hide Partition, TablesOk, Granted, Full, RangeOf, Users, Loaded, Assigned;
      ghost var s := State();
      ProcAt(s, k);
      ghost var runs := swapmap.Runs();
      var a := swapmap.Malloc(proc[k].size);
      if a == 0 {
        SameRuns(runs, swapmap.Runs(), proc[k].size);
        return false;
      }
      NotFull(runs, swapmap.Runs(), proc[k].size, a);
      var x := proc[k].text;
      var p := proc[k].(out := true, part := false, swaddr := a, swsize := 0);
      ghost var tx := if x >= 0 then text[x].(ccount := text[x].ccount - 1) else NOTEXT;
      LeaveCore(s, k, p);
      ghost var t := Changed(s, k, p, x, tx);
      OutRange(s, k, p, x, tx);
      TakeOk(runs, nswap, owner, s, OfProc(k), swapmap.Runs(), t, proc[k].size, a);
      owner := Assigned(owner, OfProc(k), Range(a, proc[k].size));
      Xccdec(x);
      proc[k] := p;
      assert State() == t;
      ok := true;
    }

    /** xccdec: one process less in core uses the text. */
    method Xccdec(x: int)
      requires -1 <= x < text.Length
      modifies text
      ensures forall j :: 0 <= j < text.Length ==>
                text[j] == if j == x && old(text[j].ccount) != 0 then old(text[j]).(ccount := old(text[j].ccount) - 1)
                    else old(text[j])
    {
      if x < 0 || text[x].ccount == 0 {
        return;
      }
      text[x] := text[x].(ccount := text[x].ccount - 1);
    }

    /** How much of an image that is on its way out has gone. */
    method Progress(k: nat, blocks: nat)
      requires Valid() && k < proc.Length && proc[k].out
      modifies proc
      ensures Valid()
      ensures var p := old(proc[k]);
              proc[k] == if blocks == 0 then p else p.(swsize := p.swsize + blocks, part := p.swsize + blocks != p.size)
      ensures forall j :: 0 <= j < proc.Length && j != k ==> proc[j] == old(proc[j])
      ensures State() == Gone(old(State()), k, blocks)
    {
      hide Partition, TablesOk, RangeOf, Users, Loaded;
      if blocks > 0 {
        ghost var s := State();
        ProcAt(s, k);
        var p := proc[k].(swsize := proc[k].swsize + blocks, part := proc[k].swsize + blocks != proc[k].size);
        TablesChange(s, k, p, -1, NOTEXT);
        SameRanges(swapmap.Runs(), nswap, owner, s, k, p);
        proc[k] := p;
        assert State() == Changed(s, k, p, -1, NOTEXT);
      }
    }

    /** swapin, with core for it or not: the image's space is free again, and its text has one more process in core. */
    method SwapIn(k: nat, room: bool) returns (r: bool)
      requires Valid() && k < proc.Length && proc[k].out
      modifies this, proc, text, swapmap, swapmap.m
      ensures Sound() && r == room
      ensures Valid() <==> !r || Spare(old(swapmap.Runs()), swapmap.m.Length, old(proc[k]).swaddr, old(proc[k]).size)
      ensures r ==> proc[k] == old(proc[k]).(out := false, part := false)
      ensures forall j :: 0 <= j < proc.Length && (j != k || !r) ==> proc[j] == old(proc[j])
      ensures if r then GivenBack(old(Now()), RangeOf(old(State()), OfProc(k)), Now(), InAgain(old(State()), k))
              else Now() == old(Now())
    {
      hide Partition, TablesOk, RangeOf, Users, Loaded, Cleared, Returned;
      if !room {
        return false;
      }
      ghost var s := State();
      ProcAt(s, k);
      var x := proc[k].text;
      var p := proc[k].(out := false, part := false);
      ghost var tx := if x >= 0 then text[x].(ccount := text[x].ccount + 1) else NOTEXT;
      EnterCore(s, k, p);
      ghost var t := Changed(s, k, p, x, tx);
      InRange(s, k, p, x, tx);
      ghost var runs := swapmap.Runs();
      NotFree(runs, nswap, owner, s, OfProc(k));
      swapmap.Mfree(proc[k].size, proc[k].swaddr);
      GiveOk(runs, nswap, owner, s, OfProc(k), swapmap.Runs(), t);
      owner := Cleared(owner, RangeOf(s, OfProc(k)));
      if x >= 0 {
        text[x] := text[x].(ccount := text[x].ccount + 1);
      }
      proc[k] := p;
      assert State() == t;
      r := true;
    }

    /** The scan of xalloc: the slot of the text of inode ip, or else a free slot, or -1. */
    method FindText(ip: int) returns (xp: int, xp1: int)
      requires ip != 0
      ensures -1 <= xp < text.Length && -1 <= xp1 < text.Length
      ensures xp >= 0 ==> text[xp].iptr == ip
      ensures xp < 0 ==> forall k :: 0 <= k < text.Length ==> text[k].iptr != ip
      ensures xp < 0 && xp1 >= 0 ==> text[xp1].iptr == 0
      ensures xp < 0 && xp1 < 0 ==> forall k :: 0 <= k < text.Length ==> text[k].iptr != 0
      ensures xp == SlotFrom(text[..], ip, 0) && (xp < 0 ==> xp1 == SlotFrom(text[..], 0, 0))
    {
      xp, xp1 := 0, -1;
      while xp < text.Length
        invariant 0 <= xp <= text.Length && -1 <= xp1 < text.Length
        invariant forall k :: 0 <= k < xp ==> text[k].iptr != ip
        invariant xp1 >= 0 ==> text[xp1].iptr == 0
        invariant xp1 < 0 ==> forall k :: 0 <= k < xp ==> text[k].iptr != 0
        invariant SlotFrom(text[..], ip, 0) == SlotFrom(text[..], ip, xp)
        invariant SlotFrom(text[..], 0, 0) == if xp1 < 0 then SlotFrom(text[..], 0, xp) else xp1
      {
        if text[xp].iptr == 0 {
          if xp1 < 0 {
            xp1 := xp;
          }
        } else if text[xp].iptr == ip {
          return;
        }
        xp := xp + 1;
      }
      xp := -1;
    }

    /**
     * xalloc for a running process without a text: attaches to the text of ip, or makes a new one of ts
     * units. If there is no core for a text that is not in core, the process is swapped out.
     */
    method Xalloc(k: nat, ip: int, ts: nat, room: bool) returns (r: Outcome)
      requires Valid() && k < proc.Length && !proc[k].out && proc[k].text == -1 && ip != 0 && ts > 0
      modifies this, proc, text, swapmap, swapmap.m
      ensures Valid()
      ensures r.NoSlot? ==>
              proc[..] == old(proc[..]) && text[..] == old(text[..])
                  && forall j :: 0 <= j < text.Length ==> text[j].iptr != 0
      ensures forall j :: 0 <= j < proc.Length && j != k ==> proc[j] == old(proc[j])
      ensures r.Done? ==> 0 <= proc[k].text < text.Length && text[proc[k].text].iptr == ip
                            && (proc[k].out <==> text[proc[k].text].ccount == 0) && (proc[k].out ==> !room)
                            && (!proc[k].out ==> room || text[proc[k].text].ccount > 1)
      ensures TextFound(old(Now()), k, ip, ts, room, r, Now())
    {
      hide Partition, TablesOk, RangeOf, Users, Loaded, Granted, Full, AttachedTo;
      ghost var s := Now();
      var xp, xp1 := FindText(ip);
      if xp < 0 {
        if xp1 < 0 {
          return NoSlot;
        }
        var ok := NewText(xp1, ip, ts);
        if !ok {
          return NoSpace;
        }
        ghost var u := Now();
        r := AttachTo(k, xp1, room);
        assert TextIsNew(s, xp1, ip, ts, u) && AttachedTo(u, k, xp1, room, r, Now());
      } else {
        r := AttachTo(k, xp, room);
      }
    }

    /** A process hooks up to a text; without core for a text that is not in core it is swapped out. */
    method AttachTo(k: nat, x: nat, room: bool) returns (r: Outcome)
      requires Valid() && k < proc.Length && !proc[k].out && proc[k].text == -1
      requires x < text.Length && text[x].iptr != 0
      modifies this, proc, text, swapmap, swapmap.m
      ensures Valid() && AttachedTo(old(Now()), k, x, room, r, Now())
      ensures forall j :: 0 <= j < proc.Length && j != k ==> proc[j] == old(proc[j])
      ensures text[x].iptr == old(text[x].iptr) && !r.NoSlot?
      ensures r.Done? ==> proc[k].text == x && (proc[k].out <==> text[x].ccount == 0) && (proc[k].out ==> !room)
                          && (!proc[k].out ==> room || text[x].ccount > 1)
    {
      hide Partition, TablesOk, RangeOf, Users, Loaded, Granted, Full;
      ProcAt(State(), k);
      if text[x].ccount == 0 && !room {
        var out := GoOut(k);
        if !out {
          return NoSpace;
        }
        AttachOut(k, x);
      } else {
        InCoreCount(State(), x);
        AttachIn(k, x);
      }
      r := Done;
    }

    /** A new text in a free slot, with swap space, not used by anyone yet. */
    method NewText(x: nat, ip: int, ts: nat) returns (ok: bool)
      requires Valid() && x < text.Length && text[x].iptr == 0 && ip != 0 && ts > 0
      modifies this, text, swapmap, swapmap.m
      ensures Valid() && (ok ==> text[x].iptr == ip && text[x].ccount == 0)
      ensures ok <==> !Full(old(swapmap.Runs()), ts)
      ensures forall j :: 0 <= j < text.Length && (j != x || !ok) ==> text[j] == old(text[j])
      ensures if ok then TextIsNew(old(Now()), x, ip, ts, Now()) else Now() == old(Now())
    {
      hide Partition, TablesOk, RangeOf, Users, Loaded, Granted, Full, Assigned;
      ghost var s := State();
      ghost var runs := swapmap.Runs();
      var a := swapmap.Malloc(ts);
      if a == 0 {
        SameRuns(runs, swapmap.Runs(), ts);
        return false;
      }
      NotFull(runs, swapmap.Runs(), ts, a);
      ghost var t := s.(texts := s.texts[x := Text(ip, 0, 0, ts, a)]);
      TextMade(s, x, t.texts[x]);
      TakeOk(runs, nswap, owner, s, OfText(x), swapmap.Runs(), t, ts, a);
      owner := Assigned(owner, OfText(x), Range(a, ts));
      text[x] := Text(ip, 0, 0, ts, a);
      assert State() == t;
      ok := true;
    }

    /** x_count++ and x_ccount++, for a process in core. */
    method AttachIn(k: nat, x: nat)
      requires Valid() && k < proc.Length && x < text.Length && !proc[k].out && proc[k].text == -1 && text[x].iptr != 0
      modifies proc, text
      ensures Valid() && proc[..] == old(proc[..])[k := old(proc[k]).(text := x)]
      ensures text[..] == old(text[..])[x := old(text[x]).(count := old(text[x].count) + 1,
                                                           ccount := old(text[x].ccount) + 1)]
      ensures State() == SwapSteps.Attached(old(State()), k, x, true)
    {
      hide Partition, TablesOk, RangeOf, Users, Loaded;
      ghost var s := State();
      var p, tx := proc[k].(text := x), text[x].(count := text[x].count + 1, ccount := text[x].ccount + 1);
      AttachedOk(s, k, p, x, tx);
      SameSpace(swapmap.Runs(), nswap, owner, s, k, p, x, tx);
      text[x] := tx;
      proc[k] := p;
      assert State() == Changed(s, k, p, x, tx);
    }

    /** x_count++ only, for a process that has been swapped out for want of core. */
    method AttachOut(k: nat, x: nat)
      requires Valid() && k < proc.Length && x < text.Length && proc[k].out && proc[k].text == -1 && text[x].iptr != 0
      modifies proc, text
      ensures Valid() && proc[..] == old(proc[..])[k := old(proc[k]).(text := x)]
      ensures text[..] == old(text[..])[x := old(text[x]).(count := old(text[x].count) + 1)]
      ensures State() == SwapSteps.Attached(old(State()), k, x, false)
    {
      hide Partition, TablesOk, RangeOf, Users, Loaded;
      ghost var s := State();
      var p, tx := proc[k].(text := x), text[x].(count := text[x].count + 1);
      AttachedOk(s, k, p, x, tx);
      SameSpace(swapmap.Runs(), nswap, owner, s, k, p, x, tx);
      text[x] := tx;
      proc[k] := p;
      assert State() == Changed(s, k, p, x, tx);
    }

    /** xfree by a running process: the last user of a text that need not be kept frees it. */
    method Xfree(k: nat, sticky: bool)
      requires Valid() && k < proc.Length && !proc[k].out
      modifies this, proc, text, swapmap, swapmap.m
      ensures Sound() && proc[k] == old(proc[k]).(text := -1)
      ensures forall j :: 0 <= j < proc.Length && j != k ==> proc[j] == old(proc[j])
      ensures forall j :: 0 <= j < text.Length && j != old(proc[k].text) ==> text[j] == old(text[j])
      ensures old(proc[k].text) >= 0 ==>
                var x := old(proc[k].text);
                x < text.Length && (text[x].iptr == 0 <==> old(Users(proc[..], x)) == 1 && !sticky)
                && (Valid() <==> text[x].iptr != 0 || Spare(old(swapmap.Runs()), swapmap.m.Length,
                                                            old(text[..])[x].daddr, old(text[..])[x].size))
      ensures old(proc[k].text) < 0 ==> Valid()
      ensures if old(LastUser(State(), k, sticky))
              then GivenBack(old(Now()), RangeOf(old(State()), OfText(old(proc[k].text))), Now(),
                             Detached(old(State()), k, sticky))
              else Now() == old(Now()).(t := Detached(old(State()), k, sticky))
    {
      hide Partition, TablesOk, RangeOf, Users, Loaded, Cleared, Returned;
      var x := proc[k].text;
      ghost var s := State();
      ProcAt(s, k);
      if x < 0 {
        return;
      }
      var p := proc[k].(text := -1);
      var last := text[x].count == 1 && !sticky;
      var tx := if last then text[x].(iptr := 0, count := 0)
                else text[x].(count := text[x].count - 1, ccount := if text[x].ccount == 0 then 0
                              else text[x].ccount - 1);
      ghost var runs, t := swapmap.Runs(), Changed(s, k, p, x, tx);
      DetachedOk(s, k, p, x, tx);
      if last {
        NotFree(runs, nswap, owner, s, OfText(x));
        TextRange(s, k, p, x, tx);
        swapmap.Mfree(text[x].size, text[x].daddr);
        GiveOk(runs, nswap, owner, s, OfText(x), swapmap.Runs(), t);
        owner := Cleared(owner, RangeOf(s, OfText(x)));
      } else {
        SameSpace(runs, nswap, owner, s, k, p, x, tx);
      }
      text[x] := tx;
      proc[k] := p;
      assert State() == t;
    }

    /** xuntext: a text that nobody uses is given up. */
    method Xuntext(x: nat)
      requires Valid() && x < text.Length && text[x].iptr != 0
      modifies this, text, swapmap, swapmap.m
      ensures Sound() && (text[x].iptr == 0 <==> old(Users(proc[..], x)) == 0)
      ensures Valid() <==> text[x].iptr != 0 || Spare(old(swapmap.Runs()), swapmap.m.Length, old(text[x]).daddr,
                                                      old(text[x]).size)
      ensures forall j :: 0 <= j < text.Length && j != x ==> text[j] == old(text[j])
      ensures if old(text[x].count) != 0 then Now() == old(Now())
              else GivenBack(old(Now()), RangeOf(old(State()), OfText(x)), Now(),
                             old(State()).(texts := old(text[..])[x := old(text[x]).(iptr := 0)]))
    {
      hide Partition, TablesOk, RangeOf, Users, Loaded, Cleared, Returned;
      ghost var s := State();
      TextAt(s, x);
      if text[x].count != 0 {
        return;
      }
      ghost var runs, t := swapmap.Runs(), s.(texts := s.texts[x := s.texts[x].(iptr := 0)]);
      NotFree(runs, nswap, owner, s, OfText(x));
      TextGone(s, x, t.texts[x]);
      swapmap.Mfree(text[x].size, text[x].daddr);
      GiveOk(runs, nswap, owner, s, OfText(x), swapmap.Runs(), t);
      owner := Cleared(owner, RangeOf(s, OfText(x)));
      text[x] := text[x].(iptr := 0);
      assert State() == t;
    }

    /** A process in core changes its size. */
    method Resize(k: nat, size: int)
      requires Valid() && k < proc.Length && !proc[k].out && size > 0
      modifies proc
      ensures Valid() && proc[..] == old(proc[..])[k := old(proc[k]).(size := size)]
    {
      hide Partition, TablesOk, RangeOf, Users, Loaded;
      ghost var s := State();
      ProcAt(s, k);
      var p := proc[k].(size := size);
      TablesChange(s, k, p, -1, NOTEXT);
      InCoreRanges(swapmap.Runs(), nswap, owner, s, k, p);
      proc[k] := p;
      assert State() == Changed(s, k, p, -1, NOTEXT);
    }

    /** newproc: the child in slot c is a copy of the parent, in core, or, if there is no room, swapped out at once. */
    method Newproc(k: nat, c: nat, room: bool) returns (ok: bool)
      requires Valid() && k < proc.Length && c < proc.Length && k != c && !proc[k].out && !proc[c].out
               && proc[c].text == -1
      modifies this, proc, text, swapmap, swapmap.m
      ensures Valid() && (ok ==>
                          proc[c].text == old(proc[k].text) && proc[c].size == old(proc[k].size)
                              && proc[c].out == !room)
      ensures forall j :: 0 <= j < proc.Length && j != c ==> proc[j] == old(proc[j])
      ensures Forked(old(Now()), k, c, room, ok, Now())
      ensures ok <==> room || !Full(old(swapmap.Runs()), old(proc[k].size))
    {
      hide Partition, TablesOk, RangeOf, Users, Loaded;
      ProcAt(State(), k);
      Resize(c, proc[k].size);
      ProcAt(State(), k);
      ProcAt(State(), c);
      var x := proc[k].text;
      if x >= 0 {
        AttachIn(c, x);
      }
      ok := true;
      if !room {
        ok := XSwap(c, 0);
      }
    }

    /** exec collects its arguments in swap space. */
    method ExecStart(id: nat) returns (ok: bool)
      requires Valid() && id !in execs
      modifies this, swapmap, swapmap.m
      ensures Valid() && (ok <==> id in execs) && (ok <==> !Full(old(swapmap.Runs()), ARGS))
      ensures forall i :: i in old(execs) ==> i in execs && execs[i] == old(execs)[i]
      ensures ExecStarted(old(Now()), id, ok, Now())
    {
      hide Partition, TablesOk, RangeOf, Users, Loaded, Granted, Full, Assigned;
      ghost var s := State();
      ghost var runs := swapmap.Runs();
      var a := swapmap.Malloc(ARGS);
      if a == 0 {
        SameRuns(runs, swapmap.Runs(), ARGS);
        return false;
      }
      NotFull(runs, swapmap.Runs(), ARGS, a);
      ghost var t := s.(execs := s.execs[id := a]);
      ExecRange(s, id, t);
      TakeOk(runs, nswap, owner, s, OfExec(id), swapmap.Runs(), t, ARGS, a);
      owner := Assigned(owner, OfExec(id), Range(a, ARGS));
      execs := execs[id := a];
      ExecTables(s, t);
      ok := true;
    }

    method ExecEnd(id: nat)
      requires Valid() && id in execs
      modifies this, swapmap, swapmap.m
      ensures Sound() && execs == old(execs) - {id}
      ensures Valid() <==> Spare(old(swapmap.Runs()), swapmap.m.Length, old(execs)[id], ARGS)
      ensures GivenBack(old(Now()), RangeOf(old(State()), OfExec(id)), Now(), old(State()).(execs := old(execs) - {id}))
    {
      hide Partition, TablesOk, RangeOf, Users, Loaded, Cleared, Returned;
      ghost var s := State();
      ghost var runs, t := swapmap.Runs(), s.(execs := s.execs - {id});
      NotFree(runs, nswap, owner, s, OfExec(id));
      ExecRange(t, id, s);
      swapmap.Mfree(ARGS, execs[id]);
      GiveOk(runs, nswap, owner, s, OfExec(id), swapmap.Runs(), t);
      owner := Cleared(owner, RangeOf(s, OfExec(id)));
      execs := execs - {id};
      ExecTables(s, t);
    }

    /**
     * Any sequence of operations, state by state what the events say, until one finds no swap space or the swap map
     * loses its terminator: every unit is free or has one owner, and the counts are right. For the terminator to go
     * it takes as many owners as the map has entries, but one.
     */
    method Run(events: seq<Event>) returns (end: End, ghost states: seq<Space>)
      requires Valid()
      modifies this, proc, text, swapmap, swapmap.m
      ensures Sound() && (end.NoTerminator? <==> !Valid())
      ensures 0 < |states| <= |events| + 1 && states[0] == old(Now()) && states[|states| - 1] == Now()
      ensures end.GoesOn? ==> |states| == |events| + 1
      ensures !end.GoesOn? ==> |states| > 1
      ensures forall i :: 0 <= i < |states| - 1 ==>
                Follows(events[i], states[i], states[i + 1], if i < |states| - 2 then GoesOn else end)
      ensures end.NoTerminator? ==> swapmap.m.Length <= |OwnersOf(State())| + 1
      ensures forall u :: 1 <= u <= nswap ==> (In(swapmap.Runs(), u) <==> !Owned(State(), u))
      ensures forall u, o, p :: Holds(RangeOf(State(), o), u) && Holds(RangeOf(State(), p), u) ==> o == p
      ensures forall x :: 0 <= x < text.Length && text[x].iptr != 0 ==>
                text[x].count == Users(proc[..], x) && text[x].ccount == Loaded(proc[..], x)
    {
      hide Partition, TablesOk, RangeOf, Users, Loaded, Follows;
      end := GoesOn;
      states := [Now()];
      for i := 0 to |events|
        invariant Valid() && end.GoesOn?
        invariant |states| == i + 1 && states[0] == old(Now()) && states[i] == Now()
        invariant forall j :: 0 <= j < i ==> Follows(events[j], states[j], states[j + 1], GoesOn)
      {
        end := Step(events[i]);
        states := states + [Now()];
        if !end.GoesOn? {
          break;
        }
      }
      RunsBetween(swapmap.Runs(), nswap, owner, State());
      Divided(swapmap.Runs(), nswap, owner, State());
      forall x | 0 <= x < text.Length && text[x].iptr != 0
        ensures text[x].count == Users(proc[..], x) && text[x].ccount == Loaded(proc[..], x)
      {
        TextAt(State(), x);
      }
    }

    method Step(e: Event) returns (end: End)
      requires Valid()
      modifies this, proc, text, swapmap, swapmap.m
      ensures Sound() && (end.NoTerminator? <==> !Valid())
      ensures Follows(e, old(Now()), Now(), end)
    {
      hide Partition, TablesOk, RangeOf, Users, Loaded, Spare, Full;
      var ok := true;
      match e {
        case SwapsOut(k, blocks) =>
          if k < proc.Length && (proc[k].out ==> proc[k].part && blocks > 0)
              && (blocks > 0 ==> blocks <= proc[k].size) {
            ok := XSwap(k, blocks);
          }
        case Attaches(k, ip, ts, room) =>
          if k < proc.Length && !proc[k].out && proc[k].text == -1 && ip != 0 && ts > 0 {
            var r := Xalloc(k, ip, ts, room);
            ok := !r.NoSpace?;
          }
        case Resizes(k, size) =>
          if k < proc.Length && !proc[k].out && size > 0 {
            Resize(k, size);
          }
        case Forks(k, c, room) =>
          if k < proc.Length && c < proc.Length && k != c && !proc[k].out && !proc[c].out && proc[c].text == -1 {
            ok := Newproc(k, c, room);
          }
        case Collects(id) =>
          if id !in execs {
            ok := ExecStart(id);
          }
        case _ =>
          GiveBack(e);
      }
      end := if !swapmap.Terminated() then NoTerminator else if ok then GoesOn else Panics;
    }

    /** The steps that give back swap space. */
    method GiveBack(e: Event)
      requires Valid() && (e.SwapsIn? || e.Detaches? || e.Drops? || e.Finishes?)
      modifies this, proc, text, swapmap, swapmap.m
      ensures Sound() && Made(e, old(Now()), true, Now())
      ensures Valid() <==> !Loses(e, old(Now()))
    {
      hide Partition, TablesOk, Users, Loaded, Spare, Full, Returned;
      match e {
        case SwapsIn(k, room) =>
          if k < proc.Length && proc[k].out {
            ProcAt(State(), k);
            var r := SwapIn(k, room);
          }
        case Detaches(k, sticky) =>
          if k < proc.Length && !proc[k].out {
            ProcAt(State(), k);
            Xfree(k, sticky);
          }
        case Drops(x) =>
          if x < text.Length && text[x].iptr != 0 {
            TextAt(State(), x);
            Xuntext(x);
          }
        case Finishes(id) =>
          if id in execs {
            ExecEnd(id);
          }
      }
    }
  }

  lemma InCoreRanges(runs: seq<Entry>, nswap: nat, owner: map<int, Owner>, s: Tables, k: nat, p: Proc)
    requires Partition(runs, nswap, owner, s) && k < |s.procs| && !s.procs[k].out && !p.out
    ensures Partition(runs, nswap, owner, Changed(s, k, p, -1, NOTEXT))
  {
    var t := Changed(s, k, p, -1, NOTEXT);
    assert forall o :: RangeOf(t, o) == RangeOf(s, o);
  }

  lemma ExecRange(s: Tables, id: nat, t: Tables)
    requires id !in s.execs && id in t.execs && t == s.(execs := t.execs)
    requires forall j :: j != id ==> (j in t.execs <==> j in s.execs) && (j in s.execs ==> t.execs[j] == s.execs[j])
    ensures OnlyChanged(s, t, OfExec(id)) && OnlyChanged(t, s, OfExec(id))
    ensures RangeOf(s, OfExec(id)).size == 0 && RangeOf(t, OfExec(id)) == Range(t.execs[id], ARGS)
  {
  }

  lemma ExecTables(s: Tables, t: Tables)
    requires TablesOk(s) && t.procs == s.procs && t.texts == s.texts
    ensures TablesOk(t)
  {
    forall k | 0 <= k < |t.texts|
      ensures CountOk(t, k)
    {
      assert CountOk(s, k);
    }
  }

  /** The processes that are out, the texts, and the execs under way. */
  ghost function OwnersOf(s: Tables): set<Owner> {
    (set k | 0 <= k < |s.procs| && s.procs[k].out :: OfProc(k))
    + (set k | 0 <= k < |s.texts| && s.texts[k].iptr != 0 :: OfText(k))
    + (set k | k in s.execs :: OfExec(k))
  }

  lemma OwnerIs(s: Tables, o: Owner, u: int)
    requires Holds(RangeOf(s, o), u)
    ensures o in OwnersOf(s)
  {
  }

  /**
   * Between two runs next to each other there is a range that someone owns: there is at most one run more
   * than there are owners.
   */
  lemma RunsBetween(runs: seq<Entry>, nswap: nat, owner: map<int, Owner>, s: Tables)
    requires Sorted(runs) && Partition(runs, nswap, owner, s)
    ensures |runs| <= |OwnersOf(s)| + 1
  {
    hide OwnersOf;
    if runs != [] {
      var os := OwnersBefore(runs, nswap, owner, s, |runs| - 1);
      Subset(os, OwnersOf(s));
    }
  }

  lemma {:induction false} OwnersBefore(runs: seq<Entry>, nswap: nat, owner: map<int, Owner>, s: Tables, n: nat)
         returns (os: set<Owner>)
    requires Sorted(runs) && Partition(runs, nswap, owner, s) && n < |runs|
    ensures |os| == n && os <= OwnersOf(s)
    ensures forall o :: o in os ==> RangeOf(s, o).addr + RangeOf(s, o).size <= runs[n].addr
  {
    hide RangeOf, OwnersOf;
    os := {};
    if n > 0 {
      os := OwnersBefore(runs, nswap, owner, s, n - 1);
      var gap, next := runs[n - 1].addr + runs[n - 1].size, runs[n].addr;
      Apart(runs, n);
      assert gap in owner;
      var o := owner[gap];
      assert Holds(RangeOf(s, o), gap);
      OwnerIs(s, o, gap);
      assert !Holds(RangeOf(s, o), next);
      os := os + {o};
    }
  }

  lemma Apart(runs: seq<Entry>, n: nat)
    requires Sorted(runs) && 0 < n < |runs|
    ensures var gap := runs[n - 1].addr + runs[n - 1].size;
            !In(runs, gap) && In(runs, gap - 1) && In(runs, runs[n].addr) && gap < runs[n].addr
  {
    assert Covers(runs[n - 1], runs[n - 1].addr + runs[n - 1].size - 1) && Covers(runs[n], runs[n].addr);
  }

  /** Someone owns unit u. */
  ghost predicate Owned(s: Tables, u: int) {
    exists o :: Holds(RangeOf(s, o), u)
  }

  lemma Divided(runs: seq<Entry>, nswap: nat, owner: map<int, Owner>, s: Tables)
    requires Partition(runs, nswap, owner, s)
    ensures forall u :: 1 <= u <= nswap ==> (In(runs, u) <==> !Owned(s, u))
    ensures forall u, o, p :: Holds(RangeOf(s, o), u) && Holds(RangeOf(s, p), u) ==> o == p
  {
    hide In, RangeOf;
    forall u | 1 <= u <= nswap
      ensures In(runs, u) <==> !Owned(s, u)
    {
      assert u in owner ==> Holds(RangeOf(s, owner[u]), u);
      if Owned(s, u) {
        var o :| Holds(RangeOf(s, o), u);
        assert u in owner;
      }
    }
    forall u, o, p | Holds(RangeOf(s, o), u) && Holds(RangeOf(s, p), u)
      ensures o == p
    {
      assert owner[u] == o && owner[u] == p;
    }
  }

  lemma EnterCore(s: Tables, k: nat, p: Proc)
    requires TablesOk(s) && k < |s.procs| && s.procs[k].out && p == s.procs[k].(out := false, part := false)
    ensures var x := p.text;
            x < |s.texts| && TablesOk(Changed(s, k, p, x, if x >= 0 then s.texts[x].(ccount := s.texts[x].ccount + 1)
                                              else NOTEXT))
  {
    ProcAt(s, k);
    var x := p.text;
    TablesChange(s, k, p, x, if x >= 0 then s.texts[x].(ccount := s.texts[x].ccount + 1) else NOTEXT);
  }

  lemma InRange(s: Tables, k: nat, p: Proc, x: int, tx: Text)
    requires k < |s.procs| && -1 <= x < |s.texts| && s.procs[k].out && !p.out
    requires x >= 0 ==> tx.iptr == s.texts[x].iptr && tx.daddr == s.texts[x].daddr && tx.size == s.texts[x].size
    ensures OnlyChanged(s, Changed(s, k, p, x, tx), OfProc(k))
    ensures RangeOf(s, OfProc(k)) == Range(s.procs[k].swaddr, s.procs[k].size)
            && RangeOf(Changed(s, k, p, x, tx), OfProc(k)).size == 0
  {
  }

  /** None of the range of an owner is free. */
  lemma NotFree(runs: seq<Entry>, nswap: nat, owner: map<int, Owner>, s: Tables, o: Owner)
    requires Partition(runs, nswap, owner, s)
    ensures var r := RangeOf(s, o);
            (forall u :: r.addr <= u < r.addr + r.size ==> !In(runs, u)) && (r.size > 0 ==> r.addr > 0)
  {
    hide In, RangeOf;
    var r := RangeOf(s, o);
    assert forall u :: r.addr <= u < r.addr + r.size ==> Holds(r, u);
    assert r.size > 0 ==> Holds(RangeOf(s, o), r.addr) && r.addr in owner;
  }

  lemma TextAt(s: Tables, x: nat)
    requires TablesOk(s) && x < |s.texts| && s.texts[x].iptr != 0
    ensures s.texts[x].count == Users(s.procs, x) >= s.texts[x].ccount == Loaded(s.procs, x) && s.texts[x].size > 0
  {
    assert CountOk(s, x);
    NotNegative(s.procs, x);
  }

  lemma TextMade(s: Tables, x: nat, tx: Text)
    requires TablesOk(s) && x < |s.texts| && s.texts[x].iptr == 0 && tx.iptr != 0 && tx.count == tx.ccount == 0
             && tx.size > 0
    ensures TablesOk(s.(texts := s.texts[x := tx]))
    ensures OnlyChanged(s, s.(texts := s.texts[x := tx]), OfText(x))
    ensures RangeOf(s, OfText(x)).size == 0 && RangeOf(s.(texts := s.texts[x := tx]), OfText(x)) ==
            Range(tx.daddr, tx.size)
  {
    var t := s.(texts := s.texts[x := tx]);
    NotNegative(s.procs, x);
    forall k | 0 <= k < |s.texts|
      ensures CountOk(t, k)
    {
      assert CountOk(s, k);
    }
  }

  lemma TextGone(s: Tables, x: nat, tx: Text)
    requires TablesOk(s) && x < |s.texts| && s.texts[x].iptr != 0 && s.texts[x].count == 0 && tx.iptr == 0
    ensures TablesOk(s.(texts := s.texts[x := tx]))
    ensures OnlyChanged(s, s.(texts := s.texts[x := tx]), OfText(x))
    ensures RangeOf(s, OfText(x)) == Range(s.texts[x].daddr, s.texts[x].size)
            && RangeOf(s.(texts := s.texts[x := tx]), OfText(x)).size == 0
  {
    var t := s.(texts := s.texts[x := tx]);
    forall k | 0 <= k < |s.texts|
      ensures CountOk(t, k)
    {
      assert CountOk(s, k);
    }
  }

  /** A process without a text attaches to text x. */
  lemma AttachedOk(s: Tables, k: nat, p: Proc, x: nat, tx: Text)
    requires TablesOk(s) && k < |s.procs| && x < |s.texts| && s.procs[k].text == -1 && s.texts[x].iptr != 0
    requires p == s.procs[k].(text := x)
    requires tx == s.texts[x].(count := s.texts[x].count + 1, ccount := s.texts[x].ccount + if p.out then 0 else 1)
    ensures TablesOk(Changed(s, k, p, x, tx))
  {
    TextAt(s, x);
    assert ProcOk(s.procs[k], |s.texts|);
    TablesChange(s, k, p, x, tx);
  }

  /** A process in core gives up text x; the last one may take the text with it. */
  lemma DetachedOk(s: Tables, k: nat, p: Proc, x: nat, tx: Text)
    requires TablesOk(s) && k < |s.procs| && x < |s.texts| && s.procs[k].text == x && !s.procs[k].out
    requires p == s.procs[k].(text := -1)
    requires var c := s.texts[x].ccount;
             || (tx.iptr == 0 && s.texts[x].count == 1)
             || tx == s.texts[x].(count := s.texts[x].count - 1, ccount := if c == 0 then 0 else c - 1)
    ensures TablesOk(Changed(s, k, p, x, tx))
  {
    ProcAt(s, k);
    TablesChange(s, k, p, x, tx);
  }

  lemma TextRange(s: Tables, k: nat, p: Proc, x: nat, tx: Text)
    requires k < |s.procs| && x < |s.texts| && !s.procs[k].out && !p.out && s.texts[x].iptr != 0 && tx.iptr == 0
    ensures OnlyChanged(s, Changed(s, k, p, x, tx), OfText(x))
    ensures RangeOf(s, OfText(x)) == Range(s.texts[x].daddr, s.texts[x].size)
            && RangeOf(Changed(s, k, p, x, tx), OfText(x)).size == 0
  {
  }

  /** A change that moves nothing in swap space. */
  lemma SameSpace(runs: seq<Entry>, nswap: nat, owner: map<int, Owner>, s: Tables, k: nat, p: Proc, x: nat, tx: Text)
    requires Partition(runs, nswap, owner, s) && k < |s.procs| && x < |s.texts|
    requires s.procs[k].out == p.out && s.procs[k].swaddr == p.swaddr && s.procs[k].size == p.size
    requires tx.iptr == s.texts[x].iptr && tx.daddr == s.texts[x].daddr && tx.size == s.texts[x].size
    ensures Partition(runs, nswap, owner, Changed(s, k, p, x, tx))
  {
    var t := Changed(s, k, p, x, tx);
    assert forall o :: RangeOf(t, o) == RangeOf(s, o);
  }

  lemma {:induction false} NobodyUses(procs: seq<Proc>)
    requires forall j :: 0 <= j < |procs| ==> procs[j].text == -1
    ensures forall k :: k >= 0 ==> Users(procs, k) == 0
  {
    if procs != [] {
      NobodyUses(procs[1..]);
    }
  }

  lemma ProcAt(s: Tables, k: nat)
    requires TablesOk(s) && k < |s.procs|
    ensures ProcOk(s.procs[k], |s.texts|)
    ensures var x := s.procs[k].text;
            x >= 0 ==> s.texts[x].iptr != 0 && s.texts[x].count >= 1 && s.texts[x].ccount >= Loads(s.procs[k], x)
                       && s.texts[x].count == Users(s.procs, x) && s.texts[x].ccount == Loaded(s.procs, x)
                           && s.texts[x].size > 0
  {
    var x := s.procs[k].text;
    assert ProcOk(s.procs[k], |s.texts|);
    if x >= 0 {
      assert CountOk(s, x);
      CountsAtLeast(s.procs, k, x);
    }
  }

  /** A process that leaves core. */
  lemma LeaveCore(s: Tables, k: nat, p: Proc)
    requires TablesOk(s) && k < |s.procs| && !s.procs[k].out && p ==
             s.procs[k].(out := true, part := false, swaddr := p.swaddr, swsize := 0)
    ensures var x := p.text;
            x < |s.texts| &&
            TablesOk(Changed(s, k, p, x, if x >= 0 then s.texts[x].(ccount := s.texts[x].ccount - 1) else NOTEXT))
  {
    ProcAt(s, k);
    var x := p.text;
    TablesChange(s, k, p, x, if x >= 0 then s.texts[x].(ccount := s.texts[x].ccount - 1) else NOTEXT);
  }

  lemma OutRange(s: Tables, k: nat, p: Proc, x: int, tx: Text)
    requires k < |s.procs| && -1 <= x < |s.texts| && !s.procs[k].out && p.out
    requires x >= 0 ==> tx.iptr == s.texts[x].iptr && tx.daddr == s.texts[x].daddr && tx.size == s.texts[x].size
    ensures OnlyChanged(s, Changed(s, k, p, x, tx), OfProc(k))
    ensures RangeOf(s, OfProc(k)).size == 0 && RangeOf(Changed(s, k, p, x, tx), OfProc(k)) == Range(p.swaddr, p.size)
  {
  }

  lemma SameRanges(runs: seq<Entry>, nswap: nat, owner: map<int, Owner>, s: Tables, k: nat, p: Proc)
    requires Partition(runs, nswap, owner, s) && k < |s.procs| && s.procs[k].out == p.out
             && s.procs[k].swaddr == p.swaddr && s.procs[k].size == p.size
    ensures Partition(runs, nswap, owner, Changed(s, k, p, -1, NOTEXT))
  {
    var t := Changed(s, k, p, -1, NOTEXT);
    assert forall o :: RangeOf(t, o) == RangeOf(s, o);
  }

  lemma SameRuns(runs: seq<Entry>, runs': seq<Entry>, size: nat)
    requires Granted(runs, runs', size, 0) && size > 0
    ensures runs' == runs && Full(runs, size)
  {
  }

  lemma InCoreCount(s: Tables, x: nat)
    requires TablesOk(s) && x < |s.texts| && s.texts[x].iptr != 0
    ensures s.texts[x].ccount >= 0
  {
    assert CountOk(s, x);
    NotNegative(s.procs, x);
  }

  lemma NotFull(runs: seq<Entry>, runs': seq<Entry>, size: nat, a: int)
    requires Granted(runs, runs', size, a) && size > 0 && a != 0
    ensures !Full(runs, size)
  {
    assert Fits(runs, a, size);
  }
}
