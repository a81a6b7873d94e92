/**
 * The process table as exit, wait and fork use it. A process is its slot; process
 * 1 is init, in slot 1, which does not exit. One method call is what a process
 * does up to its next sleep.
 */
module Processes {
  import opened Sequences

  const MAXPID: int := 30000
  const MAXUPRC: int := 25

  /**
   * In a system call other than wait, or none; asleep in wait; awake again inside it; stopped for its tracer;
   * ended.
   */
  datatype Stat = Free | Live | Waiting | Woken | Stopped | Zombie

  /**
   * ut and st are u_utime and u_stime, or xp_utime and xp_stime of a zombie; cut and cst those of children
   * waited for.
   */
  datatype Proc = Proc(stat: Stat, pid: int, ppid: int, pgrp: int, uid: int, wted: bool, status: int,
                       ut: int, st: int, cut: int, cst: int)

  const NOPROC := Proc(Free, 0, 0, 0, 0, false, 0, 0, 0, 0, 0)

  predicate Alive(p: Proc) {
    p.stat != Free && p.stat != Zombie
  }

  /** wait has something to report about p. */
  predicate Reportable(p: Proc) {
    p.stat == Zombie || (p.stat == Stopped && !p.wted)
  }

  function WakenOne(p: Proc): Proc {
    if p.stat == Waiting then p.(stat := Woken) else p
  }

  /** A process has a number in range and a parent's number; a free slot has nothing. */
  predicate NumberOk(p: Proc, k: int) {
    if k == 0 then p.pid == 0 && p.stat == Live && p.ppid == 0
    else if k == 1 then p.pid == 1 && Alive(p) && p.ppid == 0
    else if p.stat == Free then p == NOPROC
    else 1 <= p.pid < MAXPID && 1 <= p.ppid && (p.stat == Zombie ==> p.cut == p.cst == 0)
  }

  predicate Differ(p: Proc, q: Proc) {
    p.stat != Free && q.stat != Free ==> p.pid != q.pid
  }

  ghost predicate Numbers(s: seq<Proc>) {
    && |s| >= 2
    && (forall k :: 0 <= k < |s| ==> NumberOk(s[k], k))
    && forall i, j :: 0 <= i < j < |s| ==> Differ(s[i], s[j])
  }

  /** par[k] is the slot of the parent of process k, which is alive. */
  predicate ParentOk(s: seq<Proc>, par: seq<nat>, k: int)
    requires 0 <= k < |s| == |par|
  {
    s[k].stat != Free ==> par[k] < |s| && par[k] != k && Alive(s[par[k]]) && s[par[k]].pid == s[k].ppid
  }

  ghost predicate Family(s: seq<Proc>, par: seq<nat>) {
    |par| == |s| && forall k :: 2 <= k < |s| ==> ParentOk(s, par, k)
  }

  ghost predicate HasChild(s: seq<Proc>, k: int)
    requires 0 <= k < |s|
  {
    exists c :: 0 <= c < |s| && Child(s, c, k)
  }

  predicate Child(s: seq<Proc>, c: int, k: int)
    requires 0 <= c < |s| && 0 <= k < |s|
  {
    s[c].ppid == s[k].pid
  }

  /** A process inside wait has a child, and while it sleeps there is none to report. */
  ghost predicate WaitOk(s: seq<Proc>, k: int)
    requires 0 <= k < |s|
  {
    && (s[k].stat == Waiting || s[k].stat == Woken ==> k > 0 && HasChild(s, k))
    && (s[k].stat == Waiting ==> forall c :: 0 <= c < |s| && Child(s, c, k) ==> !Reportable(s[c]))
  }

  ghost predicate TableOk(s: seq<Proc>, par: seq<nat>) {
    Numbers(s) && Family(s, par) && forall k :: 0 <= k < |s| ==> WaitOk(s, k)
  }

  /**
   * User time spent by the processes of the table, with that of children they have waited for; the same of
   * system time.
   */
  function UserTime(s: seq<Proc>): int {
    if s == [] then 0 else (if s[0].stat == Free then 0 else s[0].ut + s[0].cut) + UserTime(s[1..])
  }

  function SystemTime(s: seq<Proc>): int {
    if s == [] then 0 else (if s[0].stat == Free then 0 else s[0].st + s[0].cst) + SystemTime(s[1..])
  }

  // ---------------------------------------------------------------------------
  // exit.

  /** Slot q when the process in slot k ends; init and the parent are woken apart. */
  function Orphan(p: Proc, pid: int): Proc {
    if p.ppid == pid then (if p.stat == Stopped then p.(ppid := 1, stat := Live) else p.(ppid := 1)) else p
  }

  function Ended(p: Proc, rv: int): Proc {
    p.(stat := Zombie, status := rv, ut := p.cut + p.ut, st := p.cst + p.st, cut := 0, cst := 0)
  }

  /** The table when process k has exited: its children go to init, and init and its parent are woken if they wait. */
  function Exited(s: seq<Proc>, k: int, parent: int, rv: int): seq<Proc>
    requires 0 <= k < |s|
  {
    seq(|s|, q requires 0 <= q < |s| =>
      var p := Orphan(if q == k then Ended(s[k], rv) else s[q], s[k].pid);
      if q == parent || (q == 1 && exists c :: 0 <= c < |s| && Child(s, c, k)) then WakenOne(p) else p)
  }

  // ---------------------------------------------------------------------------
  // Changes of one slot.

  lemma {:induction false} TimesChange(s: seq<Proc>, k: nat, p: Proc)
    requires k < |s|
    ensures UserTime(s[k := p]) == UserTime(s) - (if s[k].stat == Free then 0 else s[k].ut + s[k].cut)
                                   + (if p.stat == Free then 0 else p.ut + p.cut)
    ensures SystemTime(s[k := p]) == SystemTime(s) - (if s[k].stat == Free then 0 else s[k].st + s[k].cst)
                                     + (if p.stat == Free then 0 else p.st + p.cst)
  {
    if k > 0 {
      assert s[k := p][1..] == s[1..][k - 1 := p];
      TimesChange(s[1..], k - 1, p);
    }
  }

  /** The same times in every slot. */
  predicate SameTimes(a: Proc, b: Proc) {
    && (a.stat == Free <==> b.stat == Free)
    && (a.stat != Free ==> a.ut + a.cut == b.ut + b.cut && a.st + a.cst == b.st + b.cst)
  }

  lemma {:induction false} TimesSame(s: seq<Proc>, t: seq<Proc>)
    requires |s| == |t| && forall k :: 0 <= k < |s| ==> SameTimes(s[k], t[k])
    ensures UserTime(s) == UserTime(t) && SystemTime(s) == SystemTime(t)
  {
    if s != [] {
      assert SameTimes(s[0], t[0]);
      forall k | 0 <= k < |s| - 1
        ensures SameTimes(s[1..][k], t[1..][k])
      {
        assert SameTimes(s[k + 1], t[k + 1]);
      }
      TimesSame(s[1..], t[1..]);
    }
  }

  /** A change that leaves number, parent and existence alone keeps all but WaitOk. */
  predicate SameProcess(a: Proc, b: Proc) {
    a.pid == b.pid && a.ppid == b.ppid && Alive(a) && Alive(b)
  }

  lemma OneChanged(s: seq<Proc>, par: seq<nat>, k: nat, p: Proc)
    requires TableOk(s, par) && k < |s| && SameProcess(s[k], p) && (k == 0 ==> p.stat == Live)
    requires WaitOk(s[k := p], k)
    requires Reportable(p) ==> Reportable(s[k]) || forall j :: 0 <= j < |s| && Child(s, k, j) ==> s[j].stat != Waiting
    ensures TableOk(s[k := p], par)
  {
    var t := s[k := p];
    OneNumbers(s, par, k, p);
    forall j | 0 <= j < |s|
      ensures WaitOk(t, j)
    {
      if j != k {
        assert WaitOk(s, j);
        OneWaits(s, k, p, j);
      }
    }
  }

  lemma OneNumbers(s: seq<Proc>, par: seq<nat>, k: nat, p: Proc)
    requires Numbers(s) && Family(s, par) && k < |s| && SameProcess(s[k], p) && (k == 0 ==> p.stat == Live)
    ensures Numbers(s[k := p]) && Family(s[k := p], par)
  {
    var t := s[k := p];
    assert NumberOk(s[k], k);
    forall i, j | 0 <= i < j < |s|
      ensures Differ(t[i], t[j])
    {
      assert Differ(s[i], s[j]);
    }
    forall q | 2 <= q < |s|
      ensures ParentOk(t, par, q)
    {
      assert ParentOk(s, par, q);
    }
  }

  lemma OneWaits(s: seq<Proc>, k: nat, p: Proc, j: nat)
    requires k < |s| && j < |s| && j != k && SameProcess(s[k], p) && WaitOk(s, j)
    requires Reportable(p) ==> Reportable(s[k]) || !Child(s, k, j) || s[j].stat != Waiting
    ensures WaitOk(s[k := p], j)
  {
    var t := s[k := p];
    if HasChild(s, j) {
      var c :| 0 <= c < |s| && Child(s, c, j);
      assert Child(t, c, j);
    }
    forall c | 0 <= c < |s| && Child(t, c, j) && t[j].stat == Waiting
      ensures !Reportable(t[c])
    {
      assert Child(s, c, j);
    }
  }

  /** The slot of the parent is the only one with its number. */
  lemma ParentSlot(s: seq<Proc>, par: seq<nat>, k: nat, j: nat)
    requires Numbers(s) && Family(s, par) && 2 <= k < |s| && s[k].stat != Free && j < |s| && s[j].pid == s[k].ppid
    ensures j == par[k]
  {
    assert ParentOk(s, par, k) && NumberOk(s[k], k) && NumberOk(s[j], j);
    OtherNumber(s, j, par[k]);
  }

  function Adopted(s: seq<Proc>, par: seq<nat>, k: nat): (r: seq<nat>)
    requires |par| == |s| && k < |s|
    ensures |r| == |s|
  {
    seq(|s|, q requires 0 <= q < |s| => if s[q].ppid == s[k].pid then 1 else par[q])
  }

  /** What matters of a slot when process k ends, its parent being in slot parent. */
  ghost predicate EndsAt(s: seq<Proc>, k: nat, parent: nat, q: int, p: Proc)
    requires k < |s| && 0 <= q < |s|
  {
    && p.pid == s[q].pid && p.ppid == (if s[q].ppid == s[k].pid then 1 else s[q].ppid)
    && (p.stat == Free <==> s[q].stat == Free) && (p.stat == Free ==> p == s[q])
    && SameTimes(s[q], p)
    && (p.stat == Zombie ==> p.cut == p.cst == 0)
    && (if q == k then p.stat == Zombie else (Alive(p) <==> Alive(s[q])) && (Reportable(p) ==> Reportable(s[q])))
    && (p.stat == Waiting ==> s[q].stat == Waiting && q != parent && !(q == 1 && HasChild(s, k)))
    && (p.stat == Woken ==> s[q].stat == Woken || s[q].stat == Waiting)
    && (q == 0 ==> p.stat == s[q].stat)
  }

  lemma ExitedEnds(s: seq<Proc>, par: seq<nat>, k: nat, rv: int, q: nat)
    requires TableOk(s, par) && 2 <= k < |s| && s[k].stat == Live && q < |s|
    ensures EndsAt(s, k, par[k], q, Exited(s, k, par[k], rv)[q])
  {
    hide Family;
    assert NumberOk(s[q], q) && NumberOk(s[k], k) && NumberOk(s[0], 0);
  }

  lemma ExitOk(s: seq<Proc>, par: seq<nat>, k: nat, rv: int)
    requires TableOk(s, par) && 2 <= k < |s| && s[k].stat == Live
    ensures TableOk(Exited(s, k, par[k], rv), Adopted(s, par, k))
    ensures Zombies(Exited(s, k, par[k], rv)) == Zombies(s) + 1
    ensures UserTime(Exited(s, k, par[k], rv)) == UserTime(s) && SystemTime(Exited(s, k, par[k], rv)) == SystemTime(s)
  {
    var t, p' := Exited(s, k, par[k], rv), Adopted(s, par, k);
    hide Exited, EndsAt, Child, Numbers, Family, WaitOk, UserTime, SystemTime, Zombies;
    forall q | 0 <= q < |s|
      ensures EndsAt(s, k, par[k], q, t[q]) && SameTimes(s[q], t[q])
    {
      ExitedEnds(s, par, k, rv, q);
      EndsTimes(s, k, par[k], q, t[q]);
    }
    var e := s[k := Ended(s[k], rv)];
    ZombiesChange(s, k, e[k]);
    forall q | 0 <= q < |s|
      ensures e[q].stat == Zombie <==> t[q].stat == Zombie
    {
      EndsFacts(s, k, par[k], q, t[q]);
    }
    ZombiesSame(e, t);
    ExitFamily(s, par, k, t);
    forall j | 0 <= j < |s|
      ensures WaitOk(t, j)
    {
      ExitWaits(s, par, k, t, j);
    }
    TimesSame(s, t);
  }

  lemma EndsTimes(s: seq<Proc>, k: nat, parent: nat, q: nat, p: Proc)
    requires k < |s| && q < |s| && EndsAt(s, k, parent, q, p)
    ensures SameTimes(s[q], p)
  {
  }

  lemma ExitFamily(s: seq<Proc>, par: seq<nat>, k: nat, t: seq<Proc>)
    requires TableOk(s, par) && 2 <= k < |s| == |t| && s[k].stat == Live
    requires forall q :: 0 <= q < |s| ==> EndsAt(s, k, par[k], q, t[q])
    ensures Numbers(t) && Family(t, Adopted(s, par, k))
  {
    hide WaitOk;
    forall q | 0 <= q < |s|
      ensures NumberOk(t[q], q)
    {
      assert NumberOk(s[q], q) && EndsAt(s, k, par[k], q, t[q]);
    }
    forall i, j | 0 <= i < j < |s|
      ensures Differ(t[i], t[j])
    {
      assert Differ(s[i], s[j]) && EndsAt(s, k, par[k], i, t[i]) && EndsAt(s, k, par[k], j, t[j]);
    }
    forall q | 2 <= q < |s|
      ensures ParentOk(t, Adopted(s, par, k), q)
    {
      ExitParent(s, par, k, t, q);
    }
  }

  lemma ExitParent(s: seq<Proc>, par: seq<nat>, k: nat, t: seq<Proc>, q: nat)
    requires TableOk(s, par) && 2 <= k < |s| == |t| && s[k].stat == Live && 2 <= q < |s|
    requires forall q :: 0 <= q < |s| ==> EndsAt(s, k, par[k], q, t[q])
    ensures ParentOk(t, Adopted(s, par, k), q)
  {
    hide WaitOk, EndsAt, Child;
    assert ParentOk(s, par, q) && NumberOk(s[1], 1);
    EndsFacts(s, k, par[k], q, t[q]);
    EndsFacts(s, k, par[k], 1, t[1]);
    if s[q].stat != Free && s[q].ppid != s[k].pid {
      EndsFacts(s, k, par[k], par[q], t[par[q]]);
    }
  }

  lemma EndsFacts(s: seq<Proc>, k: nat, parent: nat, q: nat, p: Proc)
    requires k < |s| && q < |s| && EndsAt(s, k, parent, q, p)
    ensures p.pid == s[q].pid && p.ppid == (if s[q].ppid == s[k].pid then 1 else s[q].ppid)
    ensures q == k ==> p.stat == Zombie
    ensures (p.stat == Free <==> s[q].stat == Free) && (q != k ==> (Alive(p) <==> Alive(s[q])))
  {
  }

  lemma ExitWaits(s: seq<Proc>, par: seq<nat>, k: nat, t: seq<Proc>, j: nat)
    requires TableOk(s, par) && 2 <= k < |s| == |t| && s[k].stat == Live && j < |s|
    requires forall q :: 0 <= q < |s| ==> EndsAt(s, k, par[k], q, t[q])
    ensures WaitOk(t, j)
  {
    assert WaitOk(s, j) && EndsAt(s, k, par[k], j, t[j]) && NumberOk(s[1], 1) && NumberOk(s[k], k);
    if t[j].stat == Waiting || t[j].stat == Woken {
      var c :| 0 <= c < |s| && Child(s, c, j);
      assert EndsAt(s, k, par[k], c, t[c]);
      OtherNumber(s, j, k);
      assert Child(t, c, j);
      forall c | 0 <= c < |s| && Child(t, c, j) && t[j].stat == Waiting
        ensures !Reportable(t[c])
      {
        assert EndsAt(s, k, par[k], c, t[c]);
        ExitQuiet(s, par, k, t, j, c);
      }
    }
  }

  lemma OtherNumber(s: seq<Proc>, j: nat, k: nat)
    requires Numbers(s) && j < |s| && k < |s| && s[j].stat != Free && s[k].stat != Free
    ensures j != k ==> s[j].pid != s[k].pid
  {
    if j < k {
      assert Differ(s[j], s[k]);
    } else if k < j {
      assert Differ(s[k], s[j]);
    }
  }

  lemma ExitQuiet(s: seq<Proc>, par: seq<nat>, k: nat, t: seq<Proc>, j: nat, c: nat)
    requires TableOk(s, par) && 2 <= k < |s| == |t| && s[k].stat == Live && j < |s| && c < |s|
    requires EndsAt(s, k, par[k], c, t[c]) && EndsAt(s, k, par[k], j, t[j])
    requires Child(t, c, j) && t[j].stat == Waiting
    ensures !Reportable(t[c])
  {
    assert WaitOk(s, j) && NumberOk(s[1], 1);
    if s[c].ppid == s[k].pid {
      assert Child(s, c, k);
      OtherNumber(s, j, 1);
    } else {
      assert Child(s, c, j);
      if c == k {
        ParentSlot(s, par, k, j);
      }
    }
  }

  // ---------------------------------------------------------------------------
  // wait and fork.

  /** The table when process k has collected its zombie child c. */
  function Reaped(s: seq<Proc>, k: nat, c: nat): seq<Proc>
    requires k < |s| && c < |s|
  {
    s[k := s[k].(stat := Live, cut := s[k].cut + s[c].ut, cst := s[k].cst + s[c].st)][c := NOPROC]
  }

  lemma ReapOk(s: seq<Proc>, par: seq<nat>, k: nat, c: nat)
    requires TableOk(s, par) && 0 < k < |s| && c < |s| && Child(s, c, k) && s[c].stat == Zombie
    requires s[k].stat == Live || s[k].stat == Woken
    ensures TableOk(Reaped(s, k, c), par)
    ensures Zombies(Reaped(s, k, c)) == Zombies(s) - 1
    ensures UserTime(Reaped(s, k, c)) == UserTime(s) && SystemTime(Reaped(s, k, c)) == SystemTime(s)
  {
    hide UserTime, SystemTime, Zombies;
    var mid, t := s[k := s[k].(stat := Live, cut := s[k].cut + s[c].ut, cst := s[k].cst + s[c].st)], Reaped(s, k, c);
    TimesChange(s, k, mid[k]);
    TimesChange(mid, c, NOPROC);
    ZombiesChange(s, k, mid[k]);
    ZombiesChange(mid, c, NOPROC);
    assert NumberOk(s[c], c) && NumberOk(s[k], k);
    forall q | 0 <= q < |s|
      ensures NumberOk(t[q], q)
    {
      assert NumberOk(s[q], q);
    }
    forall i, j | 0 <= i < j < |s|
      ensures Differ(t[i], t[j])
    {
      assert Differ(s[i], s[j]);
    }
    forall q | 2 <= q < |s|
      ensures ParentOk(t, par, q)
    {
      assert ParentOk(s, par, q);
    }
    forall j | 0 <= j < |s|
      ensures WaitOk(t, j)
    {
      ReapWaits(s, par, k, c, j);
    }
  }

  lemma ReapWaits(s: seq<Proc>, par: seq<nat>, k: nat, c: nat, j: nat)
    requires TableOk(s, par) && 0 < k < |s| && c < |s| && Child(s, c, k) && s[c].stat == Zombie && j < |s|
    requires s[k].stat == Live || s[k].stat == Woken
    ensures WaitOk(Reaped(s, k, c), j)
  {
    var t := Reaped(s, k, c);
    assert WaitOk(s, j) && NumberOk(s[j], j) && NumberOk(s[k], k);
    if t[j].stat == Waiting || t[j].stat == Woken {
      OtherNumber(s, j, k);
      var d :| 0 <= d < |s| && Child(s, d, j);
      assert Child(t, d, j);
      forall d | 0 <= d < |s| && Child(t, d, j) && t[j].stat == Waiting
        ensures !Reportable(t[d])
      {
        assert d != c ==> Child(s, d, j);
      }
    }
  }

  /** A number that no process has, nor any process group. */
  ghost predicate Unused(s: seq<Proc>, pid: int) {
    forall k :: 0 <= k < |s| ==> s[k].pid != pid && s[k].pgrp != pid
  }

  /** The table with a child of process k in slot c. */
  function Forked(s: seq<Proc>, k: nat, c: nat, pid: int): seq<Proc>
    requires k < |s| && c < |s|
  {
    s[c := Proc(Live, pid, s[k].pid, s[k].pgrp, s[k].uid, false, 0, 0, 0, 0, 0)]
  }

  lemma ForkOk(s: seq<Proc>, par: seq<nat>, k: nat, c: nat, pid: int)
    requires TableOk(s, par) && 0 < k < |s| && s[k].stat == Live && c < |s| && s[c].stat == Free
    requires 1 <= pid < MAXPID && Unused(s, pid)
    ensures TableOk(Forked(s, k, c, pid), par[c := k])
    ensures Zombies(Forked(s, k, c, pid)) == Zombies(s)
    ensures UserTime(Forked(s, k, c, pid)) == UserTime(s) && SystemTime(Forked(s, k, c, pid)) == SystemTime(s)
  {
    hide UserTime, SystemTime, Zombies;
    var t := Forked(s, k, c, pid);
    TimesChange(s, c, t[c]);
    ZombiesChange(s, c, t[c]);
    assert NumberOk(s[k], k) && NumberOk(s[c], c);
    forall q | 0 <= q < |s|
      ensures NumberOk(t[q], q)
    {
      assert NumberOk(s[q], q);
    }
    forall i, j | 0 <= i < j < |s|
      ensures Differ(t[i], t[j])
    {
      assert Differ(s[i], s[j]);
    }
    var par' := par[c := k];
    forall q | 2 <= q < |s|
      ensures ParentOk(t, par', q)
    {
      assert ParentOk(s, par, q);
    }
    forall j | 0 <= j < |s|
      ensures WaitOk(t, j)
    {
      ForkWaits(s, par, k, c, pid, j);
    }
  }

  lemma ForkWaits(s: seq<Proc>, par: seq<nat>, k: nat, c: nat, pid: int, j: nat)
    requires TableOk(s, par) && 0 < k < |s| && s[k].stat == Live && c < |s| && s[c].stat == Free && j < |s| && pid >= 1
    ensures WaitOk(Forked(s, k, c, pid), j)
  {
    var t := Forked(s, k, c, pid);
    assert WaitOk(s, j) && NumberOk(s[j], j) && NumberOk(s[k], k) && NumberOk(s[c], c);
    if t[j].stat == Waiting || t[j].stat == Woken {
      OtherNumber(s, j, k);
      var d :| 0 <= d < |s| && Child(s, d, j);
      assert Child(t, d, j);
      forall d | 0 <= d < |s| && Child(t, d, j) && t[j].stat == Waiting
        ensures !Reportable(t[d])
      {
        assert d != c ==> Child(s, d, j);
      }
    }
  }

  // ---------------------------------------------------------------------------
  // The search for a process number.

  function {:induction false} NumbersUsed(s: seq<Proc>): (r: set<int>)
    ensures |r| <= 2 * |s|
    ensures forall k :: 0 <= k < |s| ==> s[k].pid in r && s[k].pgrp in r
  {
    if s == [] then {} else
      var rest := NumbersUsed(s[1..]);
      TwoMore(rest, s[0].pid, s[0].pgrp);
      assert forall k :: 0 < k < |s| ==> s[k] == s[1..][k - 1];
      rest + {s[0].pid, s[0].pgrp}
  }

  lemma TwoMore(r: set<int>, x: int, y: int)
    ensures |r + {x, y}| <= |r| + 2
  {
    assert r + {x, y} == r + ({x, y} - r);
    assert {x, y} - r <= {x, y};
    if x == y {
      assert {x, y} == {x};
    }
    Subset({x, y} - r, {x, y});
  }

  function {:induction false} UpTo(n: nat): (r: set<int>)
    ensures |r| == n && forall x :: x in r <==> 1 <= x <= n
  {
    if n == 0 then {} else UpTo(n - 1) + {n}
  }

  /** Fewer processes than half the numbers leave one that is not used. */
  lemma NotAllUsed(s: seq<Proc>)
    requires 2 * |s| < MAXPID - 1
    ensures exists v :: 1 <= v < MAXPID && Unused(s, v)
  {
    var v := Missing(UpTo(MAXPID - 1), NumbersUsed(s));
    assert Unused(s, v);
  }

  lemma Missing<T>(a: set<T>, b: set<T>) returns (v: T)
    requires |a| > |b|
    ensures v in a && v !in b
  {
    if a <= b {
      Subset(a, b);
    }
    v :| v in a && v !in b;
  }

  /**
   * The numbers a search has refused when it has come to mpid: all after start, and after it has begun again,
   * from 1.
   */
  predicate Tried(v: int, start: int, mpid: int, again: bool) {
    if again then start < v < MAXPID || 1 <= v <= mpid else start < v <= mpid
  }

  /** The stopped child in slot c has been reported to process k, which returns from wait. */
  function Told(s: seq<Proc>, k: nat, c: nat): seq<Proc>
    requires k < |s| && c < |s|
  {
    s[k := s[k].(stat := Live)][c := s[c].(wted := true)]
  }

  /** The first child of process k, from slot i on, that wait has something to report about, or -1. */
  function FirstNews(s: seq<Proc>, k: nat, i: nat): (c: int)
    requires k < |s| && i <= |s|
    ensures c == -1 || (i <= c < |s| && Child(s, c, k) && Reportable(s[c]))
    ensures forall j :: i <= j < (if c == -1 then |s| else c) && Child(s, j, k) ==> !Reportable(s[j])
    decreases |s| - i
  {
    if i == |s| then -1 else if Child(s, i, k) && Reportable(s[i]) then i else FirstNews(s, k, i + 1)
  }

  /**
   * What a turn of wait reports: the first child there is news of, a zombie, which is collected, or a stopped
   * one; sleep, with children but no news; or no child.
   */
  ghost predicate WaitReports(r: WaitResult, s: seq<Proc>, k: nat, t: seq<Proc>)
    requires k < |s| == |t|
  {
    var c := FirstNews(s, k, 0);
    if c >= 0 && s[c].stat == Zombie then r == Collected(s[c].pid, s[c].status) && t == Reaped(s, k, c)
    else if c >= 0 then r == Traced(s[c].pid) && t == Told(s, k, c)
    else if HasChild(s, k) then r == Asleep && t == s[k := s[k].(stat := Waiting)]
    else r == NoChild && s[k].stat == Live && t == s
  }

  datatype WaitResult = Collected(pid: int, status: int) | Traced(pid: int) | Asleep | NoChild

  class Table {
    const proc: array<Proc>
    var mpid: int
    ghost var par: seq<nat>
    ghost var books: Books

    ghost predicate Valid()
      reads this, proc
    {
      TableOk(proc[..], par) && BooksOk(proc[..], books) && 0 <= mpid < MAXPID && 2 * proc.Length < MAXPID - 1
    }

    ghost function Now(): State
      reads this, proc
    {
      State(proc[..], par, books)
    }

    /** newproc looks for a slot and a number: it comes to a number that is not in use, whatever mpid was. */
    method FindNumber() returns (p: int)
      requires 0 <= mpid < MAXPID && 2 * proc.Length < MAXPID - 1
      modifies this`mpid
      ensures 1 <= mpid < MAXPID && Unused(proc[..], mpid)
      ensures -1 <= p < proc.Length && (p >= 0 ==>
                                        proc[p].stat == Free && forall k :: 0 <= k < p ==> proc[k].stat != Free)
      ensures p < 0 ==> forall k :: 0 <= k < proc.Length ==> proc[k].stat != Free
    {
      ghost var start, again := mpid, false;
      NotAllUsed(proc[..]);
      p := -1;
      while true
        invariant 0 <= mpid < MAXPID && (again ==> mpid < start || mpid == 0) && (!again ==> start <= mpid)
        invariant forall v :: 1 <= v < MAXPID && Tried(v, start, mpid, again) ==> !Unused(proc[..], v)
        invariant p >= 0 ==> p < proc.Length && proc[p].stat == Free && forall k :: 0 <= k < p ==> proc[k].stat != Free
        invariant p >= -1
        decreases if again then 0 else 1, MAXPID - mpid
      {
        mpid := mpid + 1;
        if mpid >= MAXPID {
          mpid := 0;
          again := true;
          continue;
        }
        var taken;
        taken, p := Scan(mpid, p);
        if !taken {
          return;
        }
      }
    }

    /** One look through the table for a number, and for a free slot if none is known yet. */
    method Scan(pid: int, p0: int) returns (taken: bool, p: int)
      requires -1 <= p0 < proc.Length && (p0 >= 0 ==>
                                          proc[p0].stat == Free && forall k :: 0 <= k < p0 ==> proc[k].stat != Free)
      ensures taken <==> !Unused(proc[..], pid)
      ensures -1 <= p < proc.Length && (p >= 0 ==>
                                        proc[p].stat == Free && forall k :: 0 <= k < p ==> proc[k].stat != Free)
      ensures !taken && p < 0 ==> forall k :: 0 <= k < proc.Length ==> proc[k].stat != Free
    {
      p := p0;
      for k := 0 to proc.Length
        invariant -1 <= p < proc.Length && (p >= 0 ==>
                                            proc[p].stat == Free && forall j :: 0 <= j < p ==> proc[j].stat != Free)
        invariant p < 0 ==> forall j :: 0 <= j < k ==> proc[j].stat != Free
        invariant forall j :: 0 <= j < k ==> proc[j].pid != pid && proc[j].pgrp != pid
      {
        if proc[k].stat == Free && p < 0 {
          p := k;
        }
        if proc[k].pid == pid || proc[k].pgrp == pid {
          assert proc[..][k] == proc[k];
          return true, p;
        }
      }
      taken := false;
    }

    /** exit: the children go to init, stopped ones run on, and init and the parent are woken if they wait. */
    method Exit(k: nat, rv: int)
      requires Valid() && 2 <= k < proc.Length && proc[k].stat == Live
      modifies proc, this`par, this`books
      ensures Valid() && Now() == AfterExit(old(Now()), k, rv)
      ensures Zombies(proc[..]) == old(Zombies(proc[..])) + 1
      ensures UserTime(proc[..]) == old(UserTime(proc[..])) && SystemTime(proc[..]) == old(SystemTime(proc[..]))
    {
      hide TableOk, BooksOk, UserTime, SystemTime, Exited, Zombies;
      ghost var s := proc[..];
      Known(s, par, k);
      ghost var parent := par[k];
      ExitOk(s, par, k, rv);
      var pid, ppid := proc[k].pid, proc[k].ppid;
      proc[k] := Ended(proc[k], rv);
      GiveAway(s, k, pid);
      WakeParent(s, k, parent, ppid);
      ExitedIs(s, k, parent, rv, proc[..]);
      ExitBooks(s, k, parent, rv, books);
      par, books := Adopted(s, par, k), books.(ended := books.ended + [books.ser[k]]);
    }

    /** The first loop of exit. */
    method GiveAway(ghost s: seq<Proc>, ghost k: nat, pid: int)
      requires 2 <= k < |s| == proc.Length && pid == s[k].pid >= 1 && s[1].ppid == 0
      requires proc[k].ppid == s[k].ppid && forall q :: 0 <= q < |s| && q != k ==> proc[q] == s[q]
      modifies proc
      ensures forall q :: 0 <= q < |s| && q != 1 ==> proc[q] == Orphan(old(proc[q]), pid)
      ensures proc[1] == if HasChild(s, k) then WakenOne(s[1]) else s[1]
    {
      ghost var any := false;
      for q := 0 to proc.Length
        invariant forall j :: 0 <= j < q && j != 1 ==> proc[j] == Orphan(old(proc[j]), pid)
        invariant forall j :: q <= j < |s| && j != 1 ==> proc[j] == old(proc[j])
        invariant proc[1] == if any then WakenOne(s[1]) else s[1]
        invariant any <==> exists c :: 0 <= c < q && Child(s, c, k)
      {
        if proc[q].ppid == pid {
          assert Child(s, q, k);
          proc[1] := WakenOne(proc[1]);
          proc[q] := proc[q].(ppid := 1);
          if proc[q].stat == Stopped {
            proc[q] := proc[q].(stat := Live);
          }
          any := true;
        }
      }
    }

    /** The second loop of exit. */
    method WakeParent(ghost s: seq<Proc>, ghost k: nat, ghost parent: nat, ppid: int)
      requires k < |s| == proc.Length && parent < |s| && parent != k
      requires s[parent].pid == ppid && forall q :: 0 <= q < |s| ==>
               proc[q].pid == s[q].pid && (s[q].pid == ppid ==> q == parent)
      modifies proc
      ensures forall q :: 0 <= q < |s| ==> proc[q] == if q == parent then WakenOne(old(proc[q])) else old(proc[q])
    {
      for q := 0 to proc.Length
        invariant forall j :: 0 <= j < |s| ==> proc[j] == old(proc[j])
        invariant parent >= q
      {
        if proc[q].pid == ppid {
          proc[q] := WakenOne(proc[q]);
          return;
        }
      }
    }

    /** The loop of wait, from the top to a report or to sleep. */
    method Wait(k: nat) returns (r: WaitResult)
      requires Valid() && 1 <= k < proc.Length && (proc[k].stat == Live || proc[k].stat == Woken)
      modifies proc, this`books
      ensures Valid() && par == old(par) && books == WaitBooks(old(proc[..]), k, old(books))
      ensures Zombies(proc[..]) == old(Zombies(proc[..])) - (if r.Collected? then 1 else 0)
      ensures UserTime(proc[..]) == old(UserTime(proc[..])) && SystemTime(proc[..]) == old(SystemTime(proc[..]))
      ensures WaitReports(r, old(proc[..]), k, proc[..])
    {
      hide TableOk, BooksOk, Zombies, UserTime, SystemTime;
      Inside(proc[..], par, k);
      var f := proc[k].stat == Woken;
      for c := 0 to proc.Length
        invariant proc[..] == old(proc[..]) && (f ==> HasChild(proc[..], k))
        invariant forall j :: 0 <= j < c && Child(proc[..], j, k) ==> !Reportable(proc[j]) && f
        invariant FirstNews(proc[..], k, 0) == FirstNews(proc[..], k, c)
      {
        if proc[c].ppid == proc[k].pid {
          assert Child(proc[..], c, k);
          f := true;
          if proc[c].stat == Zombie {
            r := Collected(proc[c].pid, proc[c].status);
            Collect(k, c);
            return;
          }
          if proc[c].stat == Stopped && !proc[c].wted {
            Report(k, c);
            r := Traced(proc[c].pid);
            return;
          }
        }
      }
      if f {
        FallAsleep(k);
        return Asleep;
      }
      r := NoChild;
    }

    method Collect(k: nat, c: nat)
      requires Valid() && 1 <= k < proc.Length && (proc[k].stat == Live || proc[k].stat == Woken)
      requires c < proc.Length && Child(proc[..], c, k) && proc[c].stat == Zombie
      modifies proc, this`books
      ensures Valid() && proc[..] == Reaped(old(proc[..]), k, c)
      ensures c < |old(books).ser| && books == old(books).(reaped := old(books).reaped + [old(books).ser[c]])
      ensures Zombies(proc[..]) == old(Zombies(proc[..])) - 1
      ensures UserTime(proc[..]) == old(UserTime(proc[..])) && SystemTime(proc[..]) == old(SystemTime(proc[..]))
    {
      hide TableOk, BooksOk, Zombies, UserTime, SystemTime;
      ReapOk(proc[..], par, k, c);
      ghost var s := proc[..];
      proc[k] := proc[k].(stat := Live, cut := proc[k].cut + proc[c].ut, cst := proc[k].cst + proc[c].st);
      proc[c] := NOPROC;
      assert proc[..] == Reaped(s, k, c);
      ReapBooks(s, k, c, books);
      books := books.(reaped := books.reaped + [books.ser[c]]);
    }

    /** A stopped child is reported once. */
    method Report(k: nat, c: nat)
      requires Valid() && 1 <= k < proc.Length && (proc[k].stat == Live || proc[k].stat == Woken)
      requires c < proc.Length && Child(proc[..], c, k) && proc[c].stat == Stopped
      modifies proc
      ensures Valid() && proc[..] == Told(old(proc[..]), k, c)
      ensures Zombies(proc[..]) == old(Zombies(proc[..]))
      ensures UserTime(proc[..]) == old(UserTime(proc[..])) && SystemTime(proc[..]) == old(SystemTime(proc[..]))
    {
      hide TableOk, BooksOk, Zombies, UserTime, SystemTime;
      Inside(proc[..], par, c);
      Change(k, proc[k].(stat := Live));
      Change(c, proc[c].(wted := true));
    }

    method FallAsleep(k: nat)
      requires Valid() && 1 <= k < proc.Length && (proc[k].stat == Live || proc[k].stat == Woken)
               && HasChild(proc[..], k)
      requires forall c :: 0 <= c < proc.Length && Child(proc[..], c, k) ==> !Reportable(proc[c])
      modifies proc
      ensures Valid() && proc[..] == old(proc[..])[k := old(proc[k]).(stat := Waiting)]
      ensures Zombies(proc[..]) == old(Zombies(proc[..]))
      ensures UserTime(proc[..]) == old(UserTime(proc[..])) && SystemTime(proc[..]) == old(SystemTime(proc[..]))
    {
      hide TableOk, BooksOk, Zombies, UserTime, SystemTime;
      StillWaits(proc[..], k, proc[k].(stat := Waiting));
      Change(k, proc[k].(stat := Waiting));
    }

    /** A change of the state of one process. */
    method Change(k: nat, p: Proc)
      requires Valid() && k < proc.Length && SameProcess(proc[k], p) && SameTimes(proc[k], p)
               && (k == 0 ==> p.stat == Live)
      requires (p.stat == Waiting || p.stat == Woken ==> k > 0) && WaitOk(proc[..][k := p], k)
      requires Reportable(p) ==> Reportable(proc[k]) || forall j :: 0 <= j < proc.Length && Child(proc[..], k, j) ==>
               proc[j].stat != Waiting
      modifies proc
      ensures Valid() && proc[..] == old(proc[..])[k := p] && Zombies(proc[..]) == old(Zombies(proc[..]))
      ensures UserTime(proc[..]) == old(UserTime(proc[..])) && SystemTime(proc[..]) == old(SystemTime(proc[..]))
    {
      hide TableOk, BooksOk, UserTime, SystemTime, WaitOk, Zombies;
      OneChanged(proc[..], par, k, p);
      ZombiesChange(proc[..], k, p);
      TimesChange(proc[..], k, p);
      SameBooks(proc[..], proc[..][k := p], books);
      ghost var s := proc[..];
      proc[k] := p;
      assert proc[..] == s[k := p];
    }

    /** As startup leaves it: process 0, and init, which it has forked. */
    constructor (nproc: nat)
      requires nproc >= 2 && 2 * nproc < MAXPID - 1
      ensures Valid() && fresh(proc) && proc.Length == nproc && Zombies(proc[..]) == 0
      ensures books.ended == [] && books.reaped == [] && books.user == 0 && books.system == 0
    {
      proc := new Proc[nproc](k => if k == 0 then Proc(Live, 0, 0, 0, 0, false, 0, 0, 0, 0, 0)
                                   else if k == 1 then Proc(Live, 1, 0, 0, 0, false, 0, 0, 0, 0, 0) else NOPROC);
      mpid := 1;
      par, books := seq(nproc, _ => 0), Books(seq(nproc, k => if k == 0 then 0 else 1), 2, [], [], 0, 0);
      new;
      NoZombies(proc[..]);
      NoTimes(proc[..]);
      assert forall k :: 0 <= k < nproc ==> NumberOk(proc[..][k], k) && WaitOk(proc[..], k);
    }

    /** The checks of fork: the first free slot, and how many processes the user has. */
    method Survey(uid: int) returns (p2: int, a: int)
      requires |proc[..]| == proc.Length
      ensures -1 <= p2 < proc.Length && (p2 >= 0 ==>
                                         proc[p2].stat == Free && forall j :: 0 <= j < p2 ==> proc[j].stat != Free)
      ensures p2 < 0 ==> forall j :: 0 <= j < proc.Length ==> proc[j].stat != Free
      ensures a == Owned(proc[..], uid)
    {
      p2, a := -1, 0;
      assert proc[..0] == [];
      for k := 0 to proc.Length
        invariant -1 <= p2 < k && (p2 >= 0 ==>
                                   proc[p2].stat == Free && forall j :: 0 <= j < p2 ==> proc[j].stat != Free)
        invariant p2 < 0 ==> forall j :: 0 <= j < k ==> proc[j].stat != Free
        invariant a == Owned(proc[..k], uid)
      {
        OwnedNext(proc[..k], proc[k], uid);
        assert proc[..k + 1] == proc[..k] + [proc[k]];
        if proc[k].stat == Free && p2 < 0 {
          p2 := k;
        } else if proc[k].uid == uid && proc[k].stat != Free {
          a := a + 1;
        }
      }
      assert proc[..proc.Length] == proc[..];
    }

    /**
     * fork, the slot and number of the child. room says that there is swap space for the largest
     * image. The super-user may take the last slot and any number of processes; others may not.
     */
    method Fork(k: nat, room: bool) returns (c: int)
      requires Valid() && 1 <= k < proc.Length && proc[k].stat == Live
      modifies proc, this`mpid, this`par, this`books
      ensures Valid()
      ensures c >= 0 <==> MayFork(old(proc[..]), k, room)
      ensures c < 0 ==> Now() == old(Now())
      ensures c >= 0 ==> AfterFork(old(Now()), k, c, mpid, Now())
      ensures Zombies(proc[..]) == old(Zombies(proc[..]))
      ensures UserTime(proc[..]) == old(UserTime(proc[..])) && SystemTime(proc[..]) == old(SystemTime(proc[..]))
    {
      hide TableOk, BooksOk, Zombies, UserTime, SystemTime, Owned;
      if !room {
        return -1;
      }
      var uid := proc[k].uid;
      var p2, a := Survey(uid);
      if p2 < 0 || (uid != 0 && (p2 == proc.Length - 1 || a > MAXUPRC)) {
        return -1;
      }
      c := Newproc(k);
    }

    /** newproc, in a table with a free slot. */
    method Newproc(k: nat) returns (c: int)
      requires Valid() && 1 <= k < proc.Length && proc[k].stat == Live
               && exists j :: 0 <= j < proc.Length && proc[j].stat == Free
      modifies proc, this`mpid, this`par, this`books
      ensures Valid() && AfterFork(old(Now()), k, c, mpid, Now())
      ensures Zombies(proc[..]) == old(Zombies(proc[..]))
      ensures UserTime(proc[..]) == old(UserTime(proc[..])) && SystemTime(proc[..]) == old(SystemTime(proc[..]))
    {
      hide TableOk, BooksOk, Zombies, UserTime, SystemTime;
      c := FindNumber();
      ForkOk(proc[..], par, k, c, mpid);
      ParLength(proc[..], par);
      ghost var s := proc[..];
      proc[c] := Proc(Live, mpid, proc[k].pid, proc[k].pgrp, proc[k].uid, false, 0, 0, 0, 0, 0);
      assert proc[..] == Forked(s, k, c, mpid);
      ForkBooks(s, k, c, mpid, books);
      par, books := par[c := k], books.(ser := books.ser[c := books.born], born := books.born + 1);
    }

    /** stop: a traced process that has a parent other than init wakes it and stops; any other would exit. */
    method Stop(k: nat) returns (stopped: bool)
      requires Valid() && 2 <= k < proc.Length && proc[k].stat == Live
      modifies proc
      ensures Valid() && stopped == (old(proc[k].ppid) != 1)
      ensures Now() == if stopped then AfterStop(old(Now()), k) else old(Now())
      ensures Zombies(proc[..]) == old(Zombies(proc[..]))
      ensures UserTime(proc[..]) == old(UserTime(proc[..])) && SystemTime(proc[..]) == old(SystemTime(proc[..]))
    {
      hide TableOk, BooksOk, UserTime, SystemTime, Zombies;
      if proc[k].ppid == 1 {
        return false;
      }
      Known(proc[..], par, k);
      ghost var s := proc[..];
      for q := 0 to proc.Length
        invariant proc[..] == s && par[k] >= q
      {
        if proc[q].pid == proc[k].ppid {
          if proc[q].stat == Waiting {
            Awake(s, par, q);
            Change(q, proc[q].(stat := Woken));
          }
          NoWaiter(proc[..], par, k, q);
          Change(k, proc[k].(stat := Stopped));
          return true;
        }
      }
      assert false;
      stopped := false;
    }

    /** The tracer lets a stopped process run. */
    method Resume(c: nat)
      requires Valid() && c < proc.Length && proc[c].stat == Stopped
      modifies proc
      ensures Valid() && proc[..] == old(proc[..])[c := old(proc[c]).(stat := Live, wted := false)]
      ensures Zombies(proc[..]) == old(Zombies(proc[..]))
      ensures UserTime(proc[..]) == old(UserTime(proc[..])) && SystemTime(proc[..]) == old(SystemTime(proc[..]))
    {
      hide TableOk, BooksOk, UserTime, SystemTime, Zombies;
      Change(c, proc[c].(stat := Live, wted := false));
    }

    /** A signal ends a sleep in wait, and the system call. */
    method Signal(k: nat)
      requires Valid() && k < proc.Length && (proc[k].stat == Waiting || proc[k].stat == Woken)
      modifies proc
      ensures Valid() && proc[..] == old(proc[..])[k := old(proc[k]).(stat := Live)]
      ensures Zombies(proc[..]) == old(Zombies(proc[..]))
      ensures UserTime(proc[..]) == old(UserTime(proc[..])) && SystemTime(proc[..]) == old(SystemTime(proc[..]))
    {
      hide TableOk, BooksOk, UserTime, SystemTime, Zombies;
      Change(k, proc[k].(stat := Live));
    }

    /** A clock tick charged to a process. */
    method Spend(k: nat, user: bool)
      requires Valid() && k < proc.Length && Alive(proc[k])
      modifies proc, this`books
      ensures Valid() && Now() == AfterTick(old(Now()), k, user) && Zombies(proc[..]) == old(Zombies(proc[..]))
      ensures UserTime(proc[..]) == old(UserTime(proc[..])) + (if user then 1 else 0)
      ensures SystemTime(proc[..]) == old(SystemTime(proc[..])) + (if user then 0 else 1)
    {
      hide TableOk, BooksOk, UserTime, SystemTime, WaitOk, Zombies;
      var p := if user then proc[k].(ut := proc[k].ut + 1) else proc[k].(st := proc[k].st + 1);
      SpendOk(proc[..], par, k, p);
      TimesChange(proc[..], k, p);
      ZombiesChange(proc[..], k, p);
      ghost var s := proc[..];
      proc[k] := p;
      assert proc[..] == s[k := p];
      TickBooks(s, k, user, books);
      books := if user then books.(user := books.user + 1) else books.(system := books.system + 1);
    }

    /** Whatever happens next, if it can. */
    method Step(e: Event)
      requires Valid()
      modifies proc, this`mpid, this`par, this`books
      ensures Valid() && Follows(e, old(Now()), Now())
    {
      hide TableOk, BooksOk, UserTime, SystemTime, Zombies, Unused, Owned;
      match e {
        case Exits(k, rv) =>
          if 2 <= k < proc.Length && proc[k].stat == Live {
            Exit(k, rv);
          }
        case Waits(k) =>
          if 1 <= k < proc.Length && (proc[k].stat == Live || proc[k].stat == Woken) {
            var r := Wait(k);
          }
        case Forks(k, room) =>
          if 1 <= k < proc.Length && proc[k].stat == Live {
            var c := Fork(k, room);
          }
        case Stops(k, sig) =>
          if 2 <= k < proc.Length && proc[k].stat == Live {
            var stopped := Stop(k);
            if !stopped {
              Exit(k, sig);
            }
          }
        case Resumes(c) =>
          if c < proc.Length && proc[c].stat == Stopped {
            Resume(c);
          }
        case Signals(k) =>
          if k < proc.Length && (proc[k].stat == Waiting || proc[k].stat == Woken) {
            Signal(k);
          }
        case Ticks(k, inUser) =>
          if k < proc.Length && Alive(proc[k]) {
            Spend(k, inUser);
          }
      }
    }

    /**
     * Any run, state by state what the events say. Nobody is collected twice, only the ended are, and the others
     * that have ended are exactly the zombies; the time charged is the time in the table; every process has a
     * live parent; and whoever sleeps in wait has a child, and none to report.
     */
    method Run(events: seq<Event>) returns (ghost states: seq<State>)
      requires Valid()
      modifies proc, this`mpid, this`par, this`books
      ensures |states| == |events| + 1 && states[0] == old(Now()) && states[|events|] == Now()
      ensures forall i :: 0 <= i < |events| ==> Follows(events[i], states[i], states[i + 1])
      ensures Valid() && Distinct(books.reaped) && Distinct(books.ended)
              && forall x :: x in books.reaped ==> x in books.ended
      ensures forall x :: x in books.ended && x !in books.reaped <==> IsZombie(proc[..], books, x)
      ensures UserTime(proc[..]) == books.user && SystemTime(proc[..]) == books.system
      ensures forall k :: 2 <= k < proc.Length && proc[k].stat != Free ==>
                exists j :: 0 <= j < proc.Length && Child(proc[..], k, j) && Alive(proc[j])
      ensures forall k, c ::
              0 <= k < proc.Length && 0 <= c < proc.Length && proc[k].stat == Waiting && Child(proc[..], c, k) ==>
                !Reportable(proc[c])
      ensures forall k :: 0 <= k < proc.Length && proc[k].stat == Waiting ==> HasChild(proc[..], k)
    {
      hide TableOk, BooksOk, UserTime, SystemTime, Zombies, Follows;
      states := [Now()];
      for i := 0 to |events|
        invariant Valid() && |states| == i + 1 && states[0] == old(Now()) && states[i] == Now()
        invariant forall j :: 0 <= j < i ==> Follows(events[j], states[j], states[j + 1])
      {
        Step(events[i]);
        states := states + [Now()];
      }
      RunOk(proc[..], par);
      BooksSay(proc[..], books);
    }
  }

  // ---------------------------------------------------------------------------
  // What has happened to processes, each known by a serial number of its own: process numbers come back.

  /**
   * ser[k] is the serial number of the process in slot k, and born the next one; ended and reaped are those that
   * have ended and that wait has collected, in that order; user and system is the time charged so far.
   */
  datatype Books = Books(ser: seq<nat>, born: nat, ended: seq<nat>, reaped: seq<nat>, user: int, system: int)

  datatype State = State(procs: seq<Proc>, par: seq<nat>, books: Books)

  /** Process number x, by serial, has ended and is in the table still. */
  ghost predicate IsZombie(s: seq<Proc>, b: Books, x: nat) {
    exists k :: 0 <= k < |s| && ZombieAt(s, b, x, k)
  }

  predicate ZombieAt(s: seq<Proc>, b: Books, x: nat, k: nat)
    requires k < |s|
  {
    k < |b.ser| && b.ser[k] == x && s[k].stat == Zombie
  }

  predicate SerialOk(s: seq<Proc>, b: Books, k: int)
    requires 0 <= k < |s| == |b.ser|
  {
    s[k].stat != Free ==> b.ser[k] < b.born && b.ser[k] !in b.reaped && (b.ser[k] in b.ended <==> s[k].stat == Zombie)
  }

  ghost predicate BooksOk(s: seq<Proc>, b: Books) {
    && |b.ser| == |s|
    && (forall k :: 0 <= k < |s| ==> SerialOk(s, b, k))
    && (forall i, j :: 0 <= i < j < |s| && s[i].stat != Free && s[j].stat != Free ==> b.ser[i] != b.ser[j])
    && Distinct(b.ended) && Distinct(b.reaped)
    && (forall x :: x in b.ended ==> x < b.born)
    && (forall x :: x in b.reaped ==> x in b.ended)
    && (forall x :: x in b.ended && x !in b.reaped ==> IsZombie(s, b, x))
    && UserTime(s) == b.user && SystemTime(s) == b.system
  }

  lemma BooksSay(s: seq<Proc>, b: Books)
    requires BooksOk(s, b)
    ensures Distinct(b.reaped) && Distinct(b.ended) && forall x :: x in b.reaped ==> x in b.ended
    ensures forall x :: x in b.ended && x !in b.reaped <==> IsZombie(s, b, x)
    ensures UserTime(s) == b.user && SystemTime(s) == b.system && |b.ser| == |s|
  {
    hide UserTime, SystemTime;
    forall x | IsZombie(s, b, x)
      ensures x in b.ended && x !in b.reaped
    {
      var k :| 0 <= k < |s| && ZombieAt(s, b, x, k);
      assert SerialOk(s, b, k);
    }
  }

  /** No process comes, goes or ends. */
  lemma SameBooks(s: seq<Proc>, t: seq<Proc>, b: Books)
    requires BooksOk(s, b) && |s| == |t| && UserTime(t) == UserTime(s) && SystemTime(t) == SystemTime(s)
    requires forall k :: 0 <= k < |s| ==> SameKind(s[k], t[k])
    ensures BooksOk(t, b)
  {
    hide UserTime, SystemTime;
    forall k | 0 <= k < |s|
      ensures SerialOk(t, b, k)
    {
      assert SerialOk(s, b, k);
    }
    forall x | x in b.ended && x !in b.reaped
      ensures IsZombie(t, b, x)
    {
      var j :| 0 <= j < |s| && ZombieAt(s, b, x, j);
      assert ZombieAt(t, b, x, j);
    }
  }

  predicate SameKind(p: Proc, q: Proc) {
    (p.stat == Free <==> q.stat == Free) && (p.stat == Zombie <==> q.stat == Zombie)
  }

  /** Process k ends. */
  lemma EndBooks(s: seq<Proc>, k: nat, t: seq<Proc>, b: Books)
    requires BooksOk(s, b) && k < |s| == |t| && UserTime(t) == UserTime(s) && SystemTime(t) == SystemTime(s)
    requires Alive(s[k]) && t[k].stat == Zombie && forall j :: 0 <= j < |s| && j != k ==> SameKind(s[j], t[j])
    ensures k < |b.ser| && BooksOk(t, b.(ended := b.ended + [b.ser[k]]))
  {
    hide UserTime, SystemTime;
    var b' := b.(ended := b.ended + [b.ser[k]]);
    assert SerialOk(s, b, k);
    forall j | 0 <= j < |s|
      ensures SerialOk(t, b', j)
    {
      assert SerialOk(s, b, j);
    }
    assert ZombieAt(t, b', b.ser[k], k);
    forall x | x in b.ended && x !in b.reaped
      ensures IsZombie(t, b', x)
    {
      var j :| 0 <= j < |s| && ZombieAt(s, b, x, j);
      assert ZombieAt(t, b', x, j);
    }
  }

  lemma ExitBooks(s: seq<Proc>, k: nat, parent: nat, rv: int, b: Books)
    requires BooksOk(s, b) && 2 <= k < |s| && s[k].stat == Live && parent != k
    requires UserTime(Exited(s, k, parent, rv)) == UserTime(s) && SystemTime(Exited(s, k, parent, rv)) == SystemTime(s)
    ensures k < |b.ser| && BooksOk(Exited(s, k, parent, rv), b.(ended := b.ended + [b.ser[k]]))
  {
    hide BooksOk, UserTime, SystemTime;
    EndBooks(s, k, Exited(s, k, parent, rv), b);
  }

  /** The process in slot c has been collected. */
  lemma ReapBooks(s: seq<Proc>, k: nat, c: nat, b: Books)
    requires BooksOk(s, b) && k < |s| && c < |s| && k != c && s[c].stat == Zombie && Alive(s[k])
    requires UserTime(Reaped(s, k, c)) == UserTime(s) && SystemTime(Reaped(s, k, c)) == SystemTime(s)
    ensures c < |b.ser| && BooksOk(Reaped(s, k, c), b.(reaped := b.reaped + [b.ser[c]]))
  {
    hide UserTime, SystemTime;
    var t, b' := Reaped(s, k, c), b.(reaped := b.reaped + [b.ser[c]]);
    assert SerialOk(s, b, c);
    forall j | 0 <= j < |s|
      ensures SerialOk(t, b', j)
    {
      assert SerialOk(s, b, j);
    }
    forall x | x in b.ended && x !in b'.reaped
      ensures IsZombie(t, b', x)
    {
      var j :| 0 <= j < |s| && ZombieAt(s, b, x, j);
      assert ZombieAt(t, b', x, j);
    }
  }

  /** A new process in slot c. */
  lemma ForkBooks(s: seq<Proc>, k: nat, c: nat, pid: int, b: Books)
    requires BooksOk(s, b) && k < |s| && c < |s| && s[c].stat == Free
    requires UserTime(Forked(s, k, c, pid)) == UserTime(s) && SystemTime(Forked(s, k, c, pid)) == SystemTime(s)
    ensures c < |b.ser| && BooksOk(Forked(s, k, c, pid), b.(ser := b.ser[c := b.born], born := b.born + 1))
  {
    hide UserTime, SystemTime;
    var t, b' := Forked(s, k, c, pid), b.(ser := b.ser[c := b.born], born := b.born + 1);
    forall j | 0 <= j < |s|
      ensures SerialOk(t, b', j)
    {
      assert SerialOk(s, b, j);
    }
    forall i, j | 0 <= i < j < |t| && t[i].stat != Free && t[j].stat != Free
      ensures b'.ser[i] != b'.ser[j]
    {
      assert SerialOk(s, b, i) && SerialOk(s, b, j);
    }
    forall x | x in b.ended && x !in b.reaped
      ensures IsZombie(t, b', x)
    {
      var j :| 0 <= j < |s| && ZombieAt(s, b, x, j);
      assert ZombieAt(t, b', x, j);
    }
  }

  /** A tick charged to process k. */
  lemma TickBooks(s: seq<Proc>, k: nat, user: bool, b: Books)
    requires BooksOk(s, b) && k < |s| && Alive(s[k])
    ensures BooksOk(Charged(s, k, user), if user then b.(user := b.user + 1) else b.(system := b.system + 1))
  {
    hide UserTime, SystemTime;
    var t, b' := Charged(s, k, user), if user then b.(user := b.user + 1) else b.(system := b.system + 1);
    TimesChange(s, k, t[k]);
    forall j | 0 <= j < |s|
      ensures SerialOk(t, b', j)
    {
      assert SerialOk(s, b, j);
    }
    forall x | x in b.ended && x !in b.reaped
      ensures IsZombie(t, b', x)
    {
      var j :| 0 <= j < |s| && ZombieAt(s, b, x, j);
      assert ZombieAt(t, b', x, j);
    }
  }

  function Charged(s: seq<Proc>, k: nat, user: bool): seq<Proc>
    requires k < |s|
  {
    s[k := if user then s[k].(ut := s[k].ut + 1) else s[k].(st := s[k].st + 1)]
  }

  // ---------------------------------------------------------------------------
  // What one event does.

  ghost predicate Follows(e: Event, a: State, b: State) {
    match e
    case Exits(k, rv) => b == if 2 <= k < |a.procs| && a.procs[k].stat == Live then AfterExit(a, k, rv) else a
    case Waits(k) =>
      if 1 <= k < |a.procs| && (a.procs[k].stat == Live || a.procs[k].stat == Woken) then AfterWait(a, k, b) else b == a
    case Forks(k, room) =>
      if 1 <= k < |a.procs| && a.procs[k].stat == Live && MayFork(a.procs, k, room)
      then exists c, pid :: AfterFork(a, k, c, pid, b)
      else b == a
    case Stops(k, sig) =>
      b == if 2 <= k < |a.procs| && a.procs[k].stat == Live
           then if a.procs[k].ppid == 1 then AfterExit(a, k, sig) else AfterStop(a, k)
           else a
    case Resumes(c) =>
      b == if c < |a.procs| && a.procs[c].stat == Stopped
           then a.(procs := a.procs[c := a.procs[c].(stat := Live, wted := false)]) else a
    case Signals(k) =>
      b == if k < |a.procs| && (a.procs[k].stat == Waiting || a.procs[k].stat == Woken)
           then a.(procs := a.procs[k := a.procs[k].(stat := Live)]) else a
    case Ticks(k, inUser) => b == if k < |a.procs| && Alive(a.procs[k]) then AfterTick(a, k, inUser) else a
  }

  ghost function AfterExit(a: State, k: nat, rv: int): State
    requires k < |a.procs|
  {
    if |a.par| == |a.procs| && k < |a.books.ser|
    then State(Exited(a.procs, k, a.par[k], rv), Adopted(a.procs, a.par, k),
               a.books.(ended := a.books.ended + [a.books.ser[k]]))
    else a
  }

  ghost predicate AfterWait(a: State, k: nat, b: State)
    requires k < |a.procs|
  {
    && |b.procs| == |a.procs| && b.par == a.par && b.books == WaitBooks(a.procs, k, a.books)
    && exists r :: WaitReports(r, a.procs, k, b.procs)
  }

  /** A child that wait collects is entered as such. */
  function WaitBooks(s: seq<Proc>, k: nat, b: Books): Books
    requires k < |s|
  {
    var c := FirstNews(s, k, 0);
    if 0 <= c < |b.ser| && s[c].stat == Zombie then b.(reaped := b.reaped + [b.ser[c]]) else b
  }

  /** The super-user may take the last slot and any number of processes; others may not. */
  ghost predicate MayFork(s: seq<Proc>, k: nat, room: bool)
    requires k < |s|
  {
    && room && (exists j :: 0 <= j < |s| && s[j].stat == Free)
    && (s[k].uid == 0 || ((exists j :: 0 <= j < |s| - 1 && s[j].stat == Free) && Owned(s, s[k].uid) <= MAXUPRC))
  }

  /** The child is in the first free slot c, with a number that nobody has. */
  ghost predicate AfterFork(a: State, k: nat, c: int, pid: int, b: State)
    requires k < |a.procs|
  {
    && 0 <= c < |a.procs| && a.procs[c].stat == Free && (forall j :: 0 <= j < c ==> a.procs[j].stat != Free)
    && 1 <= pid < MAXPID && Unused(a.procs, pid)
    && c < |a.par| && c < |a.books.ser|
    && b == State(Forked(a.procs, k, c, pid), a.par[c := k], a.books.(ser := a.books.ser[c := a.books.born],
                                                                      born := a.books.born + 1))
  }

  function AfterStop(a: State, k: nat): State
    requires k < |a.procs|
  {
    if k < |a.par| && a.par[k] < |a.procs|
    then a.(procs := a.procs[a.par[k] := WakenOne(a.procs[a.par[k]])][k := a.procs[k].(stat := Stopped)])
    else a
  }

  function AfterTick(a: State, k: nat, user: bool): State
    requires k < |a.procs|
  {
    State(Charged(a.procs, k, user), a.par,
          if user then a.books.(user := a.books.user + 1) else a.books.(system := a.books.system + 1))
  }

  datatype Event = Exits(k: nat, rv: int) | Waits(k: nat) | Forks(k: nat, room: bool) | Stops(k: nat, sig: int)
                 | Resumes(c: nat) | Signals(k: nat)
                 | Ticks(k: nat, inUser: bool)

  lemma SpendOk(s: seq<Proc>, par: seq<nat>, k: nat, p: Proc)
    requires TableOk(s, par) && k < |s| && SameProcess(s[k], p) && p.stat == s[k].stat && p.wted == s[k].wted
    ensures TableOk(s[k := p], par)
  {
    var t := s[k := p];
    assert WaitOk(s, k) && NumberOk(s[k], k);
    if HasChild(s, k) {
      var c :| 0 <= c < |s| && Child(s, c, k);
      assert Child(t, c, k);
    }
    assert forall c :: 0 <= c < |s| && Child(t, c, k) ==> Child(s, c, k);
    OneChanged(s, par, k, p);
  }

  lemma RunOk(s: seq<Proc>, par: seq<nat>)
    requires TableOk(s, par)
    ensures forall k :: 2 <= k < |s| && s[k].stat != Free ==> exists j :: 0 <= j < |s| && Child(s, k, j) && Alive(s[j])
    ensures forall k, c :: 0 <= k < |s| && 0 <= c < |s| && s[k].stat == Waiting && Child(s, c, k) ==> !Reportable(s[c])
    ensures forall k :: 0 <= k < |s| && s[k].stat == Waiting ==> HasChild(s, k)
  {
    forall k | 2 <= k < |s| && s[k].stat != Free
      ensures exists j :: 0 <= j < |s| && Child(s, k, j) && Alive(s[j])
    {
      assert ParentOk(s, par, k);
      assert Child(s, k, par[k]);
    }
    forall k | 0 <= k < |s| && s[k].stat == Waiting
      ensures HasChild(s, k) && forall c :: 0 <= c < |s| && Child(s, c, k) ==> !Reportable(s[c])
    {
      assert WaitOk(s, k);
    }
  }

  /** Processes that have ended and have not been waited for. */
  function Zombies(s: seq<Proc>): nat {
    if s == [] then 0 else (if s[0].stat == Zombie then 1 else 0) + Zombies(s[1..])
  }

  lemma {:induction false} ZombiesChange(s: seq<Proc>, k: nat, p: Proc)
    requires k < |s|
    ensures Zombies(s[k := p]) == Zombies(s) - (if s[k].stat == Zombie then 1 else 0)
            + (if p.stat == Zombie then 1 else 0)
  {
    if k > 0 {
      assert s[k := p][1..] == s[1..][k - 1 := p];
      ZombiesChange(s[1..], k - 1, p);
    }
  }

  lemma {:induction false} ZombiesSame(s: seq<Proc>, t: seq<Proc>)
    requires |s| == |t| && forall k :: 0 <= k < |s| ==> (s[k].stat == Zombie <==> t[k].stat == Zombie)
    ensures Zombies(s) == Zombies(t)
  {
    if s != [] {
      ZombiesSame(s[1..], t[1..]);
    }
  }

  lemma {:induction false} NoZombies(s: seq<Proc>)
    requires forall k :: 0 <= k < |s| ==> s[k].stat != Zombie
    ensures Zombies(s) == 0
  {
    if s != [] {
      NoZombies(s[1..]);
    }
  }

  /** The processes of a user. */
  function Owned(s: seq<Proc>, uid: int): int {
    if s == [] then 0 else Owned(s[..|s| - 1], uid) + (if s[|s| - 1].uid == uid
                                                       && s[|s| - 1].stat != Free then 1 else 0)
  }

  lemma OwnedNext(s: seq<Proc>, p: Proc, uid: int)
    ensures Owned(s + [p], uid) == Owned(s, uid) + (if p.uid == uid && p.stat != Free then 1 else 0)
  {
    assert (s + [p])[..|s|] == s;
  }

  lemma {:induction false} NoTimes(s: seq<Proc>)
    requires forall k :: 0 <= k < |s| ==> s[k].ut == s[k].cut == s[k].st == s[k].cst == 0
    ensures UserTime(s) == 0 && SystemTime(s) == 0
  {
    if s != [] {
      NoTimes(s[1..]);
    }
  }

  lemma ParLength(s: seq<Proc>, par: seq<nat>)
    requires TableOk(s, par)
    ensures |par| == |s|
  {
  }

  lemma Awake(s: seq<Proc>, par: seq<nat>, q: nat)
    requires TableOk(s, par) && q < |s| && s[q].stat == Waiting
    ensures q > 0 && WaitOk(s[q := s[q].(stat := Woken)], q)
  {
    assert WaitOk(s, q);
    var c :| 0 <= c < |s| && Child(s, c, q);
    assert Child(s[q := s[q].(stat := Woken)], c, q);
  }

  /** When its parent is not asleep, no process waits for process k. */
  lemma NoWaiter(s: seq<Proc>, par: seq<nat>, k: nat, q: nat)
    requires TableOk(s, par) && 2 <= k < |s| && s[k].stat == Live && q < |s| && s[q].pid == s[k].ppid
             && s[q].stat != Waiting
    ensures forall j :: 0 <= j < |s| && Child(s, k, j) ==> s[j].stat != Waiting
  {
    forall j | 0 <= j < |s| && Child(s, k, j)
      ensures s[j].stat != Waiting
    {
      ParentSlot(s, par, k, j);
      ParentSlot(s, par, k, q);
    }
  }

  /** A process that is not asleep may be in any state that needs no child. */
  lemma StillWaits(s: seq<Proc>, k: nat, p: Proc)
    requires 0 < k < |s| && HasChild(s, k) && p.pid == s[k].pid && p.ppid == s[k].ppid
    requires forall c :: 0 <= c < |s| && Child(s, c, k) ==> !Reportable(s[c])
    requires p.stat == Waiting
    ensures WaitOk(s[k := p], k)
  {
    var t := s[k := p];
    var c :| 0 <= c < |s| && Child(s, c, k);
    assert Child(t, c, k);
    forall c | 0 <= c < |s| && Child(t, c, k)
      ensures !Reportable(t[c])
    {
      assert Child(s, c, k);
    }
  }

  lemma Known(s: seq<Proc>, par: seq<nat>, k: nat)
    requires TableOk(s, par) && 2 <= k < |s| && s[k].stat == Live
    ensures s[k].pid >= 1 && s[1].ppid == 0 && |par| == |s| && par[k] < |s| && par[k] != k
            && s[par[k]].pid == s[k].ppid != s[k].pid
    ensures forall q :: 0 <= q < |s| && s[q].pid == s[k].ppid ==> q == par[k]
  {
    assert NumberOk(s[k], k) && NumberOk(s[1], 1) && ParentOk(s, par, k) && NumberOk(s[par[k]], par[k]);
    OtherNumber(s, par[k], k);
    forall q | 0 <= q < |s| && s[q].pid == s[k].ppid
      ensures q == par[k]
    {
      ParentSlot(s, par, k, q);
    }
  }

  lemma Inside(s: seq<Proc>, par: seq<nat>, k: nat)
    requires TableOk(s, par) && k < |s|
    ensures s[k].stat == Woken ==> HasChild(s, k)
    ensures s[k].stat == Stopped ==> k > 0
  {
    assert WaitOk(s, k) && NumberOk(s[k], k);
  }

  lemma ExitedIs(s: seq<Proc>, k: nat, parent: nat, rv: int, t: seq<Proc>)
    requires 2 <= k < |s| == |t| && parent < |s| && parent != k && s[1].ppid == 0 && s[k].pid >= 1
    requires forall q :: 0 <= q < |s| ==>
               var p := if q == 1 then (if HasChild(s, k) then WakenOne(s[1]) else s[1])
                        else Orphan(if q == k then Ended(s[k], rv) else s[q], s[k].pid);
               t[q] == if q == parent then WakenOne(p) else p
    ensures t == Exited(s, k, parent, rv)
  {
    assert HasChild(s, k) <==> exists c :: 0 <= c < |s| && Child(s, c, k);
  }
}
