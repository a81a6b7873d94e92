/**
 * The table of inodes in core: reference counts, locks, and the sleeps for them.
 * Each use of an inode, by an open file, a system call or the update of all
 * inodes, is a User; one call of a method below is what it does up to its next
 * sleep. Any order of the calls is a run of the system.
 */
module InodeTable {
  import opened Sequences

  /** Which inode: a device and an i-number, which is not zero. */
  datatype Id = Id(dev: int, ino: int)

  /** An entry of the table; number 0 says that it holds no inode. */
  datatype Slot = Slot(dev: int, number: int, count: int, locked: bool, want: bool)

  /**
   * At the top of the loop of iget; asleep in it on an inode that another user has locked;
   * reading the inode into its slot; holding a locked inode; holding one unlocked; in
   * plock, awake or asleep; or in iput as the last user, writing the inode out.
   */
  datatype User =
    | Getting(id: Id) | WaitGet(id: Id, s: nat)
    | Reading(id: Id, s: nat) | Held(id: Id, s: nat) | Loose(id: Id, s: nat)
    | Locking(id: Id, s: nat) | WaitLock(id: Id, s: nat) | Putting(id: Id, s: nat)

  predicate HasRef(q: User) {
    !q.Getting? && !q.WaitGet?
  }

  predicate HasLock(q: User) {
    q.Reading? || q.Held? || q.Putting?
  }

  predicate Asleep(q: User) {
    q.WaitGet? || q.WaitLock?
  }

  /** The users that count for slot k. */
  ghost function Refs(users: map<nat, User>, k: nat): set<nat> {
    set u | u in users && HasRef(users[u]) && users[u].s == k
  }

  /** Wakes the users asleep on slot k. */
  function Wake(users: map<nat, User>, k: nat): map<nat, User> {
    map u | u in users :: WokenUp(users[u], k)
  }

  function WokenUp(q: User, k: nat): User {
    match q
    case WaitGet(id, s) => if s == k then Getting(id) else q
    case WaitLock(id, s) => if s == k then Locking(id, s) else q
    case _ => q
  }

  // ---------------------------------------------------------------------------
  // What every step keeps.

  /**
   * A user asleep on a slot will be woken: the slot is locked and wanted. A user with a
   * reference finds its inode in the slot; the lock has one holder; and the last user
   * stays the last while it writes the inode out.
   */
  predicate UserOk(u: nat, q: User, slots: seq<Slot>, holder: seq<nat>) {
    && q.id.ino != 0 && |holder| == |slots|
    && (!q.Getting? ==> q.s < |slots|)
    && (Asleep(q) ==> slots[q.s].locked && slots[q.s].want)
    && (HasRef(q) ==> Id(slots[q.s].dev, slots[q.s].number) == q.id && slots[q.s].count > 0)
    && (HasLock(q) ==> slots[q.s].locked && holder[q.s] == u)
    && (q.Putting? ==> slots[q.s].count == 1)
  }

  ghost predicate SlotOk(slots: seq<Slot>, users: map<nat, User>, holder: seq<nat>, k: nat)
    requires k < |slots| == |holder|
  {
    && slots[k].count == |Refs(users, k)|
    && (slots[k].locked ==> holder[k] in users && HasLock(users[holder[k]]) && users[holder[k]].s == k)
    && (slots[k].count == 0 <==> slots[k].number == 0)
  }

  /** No inode is in the table twice. */
  predicate Unique(slots: seq<Slot>) {
    forall i, j :: 0 <= i < j < |slots| && slots[i].number != 0 && slots[j].number != 0 ==>
      Id(slots[i].dev, slots[i].number) != Id(slots[j].dev, slots[j].number)
  }

  ghost predicate TableOk(slots: seq<Slot>, users: map<nat, User>, holder: seq<nat>) {
    && |holder| == |slots|
    && (forall u :: u in users ==> UserOk(u, users[u], slots, holder))
    && (forall k :: 0 <= k < |slots| ==> SlotOk(slots, users, holder, k))
    && Unique(slots)
  }

  // ---------------------------------------------------------------------------
  // One step: user u goes from its state to q, or away, and slot s changes.

  datatype Option<T> = None | Some(value: T)

  function Moved(users: map<nat, User>, u: nat, q: Option<User>): map<nat, User> {
    if q.Some? then users[u := q.value] else users - {u}
  }

  predicate RefTo(q: Option<User>, s: nat) {
    q.Some? && HasRef(q.value) && q.value.s == s
  }

  function At(users: map<nat, User>, u: nat): Option<User> {
    if u in users then Some(users[u]) else None
  }

  lemma RefsMoved(users: map<nat, User>, u: nat, q: Option<User>, k: nat)
    ensures |Refs(Moved(users, u, q), k)| ==
            |Refs(users, k)| - (if RefTo(At(users, u), k) then 1 else 0) + (if RefTo(q, k) then 1 else 0)
  {
    var a, b := Refs(users, k), Refs(Moved(users, u, q), k);
    assert b == if RefTo(q, k) then a + {u} else a - {u};
    assert u in a <==> RefTo(At(users, u), k);
  }

  lemma RefsWoken(users: map<nat, User>, s: nat, k: nat)
    ensures Refs(Wake(users, s), k) == Refs(users, k)
  {
  }

  predicate LockOn(q: Option<User>, s: nat) {
    q.Some? && HasLock(q.value) && q.value.s == s
  }

  /** What a step may do to slot s: others that use it must not notice, except to be woken. */
  predicate Allowed(a: Slot, b: Slot, wake: bool, before: Option<User>, after: Option<User>, s: nat) {
    // a reference taken or given up is counted
    && b.count == a.count - (if RefTo(before, s) then 1 else 0) + (if RefTo(after, s) then 1 else 0)
    // the inode stays while anyone else uses it
    && (a.count - (if RefTo(before, s) then 1 else 0) > 0 ==> b.dev == a.dev && b.number == a.number)
    && (b.count == 0 <==> b.number == 0)
    // the lock changes hands only through its holder
    && (a.locked && !LockOn(before, s) ==> b.locked && !LockOn(after, s))
    && (b.locked && !(a.locked && !LockOn(before, s)) ==> LockOn(after, s))
    // sleepers are woken before the lock or the flag goes
    && (!wake && a.locked && a.want ==> b.locked && b.want)
  }

  /** A step of user u, between the states before and after, on slot s of the table. */
  ghost predicate MayStep(slots: seq<Slot>, users: map<nat, User>, holder: seq<nat>, u: nat, s: nat, b: Slot,
                          wake: bool, q: Option<User>,
                          holder': seq<nat>) {
    && s < |slots| == |holder|
    && Allowed(slots[s], b, wake, At(users, u), q, s)
    && (u in users && HasRef(users[u]) ==> users[u].s == s) && (q.Some? && HasRef(q.value) ==> q.value.s == s)
    && holder' == (if q.Some? && HasLock(q.value) then holder[s := u] else holder)
    && (q.Some? ==> UserOk(u, q.value, slots[s := b], holder'))
    && (wake && q.Some? ==> !Asleep(q.value))
    && Unique(slots[s := b])
    && (RefTo(q, s) && !RefTo(At(users, u), s) && slots[s].locked ==> holder[s] in users && !users[holder[s]].Putting?)
  }

  lemma OtherRef(users: map<nat, User>, u: nat, v: nat, s: nat)
    requires v in users && HasRef(users[v]) && users[v].s == s && u != v
    ensures |Refs(users, s)| > (if RefTo(At(users, u), s) then 1 else 0)
  {
    assert v in Refs(users, s);
    if RefTo(At(users, u), s) {
      assert {u, v} <= Refs(users, s);
      Subset({u, v}, Refs(users, s));
    } else {
      Subset({v}, Refs(users, s));
    }
  }

  /** A user other than the one that steps. */
  lemma Bystander(slots: seq<Slot>, users: map<nat, User>, holder: seq<nat>, u: nat, s: nat, b: Slot, wake: bool,
                  q: Option<User>,
                  holder': seq<nat>, v: nat)
    requires TableOk(slots, users, holder) && MayStep(slots, users, holder, u, s, b, wake, q, holder')
    requires v in users && v != u
    ensures UserOk(v, if wake then WokenUp(users[v], s) else users[v], slots[s := b], holder')
  {
    hide Unique, SlotOk;
    var x := users[v];
    assert UserOk(v, x, slots, holder);
    if !x.Getting? && x.s == s {
      CountAt(slots, users, holder, s);
      assert u in users ==> UserOk(u, users[u], slots, holder);
      if HasRef(x) {
        OtherRef(users, u, v, s);
      }
    }
  }

  lemma CountAt(slots: seq<Slot>, users: map<nat, User>, holder: seq<nat>, k: nat)
    requires TableOk(slots, users, holder) && k < |slots|
    ensures slots[k].count == |Refs(users, k)| && (slots[k].count == 0 <==> slots[k].number == 0)
    ensures slots[k].locked ==> holder[k] in users && HasLock(users[holder[k]]) && users[holder[k]].s == k
  {
    assert SlotOk(slots, users, holder, k);
  }

  lemma StepSlot(slots: seq<Slot>, users: map<nat, User>, holder: seq<nat>, u: nat, s: nat, b: Slot, wake: bool,
                 q: Option<User>,
                 holder': seq<nat>, k: nat)
    requires TableOk(slots, users, holder) && MayStep(slots, users, holder, u, s, b, wake, q, holder') && k < |slots|
    ensures SlotOk(slots[s := b], Moved(if wake then Wake(users, s) else users, u, q), holder', k)
  {
    hide Unique, UserOk, Refs;
    CountAt(slots, users, holder, k);
    var woken := if wake then Wake(users, s) else users;
    RefsWoken(users, s, k);
    RefsMoved(woken, u, q, k);
    assert RefTo(At(woken, u), k) <==> RefTo(At(users, u), k);
    HolderStays(slots, users, holder, u, s, b, wake, q, holder', k);
  }

  lemma HolderStays(slots: seq<Slot>, users: map<nat, User>, holder: seq<nat>, u: nat, s: nat, b: Slot, wake: bool,
                    q: Option<User>,
                    holder': seq<nat>, k: nat)
    requires TableOk(slots, users, holder) && MayStep(slots, users, holder, u, s, b, wake, q, holder') && k < |slots|
    ensures slots[s := b][k].locked ==>
              var users' := Moved(if wake then Wake(users, s) else users, u, q);
              holder'[k] in users' && HasLock(users'[holder'[k]]) && users'[holder'[k]].s == k
  {
    hide Unique, UserOk, Refs;
    CountAt(slots, users, holder, k);
    if slots[s := b][k].locked {
      if k == s && LockOn(q, s) {
        assert holder'[k] == u;
      } else {
        assert slots[k].locked && holder'[k] == holder[k] != u;
      }
    }
  }

  lemma StepOk(slots: seq<Slot>, users: map<nat, User>, holder: seq<nat>, u: nat, s: nat, b: Slot, wake: bool,
               q: Option<User>,
               holder': seq<nat>)
    requires TableOk(slots, users, holder) && MayStep(slots, users, holder, u, s, b, wake, q, holder')
    ensures TableOk(slots[s := b], Moved(if wake then Wake(users, s) else users, u, q), holder')
  {
    hide Unique, SlotOk, UserOk, Refs, Allowed;
    var users', slots' := Moved(if wake then Wake(users, s) else users, u, q), slots[s := b];
    forall v | v in users'
      ensures UserOk(v, users'[v], slots', holder')
    {
      if v != u {
        Bystander(slots, users, holder, u, s, b, wake, q, holder', v);
      }
    }
    forall k | 0 <= k < |slots|
      ensures SlotOk(slots', users', holder', k)
    {
      StepSlot(slots, users, holder, u, s, b, wake, q, holder', k);
    }
  }

  /** A user that has no slot yet comes or goes. */
  lemma NewcomerOk(slots: seq<Slot>, users: map<nat, User>, holder: seq<nat>, u: nat, q: Option<User>)
    requires TableOk(slots, users, holder) && (u in users ==> users[u].Getting?)
             && (q.Some? ==> q.value.Getting? && q.value.id.ino != 0)
    ensures TableOk(slots, Moved(users, u, q), holder)
  {
    hide Unique;
    var users' := Moved(users, u, q);
    forall v | v in users'
      ensures UserOk(v, users'[v], slots, holder)
    {
      assert v != u ==> UserOk(v, users[v], slots, holder);
    }
    forall k | 0 <= k < |slots|
      ensures SlotOk(slots, users', holder, k)
    {
      CountAt(slots, users, holder, k);
      RefsMoved(users, u, q, k);
    }
  }

  /** What TableOk says of one user. */
  lemma UserAt(slots: seq<Slot>, users: map<nat, User>, holder: seq<nat>, u: nat)
    requires TableOk(slots, users, holder) && u in users
    ensures UserOk(u, users[u], slots, holder)
    ensures |holder| == |slots| && Unique(slots)
    ensures !users[u].Getting? ==>
              var s := users[u].s;
              && slots[s].count == |Refs(users, s)| && (slots[s].count == 0 <==> slots[s].number == 0)
              && (slots[s].locked ==> holder[s] in users && HasLock(users[holder[s]]) && users[holder[s]].s == s)
  {
    if !users[u].Getting? {
      CountAt(slots, users, holder, users[u].s);
    }
  }

  class Table {
    const inode: array<Slot>
    var users: map<nat, User>
    ghost var holder: seq<nat>      // who locked each slot last

    ghost function Now(): System
      reads this, inode
    {
      System(inode[..], users, holder)
    }

    ghost predicate Valid()
      reads this, inode
    {
      TableOk(inode[..], users, holder)
    }

    constructor (ninode: nat)
      ensures Valid() && users == map[] && inode.Length == ninode && fresh(inode)
    {
      inode := new Slot[ninode](_ => Slot(0, 0, 0, false, false));
      users, holder := map[], seq(ninode, _ => 0);
      new;
      assert forall k :: 0 <= k < ninode ==> SlotOk(inode[..], users, holder, k);
    }

    /** Someone wants the inode id. */
    method Enter(u: nat, id: Id)
      requires Valid() && u !in users && id.ino != 0
      modifies this`users
      ensures Valid() && users == old(users)[u := Getting(id)]
    {
      NewcomerOk(inode[..], users, holder, u, Some(Getting(id)));
      users := users[u := Getting(id)];
    }

    /** The scan of iget: the slot that has the inode, else the first that is not in use. */
    method Search(id: Id) returns (ip: int, oip: int)
      ensures -1 <= ip < inode.Length && -1 <= oip < inode.Length
      ensures ip >= 0 ==> Id(inode[ip].dev, inode[ip].number) == id
      ensures ip < 0 ==> forall k :: 0 <= k < inode.Length ==> Id(inode[k].dev, inode[k].number) != id
      ensures ip < 0 && oip >= 0 ==> inode[oip].count == 0 && forall k :: 0 <= k < oip ==> inode[k].count != 0
      ensures ip < 0 && oip < 0 ==> forall k :: 0 <= k < inode.Length ==> inode[k].count != 0
      ensures ip == SlotOf(inode[..], id, 0) && (ip < 0 ==> oip == FreeFrom(inode[..], 0))
    {
      oip := -1;
      ip := 0;
      while ip < inode.Length
        invariant 0 <= ip <= inode.Length && -1 <= oip < ip
        invariant forall k :: 0 <= k < ip ==> Id(inode[k].dev, inode[k].number) != id
        invariant oip >= 0 ==> inode[oip].count == 0 && forall k :: 0 <= k < oip ==> inode[k].count != 0
        invariant oip < 0 ==> forall k :: 0 <= k < ip ==> inode[k].count != 0
        invariant SlotOf(inode[..], id, 0) == SlotOf(inode[..], id, ip)
        invariant FreeFrom(inode[..], 0) == if oip < 0 then FreeFrom(inode[..], ip) else oip
      {
        if id.ino == inode[ip].number && id.dev == inode[ip].dev {
          return;
        }
        if oip < 0 && inode[ip].count == 0 {
          oip := ip;
        }
        ip := ip + 1;
      }
      ip := -1;
    }

    /**
     * The loop of iget, from the top to the next sleep. A slot in use keeps its inode; the
     * call ends with ENFILE exactly when the inode is not in core and every slot is in use.
     */
    method Iget(u: nat)
      requires Valid() && u in users && users[u].Getting?
      modifies inode, this`users, this`holder
      ensures Valid()
      ensures forall k :: 0 <= k < inode.Length && old(inode[k].count) > 0 ==>
                inode[k].dev == old(inode[k].dev) && inode[k].number == old(inode[k].number)
      ensures u !in users <==> forall k :: 0 <= k < inode.Length ==>
                old(inode[k].count) != 0 && Id(old(inode[k].dev), old(inode[k].number)) != old(users)[u].id
      ensures u in users ==> users[u].id == old(users)[u].id && (users[u].WaitGet? || users[u].Held?
                                                                 || users[u].Reading?)
      ensures users == if u in users then old(users)[u := users[u]] else old(users) - {u}
      ensures Now() == IgetOf(old(Now()), u, old(users)[u].id)
    {
      hide TableOk, SlotOk, Refs, Unique, Allowed;
      UserAt(inode[..], users, holder, u);
      var id := users[u].id;
      var ip, oip := Search(id);
      if ip >= 0 {
        if inode[ip].locked {
          Sleep(u, ip, WaitGet(id, ip));
        } else {
          Share(u, ip, id);
        }
      } else if oip < 0 {
        NewcomerOk(inode[..], users, holder, u, None);
        users := users - {u};
      } else {
        Fill(u, oip, id);
      }
    }

    /** IWANT, and asleep on the inode. */
    method Sleep(u: nat, ip: nat, q: User)
      requires Valid() && u in users && ip < inode.Length && inode[ip].locked
      requires MaySleep(users[u], ip, q)
      modifies inode, this`users
      ensures Valid() && users == old(users)[u := q]
      ensures inode[..] == old(inode[..])[ip := old(inode[ip]).(want := true)]
      ensures Now() == SleepOf(old(Now()), u, ip, q)
    {
      hide TableOk, SlotOk, Refs;
      UserAt(inode[..], users, holder, u);
      CountAt(inode[..], users, holder, ip);
      var b := inode[ip].(want := true);
      UniqueSame(inode[..], ip, b);
      StepOk(inode[..], users, holder, u, ip, b, false, Some(q), holder);
      inode[ip] := b;
      users := users[u := q];
    }

    /** Another user of an inode in core. */
    method Share(u: nat, ip: nat, id: Id)
      requires Valid() && u in users && users[u] == Getting(id) && ip < inode.Length && !inode[ip].locked
      requires Id(inode[ip].dev, inode[ip].number) == id
      modifies inode, this`users, this`holder
      ensures Valid() && users == old(users)[u := Held(id, ip)]
      ensures inode[..] == old(inode[..])[ip := old(inode[ip]).(count := old(inode[ip].count) + 1, locked := true)]
      ensures Now() == LockedBy(old(Now()), u, ip, 1, Held(id, ip))
    {
      hide TableOk, SlotOk, Refs;
      UserAt(inode[..], users, holder, u);
      CountAt(inode[..], users, holder, ip);
      var b := inode[ip].(count := inode[ip].count + 1, locked := true);
      UniqueSame(inode[..], ip, b);
      StepOk(inode[..], users, holder, u, ip, b, false, Some(Held(id, ip)), holder[ip := u]);
      inode[ip] := b;
      users := users[u := Held(id, ip)];
      holder := holder[ip := u];
    }

    /** The first user of an inode not in core: takes the slot, locks it, and reads the inode. */
    method Fill(u: nat, ip: nat, id: Id)
      requires Valid() && u in users && users[u] == Getting(id) && ip < inode.Length && inode[ip].count == 0
      requires forall k :: 0 <= k < inode.Length ==> Id(inode[k].dev, inode[k].number) != id
      modifies inode, this`users, this`holder
      ensures Valid() && users == old(users)[u := Reading(id, ip)]
      ensures inode[..] == old(inode[..])[ip := Slot(id.dev, id.ino, 1, true, false)]
      ensures Now() == FillOf(old(Now()), u, ip, id)
    {
      hide TableOk, SlotOk, Refs;
      UserAt(inode[..], users, holder, u);
      CountAt(inode[..], users, holder, ip);
      var b := Slot(id.dev, id.ino, inode[ip].count + 1, true, false);
      NotLocked(inode[..], users, holder, ip);
      StepOk(inode[..], users, holder, u, ip, b, false, Some(Reading(id, ip)), holder[ip := u]);
      inode[ip] := b;
      users := users[u := Reading(id, ip)];
      holder := holder[ip := u];
    }

    /** bread is done and the inode is filled in: iget returns it locked. */
    method Filled(u: nat)
      requires Valid() && u in users && users[u].Reading?
      modifies this`users, this`holder
      ensures Valid() && users == old(users)[u := Held(old(users)[u].id, old(users)[u].s)]
      ensures Now() == old(Now()).(users := users)
    {
      hide TableOk, SlotOk, Refs;
      UserAt(inode[..], users, holder, u);
      var s, q := users[u].s, Held(users[u].id, users[u].s);
      UniqueSame(inode[..], s, inode[s]);
      assert inode[..][s := inode[s]] == inode[..] && holder[s := u] == holder;
      StepOk(inode[..], users, holder, u, s, inode[s], false, Some(q), holder);
      users := users[u := q];
    }

    /** prele: unlocks the slot and wakes whoever waits for it; the user keeps its reference. */
    method Prele(u: nat)
      requires Valid() && u in users && users[u].Held?
      modifies inode, this`users
      ensures Valid() && users == Wake(old(users), old(users)[u].s)[u := Loose(old(users)[u].id, old(users)[u].s)]
      ensures Now() == PreleOf(old(Now()), u, old(users)[u])
    {
      hide TableOk, SlotOk, Refs;
      UserAt(inode[..], users, holder, u);
      var s, q := users[u].s, Loose(users[u].id, users[u].s);
      NoSleepers(inode[..], users, holder, s);
      var b := inode[s].(locked := false, want := false);
      UniqueSame(inode[..], s, b);
      StepOk(inode[..], users, holder, u, s, b, true, Some(q), holder);
      if inode[s].want {
        users := Wake(users, s);
      }
      inode[s] := b;
      users := users[u := q];
    }

    /** plock: takes the lock, or sleeps on it. */
    method Plock(u: nat)
      requires Valid() && u in users && (users[u].Loose? || users[u].Locking?)
      modifies inode, this`users, this`holder
      ensures Valid()
      ensures var s, id := old(users)[u].s, old(users)[u].id;
              s < inode.Length && users == old(users)[u := if old(inode[s].locked) then WaitLock(id, s)
                                                      else Held(id, s)]
      ensures Now() == PlockOf(old(Now()), u, old(users)[u])
    {
      hide TableOk, SlotOk, Refs;
      UserAt(inode[..], users, holder, u);
      var s, id := users[u].s, users[u].id;
      if inode[s].locked {
        Sleep(u, s, WaitLock(id, s));
      } else {
        var b := inode[s].(locked := true);
        UniqueSame(inode[..], s, b);
        StepOk(inode[..], users, holder, u, s, b, false, Some(Held(id, s)), holder[s := u]);
        inode[s] := b;
        users := users[u := Held(id, s)];
        holder := holder[s := u];
      }
    }

    /** iput by the holder of the lock, or with the inode unlocked: the last user writes it out first. */
    method Iput(u: nat)
      requires Valid() && u in users && (users[u].Held? || (users[u].Loose? && users[u].s < inode.Length
                                                            && !inode[users[u].s].locked))
      modifies inode, this`users, this`holder
      ensures Valid()
      ensures u in users <==> |Refs(old(users), old(users)[u].s)| == 1
      ensures users == if u in users then old(users)[u := Putting(old(users)[u].id, old(users)[u].s)]
                       else Wake(old(users), old(users)[u].s) - {u}
      ensures Now() == IputOf(old(Now()), u, old(users)[u])
    {
      hide TableOk, SlotOk, Refs;
      UserAt(inode[..], users, holder, u);
      var s, id := users[u].s, users[u].id;
      if inode[s].count == 1 {
        var b := inode[s].(locked := true);
        UniqueSame(inode[..], s, b);
        StepOk(inode[..], users, holder, u, s, b, false, Some(Putting(id, s)), holder[s := u]);
        inode[s] := b;
        users := users[u := Putting(id, s)];
        holder := holder[s := u];
      } else {
        NoSleepers(inode[..], users, holder, s);
        var b := inode[s].(count := inode[s].count - 1, locked := false, want := false);
        UniqueSame(inode[..], s, b);
        StepOk(inode[..], users, holder, u, s, b, true, None, holder);
        if inode[s].want {
          users := Wake(users, s);
        }
        inode[s] := b;
        users := users - {u};
      }
    }

    /** The end of iput for the last user: the slot is free, and whoever waited for the inode looks again. */
    method IputDone(u: nat)
      requires Valid() && u in users && users[u].Putting?
      modifies inode, this`users
      ensures Valid() && users == Wake(old(users), old(users)[u].s) - {u}
      ensures Now() == IputDoneOf(old(Now()), u, old(users)[u])
    {
      hide TableOk, SlotOk, Refs;
      UserAt(inode[..], users, holder, u);
      var s := users[u].s;
      NoSleepers(inode[..], users, holder, s);
      var b := Slot(inode[s].dev, 0, inode[s].count - 1, false, false);
      UniqueSame(inode[..], s, b);
      StepOk(inode[..], users, holder, u, s, b, true, None, holder);
      if inode[s].want {
        users := Wake(users, s);
      }
      inode[s] := b;
      users := users - {u};
    }

    /** A reference given up while another user has the lock, as for the text of a program. */
    method Drop(u: nat)
      requires Valid() && u in users && users[u].Loose? && users[u].s < inode.Length && inode[users[u].s].locked
      modifies inode, this`users
      ensures Valid() && users == old(users) - {u}
      ensures Now() == DropOf(old(Now()), u, old(users)[u])
    {
      hide TableOk, SlotOk, Refs;
      UserAt(inode[..], users, holder, u);
      var s := users[u].s;
      LockedByOther(inode[..], users, holder, u, s);
      var b := inode[s].(count := inode[s].count - 1);
      UniqueSame(inode[..], s, b);
      StepOk(inode[..], users, holder, u, s, b, false, None, holder);
      inode[s] := b;
      users := users - {u};
    }

    /** A second reference, taken by the holder of the lock. */
    method Duplicate(u: nat, v: nat)
      requires Valid() && u in users && users[u].Held? && v !in users
      modifies inode, this`users
      ensures Valid() && users == old(users)[v := Loose(old(users)[u].id, old(users)[u].s)]
      ensures Now() == DuplicateOf(old(Now()), v, old(users)[u])
    {
      hide TableOk, SlotOk, Refs;
      UserAt(inode[..], users, holder, u);
      var s, q := users[u].s, Loose(users[u].id, users[u].s);
      var b := inode[s].(count := inode[s].count + 1);
      UniqueSame(inode[..], s, b);
      StepOk(inode[..], users, holder, v, s, b, false, Some(q), holder);
      inode[s] := b;
      users := users[v := q];
    }

    /** The update of all inodes comes to slot s and takes it if it is in use and unlocked. */
    method Update(v: nat, s: nat)
      requires Valid() && v !in users && s < inode.Length
      modifies inode, this`users, this`holder
      ensures Valid()
      ensures users == if old(inode[s].locked) || old(inode[s].count) == 0 then old(users)
                       else old(users)[v := Held(Id(old(inode[s].dev), old(inode[s].number)), s)]
      ensures Now() == UpdateOf(old(Now()), v, s)
    {
      hide TableOk, SlotOk, Refs;
      if !inode[s].locked && inode[s].count != 0 {
        CountAt(inode[..], users, holder, s);
        Distinctness(inode[..], users, holder);
        var q := Held(Id(inode[s].dev, inode[s].number), s);
        var b := inode[s].(count := inode[s].count + 1, locked := true);
        UniqueSame(inode[..], s, b);
        StepOk(inode[..], users, holder, v, s, b, false, Some(q), holder[s := v]);
        inode[s] := b;
        users := users[v := q];
        holder := holder[s := v];
      }
    }

    /** Whatever happens next, if it can. */
    method Step(e: Event)
      requires Valid()
      modifies inode, this`users, this`holder
      ensures Valid() && Now() == Made(e, old(Now()))
    {
      hide TableOk, SlotOk, Refs;
      match e {
        case Wants(u, id) =>
          if u !in users && id.ino != 0 {
            Enter(u, id);
          }
        case Runs(u) =>
          if u in users {
            match users[u] {
              case Getting(_) => Iget(u);
              case Reading(_, _) => Filled(u);
              case Locking(_, _) => Plock(u);
              case Putting(_, _) => IputDone(u);
              case _ =>
            }
          }
        case Unlocks(u) =>
          if u in users && users[u].Held? {
            Prele(u);
          }
        case Locks(u) =>
          if u in users && users[u].Loose? {
            Plock(u);
          }
        case Puts(u) =>
          if u in users && users[u].Held? {
            Iput(u);
          } else if u in users && users[u].Loose? && users[u].s < inode.Length {
            if inode[users[u].s].locked {
              Drop(u);
            } else {
              Iput(u);
            }
          }
        case Shares(u, v) =>
          if u in users && users[u].Held? && v !in users {
            Duplicate(u, v);
          }
        case Updates(v, s) =>
          if v !in users && s < inode.Length {
            Update(v, s);
          }
      }
    }

    /**
     * Any run, state by state what the events say: no inode is in two slots, and nobody sleeps on a slot that is
     * not locked and wanted.
     */
    method Run(events: seq<Event>) returns (ghost states: seq<System>)
      requires Valid()
      modifies inode, this`users, this`holder
      ensures Valid() && |states| == |events| + 1 && states[0] == old(Now()) && states[|events|] == Now()
      ensures forall i :: 0 <= i < |events| ==> states[i + 1] == Made(events[i], states[i])
      ensures forall i, j :: 0 <= i < j < inode.Length && inode[i].number != 0 && inode[j].number != 0 ==>
                Id(inode[i].dev, inode[i].number) != Id(inode[j].dev, inode[j].number)
      ensures forall u :: u in users && Asleep(users[u]) ==>
                users[u].s < inode.Length && inode[users[u].s].locked && inode[users[u].s].want
      ensures forall u :: u in users && HasRef(users[u]) ==>
                users[u].s < inode.Length && Id(inode[users[u].s].dev, inode[users[u].s].number) == users[u].id
    {
      hide TableOk, SlotOk, Refs, Made;
      states := [Now()];
      for i := 0 to |events|
        invariant Valid() && |states| == i + 1 && states[0] == old(Now()) && states[i] == Now()
        invariant forall j :: 0 <= j < i ==> states[j + 1] == Made(events[j], states[j])
      {
        Step(events[i]);
        states := states + [Now()];
      }
      Distinctness(inode[..], users, holder);
      forall u | u in users
        ensures UserOk(u, users[u], inode[..], holder)
      {
        UserAt(inode[..], users, holder, u);
      }
    }

    /** Whoever sleeps on a lock, another user that is not asleep holds it: not everyone is asleep. */
    lemma SomeoneRuns(u: nat)
      requires Valid() && u in users && Asleep(users[u])
      ensures holder[users[u].s] in users && HasLock(users[holder[users[u].s]]) && !Asleep(users[holder[users[u].s]])
    {
      UserAt(inode[..], users, holder, u);
    }
  }

  lemma Distinctness(slots: seq<Slot>, users: map<nat, User>, holder: seq<nat>)
    requires TableOk(slots, users, holder)
    ensures Unique(slots) && |holder| == |slots|
  {
  }

  /** Nobody sleeps on a slot that is not wanted. */
  lemma NoSleepers(slots: seq<Slot>, users: map<nat, User>, holder: seq<nat>, s: nat)
    requires TableOk(slots, users, holder) && s < |slots|
    ensures !slots[s].want ==> Wake(users, s) == users
  {
    if !slots[s].want {
      forall u | u in users
        ensures WokenUp(users[u], s) == users[u]
      {
        assert UserOk(u, users[u], slots, holder);
      }
    }
  }

  /** The holder of the lock has a reference of its own. */
  lemma LockedByOther(slots: seq<Slot>, users: map<nat, User>, holder: seq<nat>, u: nat, s: nat)
    requires TableOk(slots, users, holder) && s < |slots| && slots[s].locked
    requires u in users && users[u].Loose? && users[u].s == s
    ensures slots[s].count > 1
  {
    CountAt(slots, users, holder, s);
    OtherRef(users, u, holder[s], s);
  }

  /**
   * What can happen: a use begins; a user that is not outside runs; or one that is locks, unlocks, gives up
   * or copies its reference.
   */
  datatype Event = Wants(u: nat, id: Id) | Runs(u: nat) | Unlocks(u: nat) | Locks(u: nat) | Puts(u: nat)
                 | Shares(u: nat, v: nat) | Updates(v: nat, s: nat)

  /** A user in iget or plock goes to sleep on slot ip. */
  predicate MaySleep(before: User, ip: nat, after: User) {
    match before
    case Getting(id) => after == WaitGet(id, ip)
    case Loose(id, s) => after == WaitLock(id, ip) && s == ip
    case Locking(id, s) => after == WaitLock(id, ip) && s == ip
    case _ => false
  }

  lemma UniqueSame(slots: seq<Slot>, s: nat, b: Slot)
    requires Unique(slots) && s < |slots| && (b.number == 0 || (b.dev == slots[s].dev && b.number == slots[s].number))
    ensures Unique(slots[s := b])
  {
  }

  /** A slot without users is not locked. */
  lemma NotLocked(slots: seq<Slot>, users: map<nat, User>, holder: seq<nat>, k: nat)
    requires TableOk(slots, users, holder) && k < |slots| && slots[k].count == 0
    ensures !slots[k].locked && slots[k].number == 0
  {
    CountAt(slots, users, holder, k);
    var h := holder[k];
    assert h !in Refs(users, k);
    assert !(h in users && HasLock(users[h]) && users[h].s == k);
  }

  // ---------------------------------------------------------------------------
  // The steps, on values.

  /** The table, its users, and who locked each slot last. */
  datatype System = System(slots: seq<Slot>, users: map<nat, User>, holder: seq<nat>)

  /** The first slot, from i on, that has the inode, or -1. */
  function SlotOf(slots: seq<Slot>, id: Id, i: nat): (x: int)
    ensures -1 <= x < |slots|
    decreases |slots| - i
  {
    if i >= |slots| then -1
    else if Id(slots[i].dev, slots[i].number) == id then i
    else SlotOf(slots, id, i + 1)
  }

  /** The first slot, from i on, that is not in use, or -1. */
  function FreeFrom(slots: seq<Slot>, i: nat): (x: int)
    ensures -1 <= x < |slots|
    decreases |slots| - i
  {
    if i >= |slots| then -1 else if slots[i].count == 0 then i else FreeFrom(slots, i + 1)
  }

  function SleepOf(t: System, u: nat, s: nat, q: User): System
    requires s < |t.slots|
  {
    t.(slots := t.slots[s := t.slots[s].(want := true)], users := t.users[u := q])
  }

  /** A user locks a slot, with more references to it. */
  function LockedBy(t: System, u: nat, s: nat, more: nat, q: User): System
    requires s < |t.slots|
  {
    t.(slots := t.slots[s := t.slots[s].(count := t.slots[s].count + more, locked := true)],
       users := t.users[u := q], holder := Holds(t.holder, s, u))
  }

  function Holds(holder: seq<nat>, s: nat, u: nat): seq<nat> {
    if s < |holder| then holder[s := u] else holder
  }

  function FillOf(t: System, u: nat, s: nat, id: Id): System
    requires s < |t.slots|
  {
    t.(slots := t.slots[s := Slot(id.dev, id.ino, t.slots[s].count + 1, true, false)],
       users := t.users[u := Reading(id, s)], holder := Holds(t.holder, s, u))
  }

  /** iget, from its top to its next sleep. */
  function IgetOf(t: System, u: nat, id: Id): System {
    var x, free := SlotOf(t.slots, id, 0), FreeFrom(t.slots, 0);
    if x >= 0 then
      if t.slots[x].locked then SleepOf(t, u, x, WaitGet(id, x)) else LockedBy(t, u, x, 1, Held(id, x))
    else if free < 0 then t.(users := t.users - {u})
    else FillOf(t, u, free, id)
  }

  /** Slot s becomes b, which is unlocked; whoever waits for it is awakened, and the user goes on as q, or leaves. */
  function Freed(t: System, u: nat, s: nat, b: Slot, q: Option<User>): System
    requires s < |t.slots|
  {
    t.(slots := t.slots[s := b], users := Moved(Wake(t.users, s), u, q))
  }

  function PreleOf(t: System, u: nat, q: User): System {
    if q.Held? && q.s < |t.slots|
    then Freed(t, u, q.s, t.slots[q.s].(locked := false, want := false), Some(Loose(q.id, q.s)))
    else t
  }

  function PlockOf(t: System, u: nat, q: User): System {
    if q.Getting? || q.s >= |t.slots| then t
    else if t.slots[q.s].locked then SleepOf(t, u, q.s, WaitLock(q.id, q.s))
    else LockedBy(t, u, q.s, 0, Held(q.id, q.s))
  }

  /** iput: the last user keeps the slot locked while it writes the inode out. */
  function IputOf(t: System, u: nat, q: User): System {
    if q.Getting? || q.s >= |t.slots| then t
    else
      var a := t.slots[q.s];
      if a.count == 1 then LockedBy(t, u, q.s, 0, Putting(q.id, q.s))
      else Freed(t, u, q.s, a.(count := a.count - 1, locked := false, want := false), None)
  }

  function IputDoneOf(t: System, u: nat, q: User): System {
    if q.Putting? && q.s < |t.slots|
    then Freed(t, u, q.s, Slot(t.slots[q.s].dev, 0, t.slots[q.s].count - 1, false, false), None)
    else t
  }

  function DropOf(t: System, u: nat, q: User): System {
    if q.Loose? && q.s < |t.slots| then
      t.(slots := t.slots[q.s := t.slots[q.s].(count := t.slots[q.s].count - 1)], users := t.users - {u})
    else t
  }

  function DuplicateOf(t: System, v: nat, q: User): System {
    if q.Held? && q.s < |t.slots| then
      t.(slots := t.slots[q.s := t.slots[q.s].(count := t.slots[q.s].count + 1)],
         users := t.users[v := Loose(q.id, q.s)])
    else t
  }

  function UpdateOf(t: System, v: nat, s: nat): System {
    if s < |t.slots| && !t.slots[s].locked && t.slots[s].count != 0
    then LockedBy(t, v, s, 1, Held(Id(t.slots[s].dev, t.slots[s].number), s))
    else t
  }

  /** The table after an event; what cannot happen is skipped. */
  function Made(e: Event, t: System): System {
    match e
    case Wants(u, id) => if u !in t.users && id.ino != 0 then t.(users := t.users[u := Getting(id)]) else t
    case Runs(u) => if u in t.users then RunOf(t, u, t.users[u]) else t
    case Unlocks(u) => if u in t.users then PreleOf(t, u, t.users[u]) else t
    case Locks(u) => if u in t.users && t.users[u].Loose? then PlockOf(t, u, t.users[u]) else t
    case Puts(u) => if u in t.users then PutOf(t, u, t.users[u]) else t
    case Shares(u, v) => if u in t.users && v !in t.users then DuplicateOf(t, v, t.users[u]) else t
    case Updates(v, s) => if v !in t.users then UpdateOf(t, v, s) else t
  }

  /** A user inside a call goes on. */
  function RunOf(t: System, u: nat, q: User): System {
    match q
    case Getting(id) => IgetOf(t, u, id)
    case Reading(id, s) => t.(users := t.users[u := Held(id, s)])
    case Locking(_, _) => PlockOf(t, u, q)
    case Putting(_, _) => IputDoneOf(t, u, q)
    case _ => t
  }

  /** A user outside gives up its reference, with the lock if it has that, and without if another user has it. */
  function PutOf(t: System, u: nat, q: User): System {
    match q
    case Held(_, _) => IputOf(t, u, q)
    case Loose(_, s) => if s < |t.slots| && t.slots[s].locked then DropOf(t, u, q) else IputOf(t, u, q)
    case _ => t
  }
}
