/**
 * Pipes: any number of reading and writing processes over one inode, which
 * interleave only where they sleep. A process in a system call is a Proc that
 * says where it is; one call of Go runs it until it sleeps again, finishes, or
 * enters the transfer of data, during which it may sleep with the inode locked.
 */
module Pipe {
  import opened Sequences
  import opened PipeSteps

  // ---------------------------------------------------------------------------
  // What every step keeps, of each process and of the whole.

  /** The flags that the sleepers depend on; base is the size when the write in progress, if any, began. */
  datatype Flags = Flags(locked: bool, want: bool, iread: bool, iwrite: bool, base: int, rEnd: End, wEnd: End)

  /**
   * A process asleep on the lock will be woken, for the lock is held and wanted. One
   * asleep for data has IREAD set for it, in a pipe that was empty when the write in
   * progress began; one asleep for room has IWRITE set, in a full pipe; and the other
   * end is not closed. Reads are of pipes that hold something, writes of ones not full.
   */
  predicate SleepOk(q: Proc, f: Flags) {
    && (q.OnLock? ==> f.locked && f.want)
    && (q.OnRead? ==> q.call.Read? && f.iread && f.base == 0 && !f.wEnd.Closed?)
    && (q.OnWrite? ==> q.call.Write? && f.iwrite && f.base >= PIPSIZ && !f.rEnd.Closed?)
    && (q.InRead? ==> f.base > 0)
    && (q.InWrite? ==> f.base < PIPSIZ && q.sent <= |q.chunk| && 0 < |q.chunk| <= PIPSIZ)
  }

  /** A process is in a call that its end of the pipe allows. */
  predicate EndOk(p: nat, q: Proc, f: Flags) {
    q.InUpdate? ||
    match CallOf(q)
    case Read(_) => f.rEnd.Open?
    case Write(_, _) => f.wEnd.Open?
    case Close(ReadSide) => f.rEnd == Closing(p)
    case Close(WriteSide) => f.wEnd == Closing(p)
  }

  /** Where a write stands: what it has sent, and what it has left. */
  predicate WriteOk(p: nat, q: Proc, log: seq<Chunk>, calls: map<nat, Request>) {
    !q.InUpdate? && CallOf(q).Write? ==>
      && CallOf(q).id in calls
      && calls[CallOf(q).id].pid == p
      && Sent(log, CallOf(q).id) + CallOf(q).rest == calls[CallOf(q).id].bytes
      && (CallOf(q).rest != [] ==> |Sent(log, CallOf(q).id)| % PIPSIZ == 0)
      && (q.InWrite? ==> |q.chunk| == Min(|q.chunk + q.rest|, PIPSIZ))
  }

  predicate ProcOk(p: nat, q: Proc, owner: nat, f: Flags, log: seq<Chunk>, calls: map<nat, Request>) {
    && (Holding(q) ==> f.locked && p == owner)
    && SleepOk(q, f) && EndOk(p, q, f) && WriteOk(p, q, log, calls)
  }

  predicate Closes(q: Proc, side: Side) {
    !q.InUpdate? && CallOf(q) == Close(side)
  }

  /**
   * Every process is where it may be, the lock has a holder, and an end that is closing has a process that
   * closes it.
   */
  ghost predicate ProcsOk(procs: map<nat, Proc>, owner: nat, f: Flags, log: seq<Chunk>, calls: map<nat, Request>) {
    && (f.locked ==> owner in procs && Holding(procs[owner]))
    && (f.rEnd.Closing? ==> f.rEnd.pid in procs && Closes(procs[f.rEnd.pid], ReadSide))
    && (f.wEnd.Closing? ==> f.wEnd.pid in procs && Closes(procs[f.wEnd.pid], WriteSide))
    && forall p :: p in procs ==> ProcOk(p, procs[p], owner, f, log, calls)
  }

  /** The size of the pipe when the write in progress, if any, began. */
  function Base(procs: map<nat, Proc>, owner: nat, size: nat): int {
    if owner in procs && procs[owner].InWrite? then size - procs[owner].sent else size
  }

  /** The bytes of the write in progress that are in the pipe. */
  function Partial(procs: map<nat, Proc>, owner: nat): seq<byte> {
    if owner in procs && procs[owner].InWrite? && procs[owner].sent <= |procs[owner].chunk|
    then procs[owner].chunk[..procs[owner].sent]
    else []
  }

  /** The reference that the update of all inodes holds. */
  function Updates(procs: map<nat, Proc>, owner: nat): nat {
    if owner in procs && procs[owner].InUpdate? then 1 else 0
  }

  /** The size stays below twice PIPSIZ, and a read that catches up with it has reset both. */
  predicate DataOk(base: int, size: nat, offset: nat, data: seq<byte>) {
    |data| == size < 2 * PIPSIZ && offset <= base <= size && (offset == base ==> base == 0)
  }

  /** What was written is what was read followed by what the pipe holds. */
  predicate StreamOk(log: seq<Chunk>, partial: seq<byte>, delivered: seq<byte>, data: seq<byte>, offset: nat) {
    offset <= |data| && Flatten(log) + partial == delivered + data[offset..]
  }

  /** A write of at most PIPSIZ bytes is in the log as one chunk. */
  predicate ChunkOk(c: Chunk, calls: map<nat, Request>) {
    c.id in calls && 0 < |c.bytes| <= PIPSIZ && (|calls[c.id].bytes| <= PIPSIZ ==> c.bytes == calls[c.id].bytes)
  }

  /** The log holds chunks of the writes called, and of each a prefix of its bytes. */
  ghost predicate LogOk(log: seq<Chunk>, calls: map<nat, Request>) {
    && (forall i :: 0 <= i < |log| ==> ChunkOk(log[i], calls))
    && (forall id :: id in calls ==> Sent(log, id) <= calls[id].bytes)
  }

  class PipeInode {
    var size: nat               // i_size
    var data: seq<byte>         // the file, up to i_size
    var offset: nat             // f_offset of the read side
    var count: nat              // i_count
    var locked: bool            // ILOCK
    var want: bool              // IWANT
    var iread: bool             // IREAD
    var iwrite: bool            // IWRITE
    var procs: map<nat, Proc>
    var rEnd: End
    var wEnd: End
    ghost var owner: nat        // who holds the lock
    var calls: map<nat, Request>          // every write call so far
    ghost var log: seq<Chunk>   // the chunks written so far
    ghost var delivered: seq<byte>        // the bytes read so far

    ghost function TheFlags(): Flags
      reads this
    {
      Flags(locked, want, iread, iwrite, Base(procs, owner, size), rEnd, wEnd)
    }

    ghost function Now(): State
      reads this
    {
      State(size, data, offset, count, locked, want, iread, iwrite, procs, rEnd, wEnd, owner, calls, log, delivered)
    }

    ghost predicate Valid()
      reads this
    {
      && ProcsOk(procs, owner, TheFlags(), log, calls)
      && count == Ends(rEnd, wEnd) + Updates(procs, owner)
      && DataOk(Base(procs, owner, size), size, offset, data)
      && StreamOk(log, Partial(procs, owner), delivered, data, offset)
      && LogOk(log, calls)
    }

    /** What pipe leaves: an empty file and two open ends. */
    constructor ()
      ensures Valid() && procs == map[] && calls == map[] && log == [] && delivered == [] && rEnd == wEnd == Open
    {
      size, data, offset, count := 0, [], 0, 2;
      locked, want, iread, iwrite := false, false, false, false;
      procs, rEnd, wEnd := map[], Open, Open;
      owner, calls, log, delivered := 0, map[], [], [];
    }

    predicate MayEnter(pid: nat, call: Call)
      reads this
    {
      Admits(procs, rEnd, wEnd, calls, pid, call)
    }

    method Enter(pid: nat, call: Call)
      requires Valid() && MayEnter(pid, call)
      modifies this`procs, this`calls, this`rEnd, this`wEnd
      ensures Valid() && procs == old(procs)[pid := Ready(call)]
      ensures calls == if call.Write? then old(calls)[call.id := Request(pid, call.rest)] else old(calls)
      ensures Now() == EnterOf(old(Now()), pid, call)
    {
      hide Flatten, Sent, StreamOk, ProcsOk;
      ghost var c := calls;
      if call.Write? {
        SentOfNew(log, calls, call.id);
        calls := calls[call.id := Request(pid, call.rest)];
      }
      if call == Close(ReadSide) {
        rEnd := Closing(pid);
      } else if call == Close(WriteSide) {
        wEnd := Closing(pid);
      }
      procs := procs[pid := Ready(call)];
      EnterOk(old(procs), owner, old(TheFlags()), log, c, pid, call, TheFlags(), calls);
    }

    /** Gives up the lock and wakes every process that waits for it. */
    method Prele()
      modifies this`locked, this`want, this`procs
      ensures !locked && !want && procs == Unlock(old(procs), old(want))
      ensures Now() == Unlocked(old(Now()))
    {
      locked := false;
      if want {
        want := false;
        procs := WakeLock(procs);
      }
    }

    /** plock and prele around a decision to return. */
    method Depart(pid: nat)
      requires Valid() && !locked && pid in procs && procs[pid].Ready? && !procs[pid].call.Close?
      modifies this`locked, this`want, this`procs
      ensures Valid() && procs == Without(old(procs), pid)
      ensures Now() == Left(Unlocked(old(Now())), pid)
    {
      hide Flatten, Sent, StreamOk, ProcsOk, LogOk, Unlock;
      Free(procs, owner, TheFlags(), log, calls);
      locked := true;
      Prele();
      Leave(procs, owner, old(TheFlags()), log, calls, pid, TheFlags());
      procs := Without(procs, pid);
    }

    /** plock and prele around a decision to sleep, for data or for room. */
    method Doze(pid: nat, q: Proc)
      requires Valid() && !locked && pid in procs && procs[pid].Ready?
      requires || (q == OnRead(procs[pid].call) && procs[pid].call.Read? && size == 0 && !wEnd.Closed?)
               || (q == OnWrite(procs[pid].call) && procs[pid].call.Write? && size >= PIPSIZ && !rEnd.Closed?)
      modifies this`locked, this`want, this`iread, this`iwrite, this`procs
      ensures Valid() && procs == old(procs)[pid := q]
      ensures Now() == if q.OnRead? then Moved(Unlocked(old(Now())), pid, q).(iread := true)
                       else Moved(Unlocked(old(Now())), pid, q).(iwrite := true)
    {
      hide Flatten, Sent, StreamOk, ProcsOk, LogOk, Unlock;
      Free(procs, owner, TheFlags(), log, calls);
      locked := true;
      if q.OnRead? {
        iread := true;
      } else {
        iwrite := true;
      }
      Prele();
      Put(procs, owner, old(TheFlags()), log, calls, pid, q, owner, TheFlags());
      procs := procs[pid := q];
    }

    /** plock before a transfer. */
    method Hold(pid: nat, q: Proc)
      requires Valid() && !locked && pid in procs && procs[pid].Ready?
      requires Holding(q) && !q.InUpdate? && CallOf(q) == procs[pid].call
      requires q.InRead? ==> size > 0
      requires q.InWrite? ==> q.sent == 0 && 0 < |q.chunk| == Min(|q.chunk + q.rest|, PIPSIZ) && size < PIPSIZ
      modifies this`locked, this`procs, this`owner
      ensures Valid() && procs == old(procs)[pid := q]
      ensures Now() == Locked(old(Now()), pid, q)
    {
      hide Flatten, Sent, StreamOk, ProcsOk, LogOk, Unlock;
      Free(procs, owner, TheFlags(), log, calls);
      locked := true;
      Put(procs, owner, old(TheFlags()), log, calls, pid, q, pid, TheFlags());
      owner := pid;
      procs := procs[pid := q];
    }

    /**
     * The top of readp, with the inode free: sleeps in an empty pipe that can still be written, else starts
     * to read.
     */
    method ReadTurn(pid: nat, n: nat) returns (out: Outcome)
      requires Valid() && !locked && pid in procs && procs[pid] == Ready(Read(n))
      modifies this`locked, this`want, this`iread, this`iwrite, this`procs, this`owner
      ensures Valid()
      ensures out == if size == 0 && wEnd.Closed? then ReadDone([]) else Pending
      ensures procs == if size > 0 then old(procs)[pid := InRead(n)]
                       else if wEnd.Closed? then Without(old(procs), pid) else old(procs)[pid := OnRead(Read(n))]
      ensures Now() == ReadTurnOf(old(Now()), pid, n)
      ensures out == OutcomeOfTurn(old(Now()), Read(n))
    {
      hide StreamOk, LogOk, DataOk;
      CountFree();
      out := Pending;
      if size == 0 {
        if count < 2 {
          out := ReadDone([]);
          Depart(pid);
        } else {
          Doze(pid, OnRead(Read(n)));
        }
      } else {
        Hold(pid, InRead(n));
      }
    }

    /**
     * The top of the loop of writep, with the inode free: done when nothing is left, broken
     * when nobody can read, asleep while the pipe is full, else about to write a chunk.
     */
    method WriteTurn(pid: nat, id: nat, rest: seq<byte>) returns (out: Outcome)
      requires Valid() && !locked && pid in procs && procs[pid] == Ready(Write(id, rest))
      modifies this`locked, this`want, this`iread, this`iwrite, this`procs, this`owner
      ensures Valid()
      ensures out == if rest == [] then WriteDone(id) else if rEnd.Closed? then Broken(id) else Pending
      ensures procs == if !out.Pending? then Without(old(procs), pid)
                       else if size >= PIPSIZ then old(procs)[pid := OnWrite(Write(id, rest))]
                       else old(procs)[pid := InWrite(id, rest[..Min(|rest|, PIPSIZ)], 0, rest[Min(|rest|, PIPSIZ)..])]
      ensures Now() == WriteTurnOf(old(Now()), pid, id, rest)
      ensures out == OutcomeOfTurn(old(Now()), Write(id, rest))
    {
      hide StreamOk, LogOk, DataOk;
      CountFree();
      out := Pending;
      if rest == [] {
        out := WriteDone(id);
        Depart(pid);
      } else if count < 2 {
        out := Broken(id);
        Depart(pid);
      } else if size >= PIPSIZ {
        Doze(pid, OnWrite(Write(id, rest)));
      } else {
        var n := Min(|rest|, PIPSIZ);
        assert rest[..n] + rest[n..] == rest;
        Hold(pid, InWrite(id, rest[..n], 0, rest[n..]));
      }
    }

    lemma CountFree()
      requires Valid() && !locked
      ensures count == Ends(rEnd, wEnd)
      ensures forall p :: p in procs && procs[p].Ready? && procs[p].call.Read? ==> rEnd.Open?
      ensures forall p :: p in procs && procs[p].Ready? && procs[p].call.Write? ==> wEnd.Open?
    {
      hide Sent, WriteOk, StreamOk, LogOk, DataOk;
      Free(procs, owner, TheFlags(), log, calls);
      assert forall p :: p in procs ==> ProcOk(p, procs[p], owner, TheFlags(), log, calls);
    }

    /** The update of all inodes has its own reference. */
    lemma CountInUpdate(pid: nat)
      requires Valid() && pid in procs && procs[pid].InUpdate?
      ensures count > 0
    {
      hide Sent, WriteOk, StreamOk, LogOk, DataOk;
      Held(procs, owner, TheFlags(), log, calls, pid);
    }

    /** Prele, and back from the system call. */
    method Return(pid: nat)
      modifies this`locked, this`want, this`procs
      ensures !locked && !want && procs == Without(Unlock(old(procs), old(want)), pid)
      ensures Now() == Left(Unlocked(old(Now())), pid)
    {
      Prele();
      procs := Without(procs, pid);
    }

    /**
     * The part of closef and iput that lets nobody wait for an end that goes away, and drops its reference to
     * the inode.
     */
    method Detach(side: Side)
      requires count > 0
      modifies this`iread, this`iwrite, this`procs, this`count, this`rEnd, this`wEnd
      ensures !iread && !iwrite && procs == WakeRead(WakeWrite(old(procs))) && count == old(count) - 1
      ensures rEnd == (if side.ReadSide? then Closed else old(rEnd))
              && wEnd == (if side.WriteSide? then Closed else old(wEnd))
    {
      iread, iwrite := false, false;
      procs := WakeWrite(procs);
      procs := WakeRead(procs);
      count := count - 1;
      if side.ReadSide? {
        rEnd := Closed;
      } else {
        wEnd := Closed;
      }
    }

    /** The last close of an end, with the inode free. */
    method CloseTurn(pid: nat, side: Side)
      requires Valid() && !locked && pid in procs && procs[pid] == Ready(Close(side))
      modifies this`locked, this`want, this`iread, this`iwrite, this`procs, this`count, this`rEnd, this`wEnd
      ensures Valid() && pid !in procs
      ensures rEnd == (if side.ReadSide? then Closed else old(rEnd))
              && wEnd == (if side.WriteSide? then Closed else old(wEnd))
      ensures NobodyWaits(procs) && procs == Without(Unlock(WakeRead(WakeWrite(old(procs))), old(want)), pid)
      ensures Now() == CloseTurnOf(old(Now()), pid, side)
    {
      hide Flatten, Sent, StreamOk, ProcsOk, LogOk, WakeWrite, WakeRead, Unlock, Without, Base, Partial, Updates, Idle,
          NobodyWaits,
           SleepOk, EndOk, WriteOk, DataOk;
      Free(procs, owner, TheFlags(), log, calls);
      NoTransfer(procs, owner, size);
      ClosingEnd(procs, owner, TheFlags(), log, calls, pid, side);
      locked := true;
      Detach(side);
      Return(pid);
      CloseOk(old(procs), owner, old(TheFlags()), log, calls, pid, side, procs, TheFlags());
      NoTransfer(procs, owner, size);
    }

    /** readi: the bytes between the offset and the size, at most n of them. */
    method Take(n: nat) returns (bytes: seq<byte>)
      requires StreamOk(log, [], delivered, data, offset) && offset <= size == |data|
      modifies this`offset, this`delivered
      ensures bytes == data[old(offset)..old(offset) + Min(n, size - old(offset))]
      ensures offset == old(offset) + |bytes| && delivered == old(delivered) + bytes
      ensures StreamOk(log, [], delivered, data, offset)
      ensures bytes == NextBytes(old(Now()), n) && Now() == TakeOf(old(Now()), n)
    {
      hide Flatten;
      var m := Min(n, size - offset);
      bytes := data[offset..offset + m];
      assert data[offset..] == bytes + data[offset + m..];
      delivered := delivered + bytes;
      offset := offset + m;
    }

    /** A reader that has caught up empties the pipe and wakes the writers. */
    method Reset()
      modifies this`offset, this`size, this`data, this`iwrite, this`procs
      ensures (offset, size, data) == if old(offset) == old(size) then (0, 0, []) else old((offset, size, data))
      ensures iwrite == (old(iwrite) && old(offset) != old(size))
      ensures procs == if old(offset) == old(size) && old(iwrite) then WakeWrite(old(procs)) else old(procs)
      ensures Now() == ResetOf(old(Now()))
    {
      if offset == size {
        offset, size, data := 0, 0, [];
        if iwrite {
          iwrite := false;
          procs := WakeWrite(procs);
        }
      }
    }

    /** The rest of readp, with the lock held. */
    method ReadEnd(pid: nat, n: nat) returns (out: Outcome)
      requires Valid() && pid in procs && procs[pid] == InRead(n)
      modifies this`locked, this`want, this`iwrite, this`procs, this`size, this`data, this`offset, this`delivered
      ensures Valid() && pid !in procs
      ensures out == ReadDone(old(data)[old(offset)..old(offset) + Min(n, old(size) - old(offset))])
      ensures delivered == old(delivered) + out.bytes && old(offset) <= old(size) == |old(data)|
      ensures (offset, size, data) == if old(size) - old(offset) <= n then (0, 0, []) else old((offset + n, size, data))
      ensures out == ReadDone(NextBytes(old(Now()), n)) && Now() == ReadEndOf(old(Now()), pid, n)
    {
      hide Flatten, Sent, ProcsOk, LogOk, WakeWrite, Unlock, Without, Base, Partial, Updates, EndOk, WriteOk, StreamOk,
           NextBytes;
      Held(procs, owner, TheFlags(), log, calls, pid);
      NoTransfer(procs, owner, size);
      var bytes := Take(n);
      out := ReadDone(bytes);
      Emptied(log, delivered, data, offset);
      Reset();
      Return(pid);
      NoTransfer(procs, owner, size);
      ReadOk(old(procs), owner, old(TheFlags()), log, calls, pid, procs, TheFlags());
    }

    static lemma Emptied(log: seq<Chunk>, delivered: seq<byte>, data: seq<byte>, offset: nat)
      requires StreamOk(log, [], delivered, data, offset)
      ensures offset == |data| ==> StreamOk(log, [], delivered, [], 0)
    {
      hide Flatten;
    }

    /** writei: some more bytes of the chunk, up to where it next sleeps. */
    method Deposit(pid: nat, k: nat)
      requires Valid() && pid in procs && procs[pid].InWrite?
      modifies this`data, this`size, this`procs
      ensures Valid() && procs.Keys == old(procs).Keys
      ensures var q := old(procs)[pid];
              && q.sent <= |q.chunk| && procs == old(procs)[pid := q.(sent := Min(q.sent + k, |q.chunk|))]
              && data == old(data) + q.chunk[q.sent..Min(q.sent + k, |q.chunk|)]
      ensures Now() == DepositOf(old(Now()), pid, old(procs[pid]), k)
    {
      hide Flatten, Sent, ProcsOk, LogOk, SleepOk, EndOk, WriteOk, StreamOk;
      Held(procs, owner, TheFlags(), log, calls, pid);
      var q := procs[pid];
      var m := Min(k, |q.chunk| - q.sent);
      Grown(log, delivered, data, offset, q.chunk, q.sent, m);
      WriteMore(procs, owner, TheFlags(), log, calls, pid, q.(sent := q.sent + m));
      data := data + q.chunk[q.sent..q.sent + m];
      size := size + m;
      procs := procs[pid := q.(sent := q.sent + m)];
    }

    /** prele, and the wakeup of the readers. */
    method Announce()
      modifies this`locked, this`want, this`iread, this`procs
      ensures !locked && !want && !iread
      ensures procs == if old(iread) then WakeRead(Unlock(old(procs), old(want))) else Unlock(old(procs), old(want))
    {
      Prele();
      if iread {
        iread := false;
        procs := WakeRead(procs);
      }
    }

    /** The chunk is written: the rest of the loop of writep. */
    method WriteEnd(pid: nat)
      requires Valid() && pid in procs && procs[pid].InWrite? && procs[pid].sent == |procs[pid].chunk|
      modifies this`locked, this`want, this`iread, this`procs, this`log
      ensures Valid() && pid in procs && procs[pid] == Ready(Write(old(procs)[pid].id, old(procs)[pid].rest))
      ensures log == old(log) + [Chunk(old(procs)[pid].id, old(procs)[pid].chunk)]
      ensures Now() == WriteEndOf(old(Now()), pid, old(procs[pid]))
    {
      hide Flatten, Sent, ProcsOk, LogOk, SleepOk, EndOk, WriteOk, StreamOk, Unlock, WakeRead;
      Held(procs, owner, TheFlags(), log, calls, pid);
      var q := procs[pid];
      assert q.chunk[..q.sent] == q.chunk;
      Logged(log, calls, pid, q, delivered, data, offset);
      log := log + [Chunk(q.id, q.chunk)];
      Announce();
      procs := procs[pid := Ready(Write(q.id, q.rest))];
      NoTransfer(procs, owner, size);
      WriteDoneOk(old(procs), owner, old(TheFlags()), old(log), calls, pid, procs, TheFlags(), log);
    }

    /** The update of all inodes takes this one if it is free and in use. */
    method UpdateStart(pid: nat)
      requires Valid() && pid !in procs
      modifies this`locked, this`count, this`procs, this`owner
      ensures Valid() && procs == if !old(locked) && old(count) > 0 then old(procs)[pid := InUpdate] else old(procs)
      ensures Now() == Made(StartUpdate(pid), old(Now()))
    {
      hide Flatten, Sent, ProcsOk, LogOk, SleepOk, EndOk, WriteOk, StreamOk;
      if !locked && count > 0 {
        Free(procs, owner, TheFlags(), log, calls);
        NoTransfer(procs, owner, size);
        UpdateOk(procs, owner, TheFlags(), log, calls, pid);
        locked := true;
        count := count + 1;
        procs := procs[pid := InUpdate];
        owner := pid;
      }
    }

    /** iput at the end of the update: there is another reference, so only the lock is given up. */
    method UpdateEnd(pid: nat)
      requires Valid() && pid in procs && procs[pid].InUpdate?
      modifies this`locked, this`want, this`count, this`procs
      ensures Valid() && procs == Without(Unlock(old(procs), old(want)), pid)
      ensures Now() == Left(Unlocked(old(Now()).(count := old(count) - 1)), pid)
    {
      hide Flatten, Sent, ProcsOk, LogOk, SleepOk, EndOk, WriteOk, StreamOk, Unlock, Without;
      Held(procs, owner, TheFlags(), log, calls, pid);
      count := count - 1;
      Return(pid);
      UpdateDone(old(procs), owner, old(TheFlags()), log, calls, pid, procs, TheFlags());
    }

    /** A signal ends a sleep for data or for room, and with it the system call. */
    method Interrupt(pid: nat)
      requires Valid() && pid in procs && (procs[pid].OnRead? || procs[pid].OnWrite?)
      modifies this`procs
      ensures Valid() && procs == Without(old(procs), pid)
      ensures Now() == Left(old(Now()), pid)
    {
      hide Flatten, Sent, LogOk, StreamOk, WriteOk, EndOk;
      assert ProcOk(pid, procs[pid], owner, TheFlags(), log, calls);
      procs := Without(procs, pid);
    }

    /** writei through the next k bytes of the chunk, and what follows it when the chunk is written. */
    method WriteOn(pid: nat, k: nat)
      requires Valid() && pid in procs && procs[pid].InWrite?
      modifies this`locked, this`want, this`iread, this`procs, this`size, this`data, this`log
      ensures Valid() && Now() == MoreWritten(old(Now()), pid, old(procs[pid]), k)
      ensures pid in procs && (k > 0 ==> procs[pid] != old(procs[pid]))
      ensures log == old(log) || (|log| > 0 && log[..|log| - 1] == old(log))
    {
      hide Flatten, Sent, ProcsOk, LogOk, SleepOk, EndOk, WriteOk, StreamOk, Unlocked, WakeRead;
      Deposit(pid, k);
      if procs[pid].sent == |procs[pid].chunk| {
        WriteEnd(pid);
      }
    }

    /**
     * Runs a process that can run: from the top of its call if it is ready, or
     * through the next k bytes of its transfer.
     */
    method Go(pid: nat, k: nat) returns (out: Outcome)
      requires Valid() && pid in procs && (procs[pid].Ready? || Holding(procs[pid]))
      modifies this`locked, this`want, this`iread, this`iwrite, this`procs, this`owner, this`size, this`data,
               this`offset, this`count, this`rEnd, this`wEnd, this`log, this`delivered
      ensures Valid()
      ensures out == OutcomeOf(old(Now()), pid) && Now() == GoOf(old(Now()), pid, k)
      ensures pid !in procs <==> !out.Pending? || old(procs[pid]).InUpdate?
      ensures pid in procs && k > 0 ==> procs[pid] != old(procs)[pid]
      ensures delivered == if out.ReadDone? then old(delivered) + out.bytes else old(delivered)
      ensures log == old(log) || (|log| > 0 && log[..|log| - 1] == old(log))
      ensures old(procs[pid]).Ready? ==>
              if old(locked) then procs[pid] == OnLock(old(procs[pid].call))
              else TurnResult(pid, old(procs[pid].call), old(size), old(rEnd), old(wEnd), out, procs)
      ensures out.ReadDone? ==> ReadResult(old(procs[pid]), out.bytes, old(data), old(offset), old(size), old(wEnd))
      ensures out.WriteDone? ==> out.id in calls && calls[out.id].pid == pid && Sent(log, out.id) == calls[out.id].bytes
      ensures out.Broken? ==> rEnd.Closed?
    {
      hide Flatten, Sent, ProcsOk, LogOk, SleepOk, EndOk, WriteOk, StreamOk, DataOk, MoreWritten, ReadEndOf, TurnOf,
           OutcomeOfTurn, Unlocked, NextBytes;
      out := Pending;
      if procs[pid].Ready? {
        if locked {
          Queue(pid);
        } else {
          out := Turn(pid);
        }
      } else if procs[pid].InRead? {
        out := ReadEnd(pid, procs[pid].n);
      } else if procs[pid].InWrite? {
        WriteOn(pid, k);
      } else {
        CountInUpdate(pid);
        UpdateEnd(pid);
      }
    }

    /** plock, with the inode locked by another process. */
    method Queue(pid: nat)
      requires Valid() && locked && pid in procs && procs[pid].Ready?
      modifies this`want, this`procs
      ensures Valid() && procs == old(procs)[pid := OnLock(old(procs)[pid].call)]
      ensures Now() == Moved(old(Now()), pid, OnLock(old(procs[pid].call))).(want := true)
    {
      hide Flatten, Sent, ProcsOk, LogOk, SleepOk, EndOk, WriteOk, StreamOk, DataOk;
      QueueOk(procs, owner, TheFlags(), log, calls, pid);
      want := true;
      procs := procs[pid := OnLock(procs[pid].call)];
    }

    /** A call, from the top, with the inode free. */
    method Turn(pid: nat) returns (out: Outcome)
      requires Valid() && !locked && pid in procs && procs[pid].Ready?
      modifies this`locked, this`want, this`iread, this`iwrite, this`procs, this`owner, this`count, this`rEnd, this`wEnd
      ensures Valid()
      ensures out == OutcomeOfTurn(old(Now()), old(procs[pid].call))
      ensures Now() == TurnOf(old(Now()), pid, old(procs[pid].call))
      ensures pid in procs ==> procs[pid] != old(procs)[pid]
      ensures out.ReadDone? ==> out.bytes == [] && old(procs[pid].call.Read?) && size == 0 && old(wEnd).Closed?
      ensures out.Broken? ==> rEnd.Closed?
      ensures TurnResult(pid, old(procs[pid].call), old(size), old(rEnd), old(wEnd), out, procs)
      ensures out.WriteDone? ==> out.id in calls && calls[out.id].pid == pid && Sent(log, out.id) == calls[out.id].bytes
    {
      hide Flatten, Sent, ProcsOk, LogOk, SleepOk, EndOk, StreamOk, DataOk, ReadTurnOf, WriteTurnOf, CloseTurnOf;
      match procs[pid].call {
        case Read(n) =>
          out := ReadTurn(pid, n);
        case Write(id, rest) =>
          AllSent(procs, owner, TheFlags(), log, calls, pid);
          out := WriteTurn(pid, id, rest);
        case Close(side) =>
          CloseTurn(pid, side);
          out := CloseDone;
      }
    }

    /**
     * Any run of any processes, state by state what the events say: whatever happens next, if it can. A write that
     * has ended without a signal has put all its bytes in the pipe, or nobody can read them.
     */
    method Run(events: seq<Event>) returns (ghost states: seq<State>)
      requires Valid()
      modifies this`locked, this`want, this`iread, this`iwrite, this`procs, this`owner, this`size, this`data,
               this`offset, this`count, this`rEnd, this`wEnd, this`calls, this`log, this`delivered
      ensures Valid() && |states| == |events| + 1 && states[0] == old(Now()) && states[|events|] == Now()
      ensures forall i :: 0 <= i < |events| ==> states[i + 1] == Made(events[i], states[i])
      ensures old(delivered) <= delivered && old(log) <= log && delivered <= Flatten(log)
      ensures forall id :: Accounted(old(Now()), id) ==> Accounted(Now(), id) || CutShort(events, states, id)
    {
      hide Flatten, Sent, ProcsOk, LogOk, StreamOk, DataOk, ReadResult, Base, Made, Accounted, CutShort;
      states := [Now()];
      for i := 0 to |events|
        invariant Valid() && old(delivered) <= delivered && old(log) <= log
        invariant |states| == i + 1 && states[0] == old(Now()) && states[i] == Now()
        invariant forall j :: 0 <= j < i ==> states[j + 1] == Made(events[j], states[j])
        invariant forall id :: Accounted(old(Now()), id) ==> Accounted(Now(), id) || CutShort(events[..i], states, id)
      {
        ghost var before, s := states, Now();
        Step(events[i]);
        states := states + [Now()];
        forall id | Accounted(old(Now()), id)
          ensures Accounted(Now(), id) || CutShort(events[..i + 1], states, id)
        {
          LaterCut(events, before, i, s, Now(), id);
        }
      }
      assert events[..|events|] == events;
      InOrder();
    }

    method Step(e: Event)
      requires Valid()
      modifies this`locked, this`want, this`iread, this`iwrite, this`procs, this`owner, this`size, this`data,
               this`offset, this`count, this`rEnd, this`wEnd, this`calls, this`log, this`delivered
      ensures Valid() && Now() == Made(e, old(Now()))
      ensures old(delivered) <= delivered && old(log) <= log
      ensures forall id :: Accounted(old(Now()), id) ==> Accounted(Now(), id) || Cut(e, old(Now()), id)
    {
      hide Flatten, Sent, ProcsOk, LogOk, StreamOk, DataOk, ReadResult, Base, GoOf, OutcomeOf, TurnResult, EnterOf,
           Accounted, Cut, Sound;
      ghost var s := Now();
      ValidIsSound();
      match e {
        case EnterCall(pid, call) =>
          if MayEnter(pid, call) {
            Enter(pid, call);
          }
        case RunProc(pid, k) =>
          if pid in procs && (procs[pid].Ready? || Holding(procs[pid])) {
            var out := Go(pid, k);
          }
        case Signal(pid) =>
          if pid in procs && (procs[pid].OnRead? || procs[pid].OnWrite?) {
            Interrupt(pid);
          }
        case StartUpdate(pid) =>
          if pid !in procs {
            UpdateStart(pid);
          }
      }
      ValidIsSound();
      forall id | Accounted(s, id)
        ensures Accounted(Now(), id) || Cut(e, s, id)
      {
        StepAccounted(e, s, id);
      }
    }

    lemma ValidIsSound()
      requires Valid()
      ensures Sound(Now())
    {
    }

    /** The bytes read are the first of the bytes written, in order, and the pipe holds the others. */
    lemma InOrder()
      requires Valid()
      ensures delivered <= Flatten(log)
      ensures Base(procs, owner, size) == size ==> Flatten(log) == delivered + data[offset..]
      ensures size < 2 * PIPSIZ
    {
      hide Flatten, Sent, LogOk, SleepOk, EndOk, WriteOk;
      if owner in procs && procs[owner].InWrite? {
        assert ProcOk(owner, procs[owner], owner, TheFlags(), log, calls);
        Held(procs, owner, TheFlags(), log, calls, owner);
        PrefixOf(Flatten(log), Partial(procs, owner), delivered, data[offset..]);
      } else {
        assert Flatten(log) + [] == Flatten(log);
      }
    }

    /** A write of at most PIPSIZ bytes is in the stream in one piece, once. */
    lemma InOnePiece(i: nat)
      requires Valid() && i < |log| && |calls[log[i].id].bytes| <= PIPSIZ
      ensures Flatten(log) == Flatten(log[..i]) + calls[log[i].id].bytes + Flatten(log[i + 1..])
      ensures forall j :: 0 <= j < |log| && j != i ==> log[j].id != log[i].id
    {
      hide Flatten, Sent;
      assert ChunkOk(log[i], calls);
      Around(log, i);
      forall j | 0 <= j < |log| && j != i
        ensures log[j].id != log[i].id
      {
        assert ChunkOk(log[j], calls) && Sent(log, log[i].id) <= calls[log[i].id].bytes;
        if log[j].id == log[i].id {
          SentTwice(log, if i < j then i else j, if i < j then j else i);
        }
      }
    }

    /** No reader sleeps for data while a writer sleeps for room. */
    lemma NotBothAsleep(r: nat, w: nat)
      requires Valid() && r in procs && w in procs
      ensures !(procs[r].OnRead? && procs[w].OnWrite?)
    {
      hide Sent, WriteOk, EndOk;
      assert ProcOk(r, procs[r], owner, TheFlags(), log, calls);
      assert ProcOk(w, procs[w], owner, TheFlags(), log, calls);
    }

    /**
     * When no process can run, nobody waits for the lock; those that wait for data do so
     * in an empty pipe that somebody has open for writing; those that wait for room do so in
     * a full pipe that somebody has open for reading.
     */
    lemma Quiet(p: nat)
      requires Valid() && p in procs
      requires forall q :: q in procs ==> !procs[q].Ready? && !Holding(procs[q])
      ensures !procs[p].OnLock?
      ensures procs[p].OnRead? ==> size == 0 && iread && wEnd.Open?
      ensures procs[p].OnWrite? ==> size >= PIPSIZ && iwrite && rEnd.Open?
    {
      hide Sent, WriteOk, LogOk, StreamOk;
      forall q | q in procs
        ensures SleepOk(procs[q], TheFlags()) && !procs[q].OnLock?
      {
        assert ProcOk(q, procs[q], owner, TheFlags(), log, calls);
      }
    }
  }

  ghost predicate Enters(procs: map<nat, Proc>, pid: nat, call: Call, f: Flags, f': Flags, calls: map<nat, Request>,
                         calls': map<nat, Request>) {
    && pid !in procs
    && match call
       case Read(_) => f.rEnd.Open? && f' == f && calls' == calls
       case Write(id, rest) => f.wEnd.Open? && f' == f && id !in calls && calls' == calls[id := Request(pid, rest)]
       case Close(ReadSide) => f.rEnd.Open? && f' == f.(rEnd := Closing(pid)) && calls' == calls
                               && forall p :: p in procs && !procs[p].InUpdate? ==> !CallOf(procs[p]).Read?
       case Close(WriteSide) => f.wEnd.Open? && f' == f.(wEnd := Closing(pid)) && calls' == calls
                                && forall p :: p in procs && !procs[p].InUpdate? ==> !CallOf(procs[p]).Write?
  }

  lemma EnterOk(procs: map<nat, Proc>, owner: nat, f: Flags, log: seq<Chunk>, calls: map<nat, Request>,
                pid: nat, call: Call, f': Flags, calls': map<nat, Request>)
    requires ProcsOk(procs, owner, f, log, calls) && Enters(procs, pid, call, f, f', calls, calls')
    requires call.Write? ==> Sent(log, call.id) == []
    ensures ProcsOk(procs[pid := Ready(call)], owner, f', log, calls')
  {
    hide Sent;
    var procs' := procs[pid := Ready(call)];
    forall p | p in procs'
      ensures ProcOk(p, procs'[p], owner, f', log, calls')
    {
      if p != pid {
        assert ProcOk(p, procs[p], owner, f, log, calls);
      }
    }
  }

  /** A write that has put nothing in the log has sent nothing. */
  lemma {:induction false} SentOfNew(log: seq<Chunk>, calls: map<nat, Request>, id: nat)
    requires id !in calls && forall i :: 0 <= i < |log| ==> ChunkOk(log[i], calls)
    ensures Sent(log, id) == []
  {
    if log != [] {
      assert ChunkOk(log[0], calls);
      SentOfNew(log[1..], calls, id);
    }
  }

  /** While the inode is free nobody holds it and nobody waits for it. */
  lemma Free(procs: map<nat, Proc>, owner: nat, f: Flags, log: seq<Chunk>, calls: map<nat, Request>)
    requires ProcsOk(procs, owner, f, log, calls) && !f.locked
    ensures (forall w :: Unlock(procs, w) == procs) && forall p :: p in procs ==>
            !Holding(procs[p]) && !procs[p].OnLock?
    ensures Idle(procs, owner)
  {
    hide Sent, WriteOk;
    forall p | p in procs
      ensures !Holding(procs[p]) && !procs[p].OnLock?
    {
      assert ProcOk(p, procs[p], owner, f, log, calls);
    }
  }

  /** A process leaves a free inode. */
  lemma Leave(procs: map<nat, Proc>, owner: nat, f: Flags, log: seq<Chunk>, calls: map<nat, Request>, pid: nat,
              f': Flags)
    requires ProcsOk(procs, owner, f, log, calls) && !f.locked && f'.(want := f.want) == f
    requires pid in procs && procs[pid].Ready? && !procs[pid].call.Close?
    ensures ProcsOk(Without(procs, pid), owner, f', log, calls)
  {
    hide Sent, WriteOk;
    forall p | p in Without(procs, pid)
      ensures ProcOk(p, procs[p], owner, f', log, calls)
    {
      assert ProcOk(p, procs[p], owner, f, log, calls);
    }
  }

  /** A process at a free inode goes to sleep, or takes the lock. */
  lemma Put(procs: map<nat, Proc>, owner: nat, f: Flags, log: seq<Chunk>, calls: map<nat, Request>,
            pid: nat, q: Proc, owner': nat, f': Flags)
    requires ProcsOk(procs, owner, f, log, calls) && !f.locked && pid in procs && !procs[pid].InUpdate? && !q.InUpdate?
    requires CallOf(q) == CallOf(procs[pid]) && (q.InWrite? ==> |q.chunk| == Min(|q.chunk + q.rest|, PIPSIZ))
    requires f' == f.(locked := f'.locked, want := f'.want, iread := f'.iread, iwrite := f'.iwrite)
    requires (f.iread ==> f'.iread) && (f.iwrite ==> f'.iwrite) && SleepOk(q, f')
    requires (f'.locked <==> Holding(q)) && (Holding(q) ==> owner' == pid)
    ensures ProcsOk(procs[pid := q], owner', f', log, calls)
  {
    hide Sent, WriteOk;
    var procs' := procs[pid := q];
    StillWriting(pid, procs[pid], q, log, calls);
    forall p | p in procs'
      ensures ProcOk(p, procs'[p], owner', f', log, calls)
    {
      assert ProcOk(p, procs[p], owner, f, log, calls);
    }
  }

  lemma StillWriting(p: nat, q: Proc, q': Proc, log: seq<Chunk>, calls: map<nat, Request>)
    requires !q.InUpdate? && !q'.InUpdate? && CallOf(q) == CallOf(q')
    requires q'.InWrite? ==> |q'.chunk| == Min(|q'.chunk + q'.rest|, PIPSIZ)
    ensures WriteOk(p, q, log, calls) ==> WriteOk(p, q', log, calls)
  {
  }

  lemma Held(procs: map<nat, Proc>, owner: nat, f: Flags, log: seq<Chunk>, calls: map<nat, Request>, pid: nat)
    requires ProcsOk(procs, owner, f, log, calls) && pid in procs && Holding(procs[pid])
    ensures f.locked && owner == pid && WriteOk(pid, procs[pid], log, calls) && EndOk(pid, procs[pid], f)
    ensures forall p :: p in procs ==> (p == pid <==> Holding(procs[p])) && SleepOk(procs[p], f)
    ensures procs[pid].InRead? ==> Idle(procs, owner)
    ensures procs[pid].InWrite? ==>
            f.base < PIPSIZ && procs[pid].sent <= |procs[pid].chunk| && 0 < |procs[pid].chunk| <= PIPSIZ
  {
    hide Sent, WriteOk;
    forall p | p in procs
      ensures (p == pid <==> Holding(procs[p])) && SleepOk(procs[p], f)
    {
      assert ProcOk(p, procs[p], owner, f, log, calls);
    }
    assert ProcOk(pid, procs[pid], owner, f, log, calls);
  }

  ghost predicate NobodyWaits(procs: map<nat, Proc>) {
    forall p :: p in procs ==> !procs[p].OnRead? && !procs[p].OnWrite?
  }

  /** Nobody is writing, nor updating the inodes. */
  predicate Idle(procs: map<nat, Proc>, owner: nat) {
    owner in procs ==> !procs[owner].InWrite? && !procs[owner].InUpdate?
  }

  lemma NoTransfer(procs: map<nat, Proc>, owner: nat, size: nat)
    ensures Idle(procs, owner) ==>
            Base(procs, owner, size) == size && Partial(procs, owner) == [] && Updates(procs, owner) == 0
  {
  }

  predicate Woken(q: Proc, q': Proc) {
    q' == q || ((q.OnLock? || q.OnRead? || q.OnWrite?) && q' == Ready(q.call))
  }

  /** A process finishes with the inode, leaving or going on, and those it wakes will run. */
  lemma Release(procs: map<nat, Proc>, owner: nat, f: Flags, log: seq<Chunk>, calls: map<nat, Request>,
                pid: nat, procs': map<nat, Proc>, f': Flags, log': seq<Chunk>)
    requires ProcsOk(procs, owner, f, log, calls) && pid in procs && (f.locked ==> owner == pid) && !f'.locked
    requires forall p :: p in procs' && p != pid ==> p in procs && Woken(procs[p], procs'[p]) && SleepOk(procs'[p], f')
    requires pid in procs' ==> ProcOk(pid, procs'[pid], owner, f', log', calls)
    requires forall p :: p in procs && p != pid ==> p in procs'
    requires f'.rEnd == (if Closes(procs[pid], ReadSide) then Closed else f.rEnd)
    requires f'.wEnd == (if Closes(procs[pid], WriteSide) then Closed else f.wEnd)
    requires log' != log ==>
               log' != [] && log'[..|log'| - 1] == log && log'[|log'| - 1].id in calls
                   && calls[log'[|log'| - 1].id].pid == pid
    ensures ProcsOk(procs', owner, f', log', calls)
  {
    hide Sent, WriteOk, ProcOk, SleepOk;
    EndsAt(pid, procs[pid], owner, f, log, calls);
    forall p | p in procs'
      ensures ProcOk(p, procs'[p], owner, f', log', calls)
    {
      if p != pid {
        assert ProcOk(p, procs[p], owner, f, log, calls);
        Bystander(p, procs[p], procs'[p], pid, owner, f, f', log, log', calls);
      }
    }
  }

  lemma EndsAt(p: nat, q: Proc, owner: nat, f: Flags, log: seq<Chunk>, calls: map<nat, Request>)
    requires ProcOk(p, q, owner, f, log, calls)
    ensures Closes(q, ReadSide) ==> f.rEnd == Closing(p)
    ensures Closes(q, WriteSide) ==> f.wEnd == Closing(p)
  {
    hide Sent, WriteOk;
  }

  lemma Bystander(p: nat, q: Proc, q': Proc, pid: nat, owner: nat, f: Flags, f': Flags, log: seq<Chunk>,
                  log': seq<Chunk>,
                  calls: map<nat, Request>)
    requires ProcOk(p, q, owner, f, log, calls) && p != pid && (f.locked ==> owner == pid)
    requires Woken(q, q') && SleepOk(q', f')
    requires (f'.rEnd == f.rEnd || f.rEnd == Closing(pid)) && (f'.wEnd == f.wEnd || f.wEnd == Closing(pid))
    requires log' != log ==>
               log' != [] && log'[..|log'| - 1] == log && log'[|log'| - 1].id in calls
                   && calls[log'[|log'| - 1].id].pid == pid
    ensures ProcOk(p, q', owner, f', log', calls)
    ensures forall side :: Closes(q, side) ==> Closes(q', side)
  {
    hide Sent, WriteOk;
    if !q.InUpdate? {
      StillWriting(p, q, q', log, calls);
    }
    if log' != log {
      OthersLog(p, q', log, log'[|log'| - 1], calls);
      assert log' == log + [log'[|log'| - 1]];
    }
  }

  /** A chunk of one process's write changes nothing for the others. */
  lemma OthersLog(p: nat, q: Proc, log: seq<Chunk>, c: Chunk, calls: map<nat, Request>)
    requires WriteOk(p, q, log, calls) && c.id in calls && calls[c.id].pid != p
    ensures WriteOk(p, q, log + [c], calls)
  {
    hide Sent;
    if !q.InUpdate? && CallOf(q).Write? {
      SentAppend(log, c, CallOf(q).id);
    }
  }

  lemma ClosingEnd(procs: map<nat, Proc>, owner: nat, f: Flags, log: seq<Chunk>, calls: map<nat, Request>, pid: nat,
                   side: Side)
    requires ProcsOk(procs, owner, f, log, calls) && pid in procs && procs[pid] == Ready(Close(side))
    ensures side.ReadSide? ==> f.rEnd == Closing(pid)
    ensures side.WriteSide? ==> f.wEnd == Closing(pid)
  {
    hide Sent, WriteOk;
    assert ProcOk(pid, procs[pid], owner, f, log, calls);
  }

  lemma CloseOk(procs: map<nat, Proc>, owner: nat, f: Flags, log: seq<Chunk>, calls: map<nat, Request>,
                pid: nat, side: Side, procs': map<nat, Proc>, f': Flags)
    requires ProcsOk(procs, owner, f, log, calls) && pid in procs && procs[pid] == Ready(Close(side)) && !f.locked
             && !f'.locked
    requires procs' == Without(Unlock(WakeRead(WakeWrite(procs)), f.want), pid)
    requires f'.rEnd == (if side.ReadSide? then Closed else f.rEnd)
             && f'.wEnd == (if side.WriteSide? then Closed else f.wEnd)
    ensures ProcsOk(procs', owner, f', log, calls)
    ensures NobodyWaits(procs') && Idle(procs', owner)
  {
    hide Sent, WriteOk, EndOk, ProcsOk;
    Free(procs, owner, f, log, calls);
    ClosingEnd(procs, owner, f, log, calls, pid, side);
    Release(procs, owner, f, log, calls, pid, procs', f', log);
  }

  lemma ReadOk(procs: map<nat, Proc>, owner: nat, f: Flags, log: seq<Chunk>, calls: map<nat, Request>,
               pid: nat, procs': map<nat, Proc>, f': Flags)
    requires ProcsOk(procs, owner, f, log, calls) && pid in procs && procs[pid].InRead? && !f'.locked
    requires var w := if f'.base == 0 && f.iwrite then WakeWrite(procs) else procs;
             procs' == Without(Unlock(w, f.want), pid)
    requires f' == f.(locked := false, want := f'.want, iwrite := f'.iwrite, base := f'.base)
    requires (f'.base == 0 || (f'.base == f.base && f'.iwrite == f.iwrite)) && f.base > 0
    ensures ProcsOk(procs', owner, f', log, calls)
    ensures Idle(procs', owner)
  {
    hide Sent, WriteOk, EndOk, ProcsOk;
    Held(procs, owner, f, log, calls, pid);
    Release(procs, owner, f, log, calls, pid, procs', f', log);
  }

  lemma Grown(log: seq<Chunk>, delivered: seq<byte>, data: seq<byte>, offset: nat, chunk: seq<byte>, sent: nat, m: nat)
    requires sent + m <= |chunk| && StreamOk(log, chunk[..sent], delivered, data, offset)
    ensures StreamOk(log, chunk[..sent + m], delivered, data + chunk[sent..sent + m], offset)
  {
    hide Flatten;
    var more := chunk[sent..sent + m];
    assert chunk[..sent + m] == chunk[..sent] + more;
    assert (data + more)[offset..] == data[offset..] + more;
    assert Flatten(log) + (chunk[..sent] + more) == (Flatten(log) + chunk[..sent]) + more;
    assert delivered + (data[offset..] + more) == (delivered + data[offset..]) + more;
  }

  lemma WriteMore(procs: map<nat, Proc>, owner: nat, f: Flags, log: seq<Chunk>, calls: map<nat, Request>, pid: nat,
                  q: Proc)
    requires ProcsOk(procs, owner, f, log, calls) && pid in procs && procs[pid].InWrite?
    requires q.InWrite? && q == procs[pid].(sent := q.sent) && q.sent <= |q.chunk|
    ensures ProcsOk(procs[pid := q], owner, f, log, calls)
  {
    hide Sent;
    var procs' := procs[pid := q];
    forall p | p in procs'
      ensures ProcOk(p, procs'[p], owner, f, log, calls)
    {
      assert ProcOk(p, procs[p], owner, f, log, calls);
    }
  }

  lemma FlattenOne(c: Chunk)
    ensures Flatten([c]) == c.bytes
  {
    assert [c][1..] == [];
  }

  /** A chunk of a write goes into the log whole; one of a write of at most PIPSIZ bytes is all of it. */
  lemma Logged(log: seq<Chunk>, calls: map<nat, Request>, pid: nat, q: Proc,
               delivered: seq<byte>, data: seq<byte>, offset: nat)
    requires LogOk(log, calls) && q.InWrite? && WriteOk(pid, q, log, calls) && 0 < |q.chunk| <= PIPSIZ
    requires StreamOk(log, q.chunk, delivered, data, offset)
    ensures LogOk(log + [Chunk(q.id, q.chunk)], calls)
    ensures StreamOk(log + [Chunk(q.id, q.chunk)], [], delivered, data, offset)
    ensures WriteOk(pid, Ready(Write(q.id, q.rest)), log + [Chunk(q.id, q.chunk)], calls)
  {
    hide Flatten, Sent;
    var c := Chunk(q.id, q.chunk);
    var log' := log + [c];
    var whole := calls[q.id].bytes;
    FlattenAppend(log, [c]);
    FlattenOne(c);
    SentAppend(log, c, q.id);
    assert Sent(log, q.id) + (q.chunk + q.rest) == (Sent(log, q.id) + q.chunk) + q.rest;
    if |whole| <= PIPSIZ {
      assert |Sent(log, q.id)| == 0;
      assert q.rest == [];
      assert whole == q.chunk;
    }
    assert ChunkOk(c, calls);
    forall id | id in calls
      ensures Sent(log', id) <= calls[id].bytes
    {
      SentAppend(log, c, id);
      assert Sent(log, id) <= calls[id].bytes;
    }
  }

  lemma WriteDoneOk(procs: map<nat, Proc>, owner: nat, f: Flags, log: seq<Chunk>, calls: map<nat, Request>,
                    pid: nat, procs': map<nat, Proc>, f': Flags, log': seq<Chunk>)
    requires ProcsOk(procs, owner, f, log, calls) && pid in procs && procs[pid].InWrite?
    requires var q := procs[pid];
             && (procs' == (if f.iread then WakeRead(Unlock(procs, f.want))
                            else Unlock(procs, f.want))[pid := Ready(Write(q.id, q.rest))])
             && log' == log + [Chunk(q.id, q.chunk)] && WriteOk(pid, procs'[pid], log', calls)
    requires f' == f.(locked := false, want := false, iread := false, base := f'.base)
    ensures ProcsOk(procs', owner, f', log', calls)
  {
    hide Sent, ProcsOk;
    Held(procs, owner, f, log, calls, pid);
    Release(procs, owner, f, log, calls, pid, procs', f', log');
  }

  /**
   * What a call leads to from its top, the inode free. A write is done when nothing is left, and broken when the read
   * end is closed; it sleeps in a full pipe, and otherwise begins a chunk. A read begins if the pipe holds something;
   * of an empty one it returns nothing if the write end is closed, and sleeps otherwise. A close is done at once.
   */
  predicate TurnResult(pid: nat, call: Call, size: nat, rEnd: End, wEnd: End, out: Outcome, procs: map<nat, Proc>) {
    && (pid !in procs <==> !out.Pending?)
    && match call
       case Read(n) =>
         && (out == ReadDone([]) <==> size == 0 && wEnd.Closed?) && (out.Pending? || out == ReadDone([]))
         && (out.Pending? ==> procs[pid] == if size > 0 then InRead(n) else OnRead(call))
       case Write(id, rest) =>
         && (out == WriteDone(id) <==> rest == []) && (out == Broken(id) <==> rest != [] && rEnd.Closed?)
         && (out.Pending? || out == WriteDone(id) || out == Broken(id))
         && (out.Pending? ==>
               procs[pid] == if size >= PIPSIZ then OnWrite(call)
                             else InWrite(id, rest[..Min(|rest|, PIPSIZ)], 0, rest[Min(|rest|, PIPSIZ)..]))
       case Close(_) => out == CloseDone
  }

  /**
   * A read returns the bytes from the offset on, as many as it asked for or there are; none at all only at
   * the end of a pipe nobody can write.
   */
  predicate ReadResult(q: Proc, bytes: seq<byte>, data: seq<byte>, offset: nat, size: nat, wEnd: End) {
    match q
    case InRead(n) => offset <= size == |data| && bytes == data[offset..offset + Min(n, size - offset)]
    case Ready(Read(n)) => bytes == [] && size == 0 && wEnd.Closed?
    case _ => false
  }

  lemma UpdateOk(procs: map<nat, Proc>, owner: nat, f: Flags, log: seq<Chunk>, calls: map<nat, Request>, pid: nat)
    requires ProcsOk(procs, owner, f, log, calls) && pid !in procs && !f.locked
    ensures ProcsOk(procs[pid := InUpdate], pid, f.(locked := true), log, calls)
  {
    hide Sent, WriteOk;
    var procs' := procs[pid := InUpdate];
    NotWriting(pid, InUpdate, log, calls);
    forall p | p in procs'
      ensures ProcOk(p, procs'[p], pid, f.(locked := true), log, calls)
    {
      if p != pid {
        assert ProcOk(p, procs[p], owner, f, log, calls);
      }
    }
  }

  lemma UpdateDone(procs: map<nat, Proc>, owner: nat, f: Flags, log: seq<Chunk>, calls: map<nat, Request>,
                   pid: nat, procs': map<nat, Proc>, f': Flags)
    requires ProcsOk(procs, owner, f, log, calls) && pid in procs && procs[pid].InUpdate?
    requires procs' == Without(Unlock(procs, f.want), pid) && f' == f.(locked := false, want := false)
    ensures ProcsOk(procs', owner, f', log, calls)
  {
    hide Sent, WriteOk, ProcsOk, EndOk;
    Held(procs, owner, f, log, calls, pid);
    Release(procs, owner, f, log, calls, pid, procs', f', log);
  }

  lemma NotWriting(p: nat, q: Proc, log: seq<Chunk>, calls: map<nat, Request>)
    ensures q.InUpdate? || !CallOf(q).Write? ==> WriteOk(p, q, log, calls)
  {
  }

  lemma QueueOk(procs: map<nat, Proc>, owner: nat, f: Flags, log: seq<Chunk>, calls: map<nat, Request>, pid: nat)
    requires ProcsOk(procs, owner, f, log, calls) && pid in procs && procs[pid].Ready? && f.locked
    ensures ProcsOk(procs[pid := OnLock(procs[pid].call)], owner, f.(want := true), log, calls)
    ensures owner in procs && owner != pid
  {
    hide Sent, WriteOk;
    var q := OnLock(procs[pid].call);
    StillWriting(pid, procs[pid], q, log, calls);
    forall p | p in procs
      ensures ProcOk(p, procs[pid := q][p], owner, f.(want := true), log, calls)
    {
      assert ProcOk(p, procs[p], owner, f, log, calls);
    }
  }

  lemma AllSent(procs: map<nat, Proc>, owner: nat, f: Flags, log: seq<Chunk>, calls: map<nat, Request>, pid: nat)
    requires ProcsOk(procs, owner, f, log, calls) && pid in procs && procs[pid].Ready? && procs[pid].call.Write?
    ensures var w := procs[pid].call;
            w.rest == [] ==> w.id in calls && calls[w.id].pid == pid && Sent(log, w.id) == calls[w.id].bytes
  {
    hide Sent;
    assert ProcOk(pid, procs[pid], owner, f, log, calls);
  }

  lemma PrefixOf(a: seq<byte>, p: seq<byte>, d: seq<byte>, r: seq<byte>)
    requires a + p == d + r && |p| <= |r|
    ensures d <= a
  {
    assert a == (a + p)[..|a|] == (d + r)[..|a|];
    assert d == (d + r)[..|d|];
  }

  lemma Around(log: seq<Chunk>, i: nat)
    requires i < |log|
    ensures Flatten(log) == Flatten(log[..i]) + log[i].bytes + Flatten(log[i + 1..])
  {
    assert log == log[..i] + log[i..];
    FlattenAppend(log[..i], log[i..]);
    assert log[i..][0] == log[i] && log[i..][1..] == log[i + 1..];
  }

  lemma {:induction false} SentTwice(log: seq<Chunk>, i: nat, j: nat)
    requires i < j < |log| && log[i].id == log[j].id
    ensures |Sent(log, log[i].id)| >= |log[i].bytes| + |log[j].bytes|
  {
    if i == 0 {
      SentOnce(log[1..], j - 1);
    } else {
      SentTwice(log[1..], i - 1, j - 1);
    }
  }

  lemma {:induction false} SentOnce(log: seq<Chunk>, j: nat)
    requires j < |log|
    ensures |Sent(log, log[j].id)| >= |log[j].bytes|
  {
    if j > 0 {
      SentOnce(log[1..], j - 1);
    }
  }

  // ---------------------------------------------------------------------------
  // What becomes of a write.

  function FlagsOf(s: State): Flags {
    Flags(s.locked, s.want, s.iread, s.iwrite, Base(s.procs, s.owner, s.size), s.rEnd, s.wEnd)
  }

  ghost predicate Sound(s: State) {
    && ProcsOk(s.procs, s.owner, FlagsOf(s), s.log, s.calls)
    && s.count == Ends(s.rEnd, s.wEnd) + Updates(s.procs, s.owner)
    && LogOk(s.log, s.calls)
  }

  predicate Writing(q: Proc, id: nat) {
    !q.InUpdate? && CallOf(q).Write? && CallOf(q).id == id
  }

  /** The write is still going on. */
  predicate Active(s: State, id: nat) {
    id in s.calls && s.calls[id].pid in s.procs && Writing(s.procs[s.calls[id].pid], id)
  }

  /** A write that is not going on any more has put all its bytes in the pipe, or the read end is closed. */
  predicate Accounted(s: State, id: nat) {
    id in s.calls ==> Active(s, id) || Sent(s.log, id) == s.calls[id].bytes || s.rEnd.Closed?
  }

  /** A signal ends the write while it sleeps for room. */
  predicate Cut(e: Event, s: State, id: nat) {
    e.Signal? && e.pid in s.procs && s.procs[e.pid].OnWrite? && Writing(s.procs[e.pid], id)
  }

  ghost predicate CutShort(events: seq<Event>, states: seq<State>, id: nat) {
    exists j :: 0 <= j < |events| && j < |states| && Cut(events[j], states[j], id)
  }

  lemma LaterCut(events: seq<Event>, states: seq<State>, i: nat, s: State, t: State, id: nat)
    requires i < |events| && |states| == i + 1 && states[i] == s
    requires Accounted(s, id) || CutShort(events[..i], states, id)
    requires Accounted(s, id) ==> Accounted(t, id) || Cut(events[i], s, id)
    ensures Accounted(t, id) || CutShort(events[..i + 1], states + [t], id)
  {
    var more, states' := events[..i + 1], states + [t];
    if CutShort(events[..i], states, id) {
      var j :| 0 <= j < i && j < |states| && Cut(events[..i][j], states[j], id);
      assert Cut(more[j], states'[j], id);
    } else if !Accounted(t, id) {
      assert Cut(more[i], states'[i], id);
    }
  }

  /** A process that runs only wakes others; calls stay on record, and the log grows by a chunk at most. */
  ghost predicate OneStep(s: State, t: State) {
    t.calls == s.calls && (s.rEnd.Closed? ==> t.rEnd.Closed?) && (t.log == s.log || exists c :: t.log == s.log + [c])
  }

  lemma TurnGrows(s: State, pid: nat, call: Call)
    ensures OneStep(s, TurnOf(s, pid, call))
  {
    hide Unlock, WakeRead, WakeWrite, Without;
  }

  lemma MoreWrittenGrows(s: State, pid: nat, q: Proc, k: nat)
    requires q.InWrite?
    ensures OneStep(s, MoreWritten(s, pid, q, k))
  {
    hide Unlock, WakeRead, Without;
    assert DepositOf(s, pid, q, k).log == s.log;
    assert WriteEndOf(DepositOf(s, pid, q, k), pid, q).log == s.log + [Chunk(q.id, q.chunk)];
  }

  lemma GoGrows(s: State, pid: nat, k: nat)
    requires MayRun(s, pid)
    ensures OneStep(s, GoOf(s, pid, k))
  {
    hide Unlock, WakeRead, WakeWrite, Without, TurnOf, NextBytes, MoreWritten;
    if s.procs[pid].Ready? {
      TurnGrows(s, pid, s.procs[pid].call);
    } else if s.procs[pid].InWrite? {
      MoreWrittenGrows(s, pid, s.procs[pid], k);
    }
  }

  /** Process p is where it was, or awake. */
  predicate WokenAt(procs: map<nat, Proc>, procs': map<nat, Proc>, p: nat)
    requires p in procs
  {
    p in procs' && Woken(procs[p], procs'[p])
  }

  lemma TurnFair(s: State, pid: nat, call: Call, p: nat)
    requires p in s.procs && p != pid
    ensures WokenAt(s.procs, TurnOf(s, pid, call).procs, p)
  {
    hide CloseTurnOf, ReadTurnOf, WriteTurnOf;
    if call.Close? {
      CloseFair(s, pid, call.side, p);
    } else if call.Read? {
      ReadTurnFair(s, pid, call.n, p);
    } else {
      WriteTurnFair(s, pid, call.id, call.rest, p);
    }
  }

  lemma CloseFair(s: State, pid: nat, side: Side, p: nat)
    requires p in s.procs && p != pid
    ensures WokenAt(s.procs, CloseTurnOf(s, pid, side).procs, p)
  {
  }

  lemma ReadTurnFair(s: State, pid: nat, n: nat, p: nat)
    requires p in s.procs && p != pid
    ensures WokenAt(s.procs, ReadTurnOf(s, pid, n).procs, p)
  {
  }

  lemma WriteTurnFair(s: State, pid: nat, id: nat, rest: seq<byte>, p: nat)
    requires p in s.procs && p != pid
    ensures WokenAt(s.procs, WriteTurnOf(s, pid, id, rest).procs, p)
  {
  }

  lemma ReadEndFair(s: State, pid: nat, n: nat, p: nat)
    requires p in s.procs && p != pid
    ensures WokenAt(s.procs, ReadEndOf(s, pid, n).procs, p)
  {
    hide NextBytes;
  }

  lemma DepositFair(s: State, pid: nat, q: Proc, k: nat, p: nat)
    requires q.InWrite? && p in s.procs && p != pid
    ensures p in DepositOf(s, pid, q, k).procs && DepositOf(s, pid, q, k).procs[p] == s.procs[p]
  {
  }

  lemma WriteEndFair(s: State, pid: nat, q: Proc, p: nat)
    requires q.InWrite? && p in s.procs && p != pid
    ensures WokenAt(s.procs, WriteEndOf(s, pid, q).procs, p)
  {
  }

  lemma GoFair(s: State, pid: nat, k: nat, p: nat)
    requires MayRun(s, pid) && p in s.procs && p != pid
    ensures WokenAt(s.procs, GoOf(s, pid, k).procs, p)
  {
    hide TurnOf, ReadEndOf, DepositOf, WriteEndOf;
    if s.procs[pid].Ready? {
      TurnFair(s, pid, s.procs[pid].call, p);
    } else if s.procs[pid].InRead? {
      ReadEndFair(s, pid, s.procs[pid].n, p);
    } else if s.procs[pid].InWrite? {
      DepositFair(s, pid, s.procs[pid], k, p);
      WriteEndFair(DepositOf(s, pid, s.procs[pid], k), pid, s.procs[pid], p);
    }
  }

  /** Calls stay on record, the log grows by a chunk at most, and a closed read end stays closed. */
  lemma MadeGrows(e: Event, s: State)
    ensures var t := Made(e, s);
            && (forall id :: id in s.calls ==> id in t.calls && t.calls[id] == s.calls[id])
            && (forall id :: id in t.calls && id !in s.calls ==> Active(t, id))
            && (s.rEnd.Closed? ==> t.rEnd.Closed?)
            && (t.log == s.log || exists c :: t.log == s.log + [c])
  {
    hide GoOf;
    if e.RunProc? && MayRun(s, e.pid) {
      GoGrows(s, e.pid, e.k);
    }
  }

  lemma StepAccounted(e: Event, s: State, id: nat)
    requires Sound(s) && Sound(Made(e, s)) && Accounted(s, id)
    ensures Accounted(Made(e, s), id) || Cut(e, s, id)
  {
    hide Made, Sent;
    var t := Made(e, s);
    MadeGrows(e, s);
    if id in s.calls && !s.rEnd.Closed? {
      if Sent(s.log, id) == s.calls[id].bytes {
        StaysSent(s, t, id);
      } else {
        WriteGoesOn(e, s, id);
      }
    }
  }

  lemma StaysSent(s: State, t: State, id: nat)
    requires id in s.calls && id in t.calls && t.calls[id] == s.calls[id]
    requires Sent(s.log, id) == s.calls[id].bytes && Sent(t.log, id) <= t.calls[id].bytes
    requires t.log == s.log || exists c :: t.log == s.log + [c]
    ensures Sent(t.log, id) == t.calls[id].bytes
  {
    hide Sent;
    if t.log != s.log {
      var c :| t.log == s.log + [c];
      SentAppend(s.log, c, id);
    }
  }

  /** A step of its own process leaves a write going on, or ends it with all bytes sent, or broken. */
  lemma OwnTurn(s: State, pid: nat, id: nat, rest: seq<byte>)
    requires Sound(s) && !s.locked && id in s.calls && s.calls[id].pid == pid
    requires pid in s.procs && s.procs[pid] == Ready(Write(id, rest))
    ensures Accounted(WriteTurnOf(s, pid, id, rest), id)
  {
    hide Sent, LogOk, Unlock;
    assert ProcOk(pid, s.procs[pid], s.owner, FlagsOf(s), s.log, s.calls);
    Free(s.procs, s.owner, FlagsOf(s), s.log, s.calls);
    NoTransfer(s.procs, s.owner, s.size);
  }

  lemma OwnStep(s: State, pid: nat, k: nat, id: nat)
    requires Sound(s) && Active(s, id) && s.calls[id].pid == pid && MayRun(s, pid)
    ensures Accounted(GoOf(s, pid, k), id)
  {
    hide Sent, Sound, Unlock, WakeRead, WriteTurnOf;
    if s.procs[pid].Ready? && !s.locked {
      OwnTurn(s, pid, id, s.procs[pid].call.rest);
    }
  }

  lemma NoWriterForData(s: State, p: nat)
    requires Sound(s) && p in s.procs
    ensures s.procs[p].OnRead? ==> s.procs[p].call.Read?
  {
    hide Sent, WriteOk, LogOk;
    assert ProcOk(p, s.procs[p], s.owner, FlagsOf(s), s.log, s.calls);
  }

  /** Any step leaves a write going on, or ends it with all bytes sent, or broken, or by a signal. */
  lemma WriteGoesOn(e: Event, s: State, id: nat)
    requires Sound(s) && Active(s, id)
    ensures Accounted(Made(e, s), id) || Cut(e, s, id)
  {
    hide GoOf, Sent, Sound;
    var p := s.calls[id].pid;
    if e.RunProc? && MayRun(s, e.pid) {
      if e.pid == p {
        OwnStep(s, p, e.k, id);
      } else {
        GoFair(s, e.pid, e.k, p);
        GoGrows(s, e.pid, e.k);
      }
    } else if e.Signal? {
      NoWriterForData(s, p);
    }
  }
}
