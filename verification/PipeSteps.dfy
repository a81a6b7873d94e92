/**
 * Pipes step by step, on values: what each branch of the system calls makes of the inode, its processes and its
 * histories. Module Pipe proves that the calls take these steps.
 */
module PipeSteps {
  import opened Sequences

  /** PIPSIZ: a write finding this much in the pipe waits. */
  const PIPSIZ: nat := 4096

  datatype Side = ReadSide | WriteSide

  /** One of the two file structures of the pipe. The process named is in its last close. */
  datatype End = Open | Closing(pid: nat) | Closed

  /** What a process is in the kernel for. A write carries its number and the bytes it has still to write. */
  datatype Call = Read(n: nat) | Write(id: nat, rest: seq<byte>) | Close(side: Side)

  /**
   * Ready to run from the top of its call; asleep on the lock of the inode, for
   * data, or for room; or holding the lock: inside readi, inside writei with
   * sent bytes of the chunk written, or in the update of all inodes.
   */
  datatype Proc =
    | Ready(call: Call) | OnLock(call: Call) | OnRead(call: Call) | OnWrite(call: Call)
    | InRead(n: nat) | InWrite(id: nat, chunk: seq<byte>, sent: nat, rest: seq<byte>) | InUpdate

  /** A completed chunk: the write it belongs to, and its bytes. */
  datatype Chunk = Chunk(id: nat, bytes: seq<byte>)

  /** A write call: who made it, and the bytes. */
  datatype Request = Request(pid: nat, bytes: seq<byte>)

  /** How a step of a process ends. */
  datatype Outcome = Pending | ReadDone(bytes: seq<byte>) | WriteDone(id: nat) | Broken(id: nat) | CloseDone

  /** What can happen: a process enters a call, runs through k bytes at most, gets a signal, or updates the inodes. */
  datatype Event = EnterCall(pid: nat, call: Call) | RunProc(pid: nat, k: nat) | Signal(pid: nat)
                 | StartUpdate(pid: nat)

  function Min(a: nat, b: nat): nat {
    if a < b then a else b
  }

  function Flatten(log: seq<Chunk>): seq<byte> {
    if log == [] then [] else log[0].bytes + Flatten(log[1..])
  }

  /** The bytes that write id has put in the pipe so far. */
  function Sent(log: seq<Chunk>, id: nat): seq<byte> {
    if log == [] then [] else (if log[0].id == id then log[0].bytes else []) + Sent(log[1..], id)
  }

  lemma {:induction false} FlattenAppend(log: seq<Chunk>, more: seq<Chunk>)
    ensures Flatten(log + more) == Flatten(log) + Flatten(more)
  {
    if log == [] {
      assert log + more == more;
    } else {
      assert (log + more)[1..] == log[1..] + more;
      FlattenAppend(log[1..], more);
    }
  }

  lemma {:induction false} SentAppend(log: seq<Chunk>, c: Chunk, id: nat)
    ensures Sent(log + [c], id) == Sent(log, id) + (if c.id == id then c.bytes else [])
  {
    if log == [] {
      assert [c][1..] == [];
    } else {
      assert (log + [c])[1..] == log[1..] + [c];
      SentAppend(log[1..], c, id);
    }
  }

  predicate Holding(q: Proc) {
    q.InRead? || q.InWrite? || q.InUpdate?
  }

  /** The call a process is in, with the chunk it is writing counted as unwritten. */
  function CallOf(q: Proc): Call
    requires !q.InUpdate?
  {
    match q
    case InRead(n) => Read(n)
    case InWrite(id, chunk, sent, rest) => Write(id, chunk + rest)
    case Ready(call) => call
    case OnLock(call) => call
    case OnRead(call) => call
    case OnWrite(call) => call
  }

  /** Wakes the processes asleep on the lock, for data, or for room. */
  function WakeLock(procs: map<nat, Proc>): map<nat, Proc> {
    map p | p in procs :: if procs[p].OnLock? then Ready(procs[p].call) else procs[p]
  }

  /** What prele makes of the processes: those waiting for the lock run if IWANT says there are any. */
  function Unlock(procs: map<nat, Proc>, want: bool): map<nat, Proc> {
    if want then WakeLock(procs) else procs
  }

  /** Process pid is back from its system call. */
  function Without(procs: map<nat, Proc>, pid: nat): (r: map<nat, Proc>)
    ensures pid !in r && forall p :: p in r ==> p in procs && r[p] == procs[p]
  {
    procs - {pid}
  }

  function WakeRead(procs: map<nat, Proc>): map<nat, Proc> {
    map p | p in procs :: if procs[p].OnRead? then Ready(procs[p].call) else procs[p]
  }

  function WakeWrite(procs: map<nat, Proc>): map<nat, Proc> {
    map p | p in procs :: if procs[p].OnWrite? then Ready(procs[p].call) else procs[p]
  }

  function Ends(rEnd: End, wEnd: End): nat {
    (if rEnd.Closed? then 0 else 1) + (if wEnd.Closed? then 0 else 1)
  }

  // ---------------------------------------------------------------------------
  // The steps.

  /**
   * A pipe between two steps: the inode with its flags and the offset of the read side, the processes in calls, the
   * two ends, who holds the lock, every write call so far, the chunks written, and the bytes read.
   */
  datatype State = State(size: nat, data: seq<byte>, offset: nat, count: nat, locked: bool, want: bool, iread: bool,
                         iwrite: bool, procs: map<nat, Proc>, rEnd: End, wEnd: End, owner: nat,
                         calls: map<nat, Request>, log: seq<Chunk>, delivered: seq<byte>)

  /** prele. */
  function Unlocked(s: State): State {
    s.(locked := false, want := false, procs := Unlock(s.procs, s.want))
  }

  /** Process pid is back from its call. */
  function Left(s: State, pid: nat): State {
    s.(procs := Without(s.procs, pid))
  }

  function Moved(s: State, pid: nat, q: Proc): State {
    s.(procs := s.procs[pid := q])
  }

  /** plock by a process that keeps the lock while it sleeps. */
  function Locked(s: State, pid: nat, q: Proc): State {
    Moved(s, pid, q).(locked := true, owner := pid)
  }

  /** readp from its top, the inode free. */
  function ReadTurnOf(s: State, pid: nat, n: nat): State {
    if s.size > 0 then Locked(s, pid, InRead(n))
    else if s.count < 2 then Left(Unlocked(s), pid)
    else Moved(Unlocked(s), pid, OnRead(Read(n))).(iread := true)
  }

  /** writep from its top, the inode free. */
  function WriteTurnOf(s: State, pid: nat, id: nat, rest: seq<byte>): State {
    if rest == [] || s.count < 2 then Left(Unlocked(s), pid)
    else if s.size >= PIPSIZ then Moved(Unlocked(s), pid, OnWrite(Write(id, rest))).(iwrite := true)
    else Locked(s, pid, InWrite(id, rest[..Min(|rest|, PIPSIZ)], 0, rest[Min(|rest|, PIPSIZ)..]))
  }

  /** The last close of an end, the inode free. */
  function CloseTurnOf(s: State, pid: nat, side: Side): State {
    var u := s.(iread := false, iwrite := false, procs := WakeRead(WakeWrite(s.procs)),
                count := if s.count > 0 then s.count - 1 else 0,
                rEnd := if side.ReadSide? then Closed else s.rEnd, wEnd := if side.WriteSide? then Closed else s.wEnd);
    Left(Unlocked(u), pid)
  }

  function TurnOf(s: State, pid: nat, call: Call): State {
    match call
    case Read(n) => ReadTurnOf(s, pid, n)
    case Write(id, rest) => WriteTurnOf(s, pid, id, rest)
    case Close(side) => CloseTurnOf(s, pid, side)
  }

  /** The bytes from the offset on, at most n of them. */
  function NextBytes(s: State, n: nat): seq<byte> {
    if s.offset <= s.size == |s.data| then s.data[s.offset..s.offset + Min(n, s.size - s.offset)] else []
  }

  /** readi. */
  function TakeOf(s: State, n: nat): State {
    s.(offset := s.offset + |NextBytes(s, n)|, delivered := s.delivered + NextBytes(s, n))
  }

  /** A reader that has caught up empties the pipe and wakes the writers. */
  function ResetOf(s: State): State {
    if s.offset != s.size then s
    else s.(offset := 0, size := 0, data := [], iwrite := false,
            procs := if s.iwrite then WakeWrite(s.procs) else s.procs)
  }

  /** readp with the lock held. */
  function ReadEndOf(s: State, pid: nat, n: nat): State {
    Left(Unlocked(ResetOf(TakeOf(s, n))), pid)
  }

  /** writei with the lock held, through the next k bytes of the chunk. */
  function DepositOf(s: State, pid: nat, q: Proc, k: nat): State
    requires q.InWrite?
  {
    if q.sent > |q.chunk| then s
    else
      var sent := Min(q.sent + k, |q.chunk|);
      Moved(s, pid, q.(sent := sent)).(data := s.data + q.chunk[q.sent..sent], size := s.size + (sent - q.sent))
  }

  /** The chunk is written: prele, and the wakeup of the readers. */
  function WriteEndOf(s: State, pid: nat, q: Proc): State
    requires q.InWrite?
  {
    var u := Unlocked(s);
    Moved(u.(iread := false, procs := if u.iread then WakeRead(u.procs) else u.procs,
             log := s.log + [Chunk(q.id, q.chunk)]), pid, Ready(Write(q.id, q.rest)))
  }

  function MoreWritten(s: State, pid: nat, q: Proc, k: nat): State
    requires q.InWrite?
  {
    var u := DepositOf(s, pid, q, k);
    if Min(q.sent + k, |q.chunk|) == |q.chunk| then WriteEndOf(u, pid, q) else u
  }

  predicate MayRun(s: State, pid: nat) {
    pid in s.procs && (s.procs[pid].Ready? || Holding(s.procs[pid]))
  }

  /** A process that can run, runs until it sleeps again, finishes or starts to transfer. */
  function GoOf(s: State, pid: nat, k: nat): State
    requires MayRun(s, pid)
  {
    match s.procs[pid]
    case Ready(call) =>
      if s.locked then Moved(s, pid, OnLock(call)).(want := true) else TurnOf(s, pid, call)
    case InRead(n) => ReadEndOf(s, pid, n)
    case InWrite(id, chunk, sent, rest) => MoreWritten(s, pid, s.procs[pid], k)
    case InUpdate => Left(Unlocked(s.(count := if s.count > 0 then s.count - 1 else 0)), pid)
  }

  /** What it comes back with, if it does. */
  function OutcomeOf(s: State, pid: nat): Outcome
    requires MayRun(s, pid)
  {
    match s.procs[pid]
    case Ready(call) => if s.locked then Pending else OutcomeOfTurn(s, call)
    case InRead(n) => ReadDone(NextBytes(s, n))
    case _ => Pending
  }

  function OutcomeOfTurn(s: State, call: Call): Outcome {
    match call
    case Read(_) => if s.size == 0 && s.count < 2 then ReadDone([]) else Pending
    case Write(id, rest) => if rest == [] then WriteDone(id) else if s.count < 2 then Broken(id) else Pending
    case Close(_) => CloseDone
  }

  /** A process may enter a call on an end that is open; the last close of an end comes when no call is on it. */
  predicate Admits(procs: map<nat, Proc>, rEnd: End, wEnd: End, calls: map<nat, Request>, pid: nat, call: Call) {
    pid !in procs &&
    match call
    case Read(_) => rEnd.Open?
    case Write(id, rest) => wEnd.Open? && id !in calls
    case Close(ReadSide) => rEnd.Open? && forall p :: p in procs && !procs[p].InUpdate? ==> !CallOf(procs[p]).Read?
    case Close(WriteSide) => wEnd.Open? && forall p :: p in procs && !procs[p].InUpdate? ==> !CallOf(procs[p]).Write?
  }

  function EnterOf(s: State, pid: nat, call: Call): State {
    Moved(s, pid, Ready(call)).(
      calls := if call.Write? then s.calls[call.id := Request(pid, call.rest)] else s.calls,
      rEnd := if call == Close(ReadSide) then Closing(pid) else s.rEnd,
      wEnd := if call == Close(WriteSide) then Closing(pid) else s.wEnd)
  }

  /** The pipe after an event; what cannot happen is skipped. */
  function Made(e: Event, s: State): State {
    match e
    case EnterCall(pid, call) =>
      if Admits(s.procs, s.rEnd, s.wEnd, s.calls, pid, call) then EnterOf(s, pid, call) else s
    case RunProc(pid, k) => if MayRun(s, pid) then GoOf(s, pid, k) else s
    case Signal(pid) => if pid in s.procs && (s.procs[pid].OnRead? || s.procs[pid].OnWrite?) then Left(s, pid) else s
    case StartUpdate(pid) =>
      if pid !in s.procs && !s.locked && s.count > 0 then Locked(s, pid, InUpdate).(count := s.count + 1) else s
  }
}
