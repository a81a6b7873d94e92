/**
 * Swapping, texts, exec, fork and exit step by step, on values: what each operation makes of the tables and of the
 * free runs of the swap map. Module SwapSpace proves that the operations take these steps.
 */
module SwapSteps {
  import opened ResourceMap

  /**
   * A process: out when it is not in core, with its image of size units at swaddr, partly
   * written if part, swsize units of it; text is its text segment, or -1.
   */
  datatype Proc = Proc(out: bool, part: bool, size: int, swaddr: int, swsize: int, text: int)

  /** A text segment; inode 0 says that the slot is free. */
  datatype Text = Text(iptr: int, count: int, ccount: int, size: int, daddr: int)

  /** Who owns a unit of swap space: a process that is out, a text, or the arguments of an exec. */
  datatype Owner = OfProc(k: nat) | OfText(k: nat) | OfExec(k: nat)

  datatype Range = Range(addr: int, size: int)

  /** The tables; execs gives the argument area of each exec that is under way. */
  datatype Tables = Tables(procs: seq<Proc>, texts: seq<Text>, execs: map<nat, int>)

  /** NCARGS in units. */
  const ARGS: nat := 10

  function RangeOf(s: Tables, o: Owner): Range {
    match o
    case OfProc(k) => if k < |s.procs| && s.procs[k].out then Range(s.procs[k].swaddr, s.procs[k].size) else Range(0, 0)
    case OfText(k) => if k < |s.texts| && s.texts[k].iptr != 0 then Range(s.texts[k].daddr, s.texts[k].size)
        else Range(0, 0)
    case OfExec(k) => if k in s.execs then Range(s.execs[k], ARGS) else Range(0, 0)
  }

  predicate Holds(r: Range, u: int) {
    r.addr <= u < r.addr + r.size
  }

  /** A range can be given back without the loss of the terminator: there is an entry to spare, or it joins a run. */
  ghost predicate Spare(runs: seq<Entry>, entries: nat, addr: int, size: int) {
    |runs| + 1 < entries || (size >= 0 && Touches(runs, size, addr))
  }

  /** Nowhere are size units free together. */
  ghost predicate Full(runs: seq<Entry>, size: nat) {
    forall b :: !Fits(runs, b, size)
  }

  /** A process and at most one text change. */
  function Changed(s: Tables, j: nat, p: Proc, x: int, tx: Text): Tables
    requires j < |s.procs| && x < |s.texts|
  {
    s.(procs := s.procs[j := p], texts := if x < 0 then s.texts else s.texts[x := tx])
  }

  const NOTEXT := Text(0, 0, 0, 0, 0)

  datatype Outcome = Done | NoSlot | NoSpace

  /** How a step ends: the kernel panics without swap space, and reads past the map when that has no terminator. */
  datatype End = GoesOn | Panics | NoTerminator

  datatype Event = SwapsOut(k: nat, blocks: nat) | SwapsIn(k: nat, room: bool)
                 | Attaches(k: nat, ip: int, ts: nat, room: bool)
                 | Detaches(k: nat, sticky: bool) | Drops(x: nat) | Resizes(k: nat, size: int)
                 | Forks(k: nat, c: nat, room: bool)
                 | Collects(id: nat) | Finishes(id: nat)

  // ---------------------------------------------------------------------------
  // The steps.

  /** The tables, the free runs of the swap map, and how many entries it has. */
  datatype Space = Space(t: Tables, runs: seq<Entry>, entries: nat)

  /** The first slot, from i on, of the text of inode ip; with ip 0, the first free slot. -1 if there is none. */
  function SlotFrom(texts: seq<Text>, ip: int, i: nat): (x: int)
    ensures -1 <= x < |texts| && (x >= 0 ==> i <= x && texts[x].iptr == ip)
    ensures forall j :: i <= j < (if x < 0 then |texts| else x) ==> texts[j].iptr != ip
    decreases |texts| - i
  {
    if i >= |texts| then -1 else if texts[i].iptr == ip then i else SlotFrom(texts, ip, i + 1)
  }

  /** One process less in core uses the text of process k. */
  function LessInCore(s: Tables, k: nat): seq<Text>
    requires k < |s.procs|
  {
    var x := s.procs[k].text;
    if 0 <= x < |s.texts| && s.texts[x].ccount != 0 then s.texts[x := s.texts[x].(ccount := s.texts[x].ccount - 1)]
    else s.texts
  }

  /** Process k goes out to address a; none of it has been written yet. */
  function OutAt(s: Tables, k: nat, a: int): Tables
    requires k < |s.procs|
  {
    s.(procs := s.procs[k := s.procs[k].(out := true, part := false, swaddr := a, swsize := 0)],
       texts := LessInCore(s, k))
  }

  /** Some more of a process on its way out has gone; 0 blocks means all of it. */
  function Gone(s: Tables, k: nat, blocks: nat): Tables
    requires k < |s.procs|
  {
    var p := s.procs[k];
    if blocks == 0 then s
    else s.(procs := s.procs[k := p.(swsize := p.swsize + blocks, part := p.swsize + blocks != p.size)])
  }

  /** The space a process takes when it goes out is the lowest that there is. */
  ghost predicate GoesOut(s: Space, k: nat, t: Space, after: Tables) {
    && k < |s.t.procs| && k < |t.t.procs|
    && var size, a := s.t.procs[k].size, t.t.procs[k].swaddr;
       && size >= 0 && a != 0 && Granted(s.runs, t.runs, size, a) && t.entries == s.entries && t.t == after
  }

  /** xswap: ok is false if there is no space. */
  ghost predicate SwappedOut(s: Space, k: nat, blocks: nat, ok: bool, t: Space)
    requires k < |s.t.procs|
  {
    var p := s.t.procs[k];
    if p.part then ok && t == s.(t := Gone(s.t, k, blocks))
    else if p.size >= 0 && Full(s.runs, p.size) then !ok && t == s
    else
      ok && k < |t.t.procs|
      && GoesOut(s, k, t, Gone(OutAt(s.t, k, t.t.procs[k].swaddr), k, blocks))
  }

  /** The range r is free again, and the tables are after. */
  ghost predicate GivenBack(s: Space, r: Range, t: Space, after: Tables) {
    r.size >= 0 && Returned(s.runs, t.runs, r.size, r.addr) && t.entries == s.entries && t.t == after
  }

  function InAgain(s: Tables, k: nat): Tables
    requires k < |s.procs|
  {
    var x := s.procs[k].text;
    s.(procs := s.procs[k := s.procs[k].(out := false, part := false)],
       texts := if 0 <= x < |s.texts| then s.texts[x := s.texts[x].(ccount := s.texts[x].ccount + 1)] else s.texts)
  }

  /** One more process uses text x, in core if so said. */
  function Attached(s: Tables, k: nat, x: nat, core: bool): Tables
    requires k < |s.procs| && x < |s.texts|
  {
    var tx := s.texts[x];
    s.(procs := s.procs[k := s.procs[k].(text := x)],
       texts := s.texts[x := tx.(count := tx.count + 1, ccount := tx.ccount + if core then 1 else 0)])
  }

  /** xalloc once the slot is known: without core for a text that is not in core, the process goes out. */
  ghost predicate AttachedTo(s: Space, k: nat, x: nat, room: bool, r: Outcome, t: Space)
    requires k < |s.t.procs| && x < |s.t.texts|
  {
    if s.t.texts[x].ccount != 0 || room then r.Done? && t == s.(t := Attached(s.t, k, x, true))
    else if s.t.procs[k].size >= 0 && Full(s.runs, s.t.procs[k].size) then r.NoSpace? && t == s
    else
      r.Done? && k < |t.t.procs|
      && GoesOut(s, k, t, Attached(OutAt(s.t, k, t.t.procs[k].swaddr), k, x, false))
  }

  /** A new text in slot x, at address a. */
  function TextAdded(s: Tables, x: nat, ip: int, ts: nat, a: int): Tables
    requires x < |s.texts|
  {
    s.(texts := s.texts[x := Text(ip, 0, 0, ts, a)])
  }

  ghost predicate TextIsNew(s: Space, x: nat, ip: int, ts: nat, t: Space) {
    && x < |s.t.texts| && x < |t.t.texts|
    && var a := t.t.texts[x].daddr;
       a != 0 && Granted(s.runs, t.runs, ts, a) && t == s.(t := TextAdded(s.t, x, ip, ts, a), runs := t.runs)
  }

  /** xalloc: to the text of inode ip if there is one, and else to a new one in the first free slot. */
  ghost predicate TextFound(s: Space, k: nat, ip: int, ts: nat, room: bool, r: Outcome, t: Space)
    requires k < |s.t.procs|
  {
    var x, free := SlotFrom(s.t.texts, ip, 0), SlotFrom(s.t.texts, 0, 0);
    if x >= 0 then AttachedTo(s, k, x, room, r, t)
    else if free < 0 then r.NoSlot? && t == s
    else if Full(s.runs, ts) then r.NoSpace? && t == s
    else exists u: Space :: TextIsNew(s, free, ip, ts, u) && AttachedTo(u, k, free, room, r, t)
  }

  /** Process k gives up its text; the last user takes it along, unless it is to be kept. */
  predicate LastUser(s: Tables, k: nat, sticky: bool)
    requires k < |s.procs|
  {
    var x := s.procs[k].text;
    0 <= x < |s.texts| && s.texts[x].count == 1 && !sticky
  }

  function Detached(s: Tables, k: nat, sticky: bool): Tables
    requires k < |s.procs|
  {
    var x := s.procs[k].text;
    if !(0 <= x < |s.texts|) then s
    else
      s.(procs := s.procs[k := s.procs[k].(text := -1)],
         texts := if LastUser(s, k, sticky) then s.texts[x := s.texts[x].(iptr := 0, count := 0)]
                  else LessInCore(s, k)[x := LessInCore(s, k)[x].(count := s.texts[x].count - 1)])
  }

  /** newproc: the child in slot c gets the size and the text of its parent; without room it goes out at once. */
  function Copied(s: Tables, k: nat, c: nat): Tables
    requires k < |s.procs| && c < |s.procs|
  {
    var u := s.(procs := s.procs[c := s.procs[c].(size := s.procs[k].size)]);
    var x := u.procs[k].text;
    if 0 <= x < |s.texts| then Attached(u, c, x, true) else u
  }

  ghost predicate Forked(s: Space, k: nat, c: nat, room: bool, ok: bool, t: Space)
    requires k < |s.t.procs| && c < |s.t.procs|
  {
    var u := s.(t := Copied(s.t, k, c));
    if room then ok && t == u else SwappedOut(u, c, 0, ok, t)
  }

  ghost predicate ExecStarted(s: Space, id: nat, ok: bool, t: Space) {
    if Full(s.runs, ARGS) then !ok && t == s
    else
      && ok && id in t.t.execs && t.t.execs[id] != 0 && Granted(s.runs, t.runs, ARGS, t.t.execs[id])
      && t == s.(t := s.t.(execs := s.t.execs[id := t.t.execs[id]]), runs := t.runs)
  }

  /** Whether an event can happen; what cannot is skipped. */
  predicate Possible(e: Event, s: Tables) {
    match e
    case SwapsOut(k, blocks) =>
      && k < |s.procs| && (s.procs[k].out ==> s.procs[k].part && blocks > 0)
      && (blocks > 0 ==> blocks <= s.procs[k].size)
    case SwapsIn(k, _) => k < |s.procs| && s.procs[k].out
    case Attaches(k, ip, ts, _) => k < |s.procs| && !s.procs[k].out && s.procs[k].text == -1 && ip != 0 && ts > 0
    case Detaches(k, _) => k < |s.procs| && !s.procs[k].out
    case Drops(x) => x < |s.texts| && s.texts[x].iptr != 0
    case Resizes(k, size) => k < |s.procs| && !s.procs[k].out && size > 0
    case Forks(k, c, _) =>
      && k < |s.procs| && c < |s.procs| && k != c && !s.procs[k].out && !s.procs[c].out && s.procs[c].text == -1
    case Collects(id) => id !in s.execs
    case Finishes(id) => id in s.execs
  }

  /** The range that an event gives back, if any. */
  function Returns(e: Event, s: Tables): Range
    requires Possible(e, s)
  {
    match e
    case SwapsIn(k, room) => if room then RangeOf(s, OfProc(k)) else Range(0, 0)
    case Detaches(k, sticky) => if LastUser(s, k, sticky) then RangeOf(s, OfText(s.procs[k].text)) else Range(0, 0)
    case Drops(x) => if s.texts[x].count == 0 then RangeOf(s, OfText(x)) else Range(0, 0)
    case Finishes(id) => RangeOf(s, OfExec(id))
    case _ => Range(0, 0)
  }

  /** What an event makes of swap space; ok is false if it finds no space where it needs some. */
  ghost predicate Made(e: Event, s: Space, ok: bool, t: Space) {
    if !Possible(e, s.t) then ok && t == s
    else match e
      case SwapsOut(k, blocks) => SwappedOut(s, k, blocks, ok, t)
      case SwapsIn(k, room) => ok && if room then GivenBack(s, Returns(e, s.t), t, InAgain(s.t, k)) else t == s
      case Attaches(k, ip, ts, room) => exists r :: TextFound(s, k, ip, ts, room, r, t) && ok == !r.NoSpace?
      case Detaches(k, sticky) =>
        ok && if LastUser(s.t, k, sticky) then GivenBack(s, Returns(e, s.t), t, Detached(s.t, k, sticky))
              else t == s.(t := Detached(s.t, k, sticky))
      case Drops(x) =>
        ok && if s.t.texts[x].count != 0 then t == s
              else GivenBack(s, Returns(e, s.t), t, s.t.(texts := s.t.texts[x := s.t.texts[x].(iptr := 0)]))
      case Resizes(k, size) =>
        ok && t == s.(t := s.t.(procs := s.t.procs[k := s.t.procs[k].(size := size)]))
      case Forks(k, c, room) => Forked(s, k, c, room, ok, t)
      case Collects(id) => ExecStarted(s, id, ok, t)
      case Finishes(id) => ok && GivenBack(s, Returns(e, s.t), t, s.t.(execs := s.t.execs - {id}))
  }

  /** The map loses its terminator when a range that joins no run comes back and there is no entry to spare for it. */
  ghost predicate Loses(e: Event, s: Space) {
    Possible(e, s.t) && Returns(e, s.t).size > 0
    && !Spare(s.runs, s.entries, Returns(e, s.t).addr, Returns(e, s.t).size)
  }

  /** A step, and how it ends. */
  ghost predicate Follows(e: Event, s: Space, t: Space, end: End) {
    && (end.NoTerminator? <==> Loses(e, s))
    && Made(e, s, !end.Panics?, t)
  }

  /**
   * How xalloc ends, from the state before: no slot exactly if the text has none and all are used; no space exactly
   * if it needs a slot and there is none for the text in swap space, or it has to go out and there is none for
   * its image. Otherwise the process has the text, with one user more, and every other text and process is as it was.
   */
  lemma XallocCases(s: Space, k: nat, ip: int, ts: nat, room: bool, r: Outcome, t: Space)
    requires k < |s.t.procs| && s.t.procs[k].text == -1 && !s.t.procs[k].out && s.t.procs[k].size > 0
    requires ip != 0 && ts > 0
    requires TextFound(s, k, ip, ts, room, r, t)
    ensures r.NoSlot? <==> forall x :: 0 <= x < |s.t.texts| ==> s.t.texts[x].iptr != ip && s.t.texts[x].iptr != 0
    ensures var x := SlotFrom(s.t.texts, ip, 0);
            x >= 0 ==> (r.NoSpace? <==> s.t.texts[x].ccount == 0 && !room && Full(s.runs, s.t.procs[k].size))
    ensures SlotFrom(s.t.texts, ip, 0) < 0 && !r.NoSlot? && Full(s.runs, ts) ==> r.NoSpace? && t == s
    ensures SlotFrom(s.t.texts, ip, 0) < 0 && !r.NoSlot? && !Full(s.runs, ts) ==>
              (r.NoSpace? <==> !room && Full(t.runs, s.t.procs[k].size) && !t.t.procs[k].out)
    ensures |t.t.texts| == |s.t.texts| && |t.t.procs| == |s.t.procs|
    ensures forall j :: 0 <= j < |s.t.procs| && j != k ==> t.t.procs[j] == s.t.procs[j]
    ensures r.Done? ==>
              var x := if SlotFrom(s.t.texts, ip, 0) >= 0 then SlotFrom(s.t.texts, ip, 0)
                  else SlotFrom(s.t.texts, 0, 0);
              && x >= 0 && t.t.procs[k].text == x && t.t.texts[x].iptr == ip
              && t.t.texts[x].count == (if s.t.texts[x].iptr == ip then s.t.texts[x].count else 0) + 1
              && forall j :: 0 <= j < |s.t.texts| && j != x ==> t.t.texts[j] == s.t.texts[j]
  {
    hide Granted, Full;
    var x := SlotFrom(s.t.texts, ip, 0);
    if x < 0 && !r.NoSlot? && !Full(s.runs, ts) {
      var free := SlotFrom(s.t.texts, 0, 0);
      var u: Space :| TextIsNew(s, free, ip, ts, u) && AttachedTo(u, k, free, room, r, t);
    }
  }
}
