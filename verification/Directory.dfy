/**
 * A directory as namei, wdir and unlink use it: a file of sixteen-byte slots, an
 * i-number and a name of fourteen characters, searched from the front. It is
 * shown to be a finite map from names to i-numbers.
 */
module Directory {
  import opened Sequences
  import opened FileIO

  const DIRSIZ: nat := 14
  const SLOT: nat := 16      // sizeof(struct direct)

  /** A slot; i-number 0 says that it is empty. */
  datatype Dirent = Dirent(ino: int, name: seq<byte>)

  // ---------------------------------------------------------------------------
  // Components of a path name.

  /** A name as it is kept in a directory: cut, or filled up with zeros. */
  function Padded(s: seq<byte>): (r: seq<byte>)
    ensures |r| == DIRSIZ
  {
    if |s| >= DIRSIZ then s[..DIRSIZ] else s + seq(DIRSIZ - |s|, _ => 0)
  }

  const SLASH: byte := 47

  /** The first component of a path, up to a slash or the end, and the path behind the slashes after it. */
  function Component(path: seq<byte>): (r: seq<byte>)
    ensures |r| <= |path|
  {
    if path == [] || path[0] == SLASH || path[0] == 0 then [] else [path[0]] + Component(path[1..])
  }

  function Behind(path: seq<byte>): seq<byte> {
    if path != [] && path[0] == SLASH then Behind(path[1..]) else path
  }

  lemma {:induction false} ComponentAt(path: seq<byte>, i: nat)
    requires i <= |path| && forall j :: 0 <= j < i ==> path[j] != SLASH && path[j] != 0
    ensures Component(path) == path[..i] + Component(path[i..])
  {
    if i > 0 {
      ComponentAt(path[1..], i - 1);
      assert path[..i] == [path[0]] + path[1..][..i - 1] && path[i..] == path[1..][i - 1..];
    }
  }

  /** The character at place i, or the zero that ends the path. */
  function CharAt(path: seq<byte>, i: nat): byte {
    if i < |path| then path[i] else 0
  }

  method Pad(s: seq<byte>) returns (dbuf: seq<byte>)
    requires |s| <= DIRSIZ
    ensures dbuf == Padded(s)
  {
    dbuf := s;
    while |dbuf| < DIRSIZ
      invariant |s| <= |dbuf| <= DIRSIZ && dbuf == s + seq(|dbuf| - |s|, _ => 0)
    {
      dbuf := dbuf + [0];
    }
  }

  /** The characters of a component, as many as fit. */
  method Take(path: seq<byte>, start: nat) returns (dbuf: seq<byte>, i: nat)
    requires start <= |path|
    ensures i == start + |Component(path[start..])| && |dbuf| <= DIRSIZ
            && Padded(dbuf) == Padded(Component(path[start..]))
  {
    ghost var s := path[start..];
    dbuf := [];
    i := start;
    while CharAt(path, i) != SLASH && CharAt(path, i) != 0
      invariant start <= i <= |path| && forall j :: 0 <= j < i - start ==> s[j] != SLASH && s[j] != 0
      invariant dbuf == if i - start < DIRSIZ then s[..i - start] else s[..DIRSIZ]
      decreases |path| - i
    {
      if |dbuf| < DIRSIZ {
        dbuf := dbuf + [path[i]];
      }
      i := i + 1;
    }
    ComponentAt(s, i - start);
    assert s[i - start..] == path[i..];
    assert Component(s) == s[..i - start];
  }

  method Skip(path: seq<byte>, start: nat) returns (rest: nat)
    requires start <= |path|
    ensures start <= rest <= |path| && path[rest..] == Behind(path[start..])
  {
    rest := start;
    while CharAt(path, rest) == SLASH
      invariant start <= rest <= |path| && Behind(path[rest..]) == Behind(path[start..])
      decreases |path| - rest
    {
      assert path[rest..][1..] == path[rest + 1..];
      rest := rest + 1;
    }
  }

  /** namei gathers a component into u_dbuf; rest is where it then stands in the path. */
  method Gather(path: seq<byte>, start: nat) returns (dbuf: seq<byte>, rest: nat)
    requires start <= |path|
    ensures dbuf == Padded(Component(path[start..]))
    ensures start <= rest <= |path| && path[rest..] == Behind(path[start + |Component(path[start..])|..])
  {
    var i;
    dbuf, i := Take(path, start);
    dbuf := Pad(dbuf);
    rest := Skip(path, i);
  }

  // ---------------------------------------------------------------------------
  // Slots.

  function EntryAt(data: seq<byte>, i: nat): Dirent
    requires SLOT * i + SLOT <= |data|
  {
    Dirent(data[SLOT * i] + 256 * data[SLOT * i + 1] as int, data[SLOT * i + 2..SLOT * i + SLOT])
  }

  function Entries(data: seq<byte>): (r: seq<Dirent>)
    ensures |r| == |data| / SLOT
  {
    seq(|data| / SLOT, i requires 0 <= i < |data| / SLOT => EntryAt(data, i))
  }

  function Encoded(d: Dirent): seq<byte> {
    [Low(d.ino), Low(d.ino / 256)] + d.name
  }

  predicate Proper(d: Dirent) {
    0 <= d.ino < 65536 && |d.name| == DIRSIZ
  }

  /** A slot written at its place, or at the end. */
  lemma WriteSlot(data: seq<byte>, i: nat, d: Dirent)
    requires |data| % SLOT == 0 && SLOT * i <= |data| && Proper(d)
    ensures var out := Overwrite(data, SLOT * i, Encoded(d));
            && |out| % SLOT == 0
            && Entries(out) == if SLOT * i < |data| then Entries(data)[i := d] else Entries(data) + [d]
  {
    var bytes := Encoded(d);
    var out := Overwrite(data, SLOT * i, bytes);
    assert |bytes| == SLOT;
    assert bytes[0] + 256 * bytes[1] as int == d.ino && bytes[2..SLOT] == d.name;
    assert out[SLOT * i..SLOT * i + SLOT] == bytes;
    forall j | 0 <= j < |out| / SLOT
      ensures EntryAt(out, j) == if j == i then d else EntryAt(data, j)
    {
      if j == i {
        assert out[SLOT * i + 2..SLOT * i + SLOT] == out[SLOT * i..SLOT * i + SLOT][2..SLOT];
        assert out[SLOT * i] == out[SLOT * i..SLOT * i + SLOT][0]
               && out[SLOT * i + 1] == out[SLOT * i..SLOT * i + SLOT][1];
      } else {
        assert out[SLOT * j..SLOT * j + SLOT] == data[SLOT * j..SLOT * j + SLOT];
        assert out[SLOT * j + 2..SLOT * j + SLOT] == out[SLOT * j..SLOT * j + SLOT][2..SLOT];
        assert data[SLOT * j + 2..SLOT * j + SLOT] == data[SLOT * j..SLOT * j + SLOT][2..SLOT];
      }
    }
  }

  // ---------------------------------------------------------------------------
  // The map.

  /** The names of a directory and their i-numbers; of two slots with one name, the first one counts. */
  function AsMap(es: seq<Dirent>): map<seq<byte>, int> {
    if es == [] then map[]
    else if es[0].ino == 0 then AsMap(es[1..])
    else AsMap(es[1..])[es[0].name := es[0].ino]
  }

  /** No name is in two slots that are in use. */
  ghost predicate Unique(es: seq<Dirent>) {
    forall i, j :: 0 <= i < j < |es| && es[i].ino != 0 && es[j].ino != 0 ==> es[i].name != es[j].name
  }

  predicate Matches(d: Dirent, name: seq<byte>) {
    d.ino != 0 && d.name == name
  }

  /** A name is in the map if a slot has it, with the i-number of the first that does. */
  lemma {:induction false} InMap(es: seq<Dirent>, name: seq<byte>)
    ensures name in AsMap(es) <==> exists k :: 0 <= k < |es| && Matches(es[k], name)
    ensures forall k :: 0 <= k < |es| && Matches(es[k], name) && (forall j :: 0 <= j < k ==> !Matches(es[j], name)) ==>
              AsMap(es)[name] == es[k].ino
  {
    if es != [] {
      var t := es[1..];
      InMap(t, name);
      assert Matches(es[0], name) || (name in AsMap(es) <==> name in AsMap(t));
      forall k | 0 <= k < |es| && Matches(es[k], name)
        ensures name in AsMap(es)
        ensures (forall j :: 0 <= j < k ==> !Matches(es[j], name)) ==> AsMap(es)[name] == es[k].ino
      {
        if k > 0 {
          assert t[k - 1] == es[k];
          assert (forall j :: 0 <= j < k ==> !Matches(es[j], name)) ==> forall j :: 0 <= j < k - 1 ==>
                 !Matches(t[j], name) by {
            assert forall j :: 0 <= j < k - 1 ==> t[j] == es[j + 1];
          }
        }
      }
    }
  }

  /** A new name in an empty slot. */
  lemma {:induction false} Inserted(es: seq<Dirent>, k: nat, d: Dirent)
    requires k < |es| && es[k].ino == 0 && d.ino != 0 && d.name !in AsMap(es)
    ensures AsMap(es[k := d]) == AsMap(es)[d.name := d.ino]
  {
    if k > 0 {
      assert es[k := d][1..] == es[1..][k - 1 := d];
      assert d.name !in AsMap(es[1..]);
      Inserted(es[1..], k - 1, d);
    } else {
      assert es[k := d][1..] == es[1..];
    }
  }

  lemma {:induction false} Appended(es: seq<Dirent>, d: Dirent)
    requires d.ino != 0 && d.name !in AsMap(es)
    ensures AsMap(es + [d]) == AsMap(es)[d.name := d.ino]
  {
    if es == [] {
      assert [d][1..] == [] && es + [d] == [d];
    } else {
      assert (es + [d])[1..] == es[1..] + [d];
      assert d.name !in AsMap(es[1..]);
      Appended(es[1..], d);
    }
  }

  /** An emptied slot. */
  lemma {:induction false} Removed(es: seq<Dirent>, k: nat)
    requires k < |es| && Unique(es) && es[k].ino != 0
    ensures AsMap(es[k := Dirent(0, es[k].name)]) == AsMap(es) - {es[k].name}
  {
    var e := Dirent(0, es[k].name);
    assert forall i :: 0 <= i < |es[1..]| ==> es[1..][i] == es[i + 1];
    if k > 0 {
      assert es[k := e][1..] == es[1..][k - 1 := e];
      Removed(es[1..], k - 1);
    } else {
      assert es[k := e][1..] == es[1..];
      InMap(es[1..], es[0].name);
    }
  }

  /** The slots with a new one in the place of the first empty one, or behind the last. */
  function InFirstEmpty(es: seq<Dirent>, d: Dirent): seq<Dirent> {
    if es == [] then [d] else if es[0].ino == 0 then [d] + es[1..] else [es[0]] + InFirstEmpty(es[1..], d)
  }

  lemma {:induction false} FirstEmpty(es: seq<Dirent>, k: nat, d: Dirent)
    requires k <= |es| && (k < |es| ==> es[k].ino == 0) && forall j :: 0 <= j < k ==> es[j].ino != 0
    ensures InFirstEmpty(es, d) == if k < |es| then es[k := d] else es + [d]
  {
    if k > 0 {
      FirstEmpty(es[1..], k - 1, d);
    } else if es != [] {
      assert es[0 := d] == [d] + es[1..];
    }
  }

  lemma StillUnique(es: seq<Dirent>, k: nat, d: Dirent)
    requires Unique(es) && k < |es| && (d.ino == 0 || (es[k].ino == 0 && d.name !in AsMap(es)))
    ensures Unique(es[k := d])
  {
    if d.ino != 0 {
      NotThere(es, d.name);
    }
  }

  lemma UniqueAppended(es: seq<Dirent>, d: Dirent)
    requires Unique(es) && d.name !in AsMap(es)
    ensures Unique(es + [d])
  {
    NotThere(es, d.name);
  }

  lemma NotThere(es: seq<Dirent>, name: seq<byte>)
    requires name !in AsMap(es)
    ensures forall k :: 0 <= k < |es| && es[k].ino != 0 ==> es[k].name != name
  {
    InMap(es, name);
    assert forall k :: 0 <= k < |es| ==> !Matches(es[k], name);
  }

  /**
   * What namei makes of the last component: the inode sought, no entry, a place for a new one, or the entry
   * to be removed.
   */
  datatype NameResult = Sought(ino: int) | NoEntry | Place(offset: nat) | Entry(offset: nat, dent: Dirent)

  /** The flag of namei. */
  datatype Purpose = Seek | Make | Remove

  class DirFile {
    var data: seq<byte>

    ghost predicate Valid()
      reads this
    {
      |data| % SLOT == 0 && Unique(Entries(data))
    }

    /** The names in the directory. */
    ghost function Names(): map<seq<byte>, int>
      reads this
    {
      AsMap(Entries(data))
    }

    constructor ()
      ensures Valid() && Names() == map[]
    {
      data := [];
    }

    /** The search: the offset behind the slot that has the name, or 0; and behind the first empty slot, or 0. */
    method Search(dbuf: seq<byte>) returns (offset: nat, dent: Dirent, eo: nat)
      requires Valid()
      ensures offset > 0 ==>
                && offset % SLOT == 0 && offset <= |data| && dent == Entries(data)[offset / SLOT - 1]
                    && Matches(dent, dbuf)
                && dbuf in Names() && Names()[dbuf] == dent.ino
      ensures offset == 0 ==> dbuf !in Names()
      ensures eo > 0 ==> eo % SLOT == 0 && eo <= |data| && Entries(data)[eo / SLOT - 1].ino == 0
                         && forall j :: 0 <= j < eo / SLOT - 1 ==> Entries(data)[j].ino != 0
      ensures offset == 0 && eo == 0 ==> forall k :: 0 <= k < |Entries(data)| ==> Entries(data)[k].ino != 0
    {
      hide AsMap, Entries, Unique;
      ghost var es := Entries(data);
      SlotCount(data);
      offset, eo := 0, 0;
      var at: nat := 0;
      ghost var k: nat := 0;
      dent := Dirent(0, []);
      while at < |data|
        invariant at == SLOT * k && k <= |es|
        invariant forall j :: 0 <= j < k ==> !Matches(es[j], dbuf)
        invariant eo > 0 ==> eo % SLOT == 0 && eo <= at && es[eo / SLOT - 1].ino == 0
                             && forall j :: 0 <= j < eo / SLOT - 1 ==> es[j].ino != 0
        invariant eo == 0 ==> forall j :: 0 <= j < k ==> es[j].ino != 0
        decreases |data| - at
      {
        dent := EntryAt(data, at / SLOT);
        EntriesAt(data, k);
        at := at + SLOT;
        if dent.ino == 0 {
          if eo == 0 {
            eo := at;
          }
        } else if dent.name == dbuf {
          offset := at;
          FoundFirst(es, dbuf, k);
          return;
        }
        k := k + 1;
      }
      FoundNone(es, dbuf);
    }

    /** namei, for the last component. */
    method Namei(dbuf: seq<byte>, flag: Purpose) returns (r: NameResult)
      requires Valid()
      ensures r.Sought? ==> dbuf in Names() && r.ino == Names()[dbuf] && !flag.Remove?
      ensures r.NoEntry? <==> dbuf !in Names() && !flag.Make?
      ensures r.Place? <==> dbuf !in Names() && flag.Make?
      ensures r.Place? ==> r.offset % SLOT == 0 && r.offset <= |data|
                           && (r.offset < |data| ==> Entries(data)[r.offset / SLOT].ino == 0)
                           && forall k :: 0 <= k < r.offset / SLOT ==> Entries(data)[k].ino != 0
      ensures r.Entry? <==> dbuf in Names() && flag.Remove?
      ensures r.Entry? ==>
              0 < r.offset <= |data| && r.offset % SLOT == 0 && r.dent == Entries(data)[r.offset / SLOT - 1]
                           && Matches(r.dent, dbuf) && r.dent.ino == Names()[dbuf]
    {
      hide AsMap, Entries;
      var offset, dent, eo := Search(dbuf);
      if offset == 0 {
        if flag.Make? {
          r := Place(if eo > 0 then eo - SLOT else |data|);
        } else {
          r := NoEntry;
        }
      } else if flag.Remove? {
        r := Entry(offset, dent);
      } else {
        r := Sought(dent.ino);
      }
    }

    /**
     * creat and link: a name that is there keeps its i-number; a new one goes into the first empty slot, or
     * behind the last.
     */
    method Enter(dbuf: seq<byte>, ino: int) returns (r: int)
      requires Valid() && 0 < ino < 65536 && |dbuf| == DIRSIZ
      modifies this
      ensures Valid()
      ensures r == if dbuf in old(Names()) then old(Names())[dbuf] else ino
      ensures Names() == if dbuf in old(Names()) then old(Names()) else old(Names())[dbuf := ino]
      ensures Entries(data) == if dbuf in old(Names()) then old(Entries(data))
              else InFirstEmpty(old(Entries(data)), Dirent(ino, dbuf))
    {
      hide AsMap, Unique, Entries;
      var n := Namei(dbuf, Make);
      if n.Sought? {
        return n.ino;
      }
      var d := Dirent(ino, dbuf);
      SlotCount(data);
      WriteSlot(data, n.offset / SLOT, d);
      if n.offset < |data| {
        Inserted(Entries(data), n.offset / SLOT, d);
        StillUnique(Entries(data), n.offset / SLOT, d);
      } else {
        Appended(Entries(data), d);
        UniqueAppended(Entries(data), d);
      }
      FirstEmpty(Entries(data), n.offset / SLOT, d);
      data := Overwrite(data, n.offset, Encoded(d));
      SlotCount(data);
      r := ino;
    }

    /** unlink: empties the slot of a name, and no other. */
    method Unlink(dbuf: seq<byte>) returns (r: NameResult)
      requires Valid()
      modifies this
      ensures Valid() && |data| == |old(data)|
      ensures dbuf !in old(Names()) ==> r == NoEntry && data == old(data)
      ensures dbuf in old(Names()) ==> r.Entry? && r.dent.ino == old(Names())[dbuf] && Names() == old(Names()) - {dbuf}
      ensures r.Entry? ==> SLOT <= r.offset <= |data| && Matches(old(Entries(data))[r.offset / SLOT - 1], dbuf)
                           && Entries(data) == old(Entries(data))[r.offset / SLOT - 1 := Dirent(0, dbuf)]
    {
      hide AsMap, Unique, Entries;
      r := Namei(dbuf, Remove);
      if r.NoEntry? {
        return;
      }
      var d := Dirent(0, r.dent.name);
      SlotCount(data);
      ProperEntry(data, r.offset / SLOT - 1);
      WriteSlot(data, r.offset / SLOT - 1, d);
      Removed(Entries(data), r.offset / SLOT - 1);
      StillUnique(Entries(data), r.offset / SLOT - 1, d);
      data := Overwrite(data, r.offset - SLOT, Encoded(d));
      SlotCount(data);
    }

    /** Any sequence of operations does to the directory what it does to a map. */
    method Run(ops: seq<Op>) returns (ghost m: map<seq<byte>, int>)
      requires Valid() && forall op :: op in ops ==> |op.name| == DIRSIZ && (op.Creates? ==> 0 < op.ino < 65536)
      modifies this
      ensures Valid() && m == Applied(old(Names()), ops) && Names() == m
    {
      hide AsMap, Unique, Entries;
      m := Names();
      assert ops[..0] == [];
      for i := 0 to |ops|
        invariant Valid() && m == Names() == Applied(old(Names()), ops[..i])
      {
        assert ops[i] in ops;
        AppliedNext(old(Names()), ops[..i], ops[i]);
        assert ops[..i + 1] == ops[..i] + [ops[i]];
        match ops[i] {
          case Creates(name, ino) =>
            var r := Enter(name, ino);
          case Unlinks(name) =>
            var r := Unlink(name);
        }
        m := Names();
      }
      assert ops[..|ops|] == ops;
    }
  }

  datatype Op = Creates(name: seq<byte>, ino: int) | Unlinks(name: seq<byte>)

  /** What an operation does to a map. */
  function AppliedOne(m: map<seq<byte>, int>, op: Op): map<seq<byte>, int> {
    match op
    case Creates(name, ino) => if name in m then m else m[name := ino]
    case Unlinks(name) => m - {name}
  }

  function Applied(m: map<seq<byte>, int>, ops: seq<Op>): map<seq<byte>, int> {
    if ops == [] then m else AppliedOne(Applied(m, ops[..|ops| - 1]), ops[|ops| - 1])
  }

  lemma AppliedNext(m: map<seq<byte>, int>, ops: seq<Op>, op: Op)
    ensures Applied(m, ops + [op]) == AppliedOne(Applied(m, ops), op)
  {
    assert (ops + [op])[..|ops|] == ops;
  }

  lemma EntriesAt(data: seq<byte>, k: nat)
    requires SLOT * k + SLOT <= |data|
    ensures k < |Entries(data)| && Entries(data)[k] == EntryAt(data, k)
  {
  }

  lemma FoundFirst(es: seq<Dirent>, name: seq<byte>, k: nat)
    requires k < |es| && Matches(es[k], name) && forall j :: 0 <= j < k ==> !Matches(es[j], name)
    ensures name in AsMap(es) && AsMap(es)[name] == es[k].ino
  {
    InMap(es, name);
  }

  lemma FoundNone(es: seq<Dirent>, name: seq<byte>)
    requires forall j :: 0 <= j < |es| ==> !Matches(es[j], name)
    ensures name !in AsMap(es)
  {
    InMap(es, name);
  }

  lemma SlotCount(data: seq<byte>)
    requires |data| % SLOT == 0
    ensures |data| == SLOT * |Entries(data)|
  {
  }

  lemma ProperEntry(data: seq<byte>, i: nat)
    requires SLOT * i + SLOT <= |data|
    ensures i < |Entries(data)| && Proper(Entries(data)[i])
  {
  }
}
