/**
 * Circular doubly linked lists threaded through a table: f and b hold the
 * forward and backward link of every table entry.
 */
module Rings {
  import opened Sequences

  /** Node i of the ring: the header h comes before the first element and after the last. */
  function Node(h: int, s: seq<int>, i: nat): int
    requires i <= |s| + 1
  {
    if i == 0 || i == |s| + 1 then h else s[i - 1]
  }

  ghost predicate Ring(f: seq<int>, b: seq<int>, h: int, s: seq<int>) {
    && |f| == |b| && 0 <= h < |f| && h !in s && Distinct(s)
    && (forall i :: 0 <= i <= |s| + 1 ==> 0 <= Node(h, s, i) < |f|)
    && forall i :: 0 <= i <= |s| ==> f[Node(h, s, i)] == Node(h, s, i + 1) && b[Node(h, s, i + 1)] == Node(h, s, i)
  }

  function Without(s: seq<int>, x: int): seq<int> {
    if s == [] then [] else if s[0] == x then s[1..] else [s[0]] + Without(s[1..], x)
  }

  lemma {:induction false} WithoutIs(s: seq<int>, x: int, k: nat)
    requires k < |s| && s[k] == x && Distinct(s)
    ensures Without(s, x) == s[..k] + s[k + 1..]
    ensures forall y :: y in Without(s, x) <==> y in s && y != x
  {
    if k == 0 {
      assert s[..0] + s[1..] == s[1..];
    } else {
      assert s[0] != s[k];
      assert Distinct(s[1..]);
      WithoutIs(s[1..], x, k - 1);
      assert s[..k] + s[k + 1..] == [s[0]] + (s[1..][..k - 1] + s[1..][k..]);
    }
    assert s == [s[0]] + s[1..];
  }

  lemma Position(s: seq<int>, x: int) returns (k: nat)
    requires x in s
    ensures k < |s| && s[k] == x
  {
    k :| k < |s| && s[k] == x;
  }

  /** Unlinking an element. */
  lemma RingRemove(f: seq<int>, b: seq<int>, h: int, s: seq<int>, x: int)
    requires Ring(f, b, h, s) && x in s
    ensures 0 <= x < |f| && 0 <= f[x] < |f| && 0 <= b[x] < |f|
    ensures (f[x] == h || f[x] in s) && (b[x] == h || b[x] in s) && f[x] != x && b[x] != x
    ensures Ring(f[b[x] := f[x]], b[f[x] := b[x]], h, Without(s, x))
    ensures forall y :: y in Without(s, x) <==> y in s && y != x
  {
    var k := Position(s, x);
    RingRemoveAt(f, b, h, s, k);
  }

  lemma RingRemoveAt(f: seq<int>, b: seq<int>, h: int, s: seq<int>, k: nat)
    requires Ring(f, b, h, s) && k < |s|
    ensures var x := s[k];
            && 0 <= x < |f| && 0 <= f[x] < |f| && 0 <= b[x] < |f|
            && (f[x] == h || f[x] in s) && (b[x] == h || b[x] in s) && f[x] != x && b[x] != x
            && Ring(f[b[x] := f[x]], b[f[x] := b[x]], h, Without(s, x))
            && forall y :: y in Without(s, x) <==> y in s && y != x
  {
    var x := s[k];
    WithoutIs(s, x, k);
    Neighbours(f, b, h, s, k);
    RingShorter(f, b, h, s, Without(s, x), k);
  }

  lemma Neighbours(f: seq<int>, b: seq<int>, h: int, s: seq<int>, k: nat)
    requires Ring(f, b, h, s) && k < |s|
    ensures var x := s[k];
            && 0 <= x < |f| && 0 <= f[x] < |f| && 0 <= b[x] < |f|
            && f[x] == Node(h, s, k + 2) && b[x] == Node(h, s, k)
            && (f[x] == h || f[x] in s) && (b[x] == h || b[x] in s) && f[x] != x && b[x] != x
  {
    assert Node(h, s, k + 1) == s[k];
    assert f[Node(h, s, k + 1)] == Node(h, s, k + 2);
    assert b[Node(h, s, k + 1)] == Node(h, s, k);
  }

  lemma RingShorter(f: seq<int>, b: seq<int>, h: int, s: seq<int>, t: seq<int>, k: nat)
    requires Ring(f, b, h, s) && k < |s| && t == s[..k] + s[k + 1..]
    ensures Ring(f[Node(h, s, k) := Node(h, s, k + 2)], b[Node(h, s, k + 2) := Node(h, s, k)], h, t)
  {
    NodesDistinct(h, s);
    assert forall i :: 0 <= i <= |t| + 1 ==> Node(h, t, i) == Node(h, s, if i <= k then i else i + 1);
    var f', b' := f[Node(h, s, k) := Node(h, s, k + 2)], b[Node(h, s, k + 2) := Node(h, s, k)];
    forall i | 0 <= i <= |t|
      ensures f'[Node(h, t, i)] == Node(h, t, i + 1) && b'[Node(h, t, i + 1)] == Node(h, t, i)
    {
      var j := if i <= k then i else i + 1;
      assert f[Node(h, s, j)] == Node(h, s, j + 1) && b[Node(h, s, j + 1)] == Node(h, s, j);
    }
    assert Distinct(t) by {
      assert forall i :: 0 <= i < |t| ==> t[i] == Node(h, t, i + 1);
    }
  }

  lemma NodesDistinct(h: int, s: seq<int>)
    requires h !in s && Distinct(s)
    ensures forall i, j :: 0 <= i < j <= |s| ==> Node(h, s, i) != Node(h, s, j)
    ensures forall i, j :: 1 <= i < j <= |s| + 1 ==> Node(h, s, i) != Node(h, s, j)
  {
  }

  /** Links of other entries may change freely. */
  lemma RingFrame(f: seq<int>, b: seq<int>, f': seq<int>, b': seq<int>, h: int, s: seq<int>)
    requires Ring(f, b, h, s) && |f'| == |b'| == |f|
    requires f'[h] == f[h] && b'[h] == b[h]
    requires forall x :: x in s && 0 <= x < |f| ==> f'[x] == f[x] && b'[x] == b[x]
    ensures Ring(f', b', h, s)
  {
    forall i | 0 <= i <= |s|
      ensures f'[Node(h, s, i)] == Node(h, s, i + 1) && b'[Node(h, s, i + 1)] == Node(h, s, i)
    {
      assert f[Node(h, s, i)] == Node(h, s, i + 1);
      assert Node(h, s, i) == h || Node(h, s, i) in s;
      assert Node(h, s, i + 1) == h || Node(h, s, i + 1) in s;
    }
  }

  /** Linking an entry in behind the header. */
  lemma RingFront(f: seq<int>, b: seq<int>, h: int, s: seq<int>, x: int)
    requires Ring(f, b, h, s) && 0 <= x < |f| && x != h && x !in s
    ensures 0 <= f[h] < |f| && (f[h] == h || f[h] in s) && f[h] != x
    ensures Ring(f[x := f[h]][h := x], b[x := h][f[h] := x], h, [x] + s)
  {
    var t := [x] + s;
    assert forall i :: 1 <= i <= |t| + 1 ==> Node(h, t, i) == if i == 1 then x else Node(h, s, i - 1);
    assert f[Node(h, s, 0)] == Node(h, s, 1);
    NodesDistinct(h, s);
    NodesDistinct(h, t);
    var f', b' := f[x := f[h]][h := x], b[x := h][f[h] := x];
    forall i | 0 <= i <= |t|
      ensures f'[Node(h, t, i)] == Node(h, t, i + 1) && b'[Node(h, t, i + 1)] == Node(h, t, i)
    {
      if i > 0 {
        assert f[Node(h, s, i - 1)] == Node(h, s, i);
      }
    }
  }

  /** Linking an entry in before the header. */
  lemma RingBack(f: seq<int>, b: seq<int>, h: int, s: seq<int>, x: int)
    requires Ring(f, b, h, s) && 0 <= x < |f| && x != h && x !in s
    ensures 0 <= b[h] < |f| && (b[h] == h || b[h] in s) && b[h] != x
    ensures Ring(f[b[h] := x][x := h], b[x := b[h]][h := x], h, s + [x])
  {
    var t := s + [x];
    assert forall i :: 0 <= i <= |t| ==> Node(h, t, i) == if i == |t| then x else Node(h, s, i);
    assert b[Node(h, s, |s| + 1)] == Node(h, s, |s|);
    NodesDistinct(h, s);
    NodesDistinct(h, t);
    var f', b' := f[b[h] := x][x := h], b[x := b[h]][h := x];
    forall i | 0 <= i <= |t|
      ensures f'[Node(h, t, i)] == Node(h, t, i + 1) && b'[Node(h, t, i + 1)] == Node(h, t, i)
    {
      if i < |s| {
        assert f[Node(h, s, i)] == Node(h, s, i + 1);
      }
    }
  }

  /** The first element, and the successor of an element, of a ring. */
  lemma RingNext(f: seq<int>, b: seq<int>, h: int, s: seq<int>, i: nat)
    requires Ring(f, b, h, s) && i <= |s|
    ensures 0 <= Node(h, s, i) < |f| && 0 <= Node(h, s, i + 1) < |f| && f[Node(h, s, i)] == Node(h, s, i + 1)
    ensures Node(h, s, i + 1) == h <==> i == |s|
  {
    assert i < |s| ==> s[i] in s;
    assert i > 0 ==> s[i - 1] in s;
  }
}
