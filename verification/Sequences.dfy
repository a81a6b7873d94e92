/** Bytes, and facts about reversal, distinctness, multisets and cardinality shared by the other modules. */
module Sequences {
  type byte = x: int | 0 <= x < 256

  /** The low byte of a number: what a char keeps of it. */
  function Low(x: int): byte {
    x % 256
  }

  ghost predicate Distinct<T>(s: seq<T>) {
    forall i, j :: 0 <= i < j < |s| ==> s[i] != s[j]
  }

  ghost predicate Disjoint<T(!new)>(s: seq<T>, t: seq<T>) {
    forall x :: x in s ==> x !in t
  }

  function Rev<T>(s: seq<T>): (r: seq<T>)
    ensures |r| == |s|
  {
    if s == [] then [] else Rev(s[1..]) + [s[0]]
  }

  lemma {:induction false} RevAppend<T>(s: seq<T>, t: seq<T>)
    ensures Rev(s + t) == Rev(t) + Rev(s)
  {
    if s == [] {
      assert s + t == t;
    } else {
      assert (s + t)[1..] == s[1..] + t;
      RevAppend(s[1..], t);
    }
  }

  lemma {:induction false} RevRev<T>(s: seq<T>)
    ensures Rev(Rev(s)) == s
  {
    if s != [] {
      RevAppend(Rev(s[1..]), [s[0]]);
      RevRev(s[1..]);
    }
  }

  lemma {:induction false} RevMultiset<T>(s: seq<T>)
    ensures multiset(Rev(s)) == multiset(s)
  {
    if s != [] {
      RevMultiset(s[1..]);
      assert s == [s[0]] + s[1..];
    }
  }

  lemma RevMembers<T(!new)>(s: seq<T>)
    ensures forall x :: x in Rev(s) <==> x in s
  {
    RevMultiset(s);
    forall x
      ensures x in Rev(s) <==> x in s
    {
      assert x in Rev(s) <==> x in multiset(Rev(s));
      assert x in s <==> x in multiset(s);
    }
  }

  /** No repetition in terms of multiplicities. */
  lemma {:induction false} DistinctCounts<T(!new)>(s: seq<T>)
    ensures Distinct(s) <==> forall x :: multiset(s)[x] <= 1
  {
    if s != [] {
      var t := s[1..];
      assert s == [s[0]] + t;
      DistinctCounts(t);
      assert forall x :: multiset(s)[x] == multiset([s[0]])[x] + multiset(t)[x];
      assert s[0] in t <==> multiset(t)[s[0]] > 0;
      assert Distinct(s) <==> Distinct(t) && s[0] !in t by {
        DistinctCons(s[0], t);
      }
      if Distinct(t) && s[0] !in t {
        assert forall x :: multiset(s)[x] <= 1;
      } else if Distinct(t) {
        assert multiset(s)[s[0]] > 1;
      }
    }
  }

  lemma DistinctCons<T>(x: T, t: seq<T>)
    ensures Distinct([x] + t) <==> Distinct(t) && x !in t
  {
    var s := [x] + t;
    assert forall i :: 0 <= i < |t| ==> t[i] == s[i + 1];
    forall i | Distinct(s) && 0 <= i < |t|
      ensures x != t[i]
    {
      assert s[0] == x && s[i + 1] == t[i];
    }
  }

  lemma DistinctSplit<T(!new)>(s: seq<T>, t: seq<T>)
    requires Distinct(s + t)
    ensures Distinct(s) && Distinct(t) && Disjoint(s, t)
  {
    var u := s + t;
    assert forall i :: 0 <= i < |s| ==> s[i] == u[i];
    assert forall j :: 0 <= j < |t| ==> t[j] == u[|s| + j];
    forall i, j | 0 <= i < |s| && 0 <= j < |t|
      ensures s[i] != t[j]
    {
      assert u[i] != u[|s| + j];
    }
  }

  lemma DistinctRev<T(!new)>(s: seq<T>)
    requires Distinct(s)
    ensures Distinct(Rev(s))
  {
    DistinctCounts(s);
    RevMultiset(s);
    DistinctCounts(Rev(s));
  }

  /** Moving the last element of f into p, wherever it goes. */
  lemma MoveLast<T(!new)>(p: seq<T>, q: seq<T>, f: seq<T>, a: T)
    requires multiset(q) == multiset(p) + multiset{a}
    requires Distinct(p) && Distinct(f + [a]) && Disjoint(p, f + [a])
    ensures Distinct(q) && Distinct(f) && Disjoint(q, f) && a !in p && a !in f
  {
    DistinctSplit(f, [a]);
    assert a in [a] && a in f + [a];
    assert multiset(p)[a] == 0;
    DistinctCounts(p);
    DistinctCounts(q);
    forall x | x in q
      ensures x !in f
    {
      assert x in multiset(q);
      assert x in multiset(p) || x == a;
      assert x in p ==> x !in f + [a];
    }
  }

  lemma {:induction false} Subset<T>(a: set<T>, b: set<T>)
    requires a <= b
    ensures |a| <= |b|
  {
    if a != {} {
      var x :| x in a;
      Subset(a - {x}, b - {x});
    }
  }
}
