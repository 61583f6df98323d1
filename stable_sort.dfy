/** `sorted(pairs, key=lambda p: p[1], reverse=True)` on (label, probability)
    pairs. Python's sort is stable also with `reverse=True`: pairs with equal
    probability keep their input order. The specification is
    IsStableSortDesc; SortDesc is a stable descending insertion sort, proved
    to meet it and to be the only sequence that does. */
module StableSort {
  import opened Python

  /** Non-increasing by probability. */
  ghost predicate SortedDesc(s: seq<Scored>) {
    forall i, j :: 0 <= i < j < |s| ==> s[i].1 >= s[j].1
  }

  /** The pairs of s whose probability is v, in their order in s. */
  function WithProb(s: seq<Scored>, v: real): (r: seq<Scored>)
    ensures |r| <= |s|
    ensures forall j :: 0 <= j < |r| ==> r[j].1 == v
  {
    if s == [] then [] else (if s[0].1 == v then [s[0]] else []) + WithProb(s[1..], v)
  }

  /** r keeps the relative order of the pairs of s that share a probability. */
  ghost predicate Stable(s: seq<Scored>, r: seq<Scored>) {
    forall v :: WithProb(r, v) == WithProb(s, v)
  }

  /** r is s sorted by descending probability, stably. */
  ghost predicate IsStableSortDesc(s: seq<Scored>, r: seq<Scored>) {
    SortedDesc(r) && multiset(r) == multiset(s) && Stable(s, r)
  }

  /** Puts p in front of the first pair whose probability does not exceed p's. */
  function Insert(p: Scored, t: seq<Scored>): (r: seq<Scored>)
    ensures |r| == |t| + 1
    ensures multiset(r) == multiset(t) + multiset{p}
  {
    if t == [] || t[0].1 <= p.1 then [p] + t
    else
      assert t == [t[0]] + t[1..];
      [t[0]] + Insert(p, t[1..])
  }

  /** Inserting into a sorted sequence keeps it sorted. */
  lemma {:induction false} InsertSorted(p: Scored, t: seq<Scored>)
    requires SortedDesc(t)
    ensures SortedDesc(Insert(p, t))
  {
    if t != [] && t[0].1 > p.1 {
      var u := Insert(p, t[1..]);
      InsertSorted(p, t[1..]);
      forall j | 0 <= j < |u| ensures t[0].1 >= u[j].1 {
        assert u[j] in multiset(u);
        assert u[j] == p || u[j] in t[1..];
      }
      assert Insert(p, t) == [t[0]] + u;
    }
  }

  /** The sort: each pair is inserted, from the last to the first, in front of
      every later pair of equal probability. */
  function SortDesc(s: seq<Scored>): (r: seq<Scored>)
    ensures |r| == |s|
    ensures multiset(r) == multiset(s)
  {
    if s == [] then []
    else
      assert s == [s[0]] + s[1..];
      Insert(s[0], SortDesc(s[1..]))
  }

  /** The sort's result is non-increasing by probability. */
  lemma {:induction false} SortDescSorted(s: seq<Scored>)
    ensures SortedDesc(SortDesc(s))
  {
    if s != [] {
      SortDescSorted(s[1..]);
      InsertSorted(s[0], SortDesc(s[1..]));
    }
  }

  lemma {:induction false} WithProbCons(p: Scored, t: seq<Scored>, v: real)
    ensures WithProb([p] + t, v) == WithProb([p], v) + WithProb(t, v)
  {
    assert ([p] + t)[1..] == t;
  }

  lemma WithProbSingle(p: Scored, v: real)
    ensures WithProb([p], v) == if p.1 == v then [p] else []
  {
    assert [p][1..] == [];
  }

  /** Inserting p adds it to its probability class ahead of the rest. */
  lemma {:induction false} InsertStable(p: Scored, t: seq<Scored>, v: real)
    ensures WithProb(Insert(p, t), v) == WithProb([p], v) + WithProb(t, v)
  {
    if t == [] || t[0].1 <= p.1 {
      WithProbCons(p, t, v);
    } else {
      var t', u := t[1..], Insert(p, t[1..]);
      InsertStable(p, t', v);
      PassOver(p, t[0], u, t', v);
      assert t == [t[0]] + t';
      assert Insert(p, t) == [t[0]] + u;
    }
  }

  /** One step of InsertStable: p passing over a pair x of larger probability. */
  lemma PassOver(p: Scored, x: Scored, u: seq<Scored>, t: seq<Scored>, v: real)
    requires x.1 > p.1
    requires WithProb(u, v) == WithProb([p], v) + WithProb(t, v)
    ensures WithProb([x] + u, v) == WithProb([p], v) + WithProb([x] + t, v)
  {
    WithProbCons(x, u, v);
    WithProbCons(x, t, v);
    WithProbSingle(x, v);
    WithProbSingle(p, v);
    if x.1 == v {
      assert WithProb([p], v) == [];
    } else {
      assert WithProb([x], v) == [];
    }
  }

  /** The insertion sort is stable. */
  lemma {:induction false} SortDescStable(s: seq<Scored>, v: real)
    ensures WithProb(SortDesc(s), v) == WithProb(s, v)
  {
    if s != [] {
      SortDescStable(s[1..], v);
      InsertStable(s[0], SortDesc(s[1..]), v);
      WithProbCons(s[0], s[1..], v);
      assert s == [s[0]] + s[1..];
    }
  }

  /** SortDesc meets the specification of Python's stable descending sort. */
  lemma SortDescIsStableSort(s: seq<Scored>)
    ensures IsStableSortDesc(s, SortDesc(s))
  {
    SortDescSorted(s);
    forall v ensures WithProb(SortDesc(s), v) == WithProb(s, v) {
      SortDescStable(s, v);
    }
  }

  /** Two sequences sorted by descending probability that agree on every
      probability class are equal. */
  lemma {:induction false} SortedClassesDetermine(a: seq<Scored>, b: seq<Scored>)
    requires SortedDesc(a) && SortedDesc(b)
    requires forall v :: WithProb(a, v) == WithProb(b, v)
    ensures a == b
    decreases |a|
  {
    if a == [] {
      if b != [] {
        assert false;
      }
    } else if b == [] {
      SortedClassesDetermine(b, a);
    } else {
      var x, y := a[0].1, b[0].1;
      assert WithProb(a, x)[0] == a[0];
      assert WithProb(b, y)[0] == b[0];
      WithProbBound(b, x);
      WithProbBound(a, y);
      assert x == y;
      assert a[0] == b[0];
      var a', b' := a[1..], b[1..];
      assert SortedDesc(a') && SortedDesc(b');
      forall v ensures WithProb(a', v) == WithProb(b', v) {
        assert a == [a[0]] + a';
        assert b == [b[0]] + b';
        WithProbCons(a[0], a', v);
        WithProbCons(b[0], b', v);
        var h := WithProb([a[0]], v);
        assert WithProb(a', v) == WithProb(a, v)[|h|..];
        assert WithProb(b', v) == WithProb(b, v)[|h|..];
      }
      SortedClassesDetermine(a', b');
    }
  }

  /** In a sorted sequence, no probability class lies above the first pair. */
  lemma {:induction false} WithProbBound(s: seq<Scored>, v: real)
    requires SortedDesc(s) && WithProb(s, v) != []
    ensures s[0].1 >= v
  {
    if s[0].1 != v {
      assert WithProb(s, v) == WithProb(s[1..], v);
      WithProbBound(s[1..], v);
    }
  }

  /** The stable descending sort of s is unique: it is SortDesc(s). */
  lemma StableSortUnique(s: seq<Scored>, r: seq<Scored>)
    requires IsStableSortDesc(s, r)
    ensures r == SortDesc(s)
  {
    SortDescIsStableSort(s);
    SortedClassesDetermine(r, SortDesc(s));
  }
}
