/** The parts of Python's built-in behaviour that the result shaping of the
    trail camera classifier relies on: `zip`, an insertion-ordered `dict`
    built from pairs and shrunk by `pop`, and indexing of a probability vector.
    Probabilities are kept abstract as `real`; `map(float, outputs)` is the
    identity on them. */
module Python {

  /** A class label, the string form of a classifier category. */
  type Label = string

  /** A (label, probability) pair, as `zip(classes, outputs)` yields it. */
  type Scored = (Label, real)

  /** The Python exceptions the shaping can raise. */
  datatype Error = KeyError(key: Label) | IndexError(index: int)

  datatype Result<T> = Ok(value: T) | Err(error: Error)

  datatype Option<T> = None | Some(value: T)

  function Min(a: int, b: int): int { if a <= b then a else b }

  /** `zip(labels, probs)`: positional pairs, stopping at the shorter input. */
  function Zip(labels: seq<Label>, probs: seq<real>): (r: seq<Scored>)
    ensures |r| == Min(|labels|, |probs|)
    ensures forall i :: 0 <= i < |r| ==> r[i] == (labels[i], probs[i])
  {
    if labels == [] || probs == [] then []
    else [(labels[0], probs[0])] + Zip(labels[1..], probs[1..])
  }

  /** No label occurs twice. */
  predicate Distinct(s: seq<Label>) {
    forall i, j :: 0 <= i < j < |s| ==> s[i] != s[j]
  }

  // ---------------------------------------------------------------------
  // An insertion-ordered dict from labels to probabilities is represented
  // by its `items()`: a sequence of pairs whose keys are distinct.
  // ---------------------------------------------------------------------

  predicate DistinctKeys(d: seq<Scored>) {
    forall i, j :: 0 <= i < j < |d| ==> d[i].0 != d[j].0
  }

  /** The position of the first pair with key k, or |d| when there is none. */
  function Find(d: seq<Scored>, k: Label): (i: nat)
    ensures i <= |d|
    ensures forall j :: 0 <= j < i ==> d[j].0 != k
    ensures i < |d| ==> d[i].0 == k
  {
    if d == [] then 0
    else if d[0].0 == k then 0
    else 1 + Find(d[1..], k)
  }

  /** The value held by key k, or None when k is absent: the lookup in
      which the dict's contents are stated. */
  function Get(d: seq<Scored>, k: Label): Option<real> {
    var i := Find(d, k);
    if i < |d| then Some(d[i].1) else None
  }

  /** The value paired with the LAST occurrence of k in ps, if any. */
  function LastValue(ps: seq<Scored>, k: Label): (r: Option<real>)
    ensures r.None? <==> Find(ps, k) == |ps|
  {
    if ps == [] then None
    else if ps[|ps| - 1].0 == k then Some(ps[|ps| - 1].1)
    else
      var n := |ps| - 1;
      assert Find(ps[..n], k) == Find(ps, k) || Find(ps[..n], k) == n;
      LastValue(ps[..n], k)
  }

  /** One insertion step of `dict(pairs)`: storing pair (k, v), an existing
      key keeps its position and takes the new value; a new key goes last. */
  function Store(d: seq<Scored>, k: Label, v: real): (r: seq<Scored>)
    requires DistinctKeys(d)
    ensures DistinctKeys(r)
    ensures Find(d, k) < |d| ==> r == d[Find(d, k) := (k, v)]
    ensures Find(d, k) == |d| ==> r == d + [(k, v)]
  {
    var i := Find(d, k);
    if i < |d| then d[i := (k, v)] else d + [(k, v)]
  }

  /** After storing (k, v), k holds v and every other key keeps its value. */
  lemma StoreGet(d: seq<Scored>, k: Label, v: real, k': Label)
    requires DistinctKeys(d)
    ensures Get(Store(d, k, v), k') == if k' == k then Some(v) else Get(d, k')
  {
    var r := Store(d, k, v);
    if Find(d, k) < |d| {
      FindSameKeys(r, d, k');
    } else if k' == k {
      FindIs(r, k, |d|);
    } else if Find(d, k') < |d| {
      FindIs(r, k', Find(d, k'));
    } else {
      FindIs(r, k', |r|);
    }
  }

  /** Find is determined by its contract: j is the first position holding k. */
  lemma FindIs(d: seq<Scored>, k: Label, j: nat)
    requires j <= |d| && (j < |d| ==> d[j].0 == k)
    requires forall i :: 0 <= i < j ==> d[i].0 != k
    ensures Find(d, k) == j
  {
  }

  /** Two dicts with the same keys at the same positions find every key alike. */
  lemma FindSameKeys(a: seq<Scored>, b: seq<Scored>, k: Label)
    requires |a| == |b| && forall j :: 0 <= j < |a| ==> a[j].0 == b[j].0
    ensures Find(a, k) == Find(b, k)
  {
    FindIs(a, k, Find(b, k));
  }

  /** `dict(ps)`: the pairs stored one after the other. */
  function FromPairs(ps: seq<Scored>): (d: seq<Scored>)
    ensures DistinctKeys(d)
  {
    if ps == [] then []
    else
      var n := |ps| - 1;
      Store(FromPairs(ps[..n]), ps[n].0, ps[n].1)
  }

  /** In `dict(ps)` every key holds the value of its last occurrence in ps,
      and the keys are exactly the labels of ps. */
  lemma {:induction false} FromPairsLastWins(ps: seq<Scored>, k: Label)
    ensures Get(FromPairs(ps), k) == LastValue(ps, k)
  {
    if ps != [] {
      var n := |ps| - 1;
      FromPairsLastWins(ps[..n], k);
      StoreGet(FromPairs(ps[..n]), ps[n].0, ps[n].1, k);
    }
  }

  /** The items of d without key k, in their order: the reference meaning of
      removing a key. */
  function Without(d: seq<Scored>, k: Label): (r: seq<Scored>)
    ensures |r| <= |d|
    ensures forall j :: 0 <= j < |r| ==> r[j].0 != k
  {
    if d == [] then []
    else (if d[0].0 == k then [] else [d[0]]) + Without(d[1..], k)
  }

  /** `d.pop(k)`: the removed value and the remaining dict, or KeyError. */
  function Pop(d: seq<Scored>, k: Label): (r: Result<(real, seq<Scored>)>)
    requires DistinctKeys(d)
    ensures r.Err? <==> Get(d, k).None?
    ensures r.Err? ==> r.error == KeyError(k)
    ensures r.Ok? ==> Get(d, k) == Some(r.value.0)
    ensures r.Ok? ==> r.value.1 == Without(d, k) && |r.value.1| == |d| - 1
    ensures r.Ok? ==> DistinctKeys(r.value.1)
  {
    var i := Find(d, k);
    if i == |d| then Err(KeyError(k))
    else
      WithoutAt(d, i);
      Ok((d[i].1, d[..i] + d[i + 1..]))
  }

  /** Removing the key at position i of a dict leaves everything else in order. */
  lemma {:induction false} WithoutAt(d: seq<Scored>, i: nat)
    requires DistinctKeys(d) && i < |d|
    ensures Without(d, d[i].0) == d[..i] + d[i + 1..]
  {
    var k := d[i].0;
    if i == 0 {
      assert forall j :: 0 <= j < |d[1..]| ==> d[1..][j].0 != k by {
        forall j | 0 <= j < |d[1..]| ensures d[1..][j].0 != k {
          assert d[1..][j] == d[j + 1];
        }
      }
      WithoutAbsent(d[1..], k);
    } else {
      var t := d[1..];
      assert DistinctKeys(t) by {
        forall a, b | 0 <= a < b < |t| ensures t[a].0 != t[b].0 {
          assert t[a] == d[a + 1] && t[b] == d[b + 1];
        }
      }
      assert t[i - 1] == d[i];
      WithoutAt(t, i - 1);
      assert d[0].0 != k;
      assert Without(d, k) == [d[0]] + Without(t, k);
      assert t[..i - 1] == d[1..i];
      assert t[i..] == d[i + 1..];
      assert d[..i] == [d[0]] + d[1..i];
    }
  }

  /** Looking up a key in a dict that starts with pair x. */
  lemma GetCons(x: Scored, s: seq<Scored>, k: Label)
    ensures Get([x] + s, k) == if x.0 == k then Some(x.1) else Get(s, k)
  {
    assert ([x] + s)[1..] == s;
  }

  /** After removing key k0, k0 is gone and every other key keeps its value. */
  lemma {:induction false} GetWithout(d: seq<Scored>, k0: Label, k: Label)
    ensures Get(Without(d, k0), k) == if k == k0 then None else Get(d, k)
  {
    var w := Without(d, k0);
    if k == k0 {
      FindIs(w, k, |w|);
    } else if d != [] {
      var t := d[1..];
      assert d == [d[0]] + t;
      GetWithout(t, k0, k);
      GetCons(d[0], t, k);
      if d[0].0 == k0 {
        assert w == Without(t, k0);
      } else {
        assert w == [d[0]] + Without(t, k0);
        GetCons(d[0], Without(t, k0), k);
      }
    }
  }

  /** Removing a key that is not there changes nothing. */
  lemma {:induction false} WithoutAbsent(d: seq<Scored>, k: Label)
    requires forall j :: 0 <= j < |d| ==> d[j].0 != k
    ensures Without(d, k) == d
  {
    if d != [] {
      WithoutAbsent(d[1..], k);
    }
  }

  /** With distinct labels, `dict(ps)` keeps every pair, in order. */
  lemma {:induction false} FromDistinctPairs(ps: seq<Scored>)
    requires DistinctKeys(ps)
    ensures FromPairs(ps) == ps
  {
    if ps != [] {
      var n := |ps| - 1;
      var d, k, v := ps[..n], ps[n].0, ps[n].1;
      assert FromPairs(d) == d by {
        assert DistinctKeys(d) by {
          forall a, b | 0 <= a < b < |d| ensures d[a].0 != d[b].0 {
            assert d[a] == ps[a] && d[b] == ps[b];
          }
        }
        FromDistinctPairs(d);
      }
      assert Find(d, k) == n by {
        FindIs(d, k, n);
      }
      assert FromPairs(ps) == Store(d, k, v);
      assert d + [(k, v)] == ps;
    }
  }

  /** Python's `s[i]` on a sequence: negative indices count from the end;
      anything else outside the sequence raises IndexError. */
  function Index(s: seq<real>, i: int): (r: Result<real>)
    ensures r.Ok? <==> -|s| <= i < |s|
    ensures r.Err? ==> r.error == IndexError(i)
    ensures r.Ok? ==> r.value in s
    ensures r.Ok? && i >= 0 ==> r.value == s[i]
    ensures r.Ok? && i < 0 ==> r.value == s[|s| + i]
  {
    if 0 <= i < |s| then Ok(s[i])
    else if -|s| <= i < 0 then Ok(s[|s| + i])
    else Err(IndexError(i))
  }
}
