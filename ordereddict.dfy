/**
  Python's insertion-ordered `dict` with string keys, as used by
  `to_list_of_dicts` and the dict mode of `generate_code`: a list of
  entries whose keys are distinct, kept in insertion order.  Assigning to
  a key that is present replaces its value where it stands; a new key is
  appended.
 */
module OrderedDict {
  import opened Wrappers

  type Dict<V> = seq<(string, V)>

  function Keys<V>(d: seq<(string, V)>): (ks: seq<string>)
    ensures |ks| == |d| && forall i :: 0 <= i < |d| ==> ks[i] == d[i].0
  {
    seq(|d|, i requires 0 <= i < |d| => d[i].0)
  }

  predicate DistinctKeys<V>(d: seq<(string, V)>) {
    forall i, j :: 0 <= i < j < |d| ==> d[i].0 != d[j].0
  }

  /** The position of the first occurrence of `k`. */
  function FirstIndex(ks: seq<string>, k: string): (i: nat)
    requires k in ks
    ensures i < |ks| && ks[i] == k && k !in ks[..i]
  {
    if ks[0] == k then 0 else 1 + FirstIndex(ks[1..], k)
  }

  /** In a dictionary, the one entry with key `k` stands at the first index of `k`. */
  lemma {:induction false} FirstIndexInDict<V>(d: Dict<V>, i: nat)
    requires DistinctKeys(d) && i < |d|
    ensures d[i].0 in Keys(d) && FirstIndex(Keys(d), d[i].0) == i
  {
    var j := FirstIndex(Keys(d), d[i].0);
    assert Keys(d)[i] == d[i].0;
    assert d[j].0 == d[i].0;
  }

  /** `d.get(k)` */
  function Get<V>(d: Dict<V>, k: string): (r: Option<V>)
    ensures r.None? <==> k !in Keys(d)
  {
    if k in Keys(d) then Some(d[FirstIndex(Keys(d), k)].1) else None
  }

  /** In a dictionary, the entry at position `i` is what its key looks up. */
  lemma {:induction false} GetAt<V>(d: Dict<V>, i: nat)
    requires DistinctKeys(d) && i < |d|
    ensures Get(d, d[i].0) == Some(d[i].1)
  {
    FirstIndexInDict(d, i);
  }

  /**
    `d[k] = v`: the key keeps its place if present and is appended if not;
    it then looks up `v` and every other key looks up what it did before.
   */
  function Put<V>(d: Dict<V>, k: string, v: V): (r: Dict<V>)
    ensures Keys(r) == if k in Keys(d) then Keys(d) else Keys(d) + [k]
    ensures DistinctKeys(d) ==> DistinctKeys(r)
  {
    if k in Keys(d) then
      var i := FirstIndex(Keys(d), k);
      assert Keys(d[i := (k, v)]) == Keys(d);
      d[i := (k, v)]
    else
      assert Keys(d + [(k, v)]) == Keys(d) + [k];
      assert forall i :: 0 <= i < |d| ==> d[i].0 != k by {
        forall i | 0 <= i < |d| ensures d[i].0 != k {
          assert Keys(d)[i] == d[i].0;
        }
      }
      d + [(k, v)]
  }

  lemma {:induction false} PutGet<V>(d: Dict<V>, k: string, v: V, k': string)
    requires DistinctKeys(d)
    ensures Get(Put(d, k, v), k') == if k' == k then Some(v) else Get(d, k')
  {
    var r := Put(d, k, v);
    if k' in Keys(d) {
      var j := FirstIndex(Keys(d), k');
      FirstIndexInDict(d, j);
      FirstIndexInDict(r, j);
    } else if k' == k {
      FirstIndexInDict(r, |d|);
    }
  }

  /**
    `dict(pairs)`: every pair assigned in turn, so the keys are distinct and
    are exactly the keys that occur in `pairs`.
   */
  function FromPairs<V>(ps: seq<(string, V)>): (d: Dict<V>)
    ensures DistinctKeys(d)
    ensures forall k :: k in Keys(d) <==> k in Keys(ps)
  {
    if ps == [] then []
    else
      var init := ps[..|ps| - 1];
      assert Keys(ps) == Keys(init) + [ps[|ps| - 1].0];
      Put(FromPairs(init), ps[|ps| - 1].0, ps[|ps| - 1].1)
  }

  lemma {:induction false} FirstIndexOfPrefix(a: seq<string>, b: seq<string>, k: string)
    requires k in a
    ensures k in a + b && FirstIndex(a + b, k) == FirstIndex(a, k)
  {
    var i := FirstIndex(a, k);
    assert (a + b)[i] == k;
    assert (a + b)[..i] == a[..i];
  }

  lemma {:induction false} FirstIndexAfterPrefix(a: seq<string>, k: string)
    requires k !in a
    ensures FirstIndex(a + [k], k) == |a|
  {
    assert (a + [k])[..|a|] == a;
  }

  /** The keys of `dict(pairs)` stand in the order of their first occurrence in `pairs`. */
  lemma {:induction false} FromPairsKeyOrder<V>(ps: seq<(string, V)>, i: nat, j: nat)
    requires i < j < |FromPairs(ps)|
    ensures var d := FromPairs(ps);
            d[i].0 in Keys(ps) && d[j].0 in Keys(ps)
            && FirstIndex(Keys(ps), d[i].0) < FirstIndex(Keys(ps), d[j].0)
    decreases |ps|
  {
    var d := FromPairs(ps);
    var init := ps[..|ps| - 1];
    var k := ps[|ps| - 1].0;
    var d0 := FromPairs(init);
    assert Keys(ps) == Keys(init) + [k];
    assert Keys(d)[i] == d[i].0 && Keys(d)[j] == d[j].0;
    if j < |d0| {
      assert Keys(d0)[i] == d[i].0 && Keys(d0)[j] == d[j].0;
      FromPairsKeyOrder(init, i, j);
      FirstIndexOfPrefix(Keys(init), [k], d[i].0);
      FirstIndexOfPrefix(Keys(init), [k], d[j].0);
    } else {
      assert k !in Keys(d0) && Keys(d) == Keys(d0) + [k];
      assert d[j].0 == k && k !in Keys(init);
      assert Keys(d0)[i] == d[i].0;
      FirstIndexOfPrefix(Keys(init), [k], d[i].0);
      FirstIndexAfterPrefix(Keys(init), k);
    }
  }

  /** A key of `dict(pairs)` holds the value of the last pair that has it. */
  lemma {:induction false} FromPairsLastWins<V>(ps: seq<(string, V)>, i: nat)
    requires i < |ps|
    requires forall j :: i < j < |ps| ==> ps[j].0 != ps[i].0
    ensures Get(FromPairs(ps), ps[i].0) == Some(ps[i].1)
    decreases |ps|
  {
    var init := ps[..|ps| - 1];
    var (k, v) := ps[|ps| - 1];
    PutGet(FromPairs(init), k, v, ps[i].0);
    if i < |ps| - 1 {
      assert init[i] == ps[i];
      FromPairsLastWins(init, i);
    }
  }

  /** Pairs whose keys are already distinct make a dictionary entry for entry. */
  lemma {:induction false} FromDistinctPairs<V>(ps: seq<(string, V)>)
    requires DistinctKeys(ps)
    ensures FromPairs(ps) == ps
    decreases |ps|
  {
    if ps != [] {
      var init := ps[..|ps| - 1];
      var k := ps[|ps| - 1].0;
      FromDistinctPairs(init);
      assert k !in Keys(init);
      assert init + [ps[|ps| - 1]] == ps;
    }
  }

  /** `{k2: v for k2, v in d.items() if k2 != k}`: the entries with other keys, in order. */
  function Without<V>(d: Dict<V>, k: string): (r: Dict<V>)
    ensures |r| <= |d|
    ensures forall i :: 0 <= i < |r| ==> r[i].0 != k
  {
    if d == [] then []
    else if d[0].0 == k then Without(d[1..], k)
    else [d[0]] + Without(d[1..], k)
  }

  /** The entries left are exactly the entries of `d` whose key is not `k`. */
  lemma {:induction false} WithoutEntries<V>(d: Dict<V>, k: string, e: (string, V))
    ensures e in Without(d, k) <==> e in d && e.0 != k
    decreases |d|
  {
    if d != [] {
      WithoutEntries(d[1..], k, e);
      assert d == [d[0]] + d[1..];
    }
  }

  /** Removing a key that is absent changes nothing. */
  lemma {:induction false} WithoutAbsent<V>(d: Dict<V>, k: string)
    requires k !in Keys(d)
    ensures Without(d, k) == d
    decreases |d|
  {
    if d != [] {
      WithoutAbsent(d[1..], k);
    }
  }

  /** Removing a key of a dictionary removes exactly its entry. */
  lemma {:induction false} WithoutAt<V>(d: Dict<V>, i: nat)
    requires DistinctKeys(d) && i < |d|
    ensures Without(d, d[i].0) == d[..i] + d[i + 1..]
    decreases |d|
  {
    var k := d[i].0;
    if i == 0 {
      WithoutAbsent(d[1..], k);
    } else {
      WithoutAt(d[1..], i - 1);
      assert d[1..][i - 1] == d[i];
      assert d[..i] + d[i + 1..] == [d[0]] + (d[1..][..i - 1] + d[1..][i..]);
    }
  }

  /** The entries left still have distinct keys. */
  lemma {:induction false} WithoutDistinct<V>(d: Dict<V>, k: string)
    requires DistinctKeys(d)
    ensures DistinctKeys(Without(d, k))
    decreases |d|
  {
    if d != [] && d[0].0 != k {
      var t := Without(d[1..], k);
      WithoutDistinct(d[1..], k);
      var r := [d[0]] + t;
      forall j | 0 < j < |r| ensures r[0].0 != r[j].0 {
        WithoutEntries(d[1..], k, t[j - 1]);
        var m :| 0 <= m < |d[1..]| && d[1..][m] == t[j - 1];
        assert d[m + 1] == r[j];
      }
    } else if d != [] {
      WithoutDistinct(d[1..], k);
    }
  }
}
