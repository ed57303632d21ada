/** Python dict updates written as a left fold: `for k, v in pairs: d[k] = v`.
  * Later pairs overwrite earlier ones, as repeated assignments do. */
module MapFolds {

  function UpdAll<K, V>(m: map<K, V>, ps: seq<(K, V)>): map<K, V>
    decreases |ps|
  {
    if |ps| == 0 then m else UpdAll(m[ps[0].0 := ps[0].1], ps[1..])
  }

  function KeysOf<K, V>(ps: seq<(K, V)>): set<K> {
    set i | 0 <= i < |ps| :: ps[i].0
  }

  function Firsts<K, V>(ps: seq<(K, V)>): (r: seq<K>)
    ensures |r| == |ps| && forall i :: 0 <= i < |ps| ==> r[i] == ps[i].0
  {
    seq(|ps|, i requires 0 <= i < |ps| => ps[i].0)
  }

  /** The same pairs with key and value exchanged. */
  function Swap<K, V>(ps: seq<(K, V)>): (r: seq<(V, K)>)
    ensures |r| == |ps| && forall i :: 0 <= i < |ps| ==> r[i] == (ps[i].1, ps[i].0)
  {
    seq(|ps|, i requires 0 <= i < |ps| => (ps[i].1, ps[i].0))
  }

  lemma {:induction false} UpdAllConcat<K, V>(m: map<K, V>, a: seq<(K, V)>, b: seq<(K, V)>)
    ensures UpdAll(m, a + b) == UpdAll(UpdAll(m, a), b)
    decreases |a|
  {
    if a == [] {
      assert a + b == b;
    } else {
      assert (a + b)[1..] == a[1..] + b;
      UpdAllConcat(m[a[0].0 := a[0].1], a[1..], b);
    }
  }

  /** The keys after the fold are the old keys plus the written ones. */
  lemma {:induction false} UpdAllDomain<K, V>(m: map<K, V>, ps: seq<(K, V)>)
    ensures UpdAll(m, ps).Keys == m.Keys + KeysOf(ps)
    decreases |ps|
  {
    if ps != [] {
      UpdAllDomain(m[ps[0].0 := ps[0].1], ps[1..]);
      assert KeysOf(ps) == {ps[0].0} + KeysOf(ps[1..]) by {
        forall k | k in KeysOf(ps) ensures k in {ps[0].0} + KeysOf(ps[1..]) {
          var i :| 0 <= i < |ps| && ps[i].0 == k;
          if i > 0 { assert ps[1..][i - 1].0 == k; }
        }
        forall k | k in KeysOf(ps[1..]) ensures k in KeysOf(ps) {
          var i :| 0 <= i < |ps[1..]| && ps[1..][i].0 == k;
          assert ps[i + 1].0 == k;
        }
      }
    }
  }

  /** A key no pair writes keeps its old value. */
  lemma {:induction false} UpdAllUntouched<K, V>(m: map<K, V>, ps: seq<(K, V)>, k: K)
    requires k in m && forall i :: 0 <= i < |ps| ==> ps[i].0 != k
    ensures k in UpdAll(m, ps) && UpdAll(m, ps)[k] == m[k]
    decreases |ps|
  {
    if ps != [] {
      UpdAllUntouched(m[ps[0].0 := ps[0].1], ps[1..], k);
    }
  }

  /** A key every one of whose pairs carries the same value ends up with it. */
  lemma {:induction false} UpdAllAgreed<K, V>(m: map<K, V>, ps: seq<(K, V)>, k: K, v: V)
    requires exists i :: 0 <= i < |ps| && ps[i].0 == k
    requires forall i :: 0 <= i < |ps| && ps[i].0 == k ==> ps[i].1 == v
    ensures k in UpdAll(m, ps) && UpdAll(m, ps)[k] == v
    decreases |ps|
  {
    var m1 := m[ps[0].0 := ps[0].1];
    if exists i :: 1 <= i < |ps| && ps[i].0 == k {
      var i :| 1 <= i < |ps| && ps[i].0 == k;
      assert ps[1..][i - 1] == ps[i];
      UpdAllAgreed(m1, ps[1..], k, v);
    } else {
      assert ps[0].0 == k;
      UpdAllUntouched(m1, ps[1..], k);
    }
  }

  /** The value of a key whose pairs are unique is the value of that pair. */
  lemma UpdAllUniqueKey<K, V>(m: map<K, V>, ps: seq<(K, V)>, i: nat)
    requires i < |ps|
    requires forall j :: 0 <= j < |ps| && j != i ==> ps[j].0 != ps[i].0
    ensures ps[i].0 in UpdAll(m, ps) && UpdAll(m, ps)[ps[i].0] == ps[i].1
  {
    UpdAllAgreed(m, ps, ps[i].0, ps[i].1);
  }

  /** Every value in the result is an old one or one some pair writes. */
  lemma {:induction false} UpdAllValues<K, V>(m: map<K, V>, ps: seq<(K, V)>, k: K)
    requires k in UpdAll(m, ps)
    ensures (k in m && UpdAll(m, ps)[k] == m[k]) || exists i :: 0 <= i < |ps| && ps[i] == (k, UpdAll(m, ps)[k])
    decreases |ps|
  {
    if ps != [] {
      var m1 := m[ps[0].0 := ps[0].1];
      UpdAllValues(m1, ps[1..], k);
      if exists i :: 0 <= i < |ps[1..]| && ps[1..][i] == (k, UpdAll(m, ps)[k]) {
        var i :| 0 <= i < |ps[1..]| && ps[1..][i] == (k, UpdAll(m, ps)[k]);
        assert ps[i + 1] == (k, UpdAll(m, ps)[k]);
      }
    }
  }

  /** When the values written are pairwise distinct and new to the reverse
    * map, looking up a key's value in the reverse map gives back the key. */
  lemma {:induction false} UpdAllInverseFrom<K, V>(m1: map<K, V>, m2: map<V, K>, ps: seq<(K, V)>)
    requires forall k :: k in m1 ==> m1[k] in m2 && m2[m1[k]] == k
    requires forall i :: 0 <= i < |ps| ==> ps[i].1 !in m2
    requires forall i, j :: 0 <= i < j < |ps| ==> ps[i].1 != ps[j].1
    ensures var r1, r2 := UpdAll(m1, ps), UpdAll(m2, Swap(ps));
            forall k :: k in r1 ==> r1[k] in r2 && r2[r1[k]] == k
    decreases |ps|
  {
    if ps != [] {
      var k0, v0 := ps[0].0, ps[0].1;
      var n1, n2 := m1[k0 := v0], m2[v0 := k0];
      forall k | k in n1 ensures n1[k] in n2 && n2[n1[k]] == k {
        if k != k0 {
          assert m1[k] in m2;
        }
      }
      forall i | 0 <= i < |ps[1..]| ensures ps[1..][i].1 !in n2 {
        assert ps[1..][i] == ps[i + 1];
      }
      UpdAllInverseFrom(n1, n2, ps[1..]);
      assert Swap(ps)[1..] == Swap(ps[1..]);
      assert UpdAll(m2, Swap(ps)) == UpdAll(n2, Swap(ps[1..]));
      assert UpdAll(m1, ps) == UpdAll(n1, ps[1..]);
      var r1, r2 := UpdAll(m1, ps), UpdAll(m2, Swap(ps));
      forall k | k in r1 ensures r1[k] in r2 && r2[r1[k]] == k {
        assert k in UpdAll(n1, ps[1..]);
      }
    }
  }

  /** A dict built from pairs and the dict built from the swapped pairs are
    * inverse on the first one's keys when the values are pairwise distinct. */
  lemma UpdAllInverse<K, V>(ps: seq<(K, V)>)
    requires forall i, j :: 0 <= i < j < |ps| ==> ps[i].1 != ps[j].1
    ensures var r1, r2 := UpdAll(map[], ps), UpdAll(map[], Swap(ps));
            forall k :: k in r1 ==> r1[k] in r2 && r2[r1[k]] == k
  {
    UpdAllInverseFrom(map[], map[], ps);
  }
}
