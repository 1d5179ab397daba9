/** Counters keyed by a value, the JavaScript idiom `counts[key] = (counts[key] || 0) + 1`,
    and the sum of a counter's values. */
module Counters {
  import opened Seqs

  /** One more occurrence of `k`; a missing key starts from 0. */
  function Bump<K>(m: map<K, nat>, k: K): (r: map<K, nat>)
    ensures r.Keys == m.Keys + {k}
    ensures r[k] == (if k in m then m[k] else 0) + 1
    ensures forall j | j in m && j != k :: r[j] == m[j]
  {
    m[k := if k in m then m[k] + 1 else 1]
  }

  /** The counter obtained by bumping the keys of `s` in order, starting from no keys. */
  function TallyOf<K(==)>(s: seq<K>): (m: map<K, nat>)
    ensures forall k | k in m :: k in s
    ensures forall k | k in s :: k in m
    ensures forall k | k in m :: m[k] == Count(s, k)
  {
    if s == [] then map[]
    else
      var init, last := s[..|s| - 1], s[|s| - 1];
      assert s == init + [last];
      assert forall k | k in init :: Count(s, k) == Count(init, k) + (if last == k then 1 else 0) by {
        forall k | k in init { CountSnoc(init, last, k); }
      }
      CountSnoc(init, last, last);
      Bump(TallyOf(init), last)
  }

  /** Counting one more element bumps that element. */
  lemma TallySnoc<K>(s: seq<K>, x: K)
    ensures TallyOf(s + [x]) == Bump(TallyOf(s), x)
  {
    assert (s + [x])[..|s|] == s;
  }

  /** Counting a prefix one element further bumps that element. */
  lemma TallyStep<K>(s: seq<K>, i: nat)
    requires i < |s|
    ensures TallyOf(s[..i + 1]) == Bump(TallyOf(s[..i]), s[i])
  {
    assert s[..i + 1][..i] == s[..i];
  }

  /** The sum of all values of `m`. */
  ghost function SumValues<K>(m: map<K, nat>): nat
    decreases |m|
  {
    if m == map[] then 0
    else
      assert exists k :: k in m by {
        assert m.Keys != {};
      }
      var k :| k in m;
      assert |m - {k}| < |m| by {
        assert (m - {k}).Keys == m.Keys - {k};
      }
      m[k] + SumValues(m - {k})
  }

  /** The sum does not depend on which key is taken out first. */
  lemma {:induction false} SumValuesRemove<K>(m: map<K, nat>, k: K)
    requires k in m
    ensures SumValues(m) == m[k] + SumValues(m - {k})
    decreases |m|
  {
    var j :| j in m && SumValues(m) == m[j] + SumValues(m - {j});
    if j != k {
      var mj, mk := m - {j}, m - {k};
      assert mj.Keys == m.Keys - {j} && mk.Keys == m.Keys - {k};
      assert |mj| < |m|;
      SumValuesRemove(mj, k);
      SumValuesRemove(mk, j);
      assert mj - {k} == mk - {j};
    }
  }

  lemma SumValuesBump<K>(m: map<K, nat>, k: K)
    ensures SumValues(Bump(m, k)) == SumValues(m) + 1
  {
    var b := Bump(m, k);
    SumValuesRemove(b, k);
    if k in m {
      SumValuesRemove(m, k);
      assert b - {k} == m - {k};
    } else {
      assert b - {k} == m;
    }
  }

  /** A counter with every value 0 sums to 0. */
  lemma {:induction false} SumValuesZero<K>(m: map<K, nat>)
    requires forall k | k in m :: m[k] == 0
    ensures SumValues(m) == 0
    decreases |m|
  {
    if m != map[] {
      assert m.Keys != {};
      var k :| k in m;
      SumValuesRemove(m, k);
      assert (m - {k}).Keys == m.Keys - {k};
      SumValuesZero(m - {k});
    }
  }

  /** Each element of `s` adds exactly 1 to its counter. */
  lemma {:induction false} SumValuesTally<K>(s: seq<K>)
    ensures SumValues(TallyOf(s)) == |s|
  {
    if s != [] {
      SumValuesTally(s[..|s| - 1]);
      SumValuesBump(TallyOf(s[..|s| - 1]), s[|s| - 1]);
    }
  }

}
