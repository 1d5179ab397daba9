/** Sequence utilities the aggregations are built from: `Array.prototype.filter`, occurrence
    counting, and the key order in which a JavaScript object first receives its keys. */
module Seqs {

  predicate Distinct<T(==)>(s: seq<T>) {
    forall i, j | 0 <= i < j < |s| :: s[i] != s[j]
  }

  /** `s.filter(p)`: the elements satisfying `p`, in their original order. */
  function Filter<T>(p: T -> bool, s: seq<T>): (r: seq<T>)
    ensures |r| <= |s|
    ensures forall i | 0 <= i < |r| :: p(r[i])
    ensures forall x :: x in r ==> x in s
  {
    if s == [] then [] else (if p(s[0]) then [s[0]] else []) + Filter(p, s[1..])
  }

  lemma {:induction false} FilterMembership<T>(p: T -> bool, s: seq<T>, x: T)
    ensures x in Filter(p, s) <==> x in s && p(x)
  {
    if s != [] {
      FilterMembership(p, s[1..], x);
    }
  }

  lemma {:induction false} FilterAll<T>(p: T -> bool, s: seq<T>)
    requires forall x | x in s :: p(x)
    ensures Filter(p, s) == s
  {
    if s != [] {
      assert forall x | x in s[1..] :: x in s;
      FilterAll(p, s[1..]);
    }
  }

  lemma {:induction false} FilterNone<T>(p: T -> bool, s: seq<T>)
    requires forall x | x in s :: !p(x)
    ensures Filter(p, s) == []
  {
    if s != [] {
      assert forall x | x in s[1..] :: x in s;
      FilterNone(p, s[1..]);
    }
  }

  lemma {:induction false} FilterAppend<T>(p: T -> bool, a: seq<T>, b: seq<T>)
    ensures Filter(p, a + b) == Filter(p, a) + Filter(p, b)
  {
    if a == [] {
      assert a + b == b;
    } else {
      assert (a + b)[1..] == a[1..] + b;
      FilterAppend(p, a[1..], b);
    }
  }

  lemma FilterCons<T>(p: T -> bool, x: T, s: seq<T>)
    ensures Filter(p, [x] + s) == (if p(x) then [x] else []) + Filter(p, s)
  {
    assert ([x] + s)[1..] == s;
  }

  /** Three tests that no element passes twice select at most all of `s`, and exactly all of it
      when every element passes one of them. */
  lemma {:induction false} FilterCount3<T>(p: T -> bool, q: T -> bool, r: T -> bool, s: seq<T>)
    requires forall x | x in s :: !(p(x) && q(x)) && !(p(x) && r(x)) && !(q(x) && r(x))
    ensures |Filter(p, s)| + |Filter(q, s)| + |Filter(r, s)| <= |s|
    ensures (forall x | x in s :: p(x) || q(x) || r(x)) ==>
              |Filter(p, s)| + |Filter(q, s)| + |Filter(r, s)| == |s|
  {
    if s != [] {
      assert forall x | x in s[1..] :: x in s;
      FilterCount3(p, q, r, s[1..]);
    }
  }

  /** Two tests that no element passes twice select at most all of `s`, and exactly all of it
      when every element passes one of them. */
  lemma FilterCount2<T>(p: T -> bool, q: T -> bool, s: seq<T>)
    requires forall x | x in s :: !(p(x) && q(x))
    ensures |Filter(p, s)| + |Filter(q, s)| <= |s|
    ensures (forall x | x in s :: p(x) || q(x)) ==> |Filter(p, s)| + |Filter(q, s)| == |s|
  {
    var never: T -> bool := _ => false;
    FilterNone(never, s);
    FilterCount3(p, q, never, s);
  }

  /** Two tests of which every element passes exactly one split `s`. */
  lemma FilterSplit<T>(p: T -> bool, q: T -> bool, s: seq<T>)
    requires forall x | x in s :: q(x) == !p(x)
    ensures |Filter(p, s)| + |Filter(q, s)| == |s|
  {
    FilterCount2(p, q, s);
  }

  /** Number of occurrences of `x` in `s`. */
  function Count<T(==)>(s: seq<T>, x: T): (n: nat)
    ensures n <= |s|
    ensures n > 0 <==> x in s
  {
    if s == [] then 0
    else
      assert s == s[..|s| - 1] + [s[|s| - 1]];
      Count(s[..|s| - 1], x) + (if s[|s| - 1] == x then 1 else 0)
  }

  lemma CountSnoc<T>(s: seq<T>, y: T, x: T)
    ensures Count(s + [y], x) == Count(s, x) + (if y == x then 1 else 0)
  {
    assert (s + [y])[..|s|] == s;
  }

  lemma {:induction false} CountDistinct<T>(s: seq<T>, x: T)
    requires Distinct(s) && x in s
    ensures Count(s, x) == 1
  {
    var last := s[|s| - 1];
    var init := s[..|s| - 1];
    if last == x {
      forall i | 0 <= i < |init|
        ensures init[i] != x
      {
        assert init[i] == s[i];
      }
    } else {
      assert x in init by { assert s == init + [last]; }
      CountDistinct(init, x);
    }
  }

  /** A duplicate-free sequence has as many distinct elements as it has positions. */
  lemma {:induction false} DistinctCardinality<T>(s: seq<T>)
    requires Distinct(s)
    ensures |set x | x in s| == |s|
  {
    if s != [] {
      var init, last := s[..|s| - 1], s[|s| - 1];
      assert Distinct(init);
      DistinctCardinality(init);
      assert last !in init by {
        forall i | 0 <= i < |init| ensures init[i] != last { assert init[i] == s[i]; }
      }
      assert (set x | x in s) == (set x | x in init) + {last} by {
        assert s == init + [last];
      }
    }
  }

  /** The distinct elements of `s` in the order of their first occurrence: the key order of an
      object that receives the keys of `s` one by one. */
  function FirstSeen<T(==)>(s: seq<T>): (r: seq<T>)
    ensures Distinct(r)
    ensures forall x | x in r :: x in s
    ensures forall x | x in s :: x in r
    ensures |r| <= |s|
  {
    if s == [] then []
    else
      assert s == s[..|s| - 1] + [s[|s| - 1]];
      var prefix := FirstSeen(s[..|s| - 1]);
      if s[|s| - 1] in prefix then prefix else prefix + [s[|s| - 1]]
  }

  /** A new element is appended to the key order; a repeated one leaves it as it is. */
  lemma FirstSeenSnoc<T>(s: seq<T>, x: T)
    ensures FirstSeen(s + [x]) == if x in s then FirstSeen(s) else FirstSeen(s) + [x]
  {
    assert (s + [x])[..|s|] == s;
  }

  /** The sum, over `keys`, of the number of occurrences of each key in `s`. */
  function CountSum<T(==)>(keys: seq<T>, s: seq<T>): nat {
    if keys == [] then 0 else CountSum(keys[..|keys| - 1], s) + Count(s, keys[|keys| - 1])
  }

  lemma {:induction false} CountSumNothing<T>(keys: seq<T>)
    ensures CountSum(keys, []) == 0
  {
    if keys != [] {
      CountSumNothing(keys[..|keys| - 1]);
    }
  }

  lemma {:induction false} CountSumSnoc<T>(keys: seq<T>, s: seq<T>, y: T)
    ensures CountSum(keys, s + [y]) == CountSum(keys, s) + Count(keys, y)
  {
    if keys != [] {
      CountSumSnoc(keys[..|keys| - 1], s, y);
      CountSnoc(s, y, keys[|keys| - 1]);
    }
  }

  /** Counting every element of `s` once under each of a duplicate-free list of keys that
      covers `s` counts every element exactly once. */
  lemma {:induction false} CountSumCovers<T>(keys: seq<T>, s: seq<T>)
    requires Distinct(keys)
    requires forall x | x in s :: x in keys
    ensures CountSum(keys, s) == |s|
  {
    if s == [] {
      CountSumNothing(keys);
    } else {
      var init, last := s[..|s| - 1], s[|s| - 1];
      assert s == init + [last];
      assert forall x | x in init :: x in s;
      CountSumCovers(keys, init);
      CountSumSnoc(keys, init, last);
      CountDistinct(keys, last);
    }
  }

}
