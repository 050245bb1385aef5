/**
 * Sums of counters, shared by the frequency tables: the sum of a vector of
 * counters, and the sum of the values of a map, taken in no particular
 * order (the tables are hash maps whose iteration order is unspecified);
 * and the unsigned length arithmetic of the text generators.
 */
module Counting {

  /** One more than the largest size_t: unsigned 64-bit subtraction wraps modulo this. */
  const SizeLimit: nat := 0x1_0000_0000_0000_0000

  /**
   * The size_t difference `L - k` that bounds a generation loop: the plain
   * difference when L >= k, and one that wraps round to nearly 2^64 when
   * L < k, so the loop then runs that many rounds.
   */
  function Rounds(L: nat, k: nat): (r: nat)
    ensures r < SizeLimit
    ensures k <= L < k + SizeLimit ==> r == L - k
    ensures L < k <= L + SizeLimit ==> r == SizeLimit - (k - L)
  {
    (L - k) % SizeLimit
  }

  /** The sum of a vector of counters. */
  function Sum(s: seq<int>): int
  {
    if s == [] then 0 else Sum(s[..|s| - 1]) + s[|s| - 1]
  }

  /** Changing one counter changes the sum by the same amount. */
  lemma {:induction false} SumUpdate(s: seq<int>, i: nat, v: int)
    requires i < |s|
    ensures Sum(s[i := v]) == Sum(s) - s[i] + v
  {
    var last := |s| - 1;
    if i < last {
      assert s[i := v][..last] == s[..last][i := v];
      SumUpdate(s[..last], i, v);
    } else {
      assert s[i := v][..last] == s[..last];
    }
  }

  /** A vector of zeros sums to zero. */
  lemma {:induction false} SumZeros(n: nat)
    ensures Sum(seq(n, _ => 0)) == 0
  {
    if n > 0 {
      assert seq(n, _ => 0)[..n - 1] == seq(n - 1, _ => 0);
      SumZeros(n - 1);
    }
  }

  /** The sum of a map's values, each key counted once. */
  ghost function MapSum<K>(m: map<K, int>): int
    decreases m.Keys
  {
    if m == map[] then 0
    else
      var k :| k in m;
      m[k] + MapSum(m - {k})
  }

  /** Any key can be taken out first. */
  lemma {:induction false} MapSumRemove<K>(m: map<K, int>, k: K)
    requires k in m
    ensures MapSum(m) == m[k] + MapSum(m - {k})
    decreases m.Keys
  {
    var j :| j in m && MapSum(m) == m[j] + MapSum(m - {j});
    if j != k {
      MapSumRemove(m - {j}, k);
      MapSumRemove(m - {k}, j);
      assert m - {j} - {k} == m - {k} - {j};
    }
  }

  /** Setting one key changes the sum by the difference. */
  lemma MapSumUpdate<K>(m: map<K, int>, k: K, v: int)
    ensures MapSum(m[k := v]) == MapSum(m) - (if k in m then m[k] else 0) + v
  {
    MapSumRemove(m[k := v], k);
    assert m[k := v] - {k} == m - {k};
    if k in m {
      MapSumRemove(m, k);
    } else {
      assert m - {k} == m;
    }
  }

  /** A map whose values are all non-negative sums to at least each of its values. */
  lemma {:induction false} MapSumAtLeast<K>(m: map<K, int>, k: K)
    requires forall j | j in m :: m[j] >= 0
    requires k in m
    ensures m[k] <= MapSum(m)
    decreases m.Keys
  {
    MapSumRemove(m, k);
    MapSumNonNegative(m - {k});
  }

  lemma {:induction false} MapSumNonNegative<K>(m: map<K, int>)
    requires forall j | j in m :: m[j] >= 0
    ensures MapSum(m) >= 0
    decreases m.Keys
  {
    if m != map[] {
      var k :| k in m;
      MapSumRemove(m, k);
      MapSumNonNegative(m - {k});
    }
  }

  /** The entries of m whose key lies in keys. */
  function Restrict<K, V>(m: map<K, V>, keys: set<K>): (r: map<K, V>)
    ensures r.Keys == m.Keys * keys
    ensures forall k | k in r :: r[k] == m[k]
  {
    map k | k in m && k in keys :: m[k]
  }

  /** Visiting one more key of an unspecified iteration order moves its value out of the part still to come. */
  lemma RestrictStep<K>(m: map<K, int>, keys: set<K>, k: K)
    requires k in keys && k in m
    ensures MapSum(Restrict(m, keys)) == m[k] + MapSum(Restrict(m, keys - {k}))
  {
    MapSumRemove(Restrict(m, keys), k);
    assert Restrict(m, keys) - {k} == Restrict(m, keys - {k});
  }

  /** The whole map is its restriction to its own keys, and the restriction to no key is empty. */
  lemma RestrictEnds<K>(m: map<K, int>)
    ensures MapSum(Restrict(m, m.Keys)) == MapSum(m)
    ensures MapSum(Restrict(m, {})) == 0
  {
    assert Restrict(m, m.Keys) == m;
    assert Restrict(m, {}) == map[];
  }

  /** No two keys share a value. */
  ghost predicate Injective<K>(m: map<K, int>)
  {
    forall j, k | j in m && k in m && j != k :: m[j] != m[k]
  }

  /** The counters of s as a map from index to counter. */
  function IndexMap(s: seq<int>): (r: map<int, int>)
    ensures forall i :: i in r <==> 0 <= i < |s|
  {
    map i | 0 <= i < |s| :: s[i]
  }

  /** The sum of a vector is the sum over its indices taken in any order. */
  lemma {:induction false} SumAsMap(s: seq<int>)
    ensures Sum(s) == MapSum(IndexMap(s))
  {
    if s == [] {
      assert IndexMap(s) == map[];
    } else {
      var last := |s| - 1;
      MapSumRemove(IndexMap(s), last);
      assert IndexMap(s) - {last} == IndexMap(s[..last]);
      SumAsMap(s[..last]);
    }
  }

  /** The counters reached through an index map, keyed by the map's keys. */
  function Through<K>(cm: map<K, int>, s: seq<int>): map<K, int>
    requires forall k | k in cm :: 0 <= cm[k] < |s|
  {
    map k | k in cm :: s[cm[k]]
  }

  /**
   * Reading counters through an injective index map sums the counters at
   * the indices it reaches.
   */
  lemma {:induction false} SumThrough<K>(cm: map<K, int>, s: seq<int>)
    requires Injective(cm) && forall k | k in cm :: 0 <= cm[k] < |s|
    ensures MapSum(Through(cm, s)) == MapSum(Restrict(IndexMap(s), cm.Values))
    decreases cm.Keys
  {
    if cm == map[] {
      assert Through(cm, s) == map[];
      assert Restrict(IndexMap(s), cm.Values) == map[];
    } else {
      var k :| k in cm;
      var rest := cm - {k};
      ValuesRemove(cm, k);
      ThroughRemove(cm, s, k);
      RestrictStep(IndexMap(s), cm.Values, cm[k]);
      SumThrough(rest, s);
    }
  }

  /** Taking a key out of an injective map takes exactly its value out of the values. */
  lemma ValuesRemove<K>(cm: map<K, int>, k: K)
    requires Injective(cm) && k in cm
    ensures (cm - {k}).Values == cm.Values - {cm[k]}
  {
    forall v | v in cm.Values && v != cm[k]
      ensures v in (cm - {k}).Values
    {
      var j :| j in cm && cm[j] == v;
      assert (cm - {k})[j] == v;
    }
  }

  lemma ThroughRemove<K>(cm: map<K, int>, s: seq<int>, k: K)
    requires forall j | j in cm :: 0 <= cm[j] < |s|
    requires k in cm
    ensures MapSum(Through(cm, s)) == s[cm[k]] + MapSum(Through(cm - {k}, s))
  {
    MapSumRemove(Through(cm, s), k);
    assert Through(cm, s) - {k} == Through(cm - {k}, s);
  }

  /** When an injective index map reaches every index, reading through it sums the whole vector. */
  lemma SumThroughAll<K>(cm: map<K, int>, s: seq<int>)
    requires forall k | k in cm :: 0 <= cm[k] < |s|
    requires Injective(cm) && forall i :: i in cm.Values <==> 0 <= i < |s|
    ensures MapSum(Through(cm, s)) == Sum(s)
  {
    SumThrough(cm, s);
    assert Restrict(IndexMap(s), cm.Values) == IndexMap(s);
    SumAsMap(s);
  }

  /** A map of zeros sums to zero. */
  lemma {:induction false} MapSumZero<K>(m: map<K, int>)
    requires forall j | j in m :: m[j] == 0
    ensures MapSum(m) == 0
    decreases m.Keys
  {
    if m != map[] {
      var k :| k in m;
      MapSumRemove(m, k);
      MapSumZero(m - {k});
    }
  }

  /**
   * The random draw of the text generators: an arbitrary index in
   * [1, total], or 0 when the total is not positive. Which index is drawn is
   * left open, so whatever is proved about its caller holds for every draw.
   */
  method DrawIndex(total: int) returns (index: int)
    ensures total <= 0 ==> index == 0
    ensures total > 0 ==> 1 <= index <= total
  {
    if total <= 0 {
      index := 0;
    } else {
      index :| 1 <= index <= total;
    }
  }
}
