/**
 * The mode finder: counts how often each value occurs in an array, and
 * returns the values occurring most often, or nothing when every value
 * occurs equally often.
 */
module FindModes {
  import opened Wrappers

  /** How often v occurs in s. */
  function Occurrences(s: seq<int>, v: int): nat
  {
    multiset(s)[v]
  }

  /** No value occurs more often than s is long. */
  lemma OccurrencesBound(s: seq<int>, v: int)
    ensures Occurrences(s, v) <= |s|
  {
    MultiplicityBound(multiset(s), v);
  }

  /** A multiplicity is at most the size of its multiset. */
  lemma {:induction false} MultiplicityBound(m: multiset<int>, v: int)
    ensures m[v] <= |m|
    decreases |m|
  {
    if m[v] > 0 {
      var m' := m - multiset{v};
      assert m == m' + multiset{v};
      MultiplicityBound(m', v);
    }
  }

  /** Every value of s occurs equally often. */
  ghost predicate AllEqual(s: seq<int>)
  {
    forall v, w :: v in s && w in s ==> Occurrences(s, v) == Occurrences(s, w)
  }

  /** v is a value of s that occurs at least as often as any value of s. */
  ghost predicate IsMode(s: seq<int>, v: int)
  {
    v in s && forall w :: w in s ==> Occurrences(s, w) <= Occurrences(s, v)
  }

  /** No value appears twice. */
  predicate Distinct(s: seq<int>)
  {
    forall i, j :: 0 <= i < j < |s| ==> s[i] != s[j]
  }

  /** The frequency map after reading s: each value of s with its number of occurrences. */
  ghost predicate Counts(freq: map<int, int>, s: seq<int>)
  {
    (forall i :: 0 <= i < |s| ==> s[i] in freq) &&
    (forall v :: v in freq ==> v in s) &&
    (forall v :: v in freq ==> freq[v] == Occurrences(s, v))
  }

  /** Counting one more value raises its entry by one or adds it with count 1. */
  lemma CountStep(freq: map<int, int>, s: seq<int>, v: int)
    requires Counts(freq, s)
    ensures Counts(freq[v := if v in freq then freq[v] + 1 else 1], s + [v])
  {
    var freq' := freq[v := if v in freq then freq[v] + 1 else 1];
    assert multiset(s + [v]) == multiset(s) + multiset{v};
    forall w
      ensures w in freq' <==> w in s + [v]
    {
      assert w in s + [v] <==> w in s || w == v;
    }
  }

  /**
   * `find_mode`: the frequency map is filled in one pass; the smallest and
   * largest frequencies are found, starting from the array's length and 0;
   * equal extremes give nothing (null), otherwise every value whose
   * frequency is the largest is collected. The map's iteration order is
   * left open: each pass takes its keys in any order.
   */
  method FindMode(a: array<int>) returns (modes: Option<seq<int>>)
    ensures modes.None? <==> AllEqual(a[..])
    ensures modes.Some? ==> Distinct(modes.value)
    ensures modes.Some? ==> forall v :: v in modes.value <==> IsMode(a[..], v)
  {
    var freq := CountValues(a);
    var minFrequency, maxFrequency := Extremes(freq, a.Length);
    ghost var s := a[..];
    forall v | v in freq
      ensures 1 <= freq[v] <= a.Length
    {
      OccurrencesBound(s, v);
    }
    if minFrequency == maxFrequency {
      modes := None;
      return;
    }
    ExtremesDiffer(freq, s, minFrequency, maxFrequency);
    var found := CollectModes(freq, maxFrequency);
    modes := Some(found);
  }

  /** The counting loop: one pass over the array, starting a missing value at 0 before counting it. */
  method CountValues(a: array<int>) returns (freq: map<int, int>)
    ensures Counts(freq, a[..])
  {
    freq := map[];
    for i := 0 to a.Length
      invariant Counts(freq, a[..i])
    {
      var num := a[i];
      ghost var before := freq;
      if num !in freq {
        freq := freq[num := 0];
      }
      freq := freq[num := freq[num] + 1];
      CountStep(before, a[..i], num);
      assert freq == before[num := if num in before then before[num] + 1 else 1];
      assert a[..i + 1] == a[..i] + [num];
    }
    assert a[..a.Length] == a[..];
  }

  /**
   * The extremes loop over the map's entries in any order: the smallest
   * frequency starts at `length` and the largest at 0.
   */
  method Extremes(freq: map<int, int>, length: int) returns (minFrequency: int, maxFrequency: int)
    ensures minFrequency <= length && 0 <= maxFrequency
    ensures forall v :: v in freq ==> minFrequency <= freq[v] <= maxFrequency
    ensures minFrequency == length || exists v :: v in freq && freq[v] == minFrequency
    ensures maxFrequency == 0 || exists v :: v in freq && freq[v] == maxFrequency
  {
    minFrequency, maxFrequency := length, 0;
    var rest := freq.Items;
    while rest != {}
      invariant rest <= freq.Items
      invariant minFrequency <= length && 0 <= maxFrequency
      invariant forall v :: v in freq && (v, freq[v]) !in rest ==> minFrequency <= freq[v] <= maxFrequency
      invariant minFrequency == length || exists v :: v in freq && freq[v] == minFrequency
      invariant maxFrequency == 0 || exists v :: v in freq && freq[v] == maxFrequency
      decreases |rest|
    {
      var entry :| entry in rest;
      var (num, frequency) := entry;
      minFrequency := if frequency < minFrequency then frequency else minFrequency;
      maxFrequency := if frequency > maxFrequency then frequency else maxFrequency;
      rest := rest - {entry};
    }
  }

  /**
   * With every count between 1 and the length, the extremes the loop finds
   * are the least and the greatest count; when they differ, the values do
   * not all occur equally often, and the largest is the modes' count.
   */
  lemma ExtremesDiffer(freq: map<int, int>, s: seq<int>, minFrequency: int, maxFrequency: int)
    requires Counts(freq, s)
    requires forall v :: v in freq ==> 1 <= freq[v] <= |s|
    requires minFrequency <= |s| && 0 <= maxFrequency
    requires forall v :: v in freq ==> minFrequency <= freq[v] <= maxFrequency
    requires minFrequency == |s| || exists v :: v in freq && freq[v] == minFrequency
    requires maxFrequency == 0 || exists v :: v in freq && freq[v] == maxFrequency
    requires minFrequency != maxFrequency
    ensures !AllEqual(s)
    ensures forall v :: IsMode(s, v) <==> v in freq && freq[v] == maxFrequency
  {
    if s == [] {
      assert false;
    }
    var first := s[0];
    assert first in freq;
    assert 1 <= freq[first] <= maxFrequency;
    var top :| top in freq && freq[top] == maxFrequency;
    if minFrequency == |s| {
      assert false;
    }
    var bottom :| bottom in freq && freq[bottom] == minFrequency;
    assert Occurrences(s, top) != Occurrences(s, bottom);
  }

  /** The collecting loop over the map's entries in any order: keeps the values with the largest frequency. */
  method CollectModes(freq: map<int, int>, maxFrequency: int) returns (found: seq<int>)
    ensures Distinct(found)
    ensures forall v :: v in found <==> v in freq && freq[v] == maxFrequency
  {
    found := [];
    var rest := freq.Items;
    while rest != {}
      invariant rest <= freq.Items
      invariant Distinct(found)
      invariant forall v :: v in found <==> v in freq && (v, freq[v]) !in rest && freq[v] == maxFrequency
      decreases |rest|
    {
      var entry :| entry in rest;
      var (num, frequency) := entry;
      if frequency == maxFrequency {
        found := found + [num];
      }
      rest := rest - {entry};
    }
  }

  /** The example run: {1, 2, 3, 3, 4, 4} has the modes 3 and 4. */
  lemma ExampleModes(modes: seq<int>)
    requires forall v :: v in modes <==> IsMode([1, 2, 3, 3, 4, 4], v)
    ensures forall v :: v in modes <==> v == 3 || v == 4
  {
    var s := [1, 2, 3, 3, 4, 4];
    assert multiset(s) == multiset{1, 2, 3, 3, 4, 4};
    assert Occurrences(s, 1) == 1 && Occurrences(s, 2) == 1;
    assert Occurrences(s, 3) == 2 && Occurrences(s, 4) == 2;
    forall v
      ensures IsMode(s, v) <==> v == 3 || v == 4
    {
      if v in s {
        assert v == 1 || v == 2 || v == 3 || v == 4;
      }
    }
  }
}
