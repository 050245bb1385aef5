/**
 * RandWriter's per-k-gram counter: a character index map, one counter per
 * index, and the running total of all counters. The table of RandWriter
 * holds its stores by value, so a store is a value here and incrementing
 * it yields the updated store.
 */
module FrequencyStores {
  import opened Wrappers
  import opened Counting

  /** What `std::vector::at` throws for an index outside the vector. */
  const OutOfRange := "out_of_range"

  /** Every character's index names one of n counters. */
  ghost predicate IndexesWithin(charMap: map<char, int>, n: int)
  {
    forall c | c in charMap :: 0 <= charMap[c] < n
  }

  datatype FrequencyStore = FrequencyStore(charMap: map<char, int>, counts: seq<nat>, total: nat)
  {
    /** One counter per character, indexes within the counters, and a total that is their sum. */
    ghost predicate Valid()
    {
      |counts| == |charMap| && IndexesWithin(charMap, |counts|) && total == Sum(counts)
    }

    /** The total, which is the sum of all counters. */
    function TotalFrequency(): (r: nat)
      requires Valid()
      ensures r == Sum(counts)
    {
      total
    }

    /**
     * A known character's counter and the total each go up by one; an
     * unknown character changes nothing. The total stays the sum.
     */
    function IncrementFrequency(c: char): (r: FrequencyStore)
      requires Valid()
      ensures r.Valid() && r.charMap == charMap
      ensures c in charMap ==> r.counts == counts[charMap[c] := counts[charMap[c]] + 1] && r.total == total + 1
      ensures c !in charMap ==> r == this
    {
      if c in charMap then
        var i := charMap[c];
        SumUpdate(counts, i, counts[i] + 1);
        FrequencyStore(charMap, counts[i := counts[i] + 1], total + 1)
      else
        this
    }

    /** A character's counter, 0 for a character the map does not know; never more than the total. */
    function FrequencyOf(c: char): (r: nat)
      requires Valid()
      ensures c !in charMap ==> r == 0
      ensures c in charMap ==> r == counts[charMap[c]]
      ensures r <= TotalFrequency()
    {
      if c in charMap then
        SumAtLeast(counts, charMap[c]);
        counts[charMap[c]]
      else
        0
    }

    /** The counter at an index, or `out_of_range` for an index outside the counters. */
    function FrequencyAt(index: int): (r: Result<nat>)
      requires Valid()
      ensures r.Success? <==> 0 <= index < |counts|
      ensures r.Success? ==> r.value == counts[index] && r.value <= TotalFrequency()
      ensures r.Failure? ==> r.error == OutOfRange
    {
      if 0 <= index < |counts| then
        SumAtLeast(counts, index);
        Success(counts[index])
      else
        Failure(OutOfRange)
    }
  }

  /** The default store: no characters, no counters. */
  function Empty(): (r: FrequencyStore)
    ensures r.Valid() && r.charMap == map[] && r.TotalFrequency() == 0
  {
    FrequencyStore(map[], [], 0)
  }

  /**
   * A store over a char map whose indexes name its counters: one zero
   * counter per character, so every character's frequency and the total
   * are 0.
   */
  function NewStore(charMap: map<char, int>): (r: FrequencyStore)
    requires IndexesWithin(charMap, |charMap|)
    ensures r.Valid() && r.charMap == charMap && |r.counts| == |charMap|
    ensures r.TotalFrequency() == 0 && forall c :: r.FrequencyOf(c) == 0
  {
    SumZeros(|charMap|);
    FrequencyStore(charMap, seq(|charMap|, _ => 0), 0)
  }

  /**
   * Incrementing c raises c's frequency and the total by one and leaves
   * every other character's frequency alone, provided no two characters
   * share a counter.
   */
  lemma IncrementOnlyItself(store: FrequencyStore, c: char, d: char)
    requires store.Valid() && Injective(store.charMap) && c in store.charMap
    ensures store.IncrementFrequency(c).TotalFrequency() == store.TotalFrequency() + 1
    ensures store.IncrementFrequency(c).FrequencyOf(d) == store.FrequencyOf(d) + (if d == c then 1 else 0)
  {
    if d in store.charMap && d != c {
      assert store.charMap[d] != store.charMap[c];
    }
  }

  /** A counter is at most the sum. */
  lemma SumAtLeast(s: seq<nat>, i: int)
    requires 0 <= i < |s|
    ensures s[i] <= Sum(s)
  {
    SumAsMap(s);
    MapSumAtLeast(IndexMap(s), i);
  }

  /**
   * When the char map gives each of the counters to exactly one character,
   * the counters read character by character sum to the total.
   */
  lemma TotalByChar(store: FrequencyStore)
    requires store.Valid() && Injective(store.charMap)
    requires forall i :: i in store.charMap.Values <==> 0 <= i < |store.counts|
    ensures MapSum(Through(store.charMap, store.counts)) == store.total
  {
    SumThroughAll(store.charMap, store.counts);
  }
}
