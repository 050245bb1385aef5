/**
 * RandWriter: a Markov model of order k over the characters of a text.
 * Every distinct character gets an index in order of first appearance; the
 * text is read circularly (its first k characters appended again), and
 * for every start position the k characters there (the k-gram) and the
 * character after them are counted in a FrequencyStore kept per k-gram.
 */
module RandWriters {
  import opened Wrappers
  import opened Counting
  import F = FrequencyStores

  /** What `checkKgram` throws for a k-gram of the wrong length. */
  const InvalidArgument := "invalid_argument"
  /** What `std::string::at` and `std::unordered_map::at` throw for a missing position or key. */
  const OutOfRange := "out_of_range"

  /** Each distinct character of text, indexed 0, 1, ... in order of first appearance. */
  function CharIndex(text: string): (m: map<char, int>)
  {
    if text == [] then map[]
    else
      var m := CharIndex(text[..|text| - 1]);
      var c := text[|text| - 1];
      if c in m then m else m[c := |m|]
  }

  /** The char map indexes exactly the characters of the text, each with its own index in 0 .. n - 1. */
  lemma {:induction false} CharIndexShape(text: string)
    ensures forall c :: c in CharIndex(text) <==> c in text
    ensures Injective(CharIndex(text))
    ensures forall i :: i in CharIndex(text).Values <==> 0 <= i < |CharIndex(text)|
  {
    if text != [] {
      var pre, c := text[..|text| - 1], text[|text| - 1];
      assert text == pre + [c];
      CharIndexShape(pre);
      var m := CharIndex(pre);
      if c in m {
        assert CharIndex(text) == m;
      } else {
        assert CharIndex(text) == m[c := |m|];
        ValuesGrow(m, c, m[c := |m|]);
      }
    } else {
      assert CharIndex(text).Values == {};
    }
  }

  /** A new key given the next index keeps the indexes exactly 0 .. n - 1. */
  lemma ValuesGrow(m: map<char, int>, c: char, m': map<char, int>)
    requires c !in m && Injective(m) && m' == m[c := |m|]
    requires forall i :: i in m.Values <==> 0 <= i < |m|
    ensures |m'| == |m| + 1 && Injective(m')
    ensures forall i :: i in m'.Values <==> 0 <= i < |m'|
  {
    ValuesAdd(m, c, |m|);
    assert m'.Keys == m.Keys + {c};
    forall d | d in m
      ensures m[d] != |m|
    {
      assert m[d] in m.Values;
    }
  }

  /** Adding a new key adds exactly its value to the values. */
  lemma ValuesAdd(m: map<char, int>, c: char, v: int)
    requires c !in m
    ensures m[c := v].Values == m.Values + {v}
  {
    var m' := m[c := v];
    forall x | x in m'.Values
      ensures x in m.Values || x == v
    {
      var d :| d in m' && m'[d] == x;
      if d != c {
        assert m[d] == x;
      }
    }
    forall x | x in m.Values
      ensures x in m'.Values
    {
      var d :| d in m && m[d] == x;
      assert m'[d] == x;
    }
    assert m'[c] == v;
  }

  /** Every index of the char map names one of its n counters. */
  lemma CharIndexWithin(text: string)
    ensures forall c | c in CharIndex(text) :: 0 <= CharIndex(text)[c] < |CharIndex(text)|
  {
    CharIndexShape(text);
    var m := CharIndex(text);
    forall c | c in m
      ensures 0 <= m[c] < |m|
    {
      assert m[c] in m.Values;
    }
  }

  /** A character appearing for the first time at j gets a larger index than every character before it. */
  lemma {:induction false} CharIndexOrder(text: string, i: nat, j: nat)
    requires i < j < |text| && text[j] !in text[..j]
    ensures text[i] in CharIndex(text) && text[j] in CharIndex(text)
    ensures CharIndex(text)[text[i]] < CharIndex(text)[text[j]]
  {
    var last := |text| - 1;
    var pre := text[..last];
    assert text == pre + [text[last]];
    CharIndexShape(text);
    CharIndexShape(pre);
    if j < last {
      assert pre[..j] == text[..j];
      CharIndexOrder(pre, i, j);
    } else {
      assert text[i] == pre[i];
      CharIndexWithin(pre);
    }
  }

  /** Builds the char map the way the constructor does, one character at a time. */
  method IndexChars(text: string) returns (charMap: map<char, int>)
    ensures charMap == CharIndex(text)
  {
    charMap := map[];
    var i := 0;
    while i < |text|
      invariant 0 <= i <= |text| && charMap == CharIndex(text[..i])
    {
      var c := text[i];
      if c !in charMap {
        charMap := charMap[c := |charMap|];
      }
      assert text[..i + 1][..i] == text[..i];
      i := i + 1;
    }
    assert text[..i] == text;
  }

  /** The text with its first k characters (all of it, if shorter) appended again. */
  function Circular(text: string, k: nat): (circ: string)
    ensures |circ| == |text| + (if k <= |text| then k else |text|)
  {
    text + text[..if k <= |text| then k else |text|]
  }

  /** The circular text holds the characters of the text and no others. */
  lemma CircularChars(text: string, k: nat)
    ensures forall c :: c in Circular(text, k) <==> c in text
  {
    var wrap := text[..if k <= |text| then k else |text|];
    assert forall c | c in wrap :: c in text;
    assert Circular(text, k) == text + wrap;
  }

  /** The number of start positions the constructor reads: one per character of the text when k <= |text|. */
  function Transitions(text: string, k: nat): (n: nat)
    requires k <= 2 * |text|
    ensures k <= |text| ==> n == |text|
  {
    |Circular(text, k)| - k
  }

  /** How many of the first n start positions of circ hold the k-gram g. */
  ghost function KgramCount(circ: string, k: nat, n: nat, g: string): nat
    requires n + k <= |circ|
  {
    if n == 0 then 0
    else KgramCount(circ, k, n - 1, g) + (if circ[n - 1..n - 1 + k] == g then 1 else 0)
  }

  /** How many of the first n start positions of circ hold the k-gram g followed by c. */
  ghost function PairCount(circ: string, k: nat, n: nat, g: string, c: char): nat
    requires n + k <= |circ|
  {
    if n == 0 then 0
    else PairCount(circ, k, n - 1, g, c) + (if circ[n - 1..n - 1 + k] == g && circ[n - 1 + k] == c then 1 else 0)
  }

  /** Counting one more start position adds one for the k-gram (and the pair) found there. */
  lemma CountStep(circ: string, k: nat, i: nat, g: string, c: char)
    requires i + k < |circ|
    ensures KgramCount(circ, k, i + 1, g) == KgramCount(circ, k, i, g) + (if circ[i..i + k] == g then 1 else 0)
    ensures PairCount(circ, k, i + 1, g, c) ==
            PairCount(circ, k, i, g, c) + (if circ[i..i + k] == g && circ[i + k] == c then 1 else 0)
  {
  }

  /** A counted pair has a start position that shows it. */
  lemma {:induction false} PairWitness(circ: string, k: nat, n: nat, g: string, c: char) returns (i: nat)
    requires n + k <= |circ| && PairCount(circ, k, n, g, c) > 0
    ensures i < n && circ[i..i + k] == g && circ[i + k] == c
  {
    if PairCount(circ, k, n - 1, g, c) > 0 {
      i := PairWitness(circ, k, n - 1, g, c);
    } else {
      i := n - 1;
    }
  }

  /** A start position holding g makes g counted. */
  lemma {:induction false} KgramFound(circ: string, k: nat, n: nat, g: string, i: nat)
    requires n + k <= |circ| && i < n && circ[i..i + k] == g
    ensures KgramCount(circ, k, n, g) > 0
  {
    if i < n - 1 {
      KgramFound(circ, k, n - 1, g, i);
    }
  }

  /** A k-gram is followed at most as often as it occurs. */
  lemma {:induction false} PairAtMostKgram(circ: string, k: nat, n: nat, g: string, c: char)
    requires n + k <= |circ|
    ensures PairCount(circ, k, n, g, c) <= KgramCount(circ, k, n, g)
  {
    if n > 0 {
      PairAtMostKgram(circ, k, n - 1, g, c);
    }
  }

  /** Only characters of circ ever follow a k-gram. */
  lemma PairCountChar(circ: string, k: nat, n: nat, g: string, c: char)
    requires n + k <= |circ|
    ensures PairCount(circ, k, n, g, c) > 0 ==> c in circ
  {
    if PairCount(circ, k, n, g, c) > 0 {
      var i := PairWitness(circ, k, n, g, c);
      assert circ[i + k] == c;
    }
  }

  /**
   * Reading the text circularly closes the k-grams under generation: after
   * a k-gram g and a character c that follows it, the last k characters of
   * g + [c] form a k-gram that occurs too.
   */
  lemma NextKgramSeen(text: string, k: nat, g: string, c: char)
    requires k <= |text| && |g| == k
    requires PairCount(Circular(text, k), k, |text|, g, c) > 0
    ensures KgramCount(Circular(text, k), k, |text|, (g + [c])[1..]) > 0
  {
    var circ := Circular(text, k);
    var i := PairWitness(circ, k, |text|, g, c);
    WindowShift(circ, i, k);
    if i + 1 < |text| {
      KgramFound(circ, k, |text|, (g + [c])[1..], i + 1);
    } else {
      WrapWindow(text, k);
      KgramFound(circ, k, |text|, (g + [c])[1..], 0);
    }
  }

  /** The window just past the end of the text is the text's first window again. */
  lemma WrapWindow(text: string, k: nat)
    requires k <= |text|
    ensures Circular(text, k)[|text|..|text| + k] == Circular(text, k)[0..k]
  {
    assert Circular(text, k) == text + text[..k];
  }

  /** The window one position further on is the window and the character after it, minus its first character. */
  lemma WindowShift(s: string, i: nat, k: nat)
    requires i + k < |s|
    ensures s[i + 1..i + 1 + k] == (s[i..i + k] + [s[i + k]])[1..]
  {
  }

  /** Every store of the table is valid and indexes its counters with charMap. */
  ghost predicate Stores(table: map<string, F.FrequencyStore>, charMap: map<char, int>)
  {
    forall g | g in table :: table[g].Valid() && table[g].charMap == charMap
  }

  /** The totals of the stores, by k-gram. */
  ghost function Totals(table: map<string, F.FrequencyStore>): (r: map<string, int>)
    ensures r.Keys == table.Keys
  {
    map g | g in table :: table[g].total
  }

  /** Replacing one store changes the sum of the totals by the difference of its totals. */
  lemma TotalsUpdate(table: map<string, F.FrequencyStore>, g: string, store: F.FrequencyStore)
    ensures MapSum(Totals(table[g := store])) ==
            MapSum(Totals(table)) - (if g in table then table[g].total else 0) + store.total
  {
    assert Totals(table[g := store]) == Totals(table)[g := store.total];
    MapSumUpdate(Totals(table), g, store.total);
  }

  /** A valid store over charMap can replace or join the stores. */
  lemma StoresUpdate(table: map<string, F.FrequencyStore>, charMap: map<char, int>, g: string, store: F.FrequencyStore)
    requires Stores(table, charMap) && store.Valid() && store.charMap == charMap
    ensures Stores(table[g := store], charMap)
  {
  }

  /** Each store's total is how often its k-gram occurs at the first n start positions of circ. */
  ghost predicate TotalsMatch(table: map<string, F.FrequencyStore>, circ: string, k: nat, n: nat)
    requires n + k <= |circ|
  {
    forall g | g in table :: table[g].total == KgramCount(circ, k, n, g)
  }

  /** Each store's counter for c is how often c follows its k-gram at the first n start positions of circ. */
  ghost predicate PairsMatch(table: map<string, F.FrequencyStore>, charMap: map<char, int>, circ: string, k: nat, n: nat)
    requires n + k <= |circ| && Stores(table, charMap)
  {
    forall g, c | g in table && c in charMap :: table[g].counts[charMap[c]] == PairCount(circ, k, n, g, c)
  }

  /**
   * The stores hold, for the first n start positions of circ, how often each
   * k-gram occurs and how often each character follows it, with totals
   * summing to n.
   */
  ghost predicate Tallied(table: map<string, F.FrequencyStore>, charMap: map<char, int>, circ: string, k: nat, n: nat)
    requires n + k <= |circ| && Stores(table, charMap)
  {
    TotalsMatch(table, circ, k, n) && PairsMatch(table, charMap, circ, k, n) && MapSum(Totals(table)) == n
  }

  /** table has counted the first n start positions of circ: one store for each k-gram seen there, and no other. */
  ghost predicate Counted(table: map<string, F.FrequencyStore>, charMap: map<char, int>, circ: string, k: nat, n: nat)
    requires n + k <= |circ|
  {
    Stores(table, charMap) &&
    (forall g :: g in table <==> KgramCount(circ, k, n, g) > 0) &&
    Tallied(table, charMap, circ, k, n)
  }

  /**
   * A new k-gram gets an empty store: the stores still hold the counts of
   * the first i start positions, and the k-grams with a store are those
   * seen there plus the new one.
   */
  lemma AddedStore(table: map<string, F.FrequencyStore>, charMap: map<char, int>, circ: string, k: nat, i: nat, g: string)
    requires i + k <= |circ| && F.IndexesWithin(charMap, |charMap|) && g !in table
    requires Counted(table, charMap, circ, k, i)
    ensures var next := table[g := F.NewStore(charMap)];
      Stores(next, charMap) && Tallied(next, charMap, circ, k, i) &&
      forall h :: h in next <==> KgramCount(circ, k, i, h) > 0 || h == g
  {
    var next := table[g := F.NewStore(charMap)];
    assert KgramCount(circ, k, i, g) == 0;
    assert PairsMatch(next, charMap, circ, k, i) by {
      forall c | c in charMap
        ensures PairCount(circ, k, i, g, c) == 0
      {
        PairAtMostKgram(circ, k, i, g, c);
      }
    }
    TotalsUpdate(table, g, F.NewStore(charMap));
    StoresUpdate(table, charMap, g, F.NewStore(charMap));
  }

  /** Counting start position i adds one to the total of the k-gram there and leaves the other totals alone. */
  lemma TotalsStep(table: map<string, F.FrequencyStore>, next: map<string, F.FrequencyStore>, circ: string, k: nat, i: nat)
    requires i + k < |circ| && TotalsMatch(table, circ, k, i)
    requires next.Keys == table.Keys && circ[i..i + k] in table
    requires next[circ[i..i + k]].total == table[circ[i..i + k]].total + 1
    requires forall h | h in table && h != circ[i..i + k] :: next[h] == table[h]
    ensures TotalsMatch(next, circ, k, i + 1)
  {
    forall h | h in next
      ensures next[h].total == KgramCount(circ, k, i + 1, h)
    {
      CountStep(circ, k, i, h, circ[i + k]);
    }
  }

  /** Counting start position i adds one to the counter of the character after the k-gram there, and to no other. */
  lemma PairsStep(table: map<string, F.FrequencyStore>, next: map<string, F.FrequencyStore>,
                  charMap: map<char, int>, circ: string, k: nat, i: nat)
    requires i + k < |circ| && Injective(charMap) && circ[i + k] in charMap
    requires Stores(table, charMap) && Stores(next, charMap) && PairsMatch(table, charMap, circ, k, i)
    requires next.Keys == table.Keys && circ[i..i + k] in table
    requires var g, x := circ[i..i + k], charMap[circ[i + k]];
      next[g].counts == table[g].counts[x := table[g].counts[x] + 1]
    requires forall h | h in table && h != circ[i..i + k] :: next[h] == table[h]
    ensures PairsMatch(next, charMap, circ, k, i + 1)
  {
    var g, nextChar := circ[i..i + k], circ[i + k];
    forall h, c | h in next && c in charMap
      ensures next[h].counts[charMap[c]] == PairCount(circ, k, i + 1, h, c)
    {
      CountStep(circ, k, i, h, c);
      if h == g && c != nextChar {
        assert charMap[c] != charMap[nextChar];
      }
    }
  }

  /** After counting start position i, the k-grams with a store are those seen at the first i + 1 start positions. */
  lemma KeysStep(keys: set<string>, circ: string, k: nat, i: nat)
    requires i + k < |circ|
    requires forall h :: h in keys <==> KgramCount(circ, k, i, h) > 0 || h == circ[i..i + k]
    ensures forall h :: h in keys <==> KgramCount(circ, k, i + 1, h) > 0
  {
    forall h
      ensures h in keys <==> KgramCount(circ, k, i + 1, h) > 0
    {
      CountStep(circ, k, i, h, circ[i + k]);
    }
  }

  /** Incrementing the character after the k-gram at i changes that k-gram's store only, by one count. */
  lemma IncrementedShape(table: map<string, F.FrequencyStore>, charMap: map<char, int>, circ: string, k: nat, i: nat)
    requires i + k < |circ| && circ[i + k] in charMap && Stores(table, charMap) && circ[i..i + k] in table
    ensures var g, x := circ[i..i + k], charMap[circ[i + k]];
      var next := table[g := table[g].IncrementFrequency(circ[i + k])];
      Stores(next, charMap) && next.Keys == table.Keys && next[g].total == table[g].total + 1 &&
      next[g].counts == table[g].counts[x := table[g].counts[x] + 1] &&
      (forall h | h in table && h != g :: next[h] == table[h])
  {
    var g := circ[i..i + k];
    StoresUpdate(table, charMap, g, table[g].IncrementFrequency(circ[i + k]));
  }

  /**
   * Incrementing, in the store of the k-gram at start position i, the
   * character after it counts start position i.
   */
  lemma Incremented(table: map<string, F.FrequencyStore>, charMap: map<char, int>, circ: string, k: nat, i: nat)
    requires i + k < |circ| && Injective(charMap) && circ[i + k] in charMap
    requires Stores(table, charMap) && Tallied(table, charMap, circ, k, i)
    requires forall h :: h in table <==> KgramCount(circ, k, i, h) > 0 || h == circ[i..i + k]
    ensures var g := circ[i..i + k];
      Counted(table[g := table[g].IncrementFrequency(circ[i + k])], charMap, circ, k, i + 1)
  {
    var g := circ[i..i + k];
    var store := table[g].IncrementFrequency(circ[i + k]);
    var next := table[g := store];
    IncrementedShape(table, charMap, circ, k, i);
    KeysStep(next.Keys, circ, k, i);
    TotalsStep(table, next, circ, k, i);
    PairsStep(table, next, charMap, circ, k, i);
    TotalsUpdate(table, g, store);
    CountedParts(next, charMap, circ, k, i + 1);
  }

  /** The parts of Counted, put together. */
  lemma CountedParts(table: map<string, F.FrequencyStore>, charMap: map<char, int>, circ: string, k: nat, n: nat)
    requires n + k <= |circ| && Stores(table, charMap)
    requires forall g :: g in table <==> KgramCount(circ, k, n, g) > 0
    requires TotalsMatch(table, circ, k, n) && PairsMatch(table, charMap, circ, k, n) && MapSum(Totals(table)) == n
    ensures Counted(table, charMap, circ, k, n)
  {
  }

  /**
   * One turn of the constructor's loop: the k-gram at start position i gets
   * an empty store if it has none, then the character after it is
   * incremented in its store. A table that has counted the first i start
   * positions has then counted the first i + 1.
   */
  method CountTransition(table: map<string, F.FrequencyStore>, charMap: map<char, int>, circ: string, k: nat, i: nat)
    returns (next: map<string, F.FrequencyStore>)
    requires i + k < |circ| && Injective(charMap) && F.IndexesWithin(charMap, |charMap|) && circ[i + k] in charMap
    requires Counted(table, charMap, circ, k, i)
    ensures Counted(next, charMap, circ, k, i + 1)
  {
    var kgram := circ[i..i + k];
    var nextChar := circ[i + k];
    next := table;
    if kgram !in next {
      AddedStore(table, charMap, circ, k, i, kgram);
      next := next[kgram := F.NewStore(charMap)];
    } else {
      KgramFound(circ, k, i + 1, kgram, i);
      CountStep(circ, k, i, kgram, nextChar);
    }
    Incremented(next, charMap, circ, k, i);
    next := next[kgram := next[kgram].IncrementFrequency(nextChar)];
  }

  class RandWriter {
    const orderK: nat
    const charMap: map<char, int>
    const symbolTable: map<string, F.FrequencyStore>
    /** The text the model was built from. */
    ghost const text: string

    ghost predicate Valid()
      reads this
    {
      orderK <= 2 * |text| && charMap == CharIndex(text) &&
      Counted(symbolTable, charMap, Circular(text, orderK), orderK, Transitions(text, orderK))
    }

    constructor FromTable(ghost text: string, k: nat, charMap: map<char, int>, table: map<string, F.FrequencyStore>)
      requires k <= 2 * |text| && charMap == CharIndex(text)
      requires Counted(table, charMap, Circular(text, k), k, Transitions(text, k))
      ensures Valid() && this.text == text && orderK == k && this.charMap == charMap && symbolTable == table
    {
      this.text := text;
      orderK := k;
      this.charMap := charMap;
      symbolTable := table;
    }

    /**
     * The constructor: indexes the characters, then counts every start
     * position of the circular text. With k > 2 * |text| reading the
     * character after the first k-gram throws `out_of_range`.
     */
    static method Create(text: string, k: nat) returns (r: Result<RandWriter>)
      ensures r.Failure? <==> k > 2 * |text|
      ensures r.Failure? ==> r.error == OutOfRange
      ensures r.Success? ==> fresh(r.value) && r.value.Valid() && r.value.text == text && r.value.orderK == k
      ensures r.Success? && k <= |text| ==> MapSum(Totals(r.value.symbolTable)) == |text|
      ensures r.Success? && |text| < k ==> MapSum(Totals(r.value.symbolTable)) == 2 * |text| - k
    {
      var charMap := IndexChars(text);
      var circ := text + text[..if k <= |text| then k else |text|];
      assert circ == Circular(text, k);
      if k > |circ| {
        return Failure(OutOfRange);
      }
      assert Injective(charMap) && F.IndexesWithin(charMap, |charMap|) by {
        CharIndexShape(text);
        CharIndexWithin(text);
      }
      assert forall j | 0 <= j < |circ| :: circ[j] in charMap by {
        CharIndexShape(text);
        CircularChars(text, k);
      }
      var table: map<string, F.FrequencyStore> := map[];
      assert Totals(table) == map[];
      var i := 0;
      while i < |circ| - k
        invariant 0 <= i <= |circ| - k
        invariant Counted(table, charMap, circ, k, i)
      {
        table := CountTransition(table, charMap, circ, k, i);
        i := i + 1;
      }
      var writer := new RandWriter.FromTable(text, k, charMap, table);
      return Success(writer);
    }

    /**
     * The order-check test builds "abc" with order 4 and expects
     * `invalid_argument`. The constructor checks nothing: it accepts that
     * order, and it counts only two transitions, fewer than the text's
     * three characters.
     */
    static method OrderAboveLength() returns (r: Result<RandWriter>)
      ensures r.Success? && r.value.orderK == 4 && |r.value.text| == 3
      ensures r.Success? ==> MapSum(Totals(r.value.symbolTable)) == 2
    {
      r := Create("abc", 4);
    }

    /**
     * The constructor with the order check the test expects, and the one
     * `WordWriter` makes: an order above the text's length is refused with
     * `invalid_argument`. Every character of the text then starts exactly
     * one counted transition.
     */
    static method CreateChecked(text: string, k: nat) returns (r: Result<RandWriter>)
      ensures r.Failure? <==> k > |text|
      ensures r.Failure? ==> r.error == InvalidArgument
      ensures r.Success? ==> fresh(r.value) && r.value.Valid() && r.value.text == text && r.value.orderK == k
      ensures r.Success? ==> MapSum(Totals(r.value.symbolTable)) == |text|
    {
      if k > |text| {
        return Failure(InvalidArgument);
      }
      r := Create(text, k);
    }

    /** Refuses a k-gram whose length is not the order. */
    function CheckKgram(kgram: string): (r: Result<()>)
      ensures r.Success? <==> |kgram| == orderK
      ensures r.Failure? ==> r.error == InvalidArgument
    {
      if |kgram| != orderK then Failure(InvalidArgument) else Success(())
    }

    /** How often kgram occurs in the circular text: 0 when unseen, an error when its length is wrong. */
    function Freq(kgram: string): (r: Result<int>)
      requires Valid()
      reads this
      ensures r.Failure? <==> |kgram| != orderK
      ensures r.Failure? ==> r.error == InvalidArgument
      ensures r.Success? ==> r.value == KgramCount(Circular(text, orderK), orderK, Transitions(text, orderK), kgram)
    {
      var check := CheckKgram(kgram);
      if check.Failure? then Failure(check.error)
      else if kgram in symbolTable then Success(symbolTable[kgram].TotalFrequency())
      else Success(0)
    }

    /** How often c follows kgram in the circular text: 0 when unseen, an error when its length is wrong. */
    function FreqOf(kgram: string, c: char): (r: Result<int>)
      requires Valid()
      reads this
      ensures r.Failure? <==> |kgram| != orderK
      ensures r.Failure? ==> r.error == InvalidArgument
      ensures r.Success? ==> r.value == PairCount(Circular(text, orderK), orderK, Transitions(text, orderK), kgram, c)
    {
      var check := CheckKgram(kgram);
      if check.Failure? then Failure(check.error)
      else if kgram in symbolTable then
        CharIndexShape(text);
        CircularChars(text, orderK);
        PairCountChar(Circular(text, orderK), orderK, Transitions(text, orderK), kgram, c);
        Success(symbolTable[kgram].FrequencyOf(c))
      else
        PairAtMostKgram(Circular(text, orderK), orderK, Transitions(text, orderK), kgram, c);
        Success(0)
    }

    /** The frequencies of the characters following a k-gram add up to the k-gram's frequency. */
    lemma FreqSumsOverChars(kgram: string)
      requires Valid()
      ensures MapSum(Followers(charMap, Circular(text, orderK), orderK, Transitions(text, orderK), kgram))
              == KgramCount(Circular(text, orderK), orderK, Transitions(text, orderK), kgram)
    {
      var circ, n := Circular(text, orderK), Transitions(text, orderK);
      if kgram in symbolTable {
        CharIndexShape(text);
        StoreSumsOverChars(symbolTable[kgram], charMap, circ, orderK, n, kgram);
      } else {
        assert KgramCount(circ, orderK, n, kgram) == 0;
        NoFollowers(charMap, circ, orderK, n, kgram);
      }
    }

    /**
     * The next character after kgram: draws an index in [1, total] and
     * walks the char map, in its unspecified order, adding up counters
     * until the sum reaches the index. An unseen kgram throws
     * `out_of_range`; otherwise the character returned follows kgram
     * somewhere in the circular text.
     */
    method KRand(kgram: string) returns (r: Result<char>)
      requires Valid()
      ensures r.Failure? <==> KgramCount(Circular(text, orderK), orderK, Transitions(text, orderK), kgram) == 0
      ensures r.Failure? ==> r.error == OutOfRange
      ensures r.Success? ==> PairCount(Circular(text, orderK), orderK, Transitions(text, orderK), kgram, r.value) > 0
    {
      if kgram !in symbolTable {
        return Failure(OutOfRange);
      }
      var store := symbolTable[kgram];
      var totalFreq := store.TotalFrequency();
      var randomIndex := DrawIndex(totalFreq);
      CharIndexShape(text);
      var c := Pick(store, charMap, randomIndex);
      r := Success(c);
    }

    /**
     * Starts from kgram and appends, Rounds(L, k) times (L - k when L >= k,
     * nearly 2^64 times when the size_t difference wraps), a character drawn
     * after the last k characters. Every character appended follows,
     * somewhere in the circular text, the k characters before it; and when
     * k <= |text| generation from a k-gram of the text never fails.
     */
    method Generate(kgram: string, L: nat) returns (r: Result<string>)
      requires Valid()
      ensures |kgram| != orderK ==> r == Failure(InvalidArgument)
      ensures r.Success? ==> |r.value| == orderK + Rounds(L, orderK) && r.value[..orderK] == kgram
      ensures r.Success? ==> Follows(Circular(text, orderK), orderK, Transitions(text, orderK), r.value)
      ensures (|kgram| == orderK && orderK <= |text| &&
               KgramCount(Circular(text, orderK), orderK, Transitions(text, orderK), kgram) > 0) ==> r.Success?
    {
      var check := CheckKgram(kgram);
      if check.Failure? {
        return Failure(check.error);
      }
      ghost var circ, n := Circular(text, orderK), Transitions(text, orderK);
      ghost var closed := orderK <= |text| && KgramCount(circ, orderK, n, kgram) > 0;
      var generated := kgram;
      var i := 0;
      var failure: Option<string> := None;
      var rounds := Rounds(L, orderK);
      while i < rounds
        invariant 0 <= i <= rounds && failure == None
        invariant Extends(circ, orderK, n, kgram, generated, i)
        invariant closed ==> KgramCount(circ, orderK, n, generated[i..]) > 0
      {
        var lastKgram := generated[i..i + orderK];
        assert lastKgram == generated[i..];
        var next := KRand(lastKgram);
        if next.Failure? {
          failure := Some(next.error);
          break;
        }
        GenerateStep(text, orderK, kgram, generated, i, lastKgram, next.value);
        generated := generated + [next.value];
        i := i + 1;
      }
      if failure.Some? {
        return Failure(failure.value);
      }
      assert |generated| == orderK + rounds && generated[..orderK] == kgram && Follows(circ, orderK, n, generated);
      r := Success(generated);
    }
  }

  /**
   * One generation step: appending a character c that follows the last k
   * characters extends the output by one, and when k <= |text| the new
   * last k characters form a k-gram that occurs too.
   */
  lemma GenerateStep(text: string, k: nat, kgram: string, generated: string, i: nat, last: string, c: char)
    requires k <= 2 * |text|
    requires Extends(Circular(text, k), k, Transitions(text, k), kgram, generated, i)
    requires last == generated[i..i + k] && PairCount(Circular(text, k), k, Transitions(text, k), last, c) > 0
    ensures Extends(Circular(text, k), k, Transitions(text, k), kgram, generated + [c], i + 1)
    ensures k <= |text| ==> KgramCount(Circular(text, k), k, Transitions(text, k), (generated + [c])[i + 1..]) > 0
  {
    ExtendsSnoc(Circular(text, k), k, Transitions(text, k), kgram, generated, i, c);
    if k <= |text| {
      assert generated[i..i + k] == generated[i..];
      NextKgramSeen(text, k, generated[i..], c);
      assert (generated + [c])[i + 1..] == (generated[i..] + [c])[1..];
    }
  }

  /** How often each character of charMap follows g at the first n start positions of circ. */
  ghost function Followers(charMap: map<char, int>, circ: string, k: nat, n: nat, g: string): (r: map<char, int>)
    requires n + k <= |circ|
    ensures r.Keys == charMap.Keys
  {
    map c | c in charMap :: PairCount(circ, k, n, g, c)
  }

  /** A store counting g reads, character by character, the followers of g, which sum to its total. */
  lemma StoreSumsOverChars(store: F.FrequencyStore, charMap: map<char, int>, circ: string, k: nat, n: nat, g: string)
    requires n + k <= |circ|
    requires store.Valid() && store.charMap == charMap && Injective(charMap)
    requires forall x :: x in charMap.Values <==> 0 <= x < |store.counts|
    requires store.total == KgramCount(circ, k, n, g)
    requires forall c | c in charMap :: store.counts[charMap[c]] == PairCount(circ, k, n, g, c)
    ensures MapSum(Followers(charMap, circ, k, n, g)) == KgramCount(circ, k, n, g)
  {
    F.TotalByChar(store);
    assert Through(charMap, store.counts) == Followers(charMap, circ, k, n, g);
  }

  /** A k-gram that never occurs has no followers. */
  lemma NoFollowers(charMap: map<char, int>, circ: string, k: nat, n: nat, g: string)
    requires n + k <= |circ| && KgramCount(circ, k, n, g) == 0
    ensures MapSum(Followers(charMap, circ, k, n, g)) == 0
  {
    forall c | c in charMap
      ensures PairCount(circ, k, n, g, c) == 0
    {
      PairAtMostKgram(circ, k, n, g, c);
    }
    MapSumZero(Followers(charMap, circ, k, n, g));
  }

  /**
   * The walk of `kRand` over the char map in an unspecified order: adds up
   * counters until the sum reaches the drawn index, whose character it
   * returns. With a drawn index in [1, total] the walk always stops, at a
   * character with a positive counter.
   */
  method Pick(store: F.FrequencyStore, charMap: map<char, int>, randomIndex: int) returns (result: char)
    requires store.Valid() && store.charMap == charMap && Injective(charMap)
    requires forall i :: i in charMap.Values <==> 0 <= i < |store.counts|
    requires 1 <= randomIndex <= store.total
    ensures result in charMap && store.counts[charMap[result]] > 0
  {
    ghost var byChar := Through(charMap, store.counts);
    assert MapSum(Restrict(byChar, charMap.Keys)) == store.total by {
      assert byChar.Keys == charMap.Keys;
      F.TotalByChar(store);
      RestrictEnds(byChar);
    }
    var cumulative := 0;
    var remaining := charMap.Keys;
    var found := false;
    result := '\0';
    while !found && remaining != {}
      invariant remaining <= charMap.Keys
      invariant found ==> result in charMap && store.counts[charMap[result]] > 0
      invariant !found ==> cumulative < randomIndex && cumulative + MapSum(Restrict(byChar, remaining)) == store.total
      decreases remaining
    {
      var c :| c in remaining;
      var frequency := store.FrequencyAt(charMap[c]);
      RestrictStep(byChar, remaining, c);
      cumulative := cumulative + frequency.value;
      if cumulative >= randomIndex {
        found, result := true, c;
      }
      remaining := remaining - {c};
    }
  }

  /** Every character of s after the first k follows, somewhere in circ, the k characters before it. */
  ghost predicate Follows(circ: string, k: nat, n: nat, s: string)
    requires n + k <= |circ|
  {
    forall j | k <= j < |s| :: PairCount(circ, k, n, s[j - k..j], s[j]) > 0
  }

  /** s is kgram followed by i characters, each following the k characters before it. */
  ghost predicate Extends(circ: string, k: nat, n: nat, kgram: string, s: string, i: nat)
    requires n + k <= |circ|
  {
    |s| == k + i && s[..k] == kgram && Follows(circ, k, n, s)
  }

  /** Appending a character that follows the last k characters extends s by one. */
  lemma ExtendsSnoc(circ: string, k: nat, n: nat, kgram: string, s: string, i: nat, c: char)
    requires n + k <= |circ| && Extends(circ, k, n, kgram, s, i)
    requires PairCount(circ, k, n, s[i..i + k], c) > 0
    ensures Extends(circ, k, n, kgram, s + [c], i + 1)
    ensures (s + [c])[i + 1..] == (s[i..i + k] + [c])[1..]
  {
    assert s[|s| - k..] == s[i..i + k];
    FollowsSnoc(circ, k, n, s, c);
    assert (s + [c])[..k] == s[..k];
  }

  lemma FollowsSnoc(circ: string, k: nat, n: nat, s: string, c: char)
    requires n + k <= |circ| && k <= |s|
    requires Follows(circ, k, n, s) && PairCount(circ, k, n, s[|s| - k..], c) > 0
    ensures Follows(circ, k, n, s + [c])
    ensures (s + [c])[|s| - k + 1..] == (s[|s| - k..] + [c])[1..]
  {
    var t := s + [c];
    forall j | k <= j < |t|
      ensures PairCount(circ, k, n, t[j - k..j], t[j]) > 0
    {
      if j < |s| {
        assert t[j - k..j] == s[j - k..j];
      } else {
        assert t[j - k..j] == s[|s| - k..];
      }
    }
  }
}
