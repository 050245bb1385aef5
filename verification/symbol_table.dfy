/**
 * WordWriter's frequency table: for every symbol, how often each token
 * followed it, and the symbol's total. Both are hash maps updated in place
 * by `increment`; their iteration order is unspecified.
 */
module SymbolTables {
  import opened Wrappers
  import opened Counting

  /** What `std::unordered_map::at` throws for a missing key. */
  const OutOfRange := "out_of_range"

  /** Every count of the map is at least one. */
  ghost predicate Positive<K>(m: map<K, int>)
  {
    forall k | k in m :: m[k] > 0
  }

  /** The keys listed by a sequence of entries. */
  ghost function KeysOf<K, V>(entries: seq<(K, V)>): set<K>
  {
    if entries == [] then {} else KeysOf(entries[..|entries| - 1]) + {entries[|entries| - 1].0}
  }

  /** entries lists every entry of m exactly once, key and value. */
  ghost predicate Lists<K, V>(entries: seq<(K, V)>, m: map<K, V>)
  {
    KeysOf(entries) == m.Keys && EntriesOf(entries, m) && DistinctKeys(entries)
  }

  /** Every entry listed is an entry of m. */
  ghost predicate EntriesOf<K, V>(entries: seq<(K, V)>, m: map<K, V>)
  {
    forall i | 0 <= i < |entries| :: entries[i].0 in m && entries[i].1 == m[entries[i].0]
  }

  /** No key is listed twice. */
  ghost predicate DistinctKeys<K, V>(entries: seq<(K, V)>)
  {
    forall i, j | 0 <= i < j < |entries| :: entries[i].0 != entries[j].0
  }

  /** Listing one more entry of m, whose key is not yet listed, keeps the list distinct and adds its key. */
  lemma EntrySnoc<K, V>(entries: seq<(K, V)>, m: map<K, V>, k: K)
    requires EntriesOf(entries, m) && DistinctKeys(entries) && k in m && k !in KeysOf(entries)
    ensures EntriesOf(entries + [(k, m[k])], m) && DistinctKeys(entries + [(k, m[k])])
    ensures KeysOf(entries + [(k, m[k])]) == KeysOf(entries) + {k}
  {
    forall i | 0 <= i < |entries|
      ensures entries[i].0 != k
    {
      KeysOfSnoc(entries[..i], entries[i]);
      assert entries[..i + 1] == entries[..i] + [entries[i]];
      KeysOfPrefix(entries, i + 1);
    }
    KeysOfSnoc(entries, (k, m[k]));
  }

  /** What `traverse` reports for one symbol: the symbol with its total, then its tokens with their counts. */
  datatype SymbolReport<S, T> = SymbolReport(symbol: S, total: int, tokens: seq<(T, int)>)

  /** The symbols reported, in order. */
  ghost function SymbolsOf<S, T>(report: seq<SymbolReport<S, T>>): set<S>
  {
    if report == [] then {} else SymbolsOf(report[..|report| - 1]) + {report[|report| - 1].symbol}
  }

  lemma KeysOfSnoc<K, V>(entries: seq<(K, V)>, e: (K, V))
    ensures KeysOf(entries + [e]) == KeysOf(entries) + {e.0}
  {
    assert (entries + [e])[..|entries|] == entries;
  }

  lemma SymbolsOfSnoc<S, T>(report: seq<SymbolReport<S, T>>, r: SymbolReport<S, T>)
    ensures SymbolsOf(report + [r]) == SymbolsOf(report) + {r.symbol}
  {
    assert (report + [r])[..|report|] == report;
  }

  /** A listed key is at some position of the list. */
  lemma {:induction false} KeysOfHas<K, V>(entries: seq<(K, V)>, k: K)
    requires k in KeysOf(entries)
    ensures exists i :: 0 <= i < |entries| && entries[i].0 == k
  {
    var last := |entries| - 1;
    if entries[last].0 != k {
      KeysOfHas(entries[..last], k);
      var i :| 0 <= i < last && entries[..last][i].0 == k;
      assert entries[i].0 == k;
    }
  }

  /** A reported symbol is at some position of the report. */
  lemma {:induction false} SymbolsOfHas<S, T>(report: seq<SymbolReport<S, T>>, s: S)
    requires s in SymbolsOf(report)
    ensures exists i :: 0 <= i < |report| && report[i].symbol == s
  {
    var last := |report| - 1;
    if report[last].symbol != s {
      SymbolsOfHas(report[..last], s);
      var i :| 0 <= i < last && report[..last][i].symbol == s;
      assert report[i].symbol == s;
    }
  }

  /**
   * Lists the entries of a map in an unspecified order, as a range-for
   * over an `unordered_map` visits them.
   */
  method ListEntries<K, V>(m: map<K, V>) returns (entries: seq<(K, V)>)
    ensures Lists(entries, m)
  {
    entries := [];
    var remaining := m.Keys;
    while remaining != {}
      invariant remaining <= m.Keys && KeysOf(entries) == m.Keys - remaining
      invariant EntriesOf(entries, m) && DistinctKeys(entries)
      decreases remaining
    {
      var k :| k in remaining;
      EntrySnoc(entries, m, k);
      entries := entries + [(k, m[k])];
      remaining := remaining - {k};
    }
  }

  /** The keys of a prefix are among the keys of the whole list. */
  lemma {:induction false} KeysOfPrefix<K, V>(entries: seq<(K, V)>, n: nat)
    requires n <= |entries|
    ensures KeysOf(entries[..n]) <= KeysOf(entries)
    decreases |entries| - n
  {
    if n < |entries| {
      KeysOfPrefix(entries, n + 1);
      assert entries[..n + 1][..n] == entries[..n];
    } else {
      assert entries[..n] == entries;
    }
  }

  /** A symbol's total, 0 for a symbol without one. */
  function TotalOf<S>(totals: map<S, int>, symbol: S): int
  {
    if symbol in totals then totals[symbol] else 0
  }

  /** The counts of the tokens after a symbol, none for a symbol without a row. */
  function RowOf<S, T>(table: map<S, map<T, int>>, symbol: S): map<T, int>
  {
    if symbol in table then table[symbol] else map[]
  }

  /** How often token followed symbol, 0 when the table has no such count. */
  function CountOf<S, T>(table: map<S, map<T, int>>, symbol: S, token: T): int
  {
    var row := RowOf(table, symbol);
    if token in row then row[token] else 0
  }

  /** The table with one more occurrence of token after symbol. */
  function Bumped<S, T>(table: map<S, map<T, int>>, symbol: S, token: T): map<S, map<T, int>>
  {
    table[symbol := RowOf(table, symbol)[token := CountOf(table, symbol, token) + 1]]
  }

  /** The totals with one more occurrence of symbol. */
  function Raised<S>(totals: map<S, int>, symbol: S): map<S, int>
  {
    totals[symbol := TotalOf(totals, symbol) + 1]
  }

  /** In consistent maps a count is never negative and never more than its symbol's total. */
  lemma CountWithinTotal<S, T>(table: map<S, map<T, int>>, totals: map<S, int>, symbol: S, token: T)
    requires Consistent(table, totals)
    ensures 0 <= CountOf(table, symbol, token) <= TotalOf(totals, symbol)
  {
    if symbol in table {
      if token in table[symbol] {
        MapSumAtLeast(table[symbol], token);
      } else {
        MapSumNonNegative(table[symbol]);
      }
    }
  }

  /**
   * The same symbols in both maps, at least one token after each symbol,
   * positive counts, and each total the sum of its symbol's counts.
   */
  ghost predicate Consistent<S, T>(table: map<S, map<T, int>>, totals: map<S, int>)
  {
    table.Keys == totals.Keys &&
    forall s | s in totals ::
      table[s] != map[] && Positive(table[s]) && totals[s] == MapSum(table[s])
  }

  /** One more occurrence of token after symbol, counted in both maps, keeps them consistent. */
  lemma IncrementConsistent<S, T>(table: map<S, map<T, int>>, totals: map<S, int>, symbol: S, token: T,
                                 row: map<T, int>, count: int, total: int)
    requires Consistent(table, totals)
    requires row == RowOf(table, symbol)
    requires count == CountOf(table, symbol, token)
    requires total == TotalOf(totals, symbol)
    ensures Consistent(Bumped(table, symbol, token), Raised(totals, symbol))
  {
    MapSumUpdate(row, token, count + 1);
    assert MapSum(row) == total by {
      if symbol !in totals {
        assert row == map[];
      }
    }
  }

  class SymbolTable<S(==, !new), T(==, !new)> {
    /** For every symbol, how often each token followed it. */
    var frequencyTable: map<S, map<T, int>>
    /** For every symbol, its total. */
    var frequencyMap: map<S, int>

    /**
     * The same symbols in both maps, at least one token after each symbol,
     * positive counts, and each total the sum of its symbol's counts.
     */
    ghost predicate Valid()
      reads this
    {
      Consistent(frequencyTable, frequencyMap)
    }

    /** An empty table. */
    constructor ()
      ensures Valid() && frequencyTable == map[] && frequencyMap == map[]
    {
      frequencyTable := map[];
      frequencyMap := map[];
    }

    /** The counts of the tokens after a symbol: none for a symbol never incremented. */
    function Row(symbol: S): (r: map<T, int>)
      requires Valid()
      reads this
      ensures Positive(r)
      ensures symbol !in frequencyTable ==> r == map[]
      ensures symbol in frequencyTable ==> r == frequencyTable[symbol]
    {
      RowOf(frequencyTable, symbol)
    }

    /**
     * A symbol's total, 0 for a symbol never incremented: the sum of the
     * counts of the tokens after it.
     */
    function FrequencyOf(symbol: S): (r: int)
      requires Valid()
      reads this
      ensures r == MapSum(Row(symbol))
      ensures r == 0 <==> symbol !in frequencyMap
      ensures r >= 0
    {
      PositiveSum(Row(symbol));
      TotalOf(frequencyMap, symbol)
    }

    /** How often token followed symbol: 0 for an unseen symbol or pair, never more than the symbol's total. */
    function FrequencyOfPair(symbol: S, token: T): (r: int)
      requires Valid()
      reads this
      ensures token !in Row(symbol) ==> r == 0
      ensures token in Row(symbol) ==> r == Row(symbol)[token] > 0
      ensures 0 <= r <= FrequencyOf(symbol)
    {
      CountWithinTotal(frequencyTable, frequencyMap, symbol, token);
      CountOf(frequencyTable, symbol, token)
    }

    /** The totals: exactly the symbols ever incremented, each with its total. */
    function FrequencyMap(): (r: map<S, int>)
      requires Valid()
      reads this
      ensures forall s :: s in r <==> FrequencyOf(s) > 0
      ensures forall s | s in r :: r[s] == FrequencyOf(s)
    {
      frequencyMap
    }

    /**
     * The counts of the tokens after a symbol, or `out_of_range` for a
     * symbol never incremented; the counts sum to the symbol's total.
     */
    function FrequencyMapOf(symbol: S): (r: Result<map<T, int>>)
      requires Valid()
      reads this
      ensures r.Failure? <==> FrequencyOf(symbol) == 0
      ensures r.Failure? ==> r.error == OutOfRange
      ensures r.Success? ==> MapSum(r.value) == FrequencyOf(symbol) && Positive(r.value)
      ensures r.Success? ==> forall t :: (t in r.value <==> FrequencyOfPair(symbol, t) > 0)
      ensures r.Success? ==> forall t | t in r.value :: r.value[t] == FrequencyOfPair(symbol, t)
    {
      if symbol in frequencyTable then Success(frequencyTable[symbol]) else Failure(OutOfRange)
    }

    /**
     * Adds one to the count of nextToken after symbol and one to the
     * symbol's total, creating either if missing; every other count and
     * total is unchanged.
     */
    method Increment(symbol: S, nextToken: T)
      requires Valid()
      modifies this
      ensures Valid()
      ensures frequencyTable == Bumped(old(frequencyTable), symbol, nextToken)
      ensures frequencyMap == Raised(old(frequencyMap), symbol)
      ensures FrequencyOf(symbol) == old(FrequencyOf(symbol)) + 1
      ensures FrequencyOfPair(symbol, nextToken) == old(FrequencyOfPair(symbol, nextToken)) + 1
    {
      var row := Row(symbol);
      var count := FrequencyOfPair(symbol, nextToken);
      var total := FrequencyOf(symbol);
      IncrementConsistent(frequencyTable, frequencyMap, symbol, nextToken, row, count, total);
      frequencyTable := frequencyTable[symbol := row[nextToken := count + 1]];
      frequencyMap := frequencyMap[symbol := total + 1];
    }

    /** A report of one symbol that has a total: that total, then every token after it with its count. */
    ghost predicate Reported(r: SymbolReport<S, T>)
      requires Valid()
      reads this
    {
      r.symbol in frequencyMap && r.total == FrequencyOf(r.symbol) && Lists(r.tokens, Row(r.symbol))
    }

    /** Every symbol of the report is reported with its total and its tokens. */
    ghost predicate AllReported(report: seq<SymbolReport<S, T>>)
      requires Valid()
      reads this
    {
      forall i | 0 <= i < |report| :: Reported(report[i])
    }

    lemma AllReportedSnoc(report: seq<SymbolReport<S, T>>, r: SymbolReport<S, T>)
      requires Valid() && AllReported(report) && Reported(r)
      ensures AllReported(report + [r])
    {
      assert forall i | 0 <= i < |report| :: (report + [r])[i] == report[i];
    }

    /**
     * Walks the totals in an unspecified order, reporting each symbol with
     * its total and then each of its tokens with its count.
     */
    method Traverse() returns (report: seq<SymbolReport<S, T>>)
      requires Valid()
      ensures SymbolsOf(report) == frequencyMap.Keys
      ensures DistinctSymbols(report)
      ensures AllReported(report)
    {
      report := [];
      var remaining := frequencyMap.Keys;
      while remaining != {}
        invariant remaining <= frequencyMap.Keys && SymbolsOf(report) == frequencyMap.Keys - remaining
        invariant DistinctSymbols(report)
        invariant AllReported(report)
        decreases remaining
      {
        var symbol :| symbol in remaining;
        var tokens := ListEntries(frequencyTable[symbol]);
        var entry := SymbolReport(symbol, frequencyMap[symbol], tokens);
        assert Reported(entry);
        ReportSnoc(report, entry);
        AllReportedSnoc(report, entry);
        report := report + [entry];
        remaining := remaining - {symbol};
      }
    }
  }

  /** No symbol is reported twice. */
  ghost predicate DistinctSymbols<S, T>(report: seq<SymbolReport<S, T>>)
  {
    forall i, j | 0 <= i < j < |report| :: report[i].symbol != report[j].symbol
  }

  /** Reporting a symbol not yet reported keeps the symbols distinct and adds it to them. */
  lemma ReportSnoc<S, T>(report: seq<SymbolReport<S, T>>, r: SymbolReport<S, T>)
    requires DistinctSymbols(report) && r.symbol !in SymbolsOf(report)
    ensures DistinctSymbols(report + [r])
    ensures SymbolsOf(report + [r]) == SymbolsOf(report) + {r.symbol}
  {
    forall i | 0 <= i < |report|
      ensures report[i].symbol != r.symbol
    {
      SymbolsOfPrefix(report, i + 1);
      SymbolsOfSnoc(report[..i], report[i]);
      assert report[..i + 1] == report[..i] + [report[i]];
    }
    SymbolsOfSnoc(report, r);
  }

  /** The symbols of a prefix are among the symbols of the whole report. */
  lemma {:induction false} SymbolsOfPrefix<S, T>(report: seq<SymbolReport<S, T>>, n: nat)
    requires n <= |report|
    ensures SymbolsOf(report[..n]) <= SymbolsOf(report)
    decreases |report| - n
  {
    if n < |report| {
      SymbolsOfPrefix(report, n + 1);
      assert report[..n + 1][..n] == report[..n];
    } else {
      assert report[..n] == report;
    }
  }

  /** Positive counts sum to a positive total, unless there are none. */
  lemma PositiveSum<K>(m: map<K, int>)
    requires Positive(m)
    ensures MapSum(m) >= 0 && (MapSum(m) == 0 <==> m == map[])
  {
    MapSumNonNegative(m);
    if m != map[] {
      var k :| k in m;
      MapSumAtLeast(m, k);
    }
  }

  /**
   * A symbol's counts sum to its total, read either from the totals or
   * from the table, token by token.
   */
  lemma TotalIsSumOfPairs<S(!new), T(!new)>(table: SymbolTable<S, T>, symbol: S)
    requires table.Valid()
    ensures table.FrequencyOf(symbol) == MapSum(map t | t in table.Row(symbol) :: table.FrequencyOfPair(symbol, t))
  {
    assert (map t | t in table.Row(symbol) :: table.FrequencyOfPair(symbol, t)) == table.Row(symbol);
  }
}
