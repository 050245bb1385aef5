/**
 * WordWriter: a Markov model of order k over the words of a text. The text
 * is split into tokens on single spaces, the first k tokens are appended
 * again so that every token has k predecessors, and each window of k
 * tokens, joined by spaces into one key, is counted in a symbol table
 * together with the token after it.
 */
module WordWriters {
  import opened Wrappers
  import opened Counting
  import ST = SymbolTables

  /** What the constructor throws for an order longer than the text. */
  const InvalidArgument := "invalid_argument"

  // ---------------------------------------------------------------------
  // Tokens
  // ---------------------------------------------------------------------

  /** A token holds no space. */
  ghost predicate SpaceFree(t: string)
  {
    forall i | 0 <= i < |t| :: t[i] != ' '
  }

  ghost predicate AllSpaceFree(tokens: seq<string>)
  {
    forall i | 0 <= i < |tokens| :: SpaceFree(tokens[i])
  }

  /**
   * The tokens `getline(ss, token, ' ')` reads from rest when current has
   * already been read into the token under way: a space ends the token,
   * and the end of the text ends it only when it is not empty.
   */
  function Pieces(current: string, rest: string): seq<string>
    decreases |rest|
  {
    if rest == [] then (if current == [] then [] else [current])
    else if rest[0] == ' ' then [current] + Pieces([], rest[1..])
    else Pieces(current + [rest[0]], rest[1..])
  }

  /** The tokens of a text, read by repeated `getline` on ' '. */
  function Split(text: string): seq<string>
  {
    Pieces([], text)
  }

  /**
   * The tokenising loop of the constructor, one character at a time.
   */
  method Tokenize(text: string) returns (tokens: seq<string>)
    ensures tokens == Split(text)
  {
    tokens := [];
    var current := "";
    var i := 0;
    while i < |text|
      invariant 0 <= i <= |text|
      invariant tokens + Pieces(current, text[i..]) == Split(text)
    {
      assert text[i..][1..] == text[i + 1..];
      if text[i] == ' ' {
        tokens := tokens + [current];
        current := "";
      } else {
        current := current + [text[i]];
      }
      i := i + 1;
    }
    if current != [] {
      tokens := tokens + [current];
    }
  }

  /** Only the empty text has no token. */
  lemma SplitEmpty(text: string)
    ensures Split(text) == [] <==> text == []
  {
    if text != [] {
      PiecesNonEmpty([], text);
    }
  }

  lemma {:induction false} PiecesNonEmpty(current: string, rest: string)
    requires current != [] || rest != []
    ensures Pieces(current, rest) != []
    decreases |rest|
  {
    if rest != [] && rest[0] != ' ' {
      PiecesNonEmpty(current + [rest[0]], rest[1..]);
    }
  }

  /** No token read holds a space. */
  lemma SplitSpaceFree(text: string)
    ensures AllSpaceFree(Split(text))
  {
    PiecesSpaceFree([], text);
  }

  lemma {:induction false} PiecesSpaceFree(current: string, rest: string)
    requires SpaceFree(current)
    ensures AllSpaceFree(Pieces(current, rest))
    decreases |rest|
  {
    if rest != [] {
      if rest[0] == ' ' {
        PiecesSpaceFree([], rest[1..]);
      } else {
        PiecesSpaceFree(current + [rest[0]], rest[1..]);
      }
    }
  }

  /** Reading a token without a space just adds it to the token under way. */
  lemma {:induction false} PiecesToken(current: string, t: string, rest: string)
    requires SpaceFree(t)
    ensures Pieces(current, t + rest) == Pieces(current + t, rest)
    decreases |t|
  {
    if t != [] {
      assert (t + rest)[1..] == t[1..] + rest;
      assert current + t == (current + [t[0]]) + t[1..];
      PiecesToken(current + [t[0]], t[1..], rest);
    } else {
      assert t + rest == rest && current + t == current;
    }
  }

  // ---------------------------------------------------------------------
  // Joining
  // ---------------------------------------------------------------------

  /** The tokens joined by single spaces, with no space at either end. */
  function Join(tokens: seq<string>): string
  {
    if tokens == [] then ""
    else if |tokens| == 1 then tokens[0]
    else tokens[0] + " " + Join(tokens[1..])
  }

  /** Every token followed by one space, as `generate` writes them. */
  function Spaced(tokens: seq<string>): string
  {
    if tokens == [] then "" else tokens[0] + " " + Spaced(tokens[1..])
  }

  /** Writing one more token adds it and its space at the end. */
  lemma {:induction false} SpacedSnoc(tokens: seq<string>, t: string)
    ensures Spaced(tokens + [t]) == Spaced(tokens) + t + " "
  {
    if tokens != [] {
      assert (tokens + [t])[1..] == tokens[1..] + [t];
      SpacedSnoc(tokens[1..], t);
    } else {
      assert Spaced([t]) == t + " " + Spaced([]);
    }
  }

  /** A non-empty join followed by one space is the spaced form. */
  lemma {:induction false} JoinSpaced(tokens: seq<string>)
    requires tokens != []
    ensures Join(tokens) + " " == Spaced(tokens)
  {
    if |tokens| > 1 {
      JoinSpaced(tokens[1..]);
      assert Join(tokens) + " " == tokens[0] + " " + (Join(tokens[1..]) + " ");
    } else {
      assert tokens[1..] == [];
    }
  }

  /** Re-reading text written token by token, each followed by a space, gives back the tokens. */
  lemma {:induction false} SplitSpaced(tokens: seq<string>)
    requires AllSpaceFree(tokens)
    ensures Split(Spaced(tokens)) == tokens
  {
    if tokens != [] {
      assert SpaceFree(tokens[0]);
      assert AllSpaceFree(tokens[1..]) by {
        assert forall i | 0 <= i < |tokens[1..]| :: tokens[1..][i] == tokens[i + 1];
      }
      SplitToken(tokens[0], Spaced(tokens[1..]));
      SplitSpaced(tokens[1..]);
      assert tokens == [tokens[0]] + tokens[1..];
    }
  }

  /** A space-free token followed by a space is read as that token, then reading goes on. */
  lemma SplitToken(t: string, rest: string)
    requires SpaceFree(t)
    ensures Split(t + " " + rest) == [t] + Split(rest)
  {
    var after := " " + rest;
    assert t + " " + rest == t + after;
    PiecesToken([], t, after);
    assert [] + t == t;
    assert after[0] == ' ' && after[1..] == rest;
  }

  /** Joining tokens without spaces loses nothing: a non-empty join determines its tokens. */
  lemma JoinInjective(a: seq<string>, b: seq<string>)
    requires a != [] && b != [] && AllSpaceFree(a) && AllSpaceFree(b)
    requires Join(a) == Join(b)
    ensures a == b
  {
    JoinSpaced(a);
    JoinSpaced(b);
    SplitSpaced(a);
    SplitSpaced(b);
  }

  /**
   * `to_string`: the tokens joined by single spaces. An empty vector makes
   * the last index wrap around, and the first `at(0)` throws
   * `out_of_range`.
   */
  method ToString(tokens: seq<string>) returns (r: Result<string>)
    ensures r.Failure? <==> tokens == []
    ensures r.Failure? ==> r.error == ST.OutOfRange
    ensures r.Success? ==> r.value == Join(tokens)
  {
    if tokens == [] {
      return Failure(ST.OutOfRange);
    }
    var maxIndex := |tokens| - 1;
    var s := "";
    var i := 0;
    while i <= maxIndex
      invariant 0 <= i <= |tokens|
      invariant i < |tokens| ==> s + Join(tokens[i..]) == Join(tokens)
      invariant i == |tokens| ==> s == Join(tokens)
    {
      if i != maxIndex {
        assert tokens[i..][1..] == tokens[i + 1..];
        s := s + tokens[i] + " ";
      } else {
        s := s + tokens[i];
      }
      i := i + 1;
    }
    r := Success(s);
  }

  /** A slice of space-free tokens is space-free. */
  lemma SliceSpaceFree(tokens: seq<string>, i: nat, j: nat)
    requires i <= j <= |tokens| && AllSpaceFree(tokens)
    ensures AllSpaceFree(tokens[i..j])
  {
    forall x | 0 <= x < j - i
      ensures SpaceFree(tokens[i..j][x])
    {
      assert tokens[i..j][x] == tokens[i + x];
    }
  }

  // ---------------------------------------------------------------------
  // Wrapping
  // ---------------------------------------------------------------------

  /**
   * The tokens after the wrap loop of the constructor: step i appends the
   * token then at index i, so the first k tokens come again, cyclically
   * when k exceeds the number of tokens.
   */
  ghost function Wrapped(tokens: seq<string>, k: nat): (w: seq<string>)
    requires tokens != [] || k == 0
    ensures |w| == |tokens| + k
  {
    if k == 0 then tokens
    else
      var v := Wrapped(tokens, k - 1);
      v + [v[k - 1]]
  }

  /**
   * The wrapped tokens start with the tokens, repeat their first k
   * entries after them, and hold nothing but tokens.
   */
  lemma {:induction false} WrappedShape(tokens: seq<string>, k: nat)
    requires tokens != [] || k == 0
    ensures Wrapped(tokens, k)[..|tokens|] == tokens
    ensures forall j | 0 <= j < k :: Wrapped(tokens, k)[|tokens| + j] == Wrapped(tokens, k)[j]
    ensures forall j | 0 <= j < |Wrapped(tokens, k)| :: Wrapped(tokens, k)[j] in tokens
  {
    if k > 0 {
      WrappedShape(tokens, k - 1);
      var v := Wrapped(tokens, k - 1);
      var w := Wrapped(tokens, k);
      assert w == v + [v[k - 1]];
      assert w[..|tokens|] == v[..|tokens|];
      forall j | 0 <= j < k
        ensures w[|tokens| + j] == w[j]
      {
        if j < k - 1 {
          assert w[|tokens| + j] == v[|tokens| + j];
        }
      }
    } else {
      assert Wrapped(tokens, 0) == tokens;
    }
  }

  /** The wrap loop: appends, k times, the token at the loop's index. */
  method Wrap(tokens: seq<string>, k: nat) returns (w: seq<string>)
    requires tokens != [] || k == 0
    ensures w == Wrapped(tokens, k)
  {
    w := tokens;
    var i := 0;
    while i < k
      invariant 0 <= i <= k && w == Wrapped(tokens, i)
    {
      w := w + [w[i]];
      i := i + 1;
    }
  }

  /** The text's tokens wrapped by k, over which the constructor counts. */
  ghost function Source(text: string, k: nat): (w: seq<string>)
    requires k <= |text|
    ensures |w| == |Split(text)| + k
  {
    SplitEmpty(text);
    Wrapped(Split(text), k)
  }

  /** Every token of the wrapped text is a token of the text, so holds no space. */
  lemma SourceSpaceFree(text: string, k: nat)
    requires k <= |text|
    ensures AllSpaceFree(Source(text, k))
  {
    SplitEmpty(text);
    WrappedShape(Split(text), k);
    SplitSpaceFree(text);
    forall j | 0 <= j < |Source(text, k)|
      ensures SpaceFree(Source(text, k)[j])
    {
      var i :| 0 <= i < |Split(text)| && Split(text)[i] == Source(text, k)[j];
    }
  }

  // ---------------------------------------------------------------------
  // Counting
  // ---------------------------------------------------------------------

  /** The key of the window of k tokens of w starting at i. */
  ghost function KeyAt(w: seq<string>, i: nat, k: nat): string
    requires i + k <= |w|
  {
    Join(w[i..i + k])
  }

  lemma KeyOfWindow(w: seq<string>, i: nat, k: nat, window: seq<string>)
    requires i + k <= |w| && window == w[i..i + k]
    ensures KeyAt(w, i, k) == Join(window)
  {
  }

  /** How many of the first n windows of k tokens of w join into key. */
  ghost function KeyCount(w: seq<string>, k: nat, n: nat, key: string): nat
    requires n + k <= |w|
  {
    if n == 0 then 0
    else KeyCount(w, k, n - 1, key) + (if KeyAt(w, n - 1, k) == key then 1 else 0)
  }

  /** How many of the first n windows of k tokens of w join into key and are followed by t. */
  ghost function PairCount(w: seq<string>, k: nat, n: nat, key: string, t: string): nat
    requires n + k <= |w|
  {
    if n == 0 then 0
    else PairCount(w, k, n - 1, key, t) + (if KeyAt(w, n - 1, k) == key && w[n - 1 + k] == t then 1 else 0)
  }

  /** A counted pair is at some window. */
  lemma {:induction false} PairWitness(w: seq<string>, k: nat, n: nat, key: string, t: string) returns (i: nat)
    requires n + k <= |w| && PairCount(w, k, n, key, t) > 0
    ensures i < n && KeyAt(w, i, k) == key && w[i + k] == t
  {
    if KeyAt(w, n - 1, k) == key && w[n - 1 + k] == t {
      i := n - 1;
    } else {
      i := PairWitness(w, k, n - 1, key, t);
    }
  }

  /** A key counted is at some window. */
  lemma {:induction false} KeyWitness(w: seq<string>, k: nat, n: nat, key: string) returns (i: nat)
    requires n + k <= |w| && KeyCount(w, k, n, key) > 0
    ensures i < n && KeyAt(w, i, k) == key
  {
    if KeyAt(w, n - 1, k) == key {
      i := n - 1;
    } else {
      i := KeyWitness(w, k, n - 1, key);
    }
  }

  /** The window at any position below n is counted. */
  lemma {:induction false} KeyFound(w: seq<string>, k: nat, n: nat, i: nat)
    requires n + k <= |w| && i < n
    ensures KeyCount(w, k, n, KeyAt(w, i, k)) > 0
  {
    if i < n - 1 {
      KeyFound(w, k, n - 1, i);
    }
  }

  /** The window at any position below n, with the token after it, is counted. */
  lemma {:induction false} PairFound(w: seq<string>, k: nat, n: nat, i: nat)
    requires n + k <= |w| && i < n
    ensures PairCount(w, k, n, KeyAt(w, i, k), w[i + k]) > 0
  {
    if i < n - 1 {
      PairFound(w, k, n - 1, i);
    }
  }

  /**
   * The maps of a symbol table hold, for every key, the number of the
   * first n windows joining into it, and for every key and token the
   * number of those windows followed by the token; the totals sum to n.
   */
  ghost predicate Tallied(table: map<string, map<string, int>>, totals: map<string, int>, w: seq<string>, k: nat, n: nat)
    requires n + k <= |w|
  {
    (forall key :: ST.TotalOf(totals, key) == KeyCount(w, k, n, key)) &&
    (forall key, t :: ST.CountOf(table, key, t) == PairCount(w, k, n, key, t)) &&
    MapSum(totals) == n
  }

  /** Incrementing the window at i and the token after it tallies one more window. */
  lemma TallyStep(table: map<string, map<string, int>>, totals: map<string, int>, w: seq<string>, k: nat, i: nat,
                  key: string, t: string, table': map<string, map<string, int>>, totals': map<string, int>)
    requires i + k < |w| && Tallied(table, totals, w, k, i)
    requires key == KeyAt(w, i, k) && t == w[i + k]
    requires table' == ST.Bumped(table, key, t) && totals' == ST.Raised(totals, key)
    ensures Tallied(table', totals', w, k, i + 1)
  {
    forall g
      ensures ST.TotalOf(totals', g) == KeyCount(w, k, i + 1, g)
    {
      assert KeyCount(w, k, i + 1, g) == KeyCount(w, k, i, g) + (if key == g then 1 else 0);
    }
    forall g, u
      ensures ST.CountOf(table', g, u) == PairCount(w, k, i + 1, g, u)
    {
      assert PairCount(w, k, i + 1, g, u) == PairCount(w, k, i, g, u) + (if key == g && t == u then 1 else 0);
    }
    MapSumUpdate(totals, key, ST.TotalOf(totals, key) + 1);
  }

  /**
   * The shape of the wrapped text: n > 0 windows, tokens without spaces,
   * and the window after the last one equal to the first.
   */
  ghost predicate Cyclic(w: seq<string>, n: nat, k: nat)
  {
    0 < n && n + k <= |w| && AllSpaceFree(w) && w[n..n + k] == w[..k]
  }

  lemma SourceCyclic(text: string, k: nat)
    requires k <= |text| && text != []
    ensures Cyclic(Source(text, k), |Split(text)|, k)
  {
    SplitEmpty(text);
    WrappedShape(Split(text), k);
    SourceSpaceFree(text, k);
    var w, n := Source(text, k), |Split(text)|;
    assert w[n..n + k] == w[..k] by {
      assert forall j | 0 <= j < k :: w[n..n + k][j] == w[..k][j];
    }
  }

  /**
   * In a cyclic text, after a window seen before some token, the window
   * shifted by that token is seen again, and the token holds no space.
   */
  lemma NextKeyIn(w: seq<string>, n: nat, k: nat, window: seq<string>, t: string)
    requires Cyclic(w, n, k) && 0 < k && |window| == k && AllSpaceFree(window)
    requires PairCount(w, k, n, Join(window), t) > 0
    ensures KeyCount(w, k, n, Join(window[1..] + [t])) > 0
    ensures SpaceFree(t)
  {
    var i := PairWitness(w, k, n, Join(window), t);
    SliceSpaceFree(w, i, i + k);
    JoinInjective(w[i..i + k], window);
    assert SpaceFree(w[i + k]);
    Shift(w, i, k);
    var next := Join(window[1..] + [t]);
    if i + 1 < n {
      assert KeyAt(w, i + 1, k) == next;
      KeyFound(w, k, n, i + 1);
    } else {
      assert w[0..k] == w[n..n + k] == w[i + 1..i + 1 + k];
      assert KeyAt(w, 0, k) == next;
      KeyFound(w, k, n, 0);
    }
  }

  /** The window after the one at i is that window without its first token, followed by the next token. */
  lemma Shift(w: seq<string>, i: nat, k: nat)
    requires 0 < k && i + k < |w|
    ensures w[i + 1..i + 1 + k] == w[i..i + k][1..] + [w[i + k]]
  {
  }

  /**
   * After a k-gram of the text seen before some token, the window shifted
   * by that token is again a k-gram of the text, and the token holds no
   * space; so generation from a k-gram of the text never gets stuck.
   */
  lemma NextKeySeen(text: string, k: nat, window: seq<string>, t: string)
    requires 0 < k <= |text| && |window| == k && AllSpaceFree(window)
    requires PairCount(Source(text, k), k, |Split(text)|, Join(window), t) > 0
    ensures KeyCount(Source(text, k), k, |Split(text)|, Join(window[1..] + [t])) > 0
    ensures SpaceFree(t)
  {
    SourceCyclic(text, k);
    NextKeyIn(Source(text, k), |Split(text)|, k, window, t);
  }

  // ---------------------------------------------------------------------
  // The writer
  // ---------------------------------------------------------------------

  /**
   * The walk of `kRand` over a symbol's token counts in an unspecified
   * order: adds up counts until the sum reaches the drawn index, whose
   * token it returns. With an index in [1, total] the walk always stops at
   * a token of the row, so the empty-string fallback is never taken.
   */
  method PickToken(frequencies: map<string, int>, randomIndex: int) returns (token: string)
    requires ST.Positive(frequencies) && 1 <= randomIndex <= MapSum(frequencies)
    ensures token in frequencies
  {
    assert MapSum(Restrict(frequencies, frequencies.Keys)) == MapSum(frequencies) by {
      RestrictEnds(frequencies);
    }
    var cumulative := 0;
    var remaining := frequencies.Keys;
    var found := false;
    token := "";
    while !found && remaining != {}
      invariant remaining <= frequencies.Keys
      invariant found ==> token in frequencies
      invariant !found ==> cumulative < randomIndex &&
                           cumulative + MapSum(Restrict(frequencies, remaining)) == MapSum(frequencies)
      decreases remaining
    {
      var t :| t in remaining;
      RestrictStep(frequencies, remaining, t);
      cumulative := cumulative + frequencies[t];
      if cumulative >= randomIndex {
        found, token := true, t;
      }
      remaining := remaining - {t};
    }
    if !found {
      RestrictEnds(frequencies);
      token := "";
    }
  }

  /**
   * One pass of the counting loop of the constructor: joins the window at
   * i into a key and increments the key with the token after the window.
   * Joining the empty window of order 0 throws `out_of_range`.
   */
  method CountWindow(table: ST.SymbolTable<string, string>, w: seq<string>, k: nat, i: nat) returns (r: Result<()>)
    requires i + k < |w| && table.Valid() && Tallied(table.frequencyTable, table.frequencyMap, w, k, i)
    modifies table
    ensures r.Failure? <==> k == 0
    ensures r.Failure? ==> r.error == ST.OutOfRange
    ensures r.Success? ==> table.Valid() && Tallied(table.frequencyTable, table.frequencyMap, w, k, i + 1)
  {
    var key := ToString(w[i..i + k]);
    if key.Failure? {
      return Failure(key.error);
    }
    KeyOfWindow(w, i, k, w[i..i + k]);
    ghost var frequencyTable, frequencyMap := table.frequencyTable, table.frequencyMap;
    table.Increment(key.value, w[i + k]);
    TallyStep(frequencyTable, frequencyMap, w, k, i, key.value, w[i + k], table.frequencyTable, table.frequencyMap);
    r := Success(());
  }

  /**
   * The counting loop of the constructor: counts the first n windows of w
   * into an empty table. Order 0 throws at the first window, if any.
   */
  method CountWindows(table: ST.SymbolTable<string, string>, w: seq<string>, k: nat, n: nat) returns (r: Result<()>)
    requires n + k == |w| && table.Valid() && table.frequencyTable == map[] && table.frequencyMap == map[]
    modifies table
    ensures r.Failure? <==> k == 0 && n > 0
    ensures r.Failure? ==> r.error == ST.OutOfRange
    ensures r.Success? ==> table.Valid() && Tallied(table.frequencyTable, table.frequencyMap, w, k, n)
  {
    var i := 0;
    while i < |w| - k
      invariant 0 <= i <= n && (k == 0 ==> i == 0)
      invariant table.Valid() && Tallied(table.frequencyTable, table.frequencyMap, w, k, i)
    {
      var counted := CountWindow(table, w, k, i);
      if counted.Failure? {
        return Failure(counted.error);
      }
      i := i + 1;
    }
    r := Success(());
  }

  /**
   * s is kgram followed by m tokens, the j-th of which followed, somewhere
   * in the wrapped text, the window of k tokens of s starting at j.
   */
  ghost predicate Generated(w: seq<string>, k: nat, n: nat, kgram: seq<string>, s: seq<string>, m: nat)
    requires n + k <= |w|
  {
    |s| == |kgram| + m && s[..|kgram|] == kgram && (m > 0 ==> k <= |kgram|) &&
    forall j | 0 <= j < m :: PairCount(w, k, n, KeyAt(s, j, k), s[|kgram| + j]) > 0
  }

  /** Appending a token that followed the window at m extends a generated sequence by one. */
  lemma GeneratedSnoc(w: seq<string>, k: nat, n: nat, kgram: seq<string>, s: seq<string>, m: nat, key: string, t: string)
    requires n + k <= |w| && Generated(w, k, n, kgram, s, m) && k <= |kgram|
    requires key == KeyAt(s, m, k) && PairCount(w, k, n, key, t) > 0
    ensures Generated(w, k, n, kgram, s + [t], m + 1)
  {
    var s' := s + [t];
    assert s'[..|kgram|] == s[..|kgram|];
    forall j | 0 <= j < m + 1
      ensures PairCount(w, k, n, KeyAt(s', j, k), s'[|kgram| + j]) > 0
    {
      assert s'[j..j + k] == s[j..j + k];
      assert KeyAt(s', j, k) == KeyAt(s, j, k);
      if j < m {
        assert s'[|kgram| + j] == s[|kgram| + j];
      } else {
        assert s'[|kgram| + j] == t;
      }
    }
  }

  /**
   * s is a window of k space-free tokens, seen in the text, after i
   * tokens: the state from which generation cannot get stuck.
   */
  ghost predicate Open(w: seq<string>, k: nat, n: nat, s: seq<string>, i: nat)
    requires n + k <= |w|
  {
    |s| == i + k && AllSpaceFree(s) && KeyCount(w, k, n, Join(s[i..i + k])) > 0
  }

  /** Appending a token seen after the last window of s keeps generation unstuck. */
  lemma OpenSnoc(w: seq<string>, n: nat, k: nat, s: seq<string>, i: nat, key: string, t: string)
    requires Cyclic(w, n, k) && 0 < k && Open(w, k, n, s, i)
    requires key == KeyAt(s, i, k) && PairCount(w, k, n, key, t) > 0
    ensures Open(w, k, n, s + [t], i + 1)
  {
    var window := s[i..i + k];
    SliceSpaceFree(s, i, i + k);
    NextKeyIn(w, n, k, window, t);
    var s' := s + [t];
    assert s'[i + 1..i + 1 + k] == window[1..] + [t];
    SnocSpaceFree(s, t);
  }

  lemma SnocSpaceFree(s: seq<string>, t: string)
    requires AllSpaceFree(s) && SpaceFree(t)
    ensures AllSpaceFree(s + [t])
  {
    forall j | 0 <= j < |s + [t]|
      ensures SpaceFree((s + [t])[j])
    {
      if j < |s| {
        assert (s + [t])[j] == s[j];
      }
    }
  }


  /**
   * The state of the generation loop after i steps: s is kgram followed by
   * i generated tokens; when generation started from a k-gram of the text
   * it cannot get stuck; and s is free of spaces when kgram is.
   */
  ghost predicate Progress(w: seq<string>, n: nat, k: nat, kgram: seq<string>, s: seq<string>, i: nat, closed: bool)
    requires n + k <= |w|
  {
    Generated(w, k, n, kgram, s, i) && (i > 0 ==> k > 0) &&
    (closed ==> Cyclic(w, n, k) && Open(w, k, n, s, i)) &&
    (AllSpaceFree(kgram) ==> AllSpaceFree(s))
  }

  /** Before the first round the k-gram alone has made progress, and from a k-gram of the text it is unstuck. */
  lemma StartProgress(text: string, k: nat, kgram: seq<string>, closed: bool)
    requires k <= |text| && (k == 0 ==> text == [])
    requires closed == (|kgram| == k > 0 && AllSpaceFree(kgram) &&
                        KeyCount(Source(text, k), k, |Split(text)|, Join(kgram)) > 0)
    ensures Progress(Source(text, k), |Split(text)|, k, kgram, kgram, 0, closed)
  {
    if closed {
      SourceCyclic(text, k);
      assert kgram[0..k] == kgram;
    }
  }

  /** Appending a token that followed the window at i makes one more step of progress. */
  lemma ProgressStep(w: seq<string>, n: nat, k: nat, kgram: seq<string>, s: seq<string>, i: nat, closed: bool,
                     key: string, t: string)
    requires n + k <= |w| && AllSpaceFree(w) && Progress(w, n, k, kgram, s, i, closed)
    requires 0 < k && i + k <= |s| && key == KeyAt(s, i, k) && PairCount(w, k, n, key, t) > 0
    ensures Progress(w, n, k, kgram, s + [t], i + 1, closed)
  {
    assert k <= |kgram|;
    GeneratedSnoc(w, k, n, kgram, s, i, key, t);
    if closed {
      OpenSnoc(w, n, k, s, i, key, t);
    }
    if AllSpaceFree(kgram) {
      var j := PairWitness(w, k, n, key, t);
      assert SpaceFree(w[j + k]);
      SnocSpaceFree(s, t);
    }
  }

  /** The output loop of `generate`: every token followed by one space. */
  method WriteSpaced(tokens: seq<string>) returns (output: string)
    ensures output == Spaced(tokens)
  {
    output := "";
    var j := 0;
    while j < |tokens|
      invariant 0 <= j <= |tokens| && output == Spaced(tokens[..j])
    {
      SpacedSnoc(tokens[..j], tokens[j]);
      assert tokens[..j + 1] == tokens[..j] + [tokens[j]];
      output := output + tokens[j] + " ";
      j := j + 1;
    }
    assert tokens[..j] == tokens;
  }

  class WordWriter {
    const orderK: nat
    const symbolTable: ST.SymbolTable<string, string>
    /** The text the model was built from. */
    ghost const text: string

    /**
     * The order fits the text (and is 0 only for the empty text), and the
     * table tallies every window of the wrapped tokens of the text.
     */
    ghost predicate Valid()
      reads this, symbolTable
    {
      orderK <= |text| && (orderK == 0 ==> text == []) && symbolTable.Valid() &&
      Tallied(symbolTable.frequencyTable, symbolTable.frequencyMap, Source(text, orderK), orderK, |Split(text)|)
    }

    constructor FromTable(ghost text: string, k: nat, table: ST.SymbolTable<string, string>)
      requires k <= |text| && (k == 0 ==> text == []) && table.Valid()
      requires Tallied(table.frequencyTable, table.frequencyMap, Source(text, k), k, |Split(text)|)
      ensures Valid() && this.text == text && orderK == k && symbolTable == table
    {
      this.text := text;
      orderK := k;
      symbolTable := table;
    }

    /**
     * The constructor: refuses an order longer than the text, splits the
     * text, wraps the first k tokens around and counts every window with
     * the token after it. With k = 0 and a non-empty text, joining the
     * first (empty) window throws `out_of_range`.
     */
    static method Create(text: string, k: nat) returns (r: Result<WordWriter>)
      ensures r.Failure? <==> k > |text| || (k == 0 && text != [])
      ensures k > |text| ==> r == Failure(InvalidArgument)
      ensures k <= |text| && r.Failure? ==> r.error == ST.OutOfRange
      ensures r.Success? ==> fresh(r.value) && fresh(r.value.symbolTable) && r.value.Valid()
      ensures r.Success? ==> r.value.text == text && r.value.orderK == k
      ensures r.Success? ==> MapSum(r.value.symbolTable.frequencyMap) == |Split(text)|
    {
      if k > |text| {
        return Failure(InvalidArgument);
      }
      var tokens := Tokenize(text);
      SplitEmpty(text);
      var w := Wrap(tokens, k);
      assert w == Source(text, k);
      var table := new ST.SymbolTable<string, string>();
      var counted := CountWindows(table, w, k, |tokens|);
      if counted.Failure? {
        return Failure(counted.error);
      }
      var writer := new WordWriter.FromTable(text, k, table);
      return Success(writer);
    }

    /** A key has a total exactly when some window of the wrapped text joins into it. */
    lemma KeysAreWindows(key: string)
      requires Valid()
      ensures symbolTable.FrequencyOf(key) > 0 <==>
              exists i :: 0 <= i < |Split(text)| && KeyAt(Source(text, orderK), i, orderK) == key
    {
      var w, n := Source(text, orderK), |Split(text)|;
      if symbolTable.FrequencyOf(key) > 0 {
        var i := KeyWitness(w, orderK, n, key);
      }
      if i :| 0 <= i < n && KeyAt(w, i, orderK) == key {
        KeyFound(w, orderK, n, i);
      }
    }

    /** A token has a count after a key exactly when it follows a window of the wrapped text joining into the key. */
    lemma PairsAreTransitions(key: string, t: string)
      requires Valid()
      ensures symbolTable.FrequencyOfPair(key, t) > 0 <==>
              exists i :: 0 <= i < |Split(text)| && KeyAt(Source(text, orderK), i, orderK) == key &&
                          Source(text, orderK)[i + orderK] == t
    {
      var w, n := Source(text, orderK), |Split(text)|;
      if symbolTable.FrequencyOfPair(key, t) > 0 {
        var i := PairWitness(w, orderK, n, key, t);
      }
      if i :| 0 <= i < n && KeyAt(w, i, orderK) == key && w[i + orderK] == t {
        PairFound(w, orderK, n, i);
      }
    }

    /**
     * The next token after kgram: joins it into a key, draws an index in
     * [1, total] and walks the key's token counts. An empty kgram or an
     * unseen key throws `out_of_range`; otherwise the token returned
     * followed the key somewhere in the wrapped text.
     */
    method KRand(kgram: seq<string>) returns (r: Result<string>)
      requires Valid()
      ensures r.Failure? <==> kgram == [] || KeyCount(Source(text, orderK), orderK, |Split(text)|, Join(kgram)) == 0
      ensures r.Failure? ==> r.error == ST.OutOfRange
      ensures r.Success? ==> PairCount(Source(text, orderK), orderK, |Split(text)|, Join(kgram), r.value) > 0
    {
      var key := ToString(kgram);
      if key.Failure? {
        return Failure(key.error);
      }
      var totalFrequency := symbolTable.FrequencyOf(key.value);
      var randomIndex := DrawIndex(totalFrequency);
      var frequencies := symbolTable.FrequencyMapOf(key.value);
      if frequencies.Failure? {
        return Failure(frequencies.error);
      }
      var token := PickToken(frequencies.value, randomIndex);
      r := Success(token);
    }

    /**
     * `generate`: the tokens of GenerateTokens, each written followed by a
     * space. From a k-gram of the text generation never fails, and the
     * text written reads back, split on spaces, as the generated tokens.
     */
    method Generate(kgram: seq<string>, L: nat) returns (r: Result<string>, ghost tokens: seq<string>)
      requires Valid()
      ensures r.Failure? ==> r.error == ST.OutOfRange
      ensures r.Success? ==> r.value == Spaced(tokens) &&
                             Generated(Source(text, orderK), orderK, |Split(text)|, kgram, tokens, Rounds(L, orderK))
      ensures r.Success? && AllSpaceFree(kgram) ==> Split(r.value) == tokens
      ensures (|kgram| < orderK || orderK == 0) && Rounds(L, orderK) > 0 ==> r.Failure?
      ensures (|kgram| == orderK > 0 && AllSpaceFree(kgram) &&
               KeyCount(Source(text, orderK), orderK, |Split(text)|, Join(kgram)) > 0) ==> r.Success?
      ensures Rounds(L, orderK) == 0 ==> r.Success?
    {
      var generated := GenerateTokens(kgram, L);
      if generated.Failure? {
        return Failure(generated.error), [];
      }
      var output := WriteSpaced(generated.value);
      if AllSpaceFree(kgram) {
        SplitSpaced(generated.value);
      }
      return Success(output), generated.value;
    }

    /**
     * The documentation of `generate` promises `invalid_argument` for a
     * k-gram whose length is not the order, but the code never compares
     * them: with L = k a k-gram of any other length comes back written out.
     */
    method GenerateUnchecked(kgram: seq<string>) returns (r: Result<string>)
      requires Valid() && |kgram| != orderK
      ensures r == Success(Spaced(kgram))
    {
      ghost var tokens;
      r, tokens := Generate(kgram, orderK);
      assert tokens == tokens[..|kgram|] == kgram;
    }

    /**
     * `generate` as documented: a k-gram whose length is not the order is
     * refused with `invalid_argument` before anything is generated, as
     * `RandWriter::generate` refuses one through `checkKgram`.
     */
    method GenerateChecked(kgram: seq<string>, L: nat) returns (r: Result<string>, ghost tokens: seq<string>)
      requires Valid()
      ensures |kgram| != orderK ==> r == Failure(InvalidArgument)
      ensures |kgram| == orderK && r.Failure? ==> r.error == ST.OutOfRange
      ensures r.Success? ==> |kgram| == orderK && r.value == Spaced(tokens) &&
                             Generated(Source(text, orderK), orderK, |Split(text)|, kgram, tokens, Rounds(L, orderK))
      ensures r.Success? && AllSpaceFree(kgram) ==> Split(r.value) == tokens
      ensures (|kgram| == orderK > 0 && AllSpaceFree(kgram) &&
               KeyCount(Source(text, orderK), orderK, |Split(text)|, Join(kgram)) > 0) ==> r.Success?
    {
      if |kgram| != orderK {
        return Failure(InvalidArgument), [];
      }
      r, tokens := Generate(kgram, L);
    }

    /**
     * One pass of the generation loop: draws a token after the window of k
     * tokens at index i and appends it, or throws `out_of_range` when that
     * window runs past the end or was never seen, which cannot happen when
     * generation started from a k-gram of the text.
     */
    method Extend(kgram: seq<string>, generated: seq<string>, i: nat, ghost closed: bool) returns (r: Result<seq<string>>)
      requires Valid() && Progress(Source(text, orderK), |Split(text)|, orderK, kgram, generated, i, closed)
      ensures r.Failure? ==> r.error == ST.OutOfRange && !closed
      ensures r.Success? ==> Progress(Source(text, orderK), |Split(text)|, orderK, kgram, r.value, i + 1, closed)
    {
      if i + orderK > |generated| {
        return Failure(ST.OutOfRange);
      }
      var lastKgram := generated[i..i + orderK];
      var next := KRand(lastKgram);
      if next.Failure? {
        return Failure(next.error);
      }
      SourceSpaceFree(text, orderK);
      KeyOfWindow(generated, i, orderK, lastKgram);
      ProgressStep(Source(text, orderK), |Split(text)|, orderK, kgram, generated, i, closed, Join(lastKgram), next.value);
      r := Success(generated + [next.value]);
    }

    /**
     * The generation loop of `generate`: starts from kgram and appends,
     * Rounds(L, k) times (L - k, wrapping round when L < k), a token drawn after the window of k tokens starting at
     * the loop's index. A kgram shorter than k makes that window run past
     * the end and throws `out_of_range`. Every appended token followed its
     * window somewhere in the wrapped text; from a k-gram of the text
     * generation never fails, and every token is then free of spaces.
     */
    method GenerateTokens(kgram: seq<string>, L: nat) returns (r: Result<seq<string>>)
      requires Valid()
      ensures r.Failure? ==> r.error == ST.OutOfRange
      ensures r.Success? ==> Generated(Source(text, orderK), orderK, |Split(text)|, kgram, r.value, Rounds(L, orderK))
      ensures (|kgram| < orderK || orderK == 0) && Rounds(L, orderK) > 0 ==> r.Failure?
      ensures (|kgram| == orderK > 0 && AllSpaceFree(kgram) &&
               KeyCount(Source(text, orderK), orderK, |Split(text)|, Join(kgram)) > 0) ==> r.Success?
      ensures r.Success? && AllSpaceFree(kgram) ==> AllSpaceFree(r.value)
      ensures Rounds(L, orderK) == 0 ==> r.Success?
    {
      ghost var w, n := Source(text, orderK), |Split(text)|;
      ghost var closed := |kgram| == orderK > 0 && AllSpaceFree(kgram) && KeyCount(w, orderK, n, Join(kgram)) > 0;
      StartProgress(text, orderK, kgram, closed);
      var generated := kgram;
      var i := 0;
      var rounds := Rounds(L, orderK);
      while i < rounds
        invariant 0 <= i <= rounds && Progress(w, n, orderK, kgram, generated, i, closed)
      {
        var extended := Extend(kgram, generated, i, closed);
        if extended.Failure? {
          return Failure(extended.error);
        }
        generated := extended.value;
        i := i + 1;
      }
      r := Success(generated);
    }
  }
}
