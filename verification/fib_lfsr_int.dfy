/**
 * The second FibLFSR: the register is an integer whose `len` low bits are
 * the register, most significant bit first, with a mask of `len` ones.
 * Shifts and masks are written as the arithmetic they perform on
 * non-negative numbers: `x << 1` is `2 * x`, `(x << 1) | b` for a bit b is
 * `2 * x + b`, `x >> t` is `x / 2^t`, and `x & mask` is `x % 2^len`.
 */
module FibLfsrInt {
  import opened LfsrSpec

  class FibLFSR {
    const len: nat
    var lfsr: nat
    var mask: nat
    /** The register as a bit string, most significant bit first. */
    ghost var state: seq<bool>

    ghost predicate Valid()
      reads this
    {
      1 <= len && mask == Pow2(len) - 1 && lfsr < Pow2(len) && state == Bits(lfsr, len)
    }

    ghost function State(): seq<bool>
      reads this
    {
      state
    }

    /** Packs the seed characters into the number, first character most significant, and builds the mask. */
    constructor (seed: string)
      requires 1 <= |seed| && IsBinary(seed)
      ensures Valid() && len == |seed|
      ensures lfsr == Value(SeedBits(seed)) && State() == SeedBits(seed)
    {
      len := |seed|;
      var v := PackSeed(seed);
      var m := AllOnes(|seed|);
      lfsr := v;
      mask := m;
      state := SeedBits(seed);
      ValueBound(SeedBits(seed));
      BitsOfValue(SeedBits(seed));
    }

    /** One step: the top bit xor the tap bits is returned and shifted in at the bottom. */
    method Step() returns (ans: nat)
      requires Valid()
      modifies this
      ensures Valid() && mask == old(mask)
      ensures ans == NumFeedback(old(lfsr), len) && lfsr == NumNext(old(lfsr), len)
      ensures ans == B(Feedback(old(State()))) && State() == Next(old(State()))
    {
      var v := lfsr;
      ans := TapBits(v, len);
      StepResult(v, len, ans);
      lfsr := (2 * v + ans) % (mask + 1);
      state := Next(state);
    }

    /** k steps, their bits read as a number with the first one most significant. */
    method Generate(k: int) returns (ans: nat)
      requires Valid()
      modifies this
      ensures Valid() && mask == old(mask)
      ensures ans == Generated(old(State()), Steps(k)) && State() == Iterate(old(State()), Steps(k))
      ensures lfsr == NumIterate(old(lfsr), len, Steps(k))
      ensures ans < Pow2(Steps(k))
    {
      ans := 0;
      var i := 0;
      while i < k
        invariant 0 <= i <= Steps(k) && Valid() && mask == old(mask)
        invariant ans == Generated(old(State()), i) && State() == Iterate(old(State()), i)
        invariant lfsr == NumIterate(old(lfsr), len, i)
      {
        var bit := Step();
        GeneratedStep(old(State()), i);
        ans := 2 * ans + bit;
        i := i + 1;
      }
      GeneratedBound(old(State()), Steps(k));
    }

    /** The register number, which is the number its bit string spells. */
    function GetLfsr(): (r: nat)
      requires Valid()
      reads this
      ensures r < Pow2(len) && r == Value(Bits(lfsr, len))
    {
      ValueOfBits(lfsr, len);
      DivMod(lfsr, Pow2(len), 0, lfsr);
      lfsr
    }

    /** Prints bits len - 1 down to 0 of the register. */
    method GetLfsrBinaryString() returns (s: string)
      requires Valid()
      ensures s == BitString(State())
    {
      var i: int := len - 1;
      s := "";
      while i >= 0
        invariant -1 <= i < len
        invariant s == BitString(State()[..len - 1 - i])
      {
        BitOfNumber(lfsr, len, i);
        BitStringSnoc(State(), len - 1 - i);
        s := s + [if (lfsr / Pow2(i)) % 2 == 1 then '1' else '0'];
        i := i - 1;
      }
      assert State()[..len] == State();
    }
  }

  /** A digit character minus '0', in C++ char arithmetic: any character gives some integer. */
  function Digit(c: char): int
  {
    c as int - '0' as int
  }

  lemma DigitOfBit(c: char)
    requires c == '0' || c == '1'
    ensures Digit(c) == B(c == '1')
  {
  }

  /** Shifts the seed characters into a number, first character most significant. */
  method PackSeed(seed: string) returns (v: nat)
    requires IsBinary(seed)
    ensures v == Value(SeedBits(seed))
  {
    v := 0;
    var i := 0;
    while i < |seed|
      invariant 0 <= i <= |seed|
      invariant v == Value(SeedBits(seed[..i]))
    {
      SeedValueStep(seed, i);
      DigitOfBit(seed[i]);
      v := 2 * v + Digit(seed[i]);
      i := i + 1;
    }
    assert seed[..i] == seed;
  }

  /** A mask of len ones. */
  method AllOnes(len: nat) returns (m: nat)
    ensures m == Pow2(len) - 1
  {
    m := 0;
    var i := 0;
    while i < len
      invariant 0 <= i <= len
      invariant m == Pow2(i) - 1
    {
      m := 2 * m + 1;
      i := i + 1;
    }
  }

  /** The top bit of a len-bit number xor its tap bits, folded tap by tap. */
  method TapBits(v: nat, len: nat) returns (ans: nat)
    requires 1 <= len && v < Pow2(len)
    ensures ans == B(TapFold(Bits(v, len), |Taps|))
  {
    ans := v / Pow2(len - 1);
    NumTapFold(v, len, 0);
    var t := 0;
    while t < |Taps|
      invariant 0 <= t <= |Taps|
      invariant ans == B(TapFold(Bits(v, len), t))
    {
      NumTapFold(v, len, t + 1);
      ans := XorBit(ans, NumBit(v, Taps[t]));
      t := t + 1;
    }
  }

  /** The folded taps are the feedback, and shifting them in is the next register. */
  lemma StepResult(v: nat, len: nat, ans: nat)
    requires 1 <= len && v < Pow2(len) && ans == B(TapFold(Bits(v, len), |Taps|))
    ensures ans == NumFeedback(v, len) && ans == B(Feedback(Bits(v, len)))
    ensures NumNext(v, len) < Pow2(len) && Bits(NumNext(v, len), len) == Next(Bits(v, len))
  {
    NumNextBits(v, len);
  }

  /** Printing the first j + 1 bits prints the first j and then bit j. */
  lemma BitStringSnoc(x: seq<bool>, j: nat)
    requires j < |x|
    ensures BitString(x[..j + 1]) == BitString(x[..j]) + [if x[j] then '1' else '0']
  {
    assert x[..j + 1][..j] == x[..j];
  }
}
