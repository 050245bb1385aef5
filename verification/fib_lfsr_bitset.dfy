/**
 * The first FibLFSR: a 16-bit register held as a bitset, built from a
 * validated seed string. The bitset is modelled as a bit sequence written
 * most significant bit first, so bitset position i is `BitAt(lfsr, i)`.
 */
module FibLfsrBitset {
  import opened Wrappers
  import opened LfsrSpec

  /** The fixed register width. */
  const SeedLength: nat := 16

  const LengthMessage := "The length of seed should be 16"
  const CharMessage := "Each character in the seed should either be '0' or '1'"

  class FibLFSR {
    var lfsr: seq<bool>

    ghost predicate Valid()
      reads this
    {
      |lfsr| == SeedLength
    }

    constructor FromBits(bits: seq<bool>)
      requires |bits| == SeedLength
      ensures Valid() && lfsr == bits
    {
      lfsr := bits;
    }

    /**
     * The checking constructor: a seed of the wrong length, or with a
     * character other than '0' and '1', is refused with its message.
     */
    static method Create(seed: string) returns (r: Result<FibLFSR>)
      ensures r.Success? <==> |seed| == SeedLength && IsBinary(seed)
      ensures r.Success? ==> fresh(r.value) && r.value.Valid() && r.value.lfsr == SeedBits(seed)
      ensures r.Failure? ==> r.error == if |seed| != SeedLength then LengthMessage else CharMessage
    {
      if |seed| != SeedLength {
        return Failure(LengthMessage);
      }
      var i := 0;
      while i < |seed|
        invariant 0 <= i <= |seed|
        invariant IsBinary(seed[..i])
      {
        if seed[i] != '0' && seed[i] != '1' {
          return Failure(CharMessage);
        }
        i := i + 1;
      }
      assert seed[..i] == seed;
      var l := new FibLFSR.FromBits(SeedBits(seed));
      return Success(l);
    }

    /** One step: returns the feedback bit and shifts it in at position 0. */
    method Step() returns (bit: nat)
      requires Valid()
      modifies this
      ensures Valid()
      ensures bit == B(Feedback(old(lfsr))) && lfsr == Next(old(lfsr))
    {
      var ans := B(BitAt(lfsr, SeedLength - 1));
      var t := 0;
      while t < |Taps|
        invariant 0 <= t <= |Taps|
        invariant ans == B(TapFold(lfsr, t))
      {
        ans := XorBit(ans, B(BitAt(lfsr, Taps[t])));
        t := t + 1;
      }
      var shifted := lfsr[1..] + [false];
      lfsr := shifted[SeedLength - 1 := ans == 1];
      bit := ans;
    }

    /** k steps, their bits read as a number with the first one most significant. */
    method Generate(k: int) returns (ans: nat)
      requires Valid()
      modifies this
      ensures Valid()
      ensures ans == Generated(old(lfsr), Steps(k)) && lfsr == Iterate(old(lfsr), Steps(k))
      ensures ans < Pow2(Steps(k))
    {
      ans := 0;
      var i := 0;
      while i < k
        invariant 0 <= i <= Steps(k) && Valid()
        invariant ans == Generated(old(lfsr), i) && lfsr == Iterate(old(lfsr), i)
      {
        var bit := Step();
        GeneratedStep(old(lfsr), i);
        ans := 2 * ans + bit;
        i := i + 1;
      }
      GeneratedBound(old(lfsr), Steps(k));
    }

    /** The register as a string of '0' and '1', most significant bit first. */
    function GetLfsrBinaryString(): (s: string)
      reads this
      ensures |s| == |lfsr| && IsBinary(s)
      ensures forall i :: 0 <= i < |s| ==> (s[i] == '1' <==> lfsr[i])
    {
      BitString(lfsr)
    }
  }

  /** Printing a register made from a valid seed gives the seed back. */
  lemma FreshPrintsSeed(seed: string, l: FibLFSR)
    requires IsBinary(seed) && l.lfsr == SeedBits(seed)
    ensures l.GetLfsrBinaryString() == seed
  {
    SeedRoundTrip(seed);
  }
}
