/**
 * The Fibonacci LFSR both FibLFSR versions implement, stated on registers
 * as bit strings written most significant bit first (the way a seed is
 * written). One step shifts the register left by one and shifts in the
 * feedback bit: the leftmost bit xor the bits at tap positions 10, 12 and
 * 13, counted from the least significant end.
 */
module LfsrSpec {

  function Pow2(n: nat): (r: nat)
    ensures r >= 1
  {
    if n == 0 then 1 else 2 * Pow2(n - 1)
  }

  /** A bit as the integer 0 or 1. */
  function B(b: bool): (r: nat)
    ensures r <= 1 && (r == 1 <==> b)
  {
    if b then 1 else 0
  }

  /** The number a bit string stands for, most significant bit first. */
  function Value(s: seq<bool>): nat
  {
    if s == [] then 0 else 2 * Value(s[..|s| - 1]) + B(s[|s| - 1])
  }

  /** The `len` low bits of v, most significant first. */
  function Bits(v: nat, len: nat): (r: seq<bool>)
    ensures |r| == len
  {
    if len == 0 then [] else Bits(v / 2, len - 1) + [v % 2 == 1]
  }

  /** The tap positions, counted from the least significant bit. */
  const Taps: seq<nat> := [10, 12, 13]

  /** Bit i of a register, counted from the least significant end; a position beyond its width reads 0. */
  function BitAt(s: seq<bool>, i: nat): bool
  {
    if i < |s| then s[|s| - 1 - i] else false
  }

  /** The leftmost bit xor the first n taps. */
  function TapFold(s: seq<bool>, n: nat): bool
    requires |s| >= 1 && n <= |Taps|
  {
    if n == 0 then s[0] else TapFold(s, n - 1) != BitAt(s, Taps[n - 1])
  }

  /** The bit one step shifts in and returns. */
  function Feedback(s: seq<bool>): bool
    requires |s| >= 1
  {
    TapFold(s, |Taps|)
  }

  /** The register after one step. */
  function Next(s: seq<bool>): (r: seq<bool>)
    requires |s| >= 1
    ensures |r| == |s|
  {
    s[1..] + [Feedback(s)]
  }

  /** The register after k steps. */
  function Iterate(s: seq<bool>, k: nat): (r: seq<bool>)
    requires |s| >= 1
    ensures |r| == |s|
  {
    if k == 0 then s else Next(Iterate(s, k - 1))
  }

  /** The bits k steps return, first one leftmost. */
  function Outputs(s: seq<bool>, k: nat): (r: seq<bool>)
    requires |s| >= 1
    ensures |r| == k
  {
    if k == 0 then [] else Outputs(s, k - 1) + [Feedback(Iterate(s, k - 1))]
  }

  /** What `generate(k)` returns: the k returned bits read as a number, first bit most significant. */
  function Generated(s: seq<bool>, k: nat): nat
    requires |s| >= 1
  {
    Value(Outputs(s, k))
  }

  /** A signed int count: a negative one runs no step. */
  function Steps(k: int): nat
  {
    if k < 0 then 0 else k
  }

  // ----- Numbers and bit strings -----

  lemma {:induction false} ValueBound(s: seq<bool>)
    ensures Value(s) < Pow2(|s|)
  {
    if s != [] {
      ValueBound(s[..|s| - 1]);
    }
  }

  /** `generate(k)` is a k-bit number. */
  lemma {:induction false} GeneratedBound(s: seq<bool>, k: nat)
    requires |s| >= 1
    ensures Generated(s, k) < Pow2(k)
  {
    ValueBound(Outputs(s, k));
  }

  lemma {:induction false} ValueAppend(s: seq<bool>, b: bool)
    ensures Value(s + [b]) == 2 * Value(s) + B(b)
  {
    assert (s + [b])[..|s|] == s;
  }

  /** Reading a bit string as a number and writing the number back with as many bits gives the string back. */
  lemma {:induction false} BitsOfValue(s: seq<bool>)
    ensures Bits(Value(s), |s|) == s
  {
    if s != [] {
      var init, last := s[..|s| - 1], s[|s| - 1];
      BitsOfValue(init);
      assert (2 * Value(init) + B(last)) / 2 == Value(init);
      assert (2 * Value(init) + B(last)) % 2 == B(last);
      assert s == init + [last];
    }
  }

  /** Writing a number with len bits and reading them back gives the number modulo 2^len. */
  lemma {:induction false} ValueOfBits(v: nat, len: nat)
    ensures Value(Bits(v, len)) == v % Pow2(len)
  {
    if len > 0 {
      ValueOfBits(v / 2, len - 1);
      ValueAppend(Bits(v / 2, len - 1), v % 2 == 1);
      ModHalf(v, Pow2(len - 1));
    }
  }

  /** (v mod 2p) is twice (v / 2 mod p) plus the lowest bit of v. */
  lemma {:induction false} ModHalf(v: nat, p: nat)
    requires p >= 1
    ensures v % (2 * p) == 2 * ((v / 2) % p) + v % 2
  {
    var q, r := (v / 2) / p, (v / 2) % p;
    assert v == 2 * p * q + (2 * r + v % 2);
    DivMod(v, 2 * p, q, 2 * r + v % 2);
  }

  /** Division is unique: a quotient and an in-range remainder are the quotient and the remainder. */
  lemma {:induction false} DivMod(v: int, d: int, q: int, r: int)
    requires d > 0 && v == d * q + r && 0 <= r < d
    ensures v / d == q && v % d == r
  {
    var q0, r0 := v / d, v % d;
    if q0 < q {
      assert d * q - d * q0 == d * (q - q0);
      MulAtLeast(d, q - q0);
    } else if q0 > q {
      assert d * q0 - d * q == d * (q0 - q);
      MulAtLeast(d, q0 - q);
    }
  }

  lemma {:induction false} MulAtLeast(d: int, k: int)
    requires d > 0 && k >= 1
    ensures d * k >= d
    decreases k
  {
    if k > 1 {
      MulAtLeast(d, k - 1);
      assert d * k == d * (k - 1) + d;
    }
  }

  /** Bit t of v, counted from the least significant end, is the t-th last entry of its bit string. */
  lemma {:induction false} BitOfNumber(v: nat, len: nat, t: nat)
    requires v < Pow2(len)
    ensures (v / Pow2(t)) % 2 == B(BitAt(Bits(v, len), t))
  {
    if t >= len {
      PowMonotone(len, t);
      DivMod(v, Pow2(t), 0, v);
    } else if t == 0 {
      assert v / 1 == v;
    } else {
      HalfBound(v, len);
      BitOfNumber(v / 2, len - 1, t - 1);
      DivHalf(v, Pow2(t - 1));
      assert Bits(v, len)[len - 1 - t] == Bits(v / 2, len - 1)[len - 1 - 1 - (t - 1)];
    }
  }

  lemma {:induction false} HalfBound(v: nat, len: nat)
    requires v < Pow2(len) && len >= 1
    ensures v / 2 < Pow2(len - 1)
  {
  }

  lemma {:induction false} PowMonotone(a: nat, b: nat)
    requires a <= b
    ensures Pow2(a) <= Pow2(b)
    decreases b
  {
    if a < b {
      PowMonotone(a, b - 1);
    }
  }

  /** Dividing by 2p is halving and then dividing by p. */
  lemma {:induction false} DivHalf(v: nat, p: nat)
    requires p >= 1
    ensures v / (2 * p) == (v / 2) / p
  {
    var q, r := (v / 2) / p, (v / 2) % p;
    assert v == 2 * p * q + (2 * r + v % 2);
    DivMod(v, 2 * p, q, 2 * r + v % 2);
  }

  /** Bits only see v modulo 2^len. */
  lemma {:induction false} BitsMod(v: nat, len: nat)
    ensures Bits(v % Pow2(len), len) == Bits(v, len)
  {
    if len > 0 {
      ModHalf(v, Pow2(len - 1));
      var w := v % Pow2(len);
      assert w == 2 * ((v / 2) % Pow2(len - 1)) + v % 2;
      DivMod(w, 2, (v / 2) % Pow2(len - 1), v % 2);
      BitsMod(v / 2, len - 1);
    }
  }

  /** Dropping the leading bit of a len + 1 bit string leaves the len low bits. */
  lemma {:induction false} BitsDropTop(v: nat, len: nat)
    ensures Bits(v, len + 1)[1..] == Bits(v, len)
  {
    if len > 0 {
      BitsDropTop(v / 2, len - 1);
    }
  }

  /**
   * Shifting a len-bit number left by one, adding the bit b and keeping
   * the low len bits is, on its bit string, dropping the leading bit and
   * appending b.
   */
  lemma {:induction false} ShiftIn(v: nat, len: nat, b: bool)
    requires len >= 1
    ensures Bits((2 * v + B(b)) % Pow2(len), len) == Bits(v, len)[1..] + [b]
  {
    var p := Pow2(len - 1);
    var w := (2 * v + B(b)) % Pow2(len);
    ModHalf(2 * v + B(b), p);
    DivMod(2 * v + B(b), 2, v, B(b));
    DivMod(w, 2, v % p, B(b));
    BitsMod(v, len - 1);
    BitsDropTop(v, len - 1);
  }

  /** The leftmost bit of a len-bit number is the number divided by 2^(len - 1). */
  lemma {:induction false} TopBit(v: nat, len: nat)
    requires len >= 1 && v < Pow2(len)
    ensures v / Pow2(len - 1) == B(Bits(v, len)[0])
  {
    BitOfNumber(v, len, len - 1);
    var p := Pow2(len - 1);
    if v < p {
      DivMod(v, p, 0, v);
    } else {
      DivMod(v, p, 1, v - p);
    }
  }

  // ----- Steps -----

  lemma {:induction false} IterateAdd(s: seq<bool>, a: nat, b: nat)
    requires |s| >= 1
    ensures Iterate(Iterate(s, a), b) == Iterate(s, a + b)
    decreases b
  {
    if b > 0 {
      IterateAdd(s, a, b - 1);
    }
  }

  /** The generated bits of k + 1 steps are those of k steps followed by the next returned bit. */
  lemma {:induction false} GeneratedStep(s: seq<bool>, k: nat)
    requires |s| >= 1
    ensures Generated(s, k + 1) == 2 * Generated(s, k) + B(Feedback(Iterate(s, k)))
  {
    ValueAppend(Outputs(s, k), Feedback(Iterate(s, k)));
  }

  // ----- Seeds and printed registers -----

  predicate IsBinary(s: string)
  {
    forall i :: 0 <= i < |s| ==> s[i] == '0' || s[i] == '1'
  }

  /** The register a binary seed string stands for. */
  function SeedBits(seed: string): (r: seq<bool>)
    ensures |r| == |seed|
    ensures forall i :: 0 <= i < |seed| ==> (r[i] <==> seed[i] == '1')
  {
    if seed == [] then [] else SeedBits(seed[..|seed| - 1]) + [seed[|seed| - 1] == '1']
  }

  /** A register printed most significant bit first. */
  function BitString(s: seq<bool>): (r: string)
    ensures |r| == |s| && IsBinary(r)
    ensures forall i :: 0 <= i < |s| ==> (r[i] == '1' <==> s[i])
  {
    if s == [] then "" else BitString(s[..|s| - 1]) + [if s[|s| - 1] then '1' else '0']
  }

  /** Printing the register a binary seed stands for gives the seed back. */
  lemma {:induction false} SeedRoundTrip(seed: string)
    requires IsBinary(seed)
    ensures BitString(SeedBits(seed)) == seed
  {
    if seed != [] {
      var init := seed[..|seed| - 1];
      assert IsBinary(init) by {
        forall i | 0 <= i < |init| ensures init[i] == '0' || init[i] == '1' {
          assert init[i] == seed[i];
        }
      }
      SeedRoundTrip(init);
      assert SeedBits(seed)[..|seed| - 1] == SeedBits(init);
      assert seed == init + [seed[|seed| - 1]];
    }
  }

  /** Reading a binary seed as a number, one character at a time from the left. */
  lemma {:induction false} SeedValueStep(seed: string, i: nat)
    requires i < |seed|
    ensures Value(SeedBits(seed[..i + 1])) == 2 * Value(SeedBits(seed[..i])) + B(seed[i] == '1')
  {
    assert seed[..i + 1][..i] == seed[..i];
    ValueAppend(SeedBits(seed[..i]), seed[i] == '1');
  }

  // ----- The register as a number -----

  /** Bit t of the number v, counted from the least significant end. */
  function NumBit(v: nat, t: nat): nat
  {
    (v / Pow2(t)) % 2
  }

  /** Exclusive or of two bits held as 0 or 1. */
  function XorBit(a: int, b: int): nat
  {
    if a == b then 0 else 1
  }

  /** The feedback bit of a len-bit number: its top bit xor bits 10, 12 and 13. */
  function NumFeedback(v: nat, len: nat): nat
    requires len >= 1
  {
    XorBit(XorBit(XorBit(v / Pow2(len - 1), NumBit(v, Taps[0])), NumBit(v, Taps[1])), NumBit(v, Taps[2]))
  }

  /** One step on a len-bit number: shift left, add the feedback bit, keep the low len bits. */
  function NumNext(v: nat, len: nat): nat
    requires len >= 1
  {
    (2 * v + NumFeedback(v, len)) % Pow2(len)
  }

  function NumIterate(v: nat, len: nat, k: nat): nat
    requires len >= 1
  {
    if k == 0 then v else NumNext(NumIterate(v, len, k - 1), len)
  }

  /** The number form of the first n taps folded into the top bit. */
  lemma {:induction false} NumTapFold(v: nat, len: nat, n: nat)
    requires len >= 1 && v < Pow2(len) && n <= |Taps|
    ensures B(TapFold(Bits(v, len), n)) ==
              if n == 0 then v / Pow2(len - 1)
              else XorBit(B(TapFold(Bits(v, len), n - 1)), NumBit(v, Taps[n - 1]))
  {
    if n == 0 {
      TopBit(v, len);
    } else {
      BitOfNumber(v, len, Taps[n - 1]);
    }
  }

  /** A step on the number is a step on its bit string, and returns the same bit. */
  lemma {:induction false} NumNextBits(v: nat, len: nat)
    requires len >= 1 && v < Pow2(len)
    ensures NumFeedback(v, len) == B(Feedback(Bits(v, len)))
    ensures NumNext(v, len) < Pow2(len)
    ensures Bits(NumNext(v, len), len) == Next(Bits(v, len))
  {
    NumTapFold(v, len, 0);
    NumTapFold(v, len, 1);
    NumTapFold(v, len, 2);
    NumTapFold(v, len, 3);
    ShiftIn(v, len, Feedback(Bits(v, len)));
  }

  lemma {:induction false} NumIterateBits(v: nat, len: nat, k: nat)
    requires len >= 1 && v < Pow2(len)
    ensures NumIterate(v, len, k) < Pow2(len)
    ensures Bits(NumIterate(v, len, k), len) == Iterate(Bits(v, len), k)
  {
    if k > 0 {
      NumIterateBits(v, len, k - 1);
      NumNextBits(NumIterate(v, len, k - 1), len);
    }
  }

  // ----- The fixtures of the unit tests -----

  /** The feedback of a 16-bit register number, with its tap masks written out. */
  function Feedback16(v: nat): nat
  {
    XorBit(XorBit(XorBit(v / 32768, (v / 1024) % 2), (v / 4096) % 2), (v / 8192) % 2)
  }

  /** One step of a 16-bit register number, with its masks written out. */
  function Next16(v: nat): nat
  {
    (2 * v + Feedback16(v)) % 65536
  }

  lemma {:induction false} Step16(v: nat)
    ensures NumFeedback(v, 16) == Feedback16(v) && NumNext(v, 16) == Next16(v)
  {
    PowersUsed();
  }

  /** k steps of a 16-bit register number. */
  function Iterate16(v: nat, k: nat): nat
  {
    if k == 0 then v else Next16(Iterate16(v, k - 1))
  }

  /** k steps on a 16-bit number are k steps on its bit string, and the next step returns its 16-bit feedback. */
  lemma {:induction false} Iterate16Bits(v: nat, k: nat)
    requires v < 65536
    ensures Iterate16(v, k) < 65536
    ensures Bits(Iterate16(v, k), 16) == Iterate(Bits(v, 16), k)
    ensures B(Feedback(Iterate(Bits(v, 16), k))) == Feedback16(Iterate16(v, k))
  {
    PowersUsed();
    if k > 0 {
      Iterate16Bits(v, k - 1);
      Step16(Iterate16(v, k - 1));
      NumNextBits(Iterate16(v, k - 1), 16);
    }
    Step16(Iterate16(v, k));
    NumNextBits(Iterate16(v, k), 16);
  }

  /** The number generate(k) returns from a 16-bit register number. */
  function Generate16(v: nat, k: nat): nat
  {
    if k == 0 then 0 else 2 * Generate16(v, k - 1) + Feedback16(Iterate16(v, k - 1))
  }

  lemma {:induction false} Generate16Bits(v: nat, k: nat)
    requires v < 65536
    ensures Generated(Bits(v, 16), k) == Generate16(v, k)
  {
    if k > 0 {
      Generate16Bits(v, k - 1);
      GeneratedStep(Bits(v, 16), k - 1);
      Iterate16Bits(v, k - 1);
    }
  }

  lemma {:induction false} GenerateStep16(v: nat, k: nat, g: nat, a: nat, f: nat)
    requires Generate16(v, k) == g && Iterate16(v, k) == a && Feedback16(a) == f
    ensures Generate16(v, k + 1) == 2 * g + f
  {
  }

  lemma {:induction false} PowersUsed()
    ensures Pow2(10) == 1024 && Pow2(12) == 4096 && Pow2(13) == 8192
    ensures Pow2(15) == 32768 && Pow2(16) == 65536
  {
    assert Pow2(5) == 32;
    assert Pow2(10) == 1024;
  }

  /** Bit i of a len-bit register, counted from the left, is bit len - 1 - i of its number. */
  lemma {:induction false} BitsAt(v: nat, len: nat, i: nat)
    requires v < Pow2(len) && i < len
    ensures Bits(v, len)[i] <==> NumBit(v, len - 1 - i) == 1
  {
    BitOfNumber(v, len, len - 1 - i);
  }

  /** A register number equals the bit string that spells its bits. */
  lemma {:induction false} BitsSpelled(v: nat, len: nat, d: seq<bool>)
    requires |d| == len && v < Pow2(len)
    requires forall k :: 0 <= k < len ==> (d[k] <==> NumBit(v, len - 1 - k) == 1)
    ensures Bits(v, len) == d
  {
    forall k | 0 <= k < len
      ensures Bits(v, len)[k] == d[k]
    {
      BitsAt(v, len, k);
    }
  }

  lemma {:induction false} PowersBelow16()
    ensures Pow2(0) == 1
    ensures Pow2(1) == 2
    ensures Pow2(2) == 4
    ensures Pow2(3) == 8
    ensures Pow2(4) == 16
    ensures Pow2(5) == 32
    ensures Pow2(6) == 64
    ensures Pow2(7) == 128
    ensures Pow2(8) == 256
    ensures Pow2(9) == 512
    ensures Pow2(10) == 1024
    ensures Pow2(11) == 2048
    ensures Pow2(12) == 4096
    ensures Pow2(13) == 8192
    ensures Pow2(14) == 16384
    ensures Pow2(15) == 32768
  {
    assert Pow2(4) == 16;
    assert Pow2(8) == 256;
    assert Pow2(12) == 4096;
  }

  lemma {:induction false} Digits46646()
    ensures NumBit(46646, 0) == 0
    ensures NumBit(46646, 1) == 1
    ensures NumBit(46646, 2) == 1
    ensures NumBit(46646, 3) == 0
    ensures NumBit(46646, 4) == 1
    ensures NumBit(46646, 5) == 1
    ensures NumBit(46646, 6) == 0
    ensures NumBit(46646, 7) == 0
    ensures NumBit(46646, 8) == 0
    ensures NumBit(46646, 9) == 1
    ensures NumBit(46646, 10) == 1
    ensures NumBit(46646, 11) == 0
    ensures NumBit(46646, 12) == 1
    ensures NumBit(46646, 13) == 1
    ensures NumBit(46646, 14) == 0
    ensures NumBit(46646, 15) == 1
  {
    PowersBelow16();
  }

  /** The seed "1011011000110110" is the register 46646. */
  lemma {:induction false} FirstSeed()
    ensures SeedBits("1011011000110110") == Bits(46646, 16)
  {
    Digits46646();
    PowersUsed();
    BitsSpelled(46646, 16, SeedBits("1011011000110110"));
  }

  lemma {:induction false} Digits27756()
    ensures NumBit(27756, 0) == 0
    ensures NumBit(27756, 1) == 0
    ensures NumBit(27756, 2) == 1
    ensures NumBit(27756, 3) == 1
    ensures NumBit(27756, 4) == 0
    ensures NumBit(27756, 5) == 1
    ensures NumBit(27756, 6) == 1
    ensures NumBit(27756, 7) == 0
    ensures NumBit(27756, 8) == 0
    ensures NumBit(27756, 9) == 0
    ensures NumBit(27756, 10) == 1
    ensures NumBit(27756, 11) == 1
    ensures NumBit(27756, 12) == 0
    ensures NumBit(27756, 13) == 1
    ensures NumBit(27756, 14) == 1
    ensures NumBit(27756, 15) == 0
  {
    PowersBelow16();
  }

  /** The seed "0110110001101100" is the register 27756. */
  lemma {:induction false} SecondSeed()
    ensures SeedBits("0110110001101100") == Bits(27756, 16)
  {
    Digits27756();
    PowersUsed();
    BitsSpelled(27756, 16, SeedBits("0110110001101100"));
  }

  lemma {:induction false} Digits55398()
    ensures NumBit(55398, 0) == 0
    ensures NumBit(55398, 1) == 1
    ensures NumBit(55398, 2) == 1
    ensures NumBit(55398, 3) == 0
    ensures NumBit(55398, 4) == 0
    ensures NumBit(55398, 5) == 1
    ensures NumBit(55398, 6) == 1
    ensures NumBit(55398, 7) == 0
    ensures NumBit(55398, 8) == 0
    ensures NumBit(55398, 9) == 0
    ensures NumBit(55398, 10) == 0
    ensures NumBit(55398, 11) == 1
    ensures NumBit(55398, 12) == 1
    ensures NumBit(55398, 13) == 0
    ensures NumBit(55398, 14) == 1
    ensures NumBit(55398, 15) == 1
  {
    PowersBelow16();
  }

  /** The string "1101100001100110" is the register 55398. */
  lemma {:induction false} SecondResult()
    ensures SeedBits("1101100001100110") == Bits(55398, 16)
  {
    Digits55398();
    PowersUsed();
    BitsSpelled(55398, 16, SeedBits("1101100001100110"));
  }

  /** The successors of the register numbers the tests pass through. */
  lemma {:induction false} TestSuccessors1()
    ensures Next16(46646) == 27756
    ensures Next16(27756) == 55512
  {
  }

  lemma {:induction false} TestSuccessors2()
    ensures Next16(55512) == 45488
    ensures Next16(45488) == 25441
  {
  }

  lemma {:induction false} TestSuccessors3()
    ensures Next16(25441) == 50883
    ensures Next16(50883) == 36230
  {
  }

  lemma {:induction false} TestSuccessors4()
    ensures Next16(36230) == 6924
    ensures Next16(6924) == 13849
  {
  }

  lemma {:induction false} TestSuccessors5()
    ensures Next16(13849) == 27699
    ensures Next16(27699) == 55398
  {
  }

  lemma {:induction false} TestSuccessors()
    ensures Next16(46646) == 27756
    ensures Next16(27756) == 55512
    ensures Next16(55512) == 45488
    ensures Next16(45488) == 25441
    ensures Next16(25441) == 50883
    ensures Next16(50883) == 36230
    ensures Next16(36230) == 6924
    ensures Next16(6924) == 13849
    ensures Next16(13849) == 27699
    ensures Next16(27699) == 55398
  {
    TestSuccessors1();
    TestSuccessors2();
    TestSuccessors3();
    TestSuccessors4();
    TestSuccessors5();
  }

  /** The bits those steps return. */
  lemma {:induction false} TestFeedbacks1()
    ensures Feedback16(46646) == 0
    ensures Feedback16(27756) == 0
    ensures Feedback16(55512) == 0
  {
  }

  lemma {:induction false} TestFeedbacks2()
    ensures Feedback16(45488) == 1
    ensures Feedback16(25441) == 1
    ensures Feedback16(50883) == 0
  {
  }

  lemma {:induction false} TestFeedbacks3()
    ensures Feedback16(36230) == 0
    ensures Feedback16(6924) == 1
    ensures Feedback16(13849) == 1
  {
  }

  lemma {:induction false} TestFeedbacks()
    ensures Feedback16(46646) == 0
    ensures Feedback16(27756) == 0
    ensures Feedback16(55512) == 0
    ensures Feedback16(45488) == 1
    ensures Feedback16(25441) == 1
    ensures Feedback16(50883) == 0
    ensures Feedback16(36230) == 0
    ensures Feedback16(6924) == 1
    ensures Feedback16(13849) == 1
  {
    TestFeedbacks1();
    TestFeedbacks2();
    TestFeedbacks3();
  }

  lemma {:induction false} IterateStep16(v: nat, k: nat, a: nat, b: nat)
    requires Iterate16(v, k) == a && Next16(a) == b
    ensures Iterate16(v, k + 1) == b
  {
  }

  /** The k-th step of a 16-bit register whose k-th number is a returns the 16-bit feedback of a. */
  lemma {:induction false} StepReturns16(v: nat, k: nat, a: nat)
    requires v < 65536 && Iterate16(v, k) == a
    ensures B(Feedback(Iterate(Bits(v, 16), k))) == Feedback16(a)
  {
    Iterate16Bits(v, k);
  }

  /** The register numbers the first test passes through. */
  lemma {:induction false} FirstTrace()
    ensures Iterate16(46646, 1) == 27756
    ensures Iterate16(46646, 2) == 55512
    ensures Iterate16(46646, 3) == 45488
    ensures Iterate16(46646, 4) == 25441
    ensures Iterate16(46646, 5) == 50883
    ensures Iterate16(46646, 6) == 36230
    ensures Iterate16(46646, 7) == 6924
    ensures Iterate16(46646, 8) == 13849
  {
    TestSuccessors();
    IterateStep16(46646, 0, 46646, 27756);
    IterateStep16(46646, 1, 27756, 55512);
    IterateStep16(46646, 2, 55512, 45488);
    IterateStep16(46646, 3, 45488, 25441);
    IterateStep16(46646, 4, 25441, 50883);
    IterateStep16(46646, 5, 50883, 36230);
    IterateStep16(46646, 6, 36230, 6924);
    IterateStep16(46646, 7, 6924, 13849);
  }

  /** The register numbers the last tests pass through. */
  lemma {:induction false} SecondTrace()
    ensures Iterate16(27756, 1) == 55512
    ensures Iterate16(27756, 2) == 45488
    ensures Iterate16(27756, 3) == 25441
    ensures Iterate16(27756, 4) == 50883
    ensures Iterate16(27756, 5) == 36230
    ensures Iterate16(27756, 6) == 6924
    ensures Iterate16(27756, 7) == 13849
    ensures Iterate16(27756, 8) == 27699
    ensures Iterate16(27756, 9) == 55398
  {
    TestSuccessors();
    IterateStep16(27756, 0, 27756, 55512);
    IterateStep16(27756, 1, 55512, 45488);
    IterateStep16(27756, 2, 45488, 25441);
    IterateStep16(27756, 3, 25441, 50883);
    IterateStep16(27756, 4, 50883, 36230);
    IterateStep16(27756, 5, 36230, 6924);
    IterateStep16(27756, 6, 6924, 13849);
    IterateStep16(27756, 7, 13849, 27699);
    IterateStep16(27756, 8, 27699, 55398);
  }

  /**
   * From the register "1011011000110110" (the number 46646) the first
   * eight steps return 0, 0, 0, 1, 1, 0, 0, 1.
   */
  lemma {:induction false} FirstFixtureSteps()
    ensures B(Feedback(Iterate(Bits(46646, 16), 0))) == 0
    ensures B(Feedback(Iterate(Bits(46646, 16), 1))) == 0
    ensures B(Feedback(Iterate(Bits(46646, 16), 2))) == 0
    ensures B(Feedback(Iterate(Bits(46646, 16), 3))) == 1
    ensures B(Feedback(Iterate(Bits(46646, 16), 4))) == 1
    ensures B(Feedback(Iterate(Bits(46646, 16), 5))) == 0
    ensures B(Feedback(Iterate(Bits(46646, 16), 6))) == 0
    ensures B(Feedback(Iterate(Bits(46646, 16), 7))) == 1
  {
    FirstTrace();
    TestFeedbacks();
    StepReturns16(46646, 0, 46646);
    StepReturns16(46646, 1, 27756);
    StepReturns16(46646, 2, 55512);
    StepReturns16(46646, 3, 45488);
    StepReturns16(46646, 4, 25441);
    StepReturns16(46646, 5, 50883);
    StepReturns16(46646, 6, 36230);
    StepReturns16(46646, 7, 6924);
  }

  /** From the same register, generating nine bits gives 51. */
  lemma {:induction false} FirstFixtureGenerate()
    ensures Generated(Bits(46646, 16), 9) == 51
  {
    FirstGenerate16();
    Generate16Bits(46646, 9);
  }

  lemma {:induction false} FirstGenerate16()
    ensures Generate16(46646, 9) == 51
  {
    FirstTrace();
    TestFeedbacks();
    GenerateStep16(46646, 0, 0, 46646, 0);
    GenerateStep16(46646, 1, 0, 27756, 0);
    GenerateStep16(46646, 2, 0, 55512, 0);
    GenerateStep16(46646, 3, 0, 45488, 1);
    GenerateStep16(46646, 4, 1, 25441, 1);
    GenerateStep16(46646, 5, 3, 50883, 0);
    GenerateStep16(46646, 6, 6, 36230, 0);
    GenerateStep16(46646, 7, 12, 6924, 1);
    GenerateStep16(46646, 8, 25, 13849, 1);
  }

  /**
   * From the register "0110110001101100" (the number 27756) nine steps
   * leave "1101100001100110", the number 55398.
   */
  lemma {:induction false} SecondFixture()
    ensures Iterate(Bits(27756, 16), 9) == Bits(55398, 16)
  {
    SecondTrace();
    Iterate16Bits(27756, 9);
  }

  // ----- The unit-test vectors, on the seed strings -----

  /** From "1011011000110110" the first eight steps return 0, 0, 0, 1, 1, 0, 0, 1. */
  lemma {:induction false} StepVector()
    ensures Outputs(SeedBits("1011011000110110"), 8) == [false, false, false, true, true, false, false, true]
  {
    FirstSeed();
    FirstFixtureSteps();
    var o := Outputs(SeedBits("1011011000110110"), 8);
    forall i | 0 <= i < 8
      ensures o[i] == Feedback(Iterate(SeedBits("1011011000110110"), i))
    {
      OutputsAt(SeedBits("1011011000110110"), 8, i);
    }
  }

  /** From "1011011000110110", generate(9) returns 51. */
  lemma {:induction false} GenerateVector()
    ensures Generated(SeedBits("1011011000110110"), 9) == 51
  {
    FirstSeed();
    FirstFixtureGenerate();
  }

  /** A register printed before any step shows its seed "0110110001101100". */
  lemma {:induction false} PrintSeedVector()
    ensures BitString(SeedBits("0110110001101100")) == "0110110001101100"
  {
    SeedRoundTrip("0110110001101100");
  }

  /** After generate(9) on "0110110001101100" the register is "1101100001100110", the number 55398. */
  lemma {:induction false} RegisterVector()
    ensures Iterate(SeedBits("0110110001101100"), 9) == SeedBits("1101100001100110")
    ensures Value(Iterate(SeedBits("0110110001101100"), 9)) == 55398
  {
    SecondSeed();
    SecondResult();
    SecondFixture();
    SecondTrace();
    StepsFromNumbers("0110110001101100", 27756, 9, "1101100001100110", 55398);
  }

  /** So it prints as "1101100001100110". */
  lemma {:induction false} PrintVector()
    ensures BitString(Iterate(SeedBits("0110110001101100"), 9)) == "1101100001100110"
  {
    RegisterVector();
    SecondResultIsBinary();
    PrintsSeed(Iterate(SeedBits("0110110001101100"), 9), "1101100001100110");
  }

  lemma {:induction false} SecondResultIsBinary()
    ensures IsBinary("1101100001100110")
  {
  }

  lemma {:induction false} PrintsSeed(s: seq<bool>, seed: string)
    requires IsBinary(seed) && s == SeedBits(seed)
    ensures BitString(s) == seed
  {
    SeedRoundTrip(seed);
  }

  /** When seed spells v, k steps take v to w and out spells w, then k steps take the seed's register to out's. */
  lemma {:induction false} StepsFromNumbers(seed: string, v: nat, k: nat, out: string, w: nat)
    requires v < 65536 && SeedBits(seed) == Bits(v, 16) && Iterate16(v, k) == w
    requires SeedBits(out) == Bits(w, 16)
    ensures Iterate(SeedBits(seed), k) == SeedBits(out)
    ensures Value(Iterate(SeedBits(seed), k)) == w
  {
    Iterate16Bits(v, k);
    ValueOfBits(w, 16);
    PowersUsed();
    DivMod(w, Pow2(16), 0, w);
  }

  /** Bit i of k outputs is the feedback of the register after i steps. */
  lemma {:induction false} OutputsAt(s: seq<bool>, k: nat, i: nat)
    requires |s| >= 1 && i < k
    ensures Outputs(s, k)[i] == Feedback(Iterate(s, i))
  {
    if i < k - 1 {
      OutputsAt(s, k - 1, i);
    }
  }
}
