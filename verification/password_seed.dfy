/**
 * PhotoMagic's password to seed conversion: the password's bytes, each
 * shifted left by its index mod 16, are xor-ed into an unsigned 32-bit
 * word, and seed character i records whether bits i and i + 16 of that
 * word are both clear.
 */
module PasswordSeed {
  import opened LfsrSpec

  /** A password as the bytes of its std::string, each read as an unsigned char. */
  type Bytes = seq<bv8>

  /** The seed length, SEED_LENGTH. */
  const SeedLength: nat := 16

  /** The byte b widened to an unsigned int and shifted left by i mod 16, the term xor-ed in for position i. */
  function Shifted(b: bv8, i: nat): bv32
  {
    (b as bv32) << (i % 16)
  }

  /** The xor over i of byte i of the password shifted left by i mod 16. */
  function PasswordFold(password: Bytes): bv32
  {
    if password == [] then 0
    else PasswordFold(password[..|password| - 1]) ^ Shifted(password[|password| - 1], |password| - 1)
  }

  /** `1u << k`: the word with only bit k set. */
  function Mask(k: nat): bv32
    requires k < 32
  {
    (1 as bv32) << k
  }

  /** Whether bit k of x is set. */
  predicate BitSet(x: bv32, k: nat)
    requires k < 32
  {
    x & Mask(k) != 0
  }

  /** Bits 23 to 31 of the fold are never set: a byte shifted by at most 15 stays below 2^23. */
  lemma {:induction false} FoldBelow23(password: Bytes)
    ensures PasswordFold(password) & 0xFF80_0000 == 0
  {
    if password != [] {
      FoldBelow23(password[..|password| - 1]);
      ShiftedByteBelow23(password[|password| - 1], |password| - 1);
    }
  }

  lemma ShiftedByteBelow23(b: bv8, i: nat)
    ensures Shifted(b, i) & 0xFF80_0000 == 0
  {
    assert (b as bv32) & 0xFFFF_FF00 == 0;
  }

  /** The masks for bits below 16 lie in the low half of the word. */
  lemma MaskLow(k: nat)
    requires k < 16
    ensures Mask(k) & 0xFFFF_0000 == 0
  {
  }

  /** The mask for bit k + 16 is the mask for bit k moved up by 16 places. */
  lemma MaskUp(k: nat)
    requires k < 16
    ensures Mask(k + SeedLength) == Mask(k) << 16
  {
  }

  /** The masks for bits k and k + 16 share no bit. */
  lemma MasksDisjoint(k: nat)
    requires k < 16
    ensures Mask(k) & Mask(k + SeedLength) == 0
  {
    MaskLow(k);
    MaskUp(k);
    LowHalfDisjoint(Mask(k));
  }

  lemma LowHalfDisjoint(m: bv32)
    requires m & 0xFFFF_0000 == 0
    ensures m & (m << 16) == 0
  {
  }

  /** Seed character i: '1' when the fold's bits i and i + 16, masked in place and xor-ed, give 0. */
  function SeedChar(fold: bv32, i: nat): char
    requires i < SeedLength
  {
    if (fold & Mask(i)) ^ (fold & Mask(i + SeedLength)) == 0 then '1' else '0'
  }

  /** The seed character: '1' exactly when bits i and i + 16 of the fold are both clear. */
  function ClearChar(fold: bv32, i: nat): char
    requires i < SeedLength
  {
    if !BitSet(fold, i) && !BitSet(fold, i + SeedLength) then '1' else '0'
  }

  /** The two masks sit at different positions, so the xor is 0 exactly when both bits are clear. */
  lemma SeedCharMeaning(fold: bv32, i: nat)
    requires i < SeedLength
    ensures SeedChar(fold, i) == ClearChar(fold, i)
  {
    SeedCharOne(fold, i);
    SeedCharClear(fold, i);
  }

  /** A '1' means both bits are clear, since disjoint masked bits cannot cancel in the xor. */
  lemma SeedCharOne(fold: bv32, i: nat)
    requires i < SeedLength
    ensures SeedChar(fold, i) == '1' ==> !BitSet(fold, i) && !BitSet(fold, i + SeedLength)
  {
    MaskedXorClear(fold, i);
  }

  lemma MaskedXorClear(fold: bv32, i: nat)
    requires i < SeedLength
    ensures (fold & Mask(i)) ^ (fold & Mask(i + SeedLength)) == 0 ==> fold & Mask(i) == 0 && fold & Mask(i + SeedLength) == 0
  {
    MasksDisjoint(i);
    XorOfDisjoint(fold, Mask(i), Mask(i + SeedLength));
  }

  lemma SeedCharClear(fold: bv32, i: nat)
    requires i < SeedLength
    ensures !BitSet(fold, i) && !BitSet(fold, i + SeedLength) ==> SeedChar(fold, i) == '1'
  {
  }

  lemma XorOfDisjoint(x: bv32, m1: bv32, m2: bv32)
    requires m1 & m2 == 0
    ensures (x & m1) ^ (x & m2) == 0 ==> x & m1 == 0 && x & m2 == 0
  {
  }

  /** Folding one more character xors in its shifted byte. */
  lemma FoldStep(password: Bytes, i: nat)
    requires i < |password|
    ensures PasswordFold(password[..i + 1]) == PasswordFold(password[..i]) ^ Shifted(password[i], i)
  {
    assert password[..i + 1][..i] == password[..i];
  }

  /** Xors the password bytes, each shifted by its index mod 16, into a number. */
  method FoldPassword(password: Bytes) returns (ans: bv32)
    ensures ans == PasswordFold(password)
    ensures ans & 0xFF80_0000 == 0
  {
    ans := 0;
    var i := 0;
    while i < |password|
      invariant 0 <= i <= |password|
      invariant ans == PasswordFold(password[..i])
    {
      var t := Shifted(password[i], i);
      FoldStep(password, i);
      ans := ans ^ t;
      i := i + 1;
    }
    assert password[..i] == password;
    FoldBelow23(password);
  }

  /**
   * The password's seed: sixteen characters, character i being '1' exactly
   * when bits i and i + 16 of the fold are both clear.
   */
  method ConvertPasswordToSeed(password: Bytes) returns (seed: string)
    ensures |seed| == SeedLength && IsBinary(seed)
    ensures forall i :: 0 <= i < SeedLength ==> seed[i] == ClearChar(PasswordFold(password), i)
  {
    var ans := FoldPassword(password);
    seed := "";
    var i := 0;
    while i < SeedLength
      invariant 0 <= i <= SeedLength && |seed| == i
      invariant forall j :: 0 <= j < i ==> seed[j] == ClearChar(ans, j)
    {
      var c := SeedChar(ans, i);
      SeedStep(seed, ans, c);
      seed := seed + [c];
      i := i + 1;
    }
  }

  /** Appending the next seed character keeps every character equal to ClearChar. */
  lemma SeedStep(seed: string, fold: bv32, c: char)
    requires |seed| < SeedLength && c == SeedChar(fold, |seed|)
    requires forall j :: 0 <= j < |seed| ==> seed[j] == ClearChar(fold, j)
    ensures forall j :: 0 <= j < |seed| + 1 ==> (seed + [c])[j] == ClearChar(fold, j)
  {
    SeedCharMeaning(fold, |seed|);
  }

  /** An empty password folds to 0, so its seed is sixteen '1's. */
  lemma EmptyPasswordSeed(seed: string)
    requires |seed| == SeedLength
    requires forall i :: 0 <= i < SeedLength ==> seed[i] == ClearChar(PasswordFold([]), i)
    ensures seed == "1111111111111111"
  {
    assert PasswordFold([]) == 0;
  }
}
