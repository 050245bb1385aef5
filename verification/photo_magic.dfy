/**
 * PhotoMagic's transform: encrypting an image by xor-ing every colour
 * channel with a byte drawn from a FibLFSR. An image is its pixels in
 * row-major order, `width` pixels per row and `height` rows.
 */
module PhotoMagic {
  import opened LfsrSpec
  import L = FibLfsrInt

  datatype Pixel = Pixel(r: bv8, g: bv8, b: bv8)

  /** The low 8 bits of a number, which is what storing it in an 8-bit colour channel keeps. */
  function Low8(k: nat): bv8
  {
    (k % 256) as bv8
  }

  /** What `generate(8)` from register s leaves in a colour channel. */
  function Key(s: seq<bool>): bv8
    requires |s| >= 1
  {
    Low8(Generated(s, 8))
  }

  /** A pixel with red, green and blue xor-ed with the three given keys. */
  function XorPixel(p: Pixel, kr: bv8, kg: bv8, kb: bv8): Pixel
  {
    Pixel(p.r ^ kr, p.g ^ kg, p.b ^ kb)
  }

  /** Xor-ing twice with the same keys gives the pixel back, and a pixel is unchanged only under zero keys. */
  lemma XorPixelTwice(p: Pixel, kr: bv8, kg: bv8, kb: bv8)
    ensures XorPixel(XorPixel(p, kr, kg, kb), kr, kg, kb) == p
    ensures XorPixel(p, kr, kg, kb) == p <==> kr == 0 && kg == 0 && kb == 0
  {
  }

  /** A pixel xor-ed, red, green and blue in that order, with three successive keys from register s. */
  function Encrypt(p: Pixel, s: seq<bool>): Pixel
    requires |s| >= 1
  {
    XorPixel(p, Key(s), Key(Iterate(s, 8)), Key(Iterate(s, 16)))
  }

  /** Encrypting twice from the same register state restores the pixel. */
  lemma EncryptTwice(p: Pixel, s: seq<bool>)
    requires |s| >= 1
    ensures Encrypt(Encrypt(p, s), s) == p
  {
    XorPixelTwice(p, Key(s), Key(Iterate(s, 8)), Key(Iterate(s, 16)));
  }

  /** The register when pixel i is reached: 24 steps have been taken for each pixel before it. */
  ghost function PixelState(s0: seq<bool>, i: nat): (r: seq<bool>)
    requires |s0| >= 1
    ensures |r| == |s0|
  {
    Iterate(s0, 24 * i)
  }

  lemma PixelStateNext(s0: seq<bool>, n: nat)
    requires |s0| >= 1
    ensures Iterate(PixelState(s0, n), 24) == PixelState(s0, n + 1)
  {
    IterateAdd(s0, 24 * n, 24);
  }

  /** The encrypted image: pixel i xor-ed with the keys of the register it is reached with. */
  ghost function Encrypted(image: seq<Pixel>, s0: seq<bool>): (r: seq<Pixel>)
    requires |s0| >= 1
    ensures |r| == |image|
    ensures forall i :: 0 <= i < |image| ==> r[i] == Encrypt(image[i], PixelState(s0, i))
  {
    seq(|image|, i requires 0 <= i < |image| => Encrypt(image[i], PixelState(s0, i)))
  }

  /** The register is where it is when pixel n is reached. */
  ghost predicate AtPixel(fibLfsr: L.FibLFSR, s0: seq<bool>, n: nat)
    requires |s0| >= 1
    reads fibLfsr
  {
    fibLfsr.State() == PixelState(s0, n)
  }

  /** Pixels below n hold their target, the others are untouched. */
  ghost predicate DoneBelow(cur: seq<Pixel>, target: seq<Pixel>, before: seq<Pixel>, n: nat)
  {
    |cur| == |before| == |target| && n <= |cur| &&
    (forall i :: 0 <= i < n ==> cur[i] == target[i]) &&
    (forall i :: n <= i < |cur| ==> cur[i] == before[i])
  }

  lemma DoneNext(cur: seq<Pixel>, next: seq<Pixel>, target: seq<Pixel>, before: seq<Pixel>, n: nat, p: Pixel)
    requires DoneBelow(cur, target, before, n) && n < |cur|
    requires next == cur[n := p] && p == target[n]
    ensures DoneBelow(next, target, before, n + 1)
  {
  }

  lemma DoneAll(cur: seq<Pixel>, target: seq<Pixel>, before: seq<Pixel>)
    requires DoneBelow(cur, target, before, |cur|)
    ensures cur == target
  {
  }

  /** One pixel: three `generate(8)` calls, xor-ed into red, green and blue. */
  method TransformPixel(image: array<Pixel>, i: nat, fibLfsr: L.FibLFSR)
    requires i < image.Length && fibLfsr.Valid()
    modifies image, fibLfsr
    ensures fibLfsr.Valid()
    ensures image[..] == old(image[..])[i := Encrypt(old(image[..])[i], old(fibLfsr.State()))]
    ensures fibLfsr.State() == Iterate(old(fibLfsr.State()), 24)
  {
    ghost var s := fibLfsr.State();
    var pixel := image[i];
    var kr := fibLfsr.Generate(8);
    var kg := fibLfsr.Generate(8);
    var kb := fibLfsr.Generate(8);
    IterateAdd(s, 8, 8);
    IterateAdd(s, 16, 8);
    pixel := XorPixel(pixel, Low8(kr), Low8(kg), Low8(kb));
    image[i] := pixel;
  }

  /** Pixel n in its turn: the pixels before it are done and the register has taken 24 steps for each. */
  method NextPixel(image: array<Pixel>, n: nat, fibLfsr: L.FibLFSR,
                   ghost target: seq<Pixel>, ghost before: seq<Pixel>, ghost s0: seq<bool>)
    requires n < image.Length && fibLfsr.Valid() && |s0| >= 1
    requires target == Encrypted(before, s0)
    requires DoneBelow(image[..], target, before, n) && AtPixel(fibLfsr, s0, n)
    modifies image, fibLfsr
    ensures fibLfsr.Valid()
    ensures DoneBelow(image[..], target, before, n + 1) && AtPixel(fibLfsr, s0, n + 1)
  {
    ghost var cur, s := image[..], fibLfsr.State();
    TransformPixel(image, n, fibLfsr);
    ghost var next := image[..];
    DoneNext(cur, next, target, before, n, Encrypt(cur[n], s));
    PixelStateNext(s0, n);
  }

  /** One row: pixels start to start + width in order, 24 steps each. */
  method TransformRow(image: array<Pixel>, start: nat, width: nat, fibLfsr: L.FibLFSR,
                      ghost target: seq<Pixel>, ghost before: seq<Pixel>, ghost s0: seq<bool>)
    requires start + width <= image.Length && fibLfsr.Valid() && |s0| >= 1
    requires target == Encrypted(before, s0)
    requires DoneBelow(image[..], target, before, start) && AtPixel(fibLfsr, s0, start)
    modifies image, fibLfsr
    ensures fibLfsr.Valid()
    ensures DoneBelow(image[..], target, before, start + width) && AtPixel(fibLfsr, s0, start + width)
  {
    var col: nat, n: nat := 0, start;
    while col < width
      invariant 0 <= col <= width && n == start + col && fibLfsr.Valid()
      invariant DoneBelow(image[..], target, before, n)
      invariant AtPixel(fibLfsr, s0, n)
    {
      NextPixel(image, n, fibLfsr, target, before, s0);
      col, n := col + 1, n + 1;
    }
    assert n == start + width;
  }

  /** Row r + 1 starts where row r ends, and a row below the last one ends inside the image. */
  lemma RowStep(row: nat, width: nat, height: nat)
    requires row < height
    ensures (row + 1) * width == row * width + width && row * width + width <= height * width
  {
    assert (row + 1) * width == row * width + width;
    MulMono(row + 1, height, width);
  }

  lemma {:induction false} MulMono(a: nat, b: nat, w: nat)
    requires a <= b
    ensures a * w <= b * w
  {
    if a < b {
      MulMono(a, b - 1, w);
      assert b * w == (b - 1) * w + w;
    }
  }

  /** All rows, top to bottom, each continuing from where the previous one left the register. */
  method TransformRows(image: array<Pixel>, width: nat, height: nat, fibLfsr: L.FibLFSR,
                       ghost target: seq<Pixel>, ghost before: seq<Pixel>, ghost s0: seq<bool>)
    requires image.Length == height * width && fibLfsr.Valid() && |s0| >= 1
    requires target == Encrypted(before, s0)
    requires DoneBelow(image[..], target, before, 0) && AtPixel(fibLfsr, s0, 0)
    modifies image, fibLfsr
    ensures fibLfsr.Valid()
    ensures DoneBelow(image[..], target, before, image.Length) && AtPixel(fibLfsr, s0, image.Length)
  {
    var row: nat, start: nat := 0, 0;
    while row < height
      invariant 0 <= row <= height && start == row * width <= image.Length && fibLfsr.Valid()
      invariant DoneBelow(image[..], target, before, start)
      invariant AtPixel(fibLfsr, s0, start)
    {
      RowStep(row, width, height);
      TransformRow(image, start, width, fibLfsr, target, before, s0);
      row, start := row + 1, start + width;
    }
  }

  /**
   * Encrypts every pixel in row-major order, advancing the register 24
   * steps per pixel: pixel i is xor-ed with the keys of the register after
   * 24 * i steps.
   */
  method Transform(image: array<Pixel>, width: nat, height: nat, fibLfsr: L.FibLFSR)
    requires image.Length == height * width && fibLfsr.Valid()
    modifies image, fibLfsr
    ensures fibLfsr.Valid()
    ensures image[..] == Encrypted(old(image[..]), old(fibLfsr.State()))
    ensures fibLfsr.State() == PixelState(old(fibLfsr.State()), image.Length)
  {
    ghost var s0 := fibLfsr.State();
    ghost var before := image[..];
    ghost var target := Encrypted(before, s0);
    TransformRows(image, width, height, fibLfsr, target, before, s0);
    DoneAll(image[..], target, before);
  }

  /** Encrypting twice with the same starting register restores the image. */
  lemma EncryptedTwice(before: seq<Pixel>, once: seq<Pixel>, twice: seq<Pixel>, s0: seq<bool>)
    requires |s0| >= 1 && once == Encrypted(before, s0) && twice == Encrypted(once, s0)
    ensures twice == before
  {
    forall i | 0 <= i < |before|
      ensures twice[i] == before[i]
    {
      EncryptTwice(before[i], PixelState(s0, i));
    }
  }

  /**
   * Transforming an image, then transforming the result again with a fresh
   * register from the same seed, restores every pixel.
   */
  method TransformTwice(image: array<Pixel>, width: nat, height: nat, seed: string)
    requires image.Length == height * width && 1 <= |seed| && IsBinary(seed)
    modifies image
    ensures image[..] == old(image[..])
  {
    ghost var before := image[..];
    ghost var s0 := SeedBits(seed);
    var fibLfsr := new L.FibLFSR(seed);
    Transform(image, width, height, fibLfsr);
    ghost var once := image[..];
    fibLfsr := new L.FibLFSR(seed);
    Transform(image, width, height, fibLfsr);
    EncryptedTwice(before, once, image[..], s0);
  }
}
