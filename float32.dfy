/** The real number that four little-endian bytes denote as an IEEE 754
    binary32 (single precision) value. Used as an independent reference for
    the population byte table; no floating-point arithmetic is modelled. */
module Float32 {
  import opened Wrappers
  import opened PyBytes

  /** `2^e`. It is at least 1, which is what makes the division in `Value`
      well defined. */
  function Pow2(e: nat): (r: nat)
    ensures r >= 1
  {
    if e == 0 then 1 else 2 * Pow2(e - 1)
  }

  /** The 32-bit word stored least significant byte first. */
  function Word(b: seq<byte>): (w: nat)
    requires |b| == 4
    ensures w < 0x1_0000_0000
  {
    b[0] as nat + 0x100 * b[1] as nat + 0x1_0000 * b[2] as nat + 0x100_0000 * b[3] as nat
  }

  /** The finite value of the binary32 word, or None for an infinity or a NaN
      (biased exponent 255). Sign bit 31, biased exponent bits 23-30, fraction
      bits 0-22; subnormals have exponent 0 and no implicit leading one. */
  function Value(b: seq<byte>): (r: Option<real>)
    requires |b| == 4
  {
    var w := Word(b);
    var sign := w / 0x8000_0000;
    var exponent := (w / 0x80_0000) % 0x100;
    var fraction := w % 0x80_0000;
    if exponent == 0xFF then None
    else
      // a subnormal has the exponent of the smallest normal and no implicit leading one
      var e := if exponent == 0 then 1 else exponent;
      var significand := if exponent == 0 then fraction else 0x80_0000 + fraction;
      var magnitude :=
        if e >= 150 then (significand * Pow2(e - 150)) as real
        else significand as real / Pow2(150 - e) as real;
      Some(if sign == 1 then -magnitude else magnitude)
  }

  lemma Pow2Of23()
    ensures Pow2(23) == 0x80_0000
  {
    assert Pow2(8) == 0x100;
    assert Pow2(16) == 0x1_0000;
  }

  /** The all-zero word is positive zero. */
  lemma ZeroWord(b: seq<byte>)
    requires |b| == 4 && Word(b) == 0
    ensures Value(b) == Some(0.0)
  {
  }

  /** `3F80_0000`: biased exponent 127, empty fraction. */
  lemma OneWord()
    ensures Value([0x00, 0x00, 0x80, 0x3F]) == Some(1.0)
  {
    Pow2Of23();
    var w := Word([0x00, 0x00, 0x80, 0x3F]);
    assert w == 0x3F80_0000;
    assert w / 0x8000_0000 == 0;
    assert (w / 0x80_0000) % 0x100 == 127;
    assert w % 0x80_0000 == 0;
  }

  /** `4000_0000`: biased exponent 128, empty fraction. */
  lemma TwoWord()
    ensures Value([0x00, 0x00, 0x00, 0x40]) == Some(2.0)
  {
    Pow2Of23();
    assert Pow2(22) == 0x40_0000;
    var w := Word([0x00, 0x00, 0x00, 0x40]);
    assert w == 0x4000_0000;
    assert w / 0x8000_0000 == 0;
    assert (w / 0x80_0000) % 0x100 == 128;
    assert w % 0x80_0000 == 0;
  }

  /** The bytes of 0.0, 1.0, 2.0 and 3.0. */
  lemma SmallWholeNumbers()
    ensures Value([0x00, 0x00, 0x00, 0x00]) == Some(0.0)
    ensures Value([0x00, 0x00, 0x80, 0x3F]) == Some(1.0)
    ensures Value([0x00, 0x00, 0x00, 0x40]) == Some(2.0)
    ensures Value([0x00, 0x00, 0x40, 0x40]) == Some(3.0)
  {
    ZeroWord([0x00, 0x00, 0x00, 0x00]);
    OneWord();
    TwoWord();
    ThreeWord();
  }

  /** `4040_0000`: biased exponent 128, fraction 0x40_0000. */
  lemma ThreeWord()
    ensures Value([0x00, 0x00, 0x40, 0x40]) == Some(3.0)
  {
    Pow2Of23();
    assert Pow2(22) == 0x40_0000;
    var w := Word([0x00, 0x00, 0x40, 0x40]);
    assert w == 0x4040_0000;
    assert w / 0x8000_0000 == 0;
    assert (w / 0x80_0000) % 0x100 == 128;
    assert w % 0x80_0000 == 0x40_0000;
  }
}
