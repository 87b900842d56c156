/**
 * The checksum obfuscator of src/main.js: `hashCode` (DJB2, folding the
 * string left to right) and `hashShort` (its lowercase hexadecimal form).
 *
 * JavaScript evaluates `hash = (hash << 5) + hash + c` on doubles: `<<`
 * wraps its operand and its result to signed 32 bits, but `+ hash` does
 * not, so the accumulator itself is not reduced; only the final `>>> 0`
 * takes it modulo 2^32.  `JsAccumulator` is that accumulator on exact
 * integers, `Djb2` is the reduced fold, and `AccumulatorMod` connects them.
 */
module Djb2 {
  import JsHex

  const Seed: nat := 5381
  const Modulus: nat := 0x1_0000_0000
  const Half: nat := 0x8000_0000

  /** The code `charCodeAt` reports for one character. */
  function Code(c: char): (n: nat)
    ensures n < 0x11_0000
  {
    c as int
  }

  /** JavaScript's ToInt32: the signed 32-bit value congruent to x. */
  function Int32(x: int): (r: int)
    ensures -(Half as int) <= r < Half
    ensures (r - x) % Modulus == 0
  {
    (x + Half) % Modulus - Half
  }

  /** The value of `hash` after the loop has consumed s, in JavaScript's arithmetic. */
  function JsAccumulator(s: string): int
  {
    if s == [] then Seed
    else
      var h := JsAccumulator(s[..|s| - 1]);
      Int32(32 * Int32(h)) + h + Code(s[|s| - 1])
  }

  /** The DJB2 fold `h := (33 * h + charCode) mod 2^32` from 5381, left to right. */
  function Djb2(s: string): (h: nat)
    ensures h < Modulus
  {
    if s == [] then Seed else (33 * Djb2(s[..|s| - 1]) + Code(s[|s| - 1])) % Modulus
  }

  lemma CongruentStep(h: int, d: int, c: int)
    requires (d - 32 * h) % Modulus == 0
    ensures (d + h + c) % Modulus == (33 * (h % Modulus) + c) % Modulus
  {
    var k := (d - 32 * h) / Modulus;
    assert d == 32 * h + k * Modulus;
    var q := h / Modulus;
    assert h == q * Modulus + h % Modulus;
    assert d + h + c == (33 * (h % Modulus) + c) + (k + 33 * q) * Modulus;
  }

  /** `(h << 5)` is congruent to 32 * h modulo 2^32. */
  lemma ShiftCongruent(h: int)
    ensures (Int32(32 * Int32(h)) - 32 * h) % Modulus == 0
  {
    var a := Int32(h);
    var d := Int32(32 * a);
    var ka := Multiple(a - h);
    var kd := Multiple(d - 32 * a);
    ModOfMultiple(d - 32 * h, 32 * ka + kd);
  }

  lemma Multiple(x: int) returns (k: int)
    requires x % Modulus == 0
    ensures x == k * Modulus
  {
    k := x / Modulus;
  }

  lemma ModOfMultiple(x: int, k: int)
    requires x == k * Modulus
    ensures x % Modulus == 0
  {
  }

  /** The unreduced accumulator is congruent to the DJB2 fold modulo 2^32. */
  lemma {:induction false} AccumulatorMod(s: string)
    ensures JsAccumulator(s) % Modulus == Djb2(s)
    decreases |s|
  {
    if s != [] {
      var p := s[..|s| - 1];
      var h := JsAccumulator(p);
      AccumulatorMod(p);
      ShiftCongruent(h);
      CongruentStep(h, Int32(32 * Int32(h)), Code(s[|s| - 1]));
    }
  }

  /** The largest change one character can make to the accumulator. */
  const MaxStep: nat := Half + 0x11_0000

  /**
   * The accumulator moves by at most MaxStep per character, so for strings of
   * up to 2^21 characters it stays within 2^53 in magnitude, where every
   * double in the loop is an exact integer and `JsAccumulator` is what
   * JavaScript computes.
   */
  lemma {:induction false} AccumulatorBound(s: string)
    ensures Seed - |s| * MaxStep <= JsAccumulator(s) <= Seed + |s| * MaxStep
    decreases |s|
  {
    if s != [] {
      AccumulatorBound(s[..|s| - 1]);
    }
  }

  lemma AccumulatorExact(s: string)
    requires |s| <= 0x20_0000
    ensures -0x20_0000_0000_0000 < JsAccumulator(s) < 0x20_0000_0000_0000
  {
    AccumulatorBound(s);
    assert |s| * MaxStep <= 0x20_0000 * MaxStep;
  }

  /** `hashCode`: the `for` loop over the characters, then `>>> 0`. */
  method HashCode(s: string) returns (h: nat)
    ensures h == Djb2(s)
    ensures h < Modulus
  {
    var hash: int := Seed;
    for i := 0 to |s|
      invariant hash == JsAccumulator(s[..i])
    {
      assert s[..i + 1][..i] == s[..i];
      hash := Int32(32 * Int32(hash)) + hash + Code(s[i]);
    }
    assert s[..|s|] == s;
    AccumulatorMod(s);
    h := hash % Modulus;
  }

  /** `hashShort`: the hash as `toString(16)` prints it. */
  function HashShort(s: string): (r: string)
    ensures JsHex.IsCanonicalHex(r) && 1 <= |r| <= 8
  {
    JsHex.Pow16Eight();
    JsHex.ToHexLength(Djb2(s), 8);
    JsHex.ToHex(Djb2(s))
  }

  /** The short form reads back as the hash: no two hashes print alike. */
  lemma HashShortParses(s: string)
    ensures JsHex.ParseHex(HashShort(s)) == Djb2(s)
  {
    JsHex.ParseToHex(Djb2(s));
  }

  /** The empty string hashes to the seed, printed "1505". */
  lemma HashShortEmpty()
    ensures Djb2("") == 5381
    ensures HashShort("") == "1505"
  {
    assert JsHex.ToHex(1) == "1";
    assert JsHex.ToHex(21) == "15";
    assert JsHex.ToHex(336) == "150";
    assert JsHex.ToHex(5381) == "1505";
  }

  /** Left-to-right order: the hash of a + b continues the fold of a over b. */
  function Djb2From(h: nat, s: string): (r: nat)
    requires h < Modulus
    ensures r < Modulus
  {
    if s == [] then h else (33 * Djb2From(h, s[..|s| - 1]) + Code(s[|s| - 1])) % Modulus
  }

  lemma {:induction false} Djb2Split(a: string, b: string)
    ensures Djb2(a + b) == Djb2From(Djb2(a), b)
    decreases |b|
  {
    if b == [] {
      assert a + b == a;
    } else {
      var b' := b[..|b| - 1];
      assert (a + b)[..|a + b| - 1] == a + b';
      Djb2Split(a, b');
    }
  }
}
