/**
 * The checksum obfuscator of index.js: `hashCode` (Times33-xor, folding the
 * string from its last character to its first) and `hashShort`.
 *
 * In JavaScript `(hash * 33) ^ c` multiplies exactly (|hash| < 2^31 after the
 * first step) and `^` reduces both operands to 32 bits, so the accumulator
 * is a 32-bit pattern throughout; it is a bv32 here.  The JavaScript value
 * is the signed reading of those bits, and `>>> 0` is the unsigned one.
 */
module Times33 {
  import JsHex

  const Seed: bv32 := 5381

  /** The code unit `charCodeAt` reports, as a 32-bit pattern. */
  function Unit(c: char): bv32
  {
    (c as int) as bv32
  }

  /** One step of the fold: `(hash * 33) ^ str.charCodeAt(index)` on 32 bits. */
  function Step(hash: bv32, c: char): bv32
  {
    (hash * 33) ^ Unit(c)
  }

  /** Folds t from its last character to its first, starting at `seed`. */
  function Times33From(seed: bv32, t: string): bv32
  {
    if t == [] then seed else Step(Times33From(seed, t[1..]), t[0])
  }

  function Times33(t: string): bv32
  {
    Times33From(Seed, t)
  }

  /** Right-to-left order: the hash of a + b continues the fold of b over a. */
  lemma {:induction false} Times33Split(seed: bv32, a: string, b: string)
    ensures Times33From(seed, a + b) == Times33From(Times33From(seed, b), a)
    decreases |a|
  {
    if a == [] {
      assert a + b == b;
    } else {
      assert (a + b)[1..] == a[1..] + b;
      Times33Split(seed, a[1..], b);
    }
  }

  /** `hashCode`: the `while (index)` loop with `--index`, then `>>> 0`. */
  method HashCode(s: string) returns (h: nat)
    ensures h == Times33(s) as nat
    ensures h < 0x1_0000_0000
  {
    var hash: bv32 := Seed;
    var index := |s|;
    while index != 0
      invariant 0 <= index <= |s|
      invariant hash == Times33(s[index..])
    {
      index := index - 1;
      assert s[index..][1..] == s[index + 1..];
      hash := Step(hash, s[index]);
    }
    h := hash as nat;
  }

  function HashShort(s: string): (r: string)
    ensures JsHex.IsCanonicalHex(r) && 1 <= |r| <= 8
  {
    var n := Times33(s) as nat;
    JsHex.Pow16Eight();
    JsHex.ToHexLength(n, 8);
    JsHex.ToHex(n)
  }

  /** The short form reads back as the hash: no two hashes print alike. */
  lemma HashShortParses(s: string)
    ensures JsHex.ParseHex(HashShort(s)) == Times33(s) as nat
  {
    JsHex.ParseToHex(Times33(s) as nat);
  }

  /** The empty string maps to the seed, printed "1505". */
  lemma HashShortEmpty()
    ensures Times33("") == 5381
    ensures HashShort("") == "1505"
  {
    assert JsHex.ToHex(1) == "1";
    assert JsHex.ToHex(21) == "15";
    assert JsHex.ToHex(336) == "150";
    assert JsHex.ToHex(5381) == "1505";
  }
}
