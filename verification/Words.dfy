/** Machine words and bytes, and the little-endian layout the miner's x86 code relies on. */
module Words {

  type byte = bv8
  type word = bv32

  /** Four bytes as a little-endian 32-bit word (sph_dec32le_aligned, and the `unsigned int*` casts). */
  function Dec32(b: seq<byte>): word
    requires |b| == 4
  {
    (b[0] as word) | ((b[1] as word) << 8) | ((b[2] as word) << 16) | ((b[3] as word) << 24)
  }

  /** A 32-bit word as four little-endian bytes (sph_enc32le_aligned). */
  function Enc32(w: word): (b: seq<byte>)
    ensures |b| == 4
  {
    [(w & 0xFF) as byte, ((w >> 8) & 0xFF) as byte, ((w >> 16) & 0xFF) as byte, ((w >> 24) & 0xFF) as byte]
  }

  lemma DecEnc(w: word)
    ensures Dec32(Enc32(w)) == w
  {
  }

  /** Entry t of a buffer of 64-byte entries. */
  function Entry(b: seq<byte>, t: nat): (e: seq<byte>)
    requires 64 * t + 64 <= |b|
    ensures |e| == 64
  {
    b[64 * t..64 * t + 64]
  }

  /** r is x + y, and r is x - y, modulo 2^32. */
  predicate IsSum(r: word, x: word, y: word) {
    r == x + y
  }

  predicate IsDifference(r: word, x: word, y: word) {
    r == x - y
  }

  /** 32-bit addition, wrapping. */
  function Plus(x: word, y: word): (r: word)
    ensures IsSum(r, x, y) && IsDifference(x, r, y)
  {
    assert IsDifference(x, x + y, y);
    x + y
  }

  /** 32-bit subtraction, wrapping. */
  function Minus(x: word, y: word): (r: word)
    ensures IsDifference(r, x, y) && IsSum(x, r, y)
  {
    assert IsSum(x, x - y, y);
    x - y
  }

  function Xor(x: word, y: word): word { x ^ y }

  function Or(x: word, y: word): word { x | y }

  function Not(x: word): word { !x }

  /** ~x & y */
  function AndNot(x: word, y: word): word { !x & y }

  /** Rotations left, as the C macros write them. */
  function Rot1(x: word): word { (x << 1) | (x >> 31) }

  function Rot15(x: word): word { (x << 15) | (x >> 17) }

  function Rot17(x: word): word { (x << 17) | (x >> 15) }

  /** r is 3x, and r is the third of x: 0xAAAAAAAB is the inverse of 3 modulo 2^32. */
  predicate IsTriple(r: word, x: word) {
    r == x * 3
  }

  predicate IsThird(r: word, x: word) {
    r == x * 0xAAAAAAAB
  }

  function Times3(x: word): (r: word)
    ensures IsTriple(r, x) && IsThird(x, r)
  {
    assert IsThird(x, x * 3);
    x * 3
  }

  function Third(x: word): (r: word)
    ensures IsThird(r, x) && IsTriple(x, r)
  {
    assert IsTriple(x, x * 0xAAAAAAAB);
    x * 0xAAAAAAAB
  }

  function Times5(x: word): word { x * 5 }

  lemma SumUnique(r: word, s: word, x: word, y: word)
    requires IsSum(r, x, y) && IsSum(s, x, y)
    ensures r == s
  {
  }

  lemma DifferenceUnique(r: word, s: word, x: word, y: word)
    requires IsDifference(r, x, y) && IsDifference(s, x, y)
    ensures r == s
  {
  }

  lemma PlusMinus(x: word, y: word)
    ensures Minus(Plus(x, y), y) == x && Plus(Minus(x, y), y) == x
  {
    hide *;
    DifferenceUnique(Minus(Plus(x, y), y), x, Plus(x, y), y);
    SumUnique(Plus(Minus(x, y), y), x, Minus(x, y), y);
  }

  lemma XorTwice(x: word, y: word)
    ensures Xor(Xor(x, y), y) == x
  {
  }

  lemma TripleUnique(r: word, s: word, x: word)
    requires IsTriple(r, x) && IsTriple(s, x)
    ensures r == s
  {
  }

  lemma ThirdUnique(r: word, s: word, x: word)
    requires IsThird(r, x) && IsThird(s, x)
    ensures r == s
  {
  }

  /** Three times and five times by shifting and adding. */
  lemma TripleByShift(x: word)
    ensures IsTriple((x << 1) + x, x)
  {
  }

  /** Multiplying by 3 modulo 2^32 is a bijection. */
  lemma TripleThird(x: word)
    ensures Third(Times3(x)) == x && Times3(Third(x)) == x
  {
    hide *;
    ThirdUnique(Third(Times3(x)), x, Times3(x));
    TripleUnique(Times3(Third(x)), x, Third(x));
  }
}
