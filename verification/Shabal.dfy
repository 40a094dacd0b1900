/**
 * Shabal-256 on values: the permutation, the block step and the digest of a whole message.
 * The methods of the other Shabal modules are proved against these functions.
 */
module Shabal {
  import opened Words

  /** The two registers the permutation changes: A (12 words) and B (16 words). */
  datatype AB = AB(a: seq<word>, b: seq<word>) {
    ghost predicate Valid() {
      |a| == 12 && |b| == 16
    }
  }

  /** The chaining state: A, B, C and the 64-bit block counter held as two words. */
  datatype Chain = Chain(a: seq<word>, b: seq<word>, c: seq<word>, wlow: word, whigh: word) {
    ghost predicate Valid() {
      |a| == 12 && |b| == 16 && |c| == 16
    }
  }

  /** The new A word of one PERM_ELT. */
  function EltA(a0: word, a1: word, b1: word, b2: word, b3: word, c: word, m: word): word {
    Xor(Xor(Xor(Times3(Xor(Xor(a0, Times5(Rot15(a1))), c)), b1), AndNot(b3, b2)), m)
  }

  /** The new B word of one PERM_ELT; `a0` is the A word just computed. */
  function EltB(b0: word, a0: word): word {
    Not(Xor(Rot1(b0), a0))
  }

  /** PERM_ELT number j of the 48; PERM_STEP_0, _1 and _2 are j in [0,16), [16,32) and [32,48). */
  function PermElt(j: nat, s: AB, c: seq<word>, m: seq<word>): (r: AB)
    requires j < 48 && s.Valid() && |c| == 16 && |m| == 16
    ensures r.Valid()
  {
    var a0 := EltA(s.a[j % 12], s.a[(j + 11) % 12], s.b[(j + 13) % 16], s.b[(j + 9) % 16], s.b[(j + 6) % 16],
                   c[(56 - j) % 16], m[j % 16]);
    AB(s.a[j % 12 := a0], s.b[j % 16 := EltB(s.b[j % 16], a0)])
  }

  /** The first k PERM_ELTs in order. */
  function PermElts(k: nat, s: AB, c: seq<word>, m: seq<word>): (r: AB)
    requires k <= 48 && s.Valid() && |c| == 16 && |m| == 16
    ensures r.Valid()
  {
    if k == 0 then s else PermElt(k - 1, PermElts(k - 1, s, c, m), c, m)
  }

  /** The first k of the 36 additions of C words into A that close the permutation. */
  function AddElts(k: nat, a: seq<word>, c: seq<word>): (r: seq<word>)
    requires k <= 36 && |a| == 12 && |c| == 16
    ensures |r| == 12
  {
    if k == 0 then a
    else
      var p := AddElts(k - 1, a, c);
      var i := 11 - (k - 1) % 12;
      p[i := Plus(p[i], c[(38 - (k - 1)) % 16])]
  }

  /** The 17-bit rotation of every B word that opens the permutation. */
  function RotB(b: seq<word>): (r: seq<word>)
    ensures |r| == |b|
  {
    seq(|b|, i requires 0 <= i < |b| => Rot17(b[i]))
  }

  /** APPLY_P. */
  function ApplyP(s: AB, c: seq<word>, m: seq<word>): (r: AB)
    requires s.Valid() && |c| == 16 && |m| == 16
    ensures r.Valid()
  {
    var t := PermElts(48, AB(s.a, RotB(s.b)), c, m);
    AB(AddElts(36, t.a, c), t.b)
  }

  function AddVec(x: seq<word>, m: seq<word>): (r: seq<word>)
    requires |x| == |m|
    ensures |r| == |x|
  {
    seq(|x|, i requires 0 <= i < |x| => Plus(x[i], m[i]))
  }

  function SubVec(x: seq<word>, m: seq<word>): (r: seq<word>)
    requires |x| == |m|
    ensures |r| == |x|
  {
    seq(|x|, i requires 0 <= i < |x| => Minus(x[i], m[i]))
  }

  /** The XOR of the counter into A[0] and A[1]. */
  function XorW(a: seq<word>, lo: word, hi: word): (r: seq<word>)
    requires |a| == 12
    ensures |r| == 12
  {
    a[0 := Xor(a[0], lo)][1 := Xor(a[1], hi)]
  }

  /** INPUT_BLOCK_ADD; XOR_W; APPLY_P. */
  function Mix(s: Chain, m: seq<word>): (r: Chain)
    requires s.Valid() && |m| == 16
    ensures r.Valid()
  {
    var t := ApplyP(AB(XorW(s.a, s.wlow, s.whigh), AddVec(s.b, m)), s.c, m);
    s.(a := t.a, b := t.b)
  }

  /** INPUT_BLOCK_SUB; SWAP_BC. */
  function Turn(s: Chain, m: seq<word>): (r: Chain)
    requires s.Valid() && |m| == 16
    ensures r.Valid()
  {
    s.(b := SubVec(s.c, m), c := s.b)
  }

  /** INCR_W: a 64-bit increment across two words. */
  function Tick(s: Chain): (r: Chain)
    ensures s.Valid() ==> r.Valid()
  {
    var lo := Plus(s.wlow, 1);
    s.(wlow := lo, whigh := if lo == 0 then Plus(s.whigh, 1) else s.whigh)
  }

  /** One message block. */
  function Block(s: Chain, m: seq<word>): (r: Chain)
    requires s.Valid() && |m| == 16
    ensures r.Valid()
  {
    Tick(Turn(Mix(s, m), m))
  }

  /** k further rounds on the last block, each adding that block again and leaving the counter alone. */
  function Rounds(k: nat, s: Chain, m: seq<word>): (r: Chain)
    requires s.Valid() && |m| == 16
    ensures r.Valid()
  {
    if k == 0 then s else Mix(Turn(Rounds(k - 1, s, m), m), m)
  }

  /** The last block, with Shabal's three final rounds. */
  function Final(s: Chain, m: seq<word>): (r: Chain)
    requires s.Valid() && |m| == 16
    ensures r.Valid()
  {
    Rounds(3, Mix(s, m), m)
  }

  /** DECODE_BLOCK: 64 bytes as 16 little-endian words. */
  function Decode(buf: seq<byte>): (m: seq<word>)
    requires |buf| == 64
    ensures |m| == 16
  {
    seq(16, i requires 0 <= i < 16 => Dec32(buf[4 * i..4 * i + 4]))
  }

  /** The words of `w` in little-endian bytes, in order. */
  function Encode(w: seq<word>): (b: seq<byte>)
    ensures |b| == 4 * |w|
  {
    if w == [] then [] else Enc32(w[0]) + Encode(w[1..])
  }

  /** Whole blocks of `data` folded into the state, and the bytes left over. */
  function Absorb(s: Chain, data: seq<byte>): (r: (Chain, seq<byte>))
    requires s.Valid()
    ensures r.0.Valid() && |r.1| < 64
    decreases |data|
  {
    if |data| < 64 then (s, data) else Absorb(Block(s, Decode(data[..64])), data[64..])
  }

  /** The last block: the leftover bytes, one padding byte, zeros. */
  function Pad(rest: seq<byte>, last: byte): (b: seq<byte>)
    requires |rest| < 64
    ensures |b| == 64
  {
    rest + [last] + seq(63 - |rest|, _ => 0)
  }

  /** The last 32 bytes of B: what shabal_close writes for 8 output words. */
  function Output(s: Chain): (d: seq<byte>)
    requires s.Valid()
    ensures |d| == 32
  {
    Encode(s.b[8..])
  }

  /** The digest of what has been absorbed: pad with `last`, run the final rounds, output. */
  function Finish(t: Chain, rest: seq<byte>, last: byte): (d: seq<byte>)
    requires t.Valid() && |rest| < 64
    ensures |d| == 32
  {
    Output(Final(t, Decode(Pad(rest, last))))
  }

  /** The 32-byte digest of a message from chaining state `s`. */
  function Digest(s: Chain, msg: seq<byte>): (d: seq<byte>)
    requires s.Valid()
    ensures |d| == 32
  {
    var (t, rest) := Absorb(s, msg);
    Finish(t, rest, 0x80)
  }

  const A_INIT_256: seq<word> := [
    0x52F84552, 0xE54B7999, 0x2D8EE3EC, 0xB9645191, 0xE0078B86, 0xBB7C44C9, 0xD2B5C1CA, 0xB0D2EB8C,
    0x14CE5A45, 0x22AF50DC, 0xEFFDBC6B, 0xEB21B74A]

  const B_INIT_256: seq<word> := [
    0xB555C6EE, 0x3E710596, 0xA72A652F, 0x9301515F, 0xDA28C1FA, 0x696FD868, 0x9CB6BF72, 0x0AFE4002,
    0xA6E03615, 0x5138C1D4, 0xBE216306, 0xB38B8890, 0x3EA8B96B, 0x3299ACE4, 0x30924DD4, 0x55CB34A5]

  const C_INIT_256: seq<word> := [
    0xB405F031, 0xC4233EBA, 0xB3733979, 0xC0DD9D55, 0xC51C28AE, 0xA327B8E1, 0x56C56167, 0xED614433,
    0x88B59D60, 0x60E2CEBA, 0x758B4B8B, 0x83E82A7F, 0xBC968828, 0xE6E00BF7, 0xBA839E55, 0x9B491C60]

  /** The precomputed state of Shabal-256; the counter starts at 1. */
  function Init256(): (s: Chain)
    ensures s.Valid()
  {
    Chain(A_INIT_256, B_INIT_256, C_INIT_256, 1, 0)
  }
}
