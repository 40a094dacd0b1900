/** The definitions of module Shabal against the lists of the C macros, and its word operations bit by bit and as sums. */
module ShabalReference {
  import opened Words
  import opened Shabal
  import opened ShabalStream

  // ---- words ----

  /** ~x & y has no bit of x, and with x & y it makes up y. */
  lemma AndNotIs(x: word, y: word)
    ensures AndNot(x, y) & x == 0 && AndNot(x, y) | (x & y) == y
  {
  }

  /** Exclusive or has the bits of exactly one side. */
  lemma XorIs(x: word, y: word)
    ensures Xor(x, y) & (x & y) == 0 && Xor(x, y) | (x & y) == Or(x, y)
  {
  }

  lemma OrIs(x: word, y: word)
    ensures Not(Or(x, y)) == Not(x) & Not(y)
  {
  }

  lemma NotIs(x: word)
    ensures Not(x) & x == 0 && Not(x) | x == 0xFFFF_FFFF
  {
  }

  /** Turning left multiplies by a power of two; what is carried out comes in below. */
  lemma Rot1Is(x: word)
    ensures Rot1(x) == x + x + (x >> 31)
  {
  }

  lemma Rot15Is(x: word)
    ensures Rot15(x) == x * 0x8000 + (x >> 17)
  {
  }

  lemma Rot17Is(x: word)
    ensures Rot17(x) == x * 0x2_0000 + (x >> 15)
  {
  }

  /** Addition one by one, and the multiples by addition. */
  lemma SumsAndMultiples(r: word, x: word, y: word)
    ensures Plus(x, 0) == x && Plus(x, y + 1) == Plus(x, y) + 1
    ensures IsTriple(r, x) <==> r == x + x + x
    ensures Times5(x) == x + x + x + x + x
  {
  }

  /** Four bytes as a word: the first weighs 1, the second 256, and so on. */
  lemma Dec32Is(b: seq<byte>)
    requires |b| == 4
    ensures Dec32(b) == (b[0] as word) + 0x100 * (b[1] as word) + 0x1_0000 * (b[2] as word) + 0x100_0000 * (b[3] as word)
  {
    Weights(b[0], b[1], b[2], b[3]);
  }

  lemma Weights(a: byte, b: byte, c: byte, d: byte)
    ensures (a as word) | ((b as word) << 8) | ((c as word) << 16) | ((d as word) << 24) ==
            (a as word) + 0x100 * (b as word) + 0x1_0000 * (c as word) + 0x100_0000 * (d as word)
  {
  }

  // ---- the permutation ----

  /** PERM_ELT's new word of A: without what is added by xor outside the brackets, it is the triple of what is inside. */
  lemma EltAIs(a0: word, a1: word, b1: word, b2: word, b3: word, c: word, m: word)
    ensures IsTriple(EltA(a0, a1, b1, b2, b3, c, m) ^ m ^ (b2 & !b3) ^ b1, a0 ^ Times5(Rot15(a1)) ^ c)
  {
    hide Rot15, Times5, Times3, IsTriple, IsThird, Xor, AndNot;
    XorTwo(a0, Times5(Rot15(a1)), c);
    var t := Times3(Xor(Xor(a0, Times5(Rot15(a1))), c));
    AndNotSwapped(b3, b2);
    Undone(t, b1, AndNot(b3, b2), m);
  }

  lemma Undone(t: word, x: word, y: word, z: word)
    ensures Xor(Xor(Xor(t, x), y), z) ^ z ^ y ^ x == t
  {
  }

  lemma XorTwo(x: word, y: word, z: word)
    ensures Xor(Xor(x, y), z) == x ^ y ^ z
  {
  }

  lemma AndNotSwapped(x: word, y: word)
    ensures AndNot(x, y) == y & !x
  {
  }

  lemma EltBIs(b0: word, a0: word)
    ensures EltB(b0, a0) == !(((b0 << 1) | (b0 >> 31)) ^ a0)
  {
  }

  /** PERM_ELT on the named words of A, B, C and M. */
  function OnWords(s: AB, c: seq<word>, m: seq<word>, a0: nat, a1: nat, b0: nat, b1: nat, b2: nat, b3: nat, xc: nat, xm: nat): AB
    requires s.Valid() && |c| == 16 && |m| == 16
    requires a0 < 12 && a1 < 12 && b0 < 16 && b1 < 16 && b2 < 16 && b3 < 16 && xc < 16 && xm < 16
  {
    var xa0 := EltA(s.a[a0], s.a[a1], s.b[b1], s.b[b2], s.b[b3], c[xc], m[xm]);
    AB(s.a[a0 := xa0], s.b[b0 := EltB(s.b[b0], xa0)])
  }

  /** Which words of A (two), B (four), C and M step j uses. */
  function Operands(j: nat): (nat, nat, nat, nat, nat, nat, nat, nat)
    requires j < 48
  {
    (j % 12, (j + 11) % 12, j % 16, (j + 13) % 16, (j + 9) % 16, (j + 6) % 16, (56 - j) % 16, j % 16)
  }

  lemma PermEltIs(j: nat, s: AB, c: seq<word>, m: seq<word>)
    requires j < 48 && s.Valid() && |c| == 16 && |m| == 16
    ensures var o := Operands(j); PermElt(j, s, c, m) == OnWords(s, c, m, o.0, o.1, o.2, o.3, o.4, o.5, o.6, o.7)
  {
    hide EltA, EltB;
  }

  /** The lines of PERM_STEP_0. */
  lemma PermStep0()
    ensures Operands(0) == (0, 11, 0, 13, 9, 6, 8, 0)
    ensures Operands(1) == (1, 0, 1, 14, 10, 7, 7, 1)
    ensures Operands(2) == (2, 1, 2, 15, 11, 8, 6, 2)
    ensures Operands(3) == (3, 2, 3, 0, 12, 9, 5, 3)
    ensures Operands(4) == (4, 3, 4, 1, 13, 10, 4, 4)
    ensures Operands(5) == (5, 4, 5, 2, 14, 11, 3, 5)
    ensures Operands(6) == (6, 5, 6, 3, 15, 12, 2, 6)
    ensures Operands(7) == (7, 6, 7, 4, 0, 13, 1, 7)
    ensures Operands(8) == (8, 7, 8, 5, 1, 14, 0, 8)
    ensures Operands(9) == (9, 8, 9, 6, 2, 15, 15, 9)
    ensures Operands(10) == (10, 9, 10, 7, 3, 0, 14, 10)
    ensures Operands(11) == (11, 10, 11, 8, 4, 1, 13, 11)
    ensures Operands(12) == (0, 11, 12, 9, 5, 2, 12, 12)
    ensures Operands(13) == (1, 0, 13, 10, 6, 3, 11, 13)
    ensures Operands(14) == (2, 1, 14, 11, 7, 4, 10, 14)
    ensures Operands(15) == (3, 2, 15, 12, 8, 5, 9, 15)
  {
  }

  /** The lines of PERM_STEP_1. */
  lemma PermStep1()
    ensures Operands(16) == (4, 3, 0, 13, 9, 6, 8, 0)
    ensures Operands(17) == (5, 4, 1, 14, 10, 7, 7, 1)
    ensures Operands(18) == (6, 5, 2, 15, 11, 8, 6, 2)
    ensures Operands(19) == (7, 6, 3, 0, 12, 9, 5, 3)
    ensures Operands(20) == (8, 7, 4, 1, 13, 10, 4, 4)
    ensures Operands(21) == (9, 8, 5, 2, 14, 11, 3, 5)
    ensures Operands(22) == (10, 9, 6, 3, 15, 12, 2, 6)
    ensures Operands(23) == (11, 10, 7, 4, 0, 13, 1, 7)
    ensures Operands(24) == (0, 11, 8, 5, 1, 14, 0, 8)
    ensures Operands(25) == (1, 0, 9, 6, 2, 15, 15, 9)
    ensures Operands(26) == (2, 1, 10, 7, 3, 0, 14, 10)
    ensures Operands(27) == (3, 2, 11, 8, 4, 1, 13, 11)
    ensures Operands(28) == (4, 3, 12, 9, 5, 2, 12, 12)
    ensures Operands(29) == (5, 4, 13, 10, 6, 3, 11, 13)
    ensures Operands(30) == (6, 5, 14, 11, 7, 4, 10, 14)
    ensures Operands(31) == (7, 6, 15, 12, 8, 5, 9, 15)
  {
  }

  /** The lines of PERM_STEP_2. */
  lemma PermStep2()
    ensures Operands(32) == (8, 7, 0, 13, 9, 6, 8, 0)
    ensures Operands(33) == (9, 8, 1, 14, 10, 7, 7, 1)
    ensures Operands(34) == (10, 9, 2, 15, 11, 8, 6, 2)
    ensures Operands(35) == (11, 10, 3, 0, 12, 9, 5, 3)
    ensures Operands(36) == (0, 11, 4, 1, 13, 10, 4, 4)
    ensures Operands(37) == (1, 0, 5, 2, 14, 11, 3, 5)
    ensures Operands(38) == (2, 1, 6, 3, 15, 12, 2, 6)
    ensures Operands(39) == (3, 2, 7, 4, 0, 13, 1, 7)
    ensures Operands(40) == (4, 3, 8, 5, 1, 14, 0, 8)
    ensures Operands(41) == (5, 4, 9, 6, 2, 15, 15, 9)
    ensures Operands(42) == (6, 5, 10, 7, 3, 0, 14, 10)
    ensures Operands(43) == (7, 6, 11, 8, 4, 1, 13, 11)
    ensures Operands(44) == (8, 7, 12, 9, 5, 2, 12, 12)
    ensures Operands(45) == (9, 8, 13, 10, 6, 3, 11, 13)
    ensures Operands(46) == (10, 9, 14, 11, 7, 4, 10, 14)
    ensures Operands(47) == (11, 10, 15, 12, 8, 5, 9, 15)
  {
  }

  /** The additions after the last step: three words of C to every word of A. */
  lemma AddEltsIs(a: seq<word>, c: seq<word>, i: nat)
    requires |a| == 12 && |c| == 16 && i < 12
    ensures AddElts(36, a, c)[i] == Plus(Plus(Plus(a[i], c[(i + 11) % 16]), c[(i + 15) % 16]), c[(i + 3) % 16])
  {
    hide AddElts, Plus, IsSum, IsDifference;
    Untouched(11 - i, 0, a, c, i);
    Added(11 - i, a, c, i);
    Untouched(23 - i, 12 - i, a, c, i);
    Added(23 - i, a, c, i);
    Untouched(35 - i, 24 - i, a, c, i);
    Added(35 - i, a, c, i);
    Untouched(36, 36 - i, a, c, i);
    NoneAdded(a, c);
  }

  lemma NoneAdded(a: seq<word>, c: seq<word>)
    requires |a| == 12 && |c| == 16
    ensures AddElts(0, a, c) == a
  {
  }

  /** Addition k is to word 11 - k % 12 of A. */
  lemma Added(k: nat, a: seq<word>, c: seq<word>, i: nat)
    requires k < 36 && |a| == 12 && |c| == 16 && i < 12 && (k == 11 - i || k == 23 - i || k == 35 - i)
    ensures AddElts(k + 1, a, c)[i] == Plus(AddElts(k, a, c)[i], c[(i + (if k < 12 then 11 else if k < 24 then 15 else 3)) % 16])
  {
    AddPlace(k, i);
    var p := AddElts(k, a, c);
    assert AddElts(k + 1, a, c) == p[i := Plus(p[i], c[(38 - k) % 16])];
    hide AddElts, Plus, IsSum, IsDifference;
  }

  lemma AddPlace(k: nat, i: nat)
    requires k < 36 && i < 12 && (k == 11 - i || k == 23 - i || k == 35 - i)
    ensures 11 - k % 12 == i && (38 - k) % 16 == (i + (if k < 12 then 11 else if k < 24 then 15 else 3)) % 16
  {
  }

  lemma OtherWord(k: nat, i: nat)
    requires k < 36 && i < 12 && k != 11 - i && k != 23 - i && k != 35 - i
    ensures 11 - k % 12 != i
  {
    assert k == 12 * (k / 12) + k % 12;
  }

  lemma {:induction false} Untouched(k: nat, from: nat, a: seq<word>, c: seq<word>, i: nat)
    requires from <= k <= 36 && |a| == 12 && |c| == 16 && i < 12
    requires !(from <= 11 - i < k) && !(from <= 23 - i < k) && !(from <= 35 - i < k)
    ensures AddElts(k, a, c)[i] == AddElts(from, a, c)[i]
  {
    hide Plus, IsSum, IsDifference;
    if k == from {
    } else {
      Untouched(k - 1, from, a, c, i);
      OtherWord(k - 1, i);
    }
  }

  // ---- the permutation as two shift registers ----

  /** Step j appends one word to each of x and y: the words of A and of B in the order in which they are computed. */
  predicate StepAt(x: seq<word>, y: seq<word>, c: seq<word>, m: seq<word>, j: nat)
    requires |x| == 60 && |y| == 64 && |c| == 16 && |m| == 16 && j < 48
  {
    && x[j + 12] == EltA(x[j], x[j + 11], y[j + 13], y[j + 9], y[j + 6], c[(56 - j) % 16], m[j % 16])
    && y[j + 16] == EltB(y[j], x[j + 12])
  }

  ghost predicate Traces(x: seq<word>, y: seq<word>, c: seq<word>, m: seq<word>) {
    && |x| == 60 && |y| == 64 && |c| == 16 && |m| == 16
    && forall j | 0 <= j < 48 :: StepAt(x, y, c, m, j)
  }

  /** After k steps A holds the last 12 and B the last 16 words computed, each in its own place. */
  ghost predicate InPlace(r: AB, x: seq<word>, y: seq<word>, k: nat)
    requires r.Valid() && |x| == 60 && |y| == 64 && k <= 48
  {
    && (forall t | k <= t < k + 12 :: r.a[t % 12] == x[t])
    && (forall t | k <= t < k + 16 :: r.b[t % 16] == y[t])
  }

  lemma {:induction false} Registers(k: nat, x: seq<word>, y: seq<word>, c: seq<word>, m: seq<word>)
    requires Traces(x, y, c, m) && k <= 48
    ensures InPlace(PermElts(k, AB(x[..12], y[..16]), c, m), x, y, k)
  {
    hide EltA, EltB, PermElt;
    if k == 0 {
    } else {
      Registers(k - 1, x, y, c, m);
      OneStep(k - 1, PermElts(k - 1, AB(x[..12], y[..16]), c, m), x, y, c, m);
    }
  }

  lemma OneStep(k: nat, r: AB, x: seq<word>, y: seq<word>, c: seq<word>, m: seq<word>)
    requires Traces(x, y, c, m) && k < 48 && r.Valid() && InPlace(r, x, y, k)
    ensures InPlace(PermElt(k, r, c, m), x, y, k + 1)
  {
    Written(k, r, x, y, c, m);
    hide PermElt, Traces;
    var s := AB(r.a[k % 12 := x[k + 12]], r.b[k % 16 := y[k + 16]]);
    forall t | k + 1 <= t < k + 13 ensures s.a[t % 12] == x[t] {
      OtherPlaceInA(k, t);
    }
    forall t | k + 1 <= t < k + 17 ensures s.b[t % 16] == y[t] {
      OtherPlaceInB(k, t);
    }
  }

  /** The step reads the words of the trace and writes the next ones. */
  lemma Written(k: nat, r: AB, x: seq<word>, y: seq<word>, c: seq<word>, m: seq<word>)
    requires Traces(x, y, c, m) && k < 48 && r.Valid() && InPlace(r, x, y, k)
    ensures PermElt(k, r, c, m) == AB(r.a[k % 12 := x[k + 12]], r.b[k % 16 := y[k + 16]])
  {
    assert StepAt(x, y, c, m, k);
    assert r.a[k % 12] == x[k] && r.a[(k + 11) % 12] == x[k + 11];
    assert r.b[k % 16] == y[k] && r.b[(k + 13) % 16] == y[k + 13] && r.b[(k + 9) % 16] == y[k + 9] && r.b[(k + 6) % 16] == y[k + 6];
    hide EltA, EltB, Traces, InPlace;
  }

  lemma OtherPlaceInA(k: nat, t: nat)
    requires k < t <= k + 12
    ensures t % 12 == k % 12 <==> t == k + 12
  {
  }

  lemma OtherPlaceInB(k: nat, t: nat)
    requires k < t <= k + 16
    ensures t % 16 == k % 16 <==> t == k + 16
  {
  }

  /** What the permutation leaves is the last words of the two registers. */
  lemma TwoRegisters(x: seq<word>, y: seq<word>, c: seq<word>, m: seq<word>)
    requires Traces(x, y, c, m)
    ensures PermElts(48, AB(x[..12], y[..16]), c, m) == AB(x[48..], y[48..])
  {
    hide PermElts, StepAt;
    Registers(48, x, y, c, m);
    var r := PermElts(48, AB(x[..12], y[..16]), c, m);
    forall i | 0 <= i < 12 ensures r.a[i] == x[48..][i] {
      assert r.a[(48 + i) % 12] == x[48 + i];
    }
    forall i | 0 <= i < 16 ensures r.b[i] == y[48..][i] {
      assert r.b[(48 + i) % 16] == y[48 + i];
    }
  }

  /** A block step from its trace. */
  lemma BlockIs(s: Chain, m: seq<word>, x: seq<word>, y: seq<word>)
    requires s.Valid() && Traces(x, y, s.c, m)
    requires x[..12] == XorW(s.a, s.wlow, s.whigh) && y[..16] == RotB(AddVec(s.b, m))
    ensures Block(s, m) == Tick(Chain(AddElts(36, x[48..], s.c), SubVec(s.c, m), y[48..], s.wlow, s.whigh))
  {
    hide PermElts, AddElts, RotB, AddVec, XorW, SubVec, Tick, Traces;
    TwoRegisters(x, y, s.c, m);
  }

  // ---- around the permutation ----

  /** XOR_W: the low word of the counter into A[0], the high one into A[1]. */
  lemma XorWIs(a: seq<word>, lo: word, hi: word)
    requires |a| == 12
    ensures XorW(a, lo, hi) == [Xor(a[0], lo), Xor(a[1], hi)] + a[2..]
  {
    hide Xor;
  }

  /** INCR_W: the low word counts, and the high word counts when the low one was full. */
  lemma TickIs(s: Chain)
    ensures s.wlow == 0xFFFF_FFFF ==> Tick(s).wlow == 0 && Tick(s).whigh == s.whigh + 1
    ensures s.wlow != 0xFFFF_FFFF ==> Tick(s).wlow == s.wlow + 1 && Tick(s).whigh == s.whigh
    ensures Tick(s).a == s.a && Tick(s).b == s.b && Tick(s).c == s.c
  {
    CountsUp(s.wlow);
  }

  lemma CountsUp(w: word)
    ensures w + 1 == 0 <==> w == 0xFFFF_FFFF
  {
  }

  /** The digest is B[8] to B[15], each word with its lowest byte first. */
  lemma OutputIs(s: Chain, i: nat)
    requires s.Valid() && i < 8
    ensures Output(s)[4 * i..4 * i + 4] == Enc32(s.b[8 + i])
  {
    hide Encode, Enc32;
    EncodeAt(s.b[8..], i);
  }

  lemma {:induction false} EncodeAt(w: seq<word>, i: nat)
    requires i < |w|
    ensures Encode(w)[4 * i..4 * i + 4] == Enc32(w[i])
  {
    hide Enc32;
    if i == 0 {
    } else {
      EncodeAt(w[1..], i - 1);
      var first, rest := Enc32(w[0]), Encode(w[1..]);
      assert Encode(w) == first + rest;
      hide Encode;
      Behind(first, rest, 4 * (i - 1));
    }
  }

  lemma Behind(first: seq<byte>, rest: seq<byte>, j: nat)
    requires |first| == 4 && j + 4 <= |rest|
    ensures (first + rest)[j + 4..j + 8] == rest[j..j + 4]
  {
    assert (first + rest)[4..] == rest;
    assert (first + rest)[j + 4..j + 8] == (first + rest)[4..][j..j + 4];
  }

  /** The padding byte: the first n bits of ub, a one, and zeros. */
  lemma PadByteIs(ub: byte, n: nat)
    requires n < 8
    ensures PadByte(ub, n) == (if n == 0 then 0x80 else if n == 1 then (ub & 0x80) + 0x40 else if n == 2 then (ub & 0xC0) + 0x20
                               else if n == 3 then (ub & 0xE0) + 0x10 else if n == 4 then (ub & 0xF0) + 0x08
                               else if n == 5 then (ub & 0xF8) + 0x04 else if n == 6 then (ub & 0xFC) + 0x02 else (ub & 0xFE) + 0x01)
  {
  }
}
