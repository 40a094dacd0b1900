/** The Shabal permutation, and with it the whole block step, can be undone once the message block is known. */
module ShabalInverse {
  import opened Words
  import opened Shabal

  function UnRot1(x: word): word {
    (x >> 1) | (x << 31)
  }

  function UnRot17(x: word): word {
    (x >> 17) | (x << 15)
  }

  /** The B word before an EltB. */
  function UnEltB(b0: word, a0: word): word {
    UnRot1(Xor(Not(b0), a0))
  }

  /** The A word before an EltA. */
  function UnEltA(a0: word, a1: word, b1: word, b2: word, b3: word, c: word, m: word): word {
    Xor(Xor(Third(Xor(Xor(Xor(a0, m), AndNot(b3, b2)), b1)), c), Times5(Rot15(a1)))
  }

  lemma Rot1Inverse(x: word)
    ensures UnRot1(Rot1(x)) == x
  {
  }

  lemma UnRot1Inverse(x: word)
    ensures Rot1(UnRot1(x)) == x
  {
  }

  lemma NotTwice(x: word)
    ensures Not(Not(x)) == x
  {
  }

  lemma EltBInverse(b0: word, a0: word)
    ensures UnEltB(EltB(b0, a0), a0) == b0
    ensures EltB(UnEltB(b0, a0), a0) == b0
  {
    hide Rot1, UnRot1, Not, Xor;
    NotTwice(Xor(Rot1(b0), a0));
    XorTwice(Rot1(b0), a0);
    Rot1Inverse(b0);
    UnRot1Inverse(Xor(Not(b0), a0));
    XorTwice(Not(b0), a0);
    NotTwice(b0);
  }

  lemma EltAInverse(a0: word, a1: word, b1: word, b2: word, b3: word, c: word, m: word)
    ensures UnEltA(EltA(a0, a1, b1, b2, b3, c, m), a1, b1, b2, b3, c, m) == a0
    ensures EltA(UnEltA(a0, a1, b1, b2, b3, c, m), a1, b1, b2, b3, c, m) == a0
  {
    hide Xor, AndNot, Times3, Third, Times5, Rot15, IsThird, IsTriple;
    var r, k := Times5(Rot15(a1)), AndNot(b3, b2);
    XorTwice(a0, r);
    XorTwice(Xor(a0, r), c);
    var t := Times3(Xor(Xor(a0, r), c));
    TripleThird(Xor(Xor(a0, r), c));
    XorTwice(t, b1);
    XorTwice(Xor(t, b1), k);
    XorTwice(Xor(Xor(t, b1), k), m);

    XorTwice(a0, m);
    XorTwice(Xor(a0, m), k);
    XorTwice(Xor(Xor(a0, m), k), b1);
    var u := Third(Xor(Xor(Xor(a0, m), k), b1));
    TripleThird(Xor(Xor(Xor(a0, m), k), b1));
    XorTwice(u, c);
    XorTwice(Xor(u, c), r);
  }

  /** PERM_ELT number j, backwards: the B word is restored with the new A word, then the A word. */
  function UnPermElt(j: nat, s: AB, c: seq<word>, m: seq<word>): (r: AB)
    requires j < 48 && s.Valid() && |c| == 16 && |m| == 16
    ensures r.Valid()
  {
    var a0 := UnEltA(s.a[j % 12], s.a[(j + 11) % 12], s.b[(j + 13) % 16], s.b[(j + 9) % 16], s.b[(j + 6) % 16],
                     c[(56 - j) % 16], m[j % 16]);
    AB(s.a[j % 12 := a0], s.b[j % 16 := UnEltB(s.b[j % 16], s.a[j % 12])])
  }

  /** PERM_ELTs k-1 down to 0 undone. */
  function UnPermElts(k: nat, s: AB, c: seq<word>, m: seq<word>): (r: AB)
    requires k <= 48 && s.Valid() && |c| == 16 && |m| == 16
    ensures r.Valid()
  {
    if k == 0 then s else UnPermElts(k - 1, UnPermElt(k - 1, s, c, m), c, m)
  }

  function UnAddElts(k: nat, a: seq<word>, c: seq<word>): (r: seq<word>)
    requires k <= 36 && |a| == 12 && |c| == 16
    ensures |r| == 12
  {
    if k == 0 then a
    else
      var i := 11 - (k - 1) % 12;
      UnAddElts(k - 1, a[i := Minus(a[i], c[(38 - (k - 1)) % 16])], c)
  }

  function UnRotB(b: seq<word>): (r: seq<word>)
    ensures |r| == |b|
  {
    seq(|b|, i requires 0 <= i < |b| => UnRot17(b[i]))
  }

  /** APPLY_P backwards. */
  function UnApplyP(s: AB, c: seq<word>, m: seq<word>): (r: AB)
    requires s.Valid() && |c| == 16 && |m| == 16
    ensures r.Valid()
  {
    var t := UnPermElts(48, AB(UnAddElts(36, s.a, c), s.b), c, m);
    AB(t.a, UnRotB(t.b))
  }

  lemma PermEltInverse(j: nat, s: AB, c: seq<word>, m: seq<word>)
    requires j < 48 && s.Valid() && |c| == 16 && |m| == 16
    ensures UnPermElt(j, PermElt(j, s, c, m), c, m) == s
    ensures PermElt(j, UnPermElt(j, s, c, m), c, m) == s
  {
    hide EltA, EltB, UnEltA, UnEltB;
    var ia, ib := j % 12, j % 16;
    var a1, b1, b2, b3 := s.a[(j + 11) % 12], s.b[(j + 13) % 16], s.b[(j + 9) % 16], s.b[(j + 6) % 16];
    var cw, mw := c[(56 - j) % 16], m[j % 16];
    assert (j + 11) % 12 != ia && (j + 13) % 16 != ib && (j + 9) % 16 != ib && (j + 6) % 16 != ib;
    EltAInverse(s.a[ia], a1, b1, b2, b3, cw, mw);
    var a0, u0 := EltA(s.a[ia], a1, b1, b2, b3, cw, mw), UnEltA(s.a[ia], a1, b1, b2, b3, cw, mw);
    EltBInverse(s.b[ib], a0);
    EltBInverse(s.b[ib], s.a[ia]);
    Restored(s.a, ia, a0);
    Restored(s.a, ia, u0);
    Restored(s.b, ib, EltB(s.b[ib], a0));
    Restored(s.b, ib, UnEltB(s.b[ib], s.a[ia]));
  }

  lemma Restored(x: seq<word>, i: nat, w: word)
    requires i < |x|
    ensures x[i := w][i := x[i]] == x
  {
  }

  lemma {:induction false} PermEltsInverse(k: nat, s: AB, c: seq<word>, m: seq<word>)
    requires k <= 48 && s.Valid() && |c| == 16 && |m| == 16
    ensures UnPermElts(k, PermElts(k, s, c, m), c, m) == s
    ensures PermElts(k, UnPermElts(k, s, c, m), c, m) == s
  {
    if k == 0 {
    } else {
      PermEltInverse(k - 1, PermElts(k - 1, s, c, m), c, m);
      PermEltsInverse(k - 1, s, c, m);
      PermEltInverse(k - 1, s, c, m);
      PermEltsInverse(k - 1, UnPermElt(k - 1, s, c, m), c, m);
    }
  }

  lemma {:induction false} AddEltsInverse(k: nat, a: seq<word>, c: seq<word>)
    requires k <= 36 && |a| == 12 && |c| == 16
    ensures UnAddElts(k, AddElts(k, a, c), c) == a
    ensures AddElts(k, UnAddElts(k, a, c), c) == a
  {
    hide Plus, Minus, IsSum, IsDifference;
    if k == 0 {
    } else {
      var i, w := 11 - (k - 1) % 12, c[(38 - (k - 1)) % 16];
      var p := AddElts(k - 1, a, c);
      PutBack(p, i, w);
      AddEltsInverse(k - 1, a, c);
      AddEltsInverse(k - 1, a[i := Minus(a[i], w)], c);
      PutBack(a, i, w);
    }
  }

  /** Adding a word and subtracting it, and the other way round. */
  lemma PutBack(a: seq<word>, i: nat, w: word)
    requires i < |a|
    ensures a[i := Plus(a[i], w)][i := Minus(Plus(a[i], w), w)] == a
    ensures a[i := Minus(a[i], w)][i := Plus(Minus(a[i], w), w)] == a
  {
    hide Plus, Minus, IsSum, IsDifference;
    PlusMinus(a[i], w);
  }

  lemma RotBInverse(b: seq<word>)
    ensures UnRotB(RotB(b)) == b && RotB(UnRotB(b)) == b
  {
  }

  /** APPLY_P is a bijection on (A, B) for every block M and every C, with UnApplyP as its inverse. */
  lemma ApplyPBijective(s: AB, c: seq<word>, m: seq<word>)
    requires s.Valid() && |c| == 16 && |m| == 16
    ensures UnApplyP(ApplyP(s, c, m), c, m) == s
    ensures ApplyP(UnApplyP(s, c, m), c, m) == s
  {
    var r := AB(s.a, RotB(s.b));
    var t := PermElts(48, r, c, m);
    AddEltsInverse(36, t.a, c);
    assert AB(UnAddElts(36, AddElts(36, t.a, c), c), t.b) == t;
    PermEltsInverse(48, r, c, m);
    RotBInverse(s.b);
    var u := AB(UnAddElts(36, s.a, c), s.b);
    var v := UnPermElts(48, u, c, m);
    RotBInverse(v.b);
    assert AB(v.a, RotB(UnRotB(v.b))) == v;
    PermEltsInverse(48, u, c, m);
    AddEltsInverse(36, s.a, c);
  }

  lemma AddSubVec(x: seq<word>, m: seq<word>)
    requires |x| == |m|
    ensures SubVec(AddVec(x, m), m) == x && AddVec(SubVec(x, m), m) == x
  {
    hide Plus, Minus, IsSum, IsDifference;
    forall i | 0 <= i < |x| ensures Minus(Plus(x[i], m[i]), m[i]) == x[i] && Plus(Minus(x[i], m[i]), m[i]) == x[i] {
      PlusMinus(x[i], m[i]);
    }
  }

  lemma XorWTwice(a: seq<word>, lo: word, hi: word)
    requires |a| == 12
    ensures XorW(XorW(a, lo, hi), lo, hi) == a
  {
    hide Xor;
    XorTwice(a[0], lo);
    XorTwice(a[1], hi);
  }

  /** The counter before a Tick. */
  function UnTick(s: Chain): (r: Chain)
    ensures s.Valid() ==> r.Valid()
  {
    s.(wlow := Minus(s.wlow, 1), whigh := if s.wlow == 0 then Minus(s.whigh, 1) else s.whigh)
  }

  lemma TickInverse(s: Chain)
    ensures UnTick(Tick(s)) == s && Tick(UnTick(s)) == s
  {
    hide Plus, Minus, IsSum, IsDifference;
    PlusMinus(s.wlow, 1);
    PlusMinus(s.whigh, 1);
  }

  /** B and C swapped back, and the block added to C again. */
  function UnTurn(s: Chain, m: seq<word>): (r: Chain)
    requires s.Valid() && |m| == 16
    ensures r.Valid()
  {
    s.(b := s.c, c := AddVec(s.b, m))
  }

  function UnMix(s: Chain, m: seq<word>): (r: Chain)
    requires s.Valid() && |m| == 16
    ensures r.Valid()
  {
    var t := UnApplyP(AB(s.a, s.b), s.c, m);
    s.(a := XorW(t.a, s.wlow, s.whigh), b := SubVec(t.b, m))
  }

  lemma MixInverse(s: Chain, m: seq<word>)
    requires s.Valid() && |m| == 16
    ensures UnMix(Mix(s, m), m) == s && Mix(UnMix(s, m), m) == s
  {
    hide Xor, ApplyP, UnApplyP, AddVec, SubVec;
    var x := XorW(s.a, s.wlow, s.whigh);
    ApplyPBijective(AB(x, AddVec(s.b, m)), s.c, m);
    XorWTwice(s.a, s.wlow, s.whigh);
    AddSubVec(s.b, m);
    var t := UnApplyP(AB(s.a, s.b), s.c, m);
    ApplyPBijective(AB(s.a, s.b), s.c, m);
    XorWTwice(t.a, s.wlow, s.whigh);
    AddSubVec(t.b, m);
    assert AB(t.a, t.b) == t;
  }

  /** The block step backwards: the counter, the swap, the permutation. */
  function UnBlock(s: Chain, m: seq<word>): (r: Chain)
    requires s.Valid() && |m| == 16
    ensures r.Valid()
  {
    UnMix(UnTurn(UnTick(s), m), m)
  }

  /** Given the message block, the block step is reversible in both directions, counter carry included. */
  lemma BlockReversible(s: Chain, m: seq<word>)
    requires s.Valid() && |m| == 16
    ensures UnBlock(Block(s, m), m) == s
    ensures Block(UnBlock(s, m), m) == s
  {
    hide Mix, UnMix, AddVec, SubVec, Tick, UnTick;
    var t := Mix(s, m);
    TickInverse(Turn(t, m));
    AddSubVec(t.c, m);
    MixInverse(s, m);
    TickInverse(s);
    var u := UnTurn(UnTick(s), m);
    MixInverse(u, m);
    AddSubVec(UnTick(s).b, m);
  }
}
