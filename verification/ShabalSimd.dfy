/**
 * Shabal on vectors of lanes: the SIMD open/close routines, one independent hash in each 32-bit lane.
 * The number of lanes is a parameter: 4 for SSE2 and AVX, 8 for AVX2, 16 for AVX-512.
 */
module ShabalSimd {
  import opened Words
  import opened Shabal

  type Vec = seq<word>

  // ---- the instructions, lane by lane (addition and subtraction are AddVec and SubVec) ----

  function Sll1(x: word): word { x << 1 }

  function Sll2(x: word): word { x << 2 }

  function Sll15(x: word): word { x << 15 }

  function Sll17(x: word): word { x << 17 }

  function Srl15(x: word): word { x >> 15 }

  function Srl17(x: word): word { x >> 17 }

  function Srl31(x: word): word { x >> 31 }

  /** A one-operand instruction applied to every lane. */
  function VMap(f: word -> word, x: Vec): (r: Vec)
    ensures |r| == |x|
    ensures forall l | 0 <= l < |x| :: r[l] == f(x[l])
  {
    seq(|x|, l requires 0 <= l < |x| => f(x[l]))
  }

  function VOr(x: Vec, y: Vec): (r: Vec)
    requires |x| == |y|
    ensures |r| == |x|
  {
    seq(|x|, l requires 0 <= l < |x| => Or(x[l], y[l]))
  }

  function VXor(x: Vec, y: Vec): (r: Vec)
    requires |x| == |y|
    ensures |r| == |x|
  {
    seq(|x|, l requires 0 <= l < |x| => Xor(x[l], y[l]))
  }

  function VAndNot(x: Vec, y: Vec): (r: Vec)
    requires |x| == |y|
    ensures |r| == |x|
  {
    seq(|x|, l requires 0 <= l < |x| => AndNot(x[l], y[l]))
  }

  /** The same word in every lane. */
  function VSet1(lanes: nat, w: word): (r: Vec)
    ensures |r| == lanes
  {
    seq(lanes, _ => w)
  }

  /** The A half of the PP macro, instruction by instruction. */
  function PPA(xa0: Vec, xa1: Vec, xb1: Vec, xb2: Vec, xb3: Vec, xc: Vec, xm: Vec): (r: Vec)
    requires |xa0| == |xa1| == |xb1| == |xb2| == |xb3| == |xc| == |xm|
    ensures |r| == |xa0|
  {
    var t := VOr(VMap(Sll15, xa1), VMap(Srl17, xa1));
    var t := AddVec(VMap(Sll2, t), t);
    var t := VXor(VXor(xa0, t), xc);
    var t := AddVec(VMap(Sll1, t), t);
    VXor(VXor(t, xb1), VXor(VAndNot(xb3, xb2), xm))
  }

  /** The B half of the PP macro. */
  function PPB(xb0: Vec, xa0: Vec): (r: Vec)
    requires |xb0| == |xa0|
    ensures |r| == |xb0|
  {
    VXor(VOr(VMap(Sll1, xb0), VMap(Srl31, xb0)), VXor(xa0, VSet1(|xb0|, 0xFFFFFFFF)))
  }

  // ---- one lane of each half of PP is PERM_ELT ----

  lemma Rot1Lane(x: word)
    ensures Or(Sll1(x), Srl31(x)) == Rot1(x)
  {
  }

  lemma Rot15Lane(x: word)
    ensures Or(Sll15(x), Srl17(x)) == Rot15(x)
  {
  }

  lemma Rot17Lane(x: word)
    ensures Or(Sll17(x), Srl15(x)) == Rot17(x)
  {
  }

  predicate IsQuintuple(r: word, x: word) {
    r == x * 5
  }

  lemma ShiftAdd3(x: word)
    ensures Plus(Sll1(x), x) == Times3(x)
  {
    hide IsThird, IsTriple;
    TripleByShift(x);
    TripleUnique(Plus(Sll1(x), x), Times3(x), x);
  }

  lemma ShiftAdd5(x: word)
    ensures Plus(Sll2(x), x) == Times5(x)
  {
    hide IsSum, IsDifference;
    assert IsQuintuple((x << 2) + x, x);
  }

  lemma XorAssociative(x: word, y: word, z: word)
    ensures Xor(Xor(x, y), z) == Xor(x, Xor(y, z))
  {
  }

  lemma XorOnes(x: word, y: word)
    ensures Xor(x, Xor(y, 0xFFFFFFFF)) == Not(Xor(x, y))
  {
  }

  lemma PPLane(l: nat, xa0: Vec, xa1: Vec, xb0: Vec, xb1: Vec, xb2: Vec, xb3: Vec, xc: Vec, xm: Vec)
    requires |xa0| == |xa1| == |xb0| == |xb1| == |xb2| == |xb3| == |xc| == |xm| && l < |xa0|
    ensures PPA(xa0, xa1, xb1, xb2, xb3, xc, xm)[l] == EltA(xa0[l], xa1[l], xb1[l], xb2[l], xb3[l], xc[l], xm[l])
    ensures PPB(xb0, xa0)[l] == EltB(xb0[l], xa0[l])
  {
    hide Xor, Or, Not, AndNot, Plus, Rot1, Rot15, Times3, Times5, IsTriple, IsThird, IsSum, IsDifference;
    hide Sll1, Sll2, Sll15, Srl17, Srl31;
    Rot15Lane(xa1[l]);
    ShiftAdd5(Rot15(xa1[l]));
    var t := Xor(Xor(xa0[l], Times5(Rot15(xa1[l]))), xc[l]);
    ShiftAdd3(t);
    XorAssociative(Xor(Times3(t), xb1[l]), AndNot(xb3[l], xb2[l]), xm[l]);
    Rot1Lane(xb0[l]);
    XorOnes(Rot1(xb0[l]), xa0[l]);
  }

  // ---- registers of vectors ----

  /** The working registers: A, B and C as vectors, and the counter, which all lanes share. */
  datatype Regs = Regs(a: seq<Vec>, b: seq<Vec>, c: seq<Vec>, wlow: word, whigh: word)

  ghost predicate Wide(v: seq<Vec>, lanes: nat) {
    forall i | 0 <= i < |v| :: |v[i]| == lanes
  }

  ghost predicate ValidRegs(s: Regs, lanes: nat) {
    && |s.a| == 12 && |s.b| == 16 && |s.c| == 16
    && Wide(s.a, lanes) && Wide(s.b, lanes) && Wide(s.c, lanes)
  }

  /** Lane l of each vector. */
  ghost function Pick(v: seq<Vec>, lanes: nat, l: nat): (r: seq<word>)
    requires Wide(v, lanes) && l < lanes
    ensures |r| == |v|
  {
    seq(|v|, i requires 0 <= i < |v| => v[i][l])
  }

  /** What lane l sees: a scalar chaining state. */
  ghost function Lane(s: Regs, lanes: nat, l: nat): (r: Chain)
    requires ValidRegs(s, lanes) && l < lanes
    ensures r.Valid()
  {
    Chain(Pick(s.a, lanes, l), Pick(s.b, lanes, l), Pick(s.c, lanes, l), s.wlow, s.whigh)
  }

  lemma PickUpdate(v: seq<Vec>, lanes: nat, l: nat, i: nat, x: Vec)
    requires Wide(v, lanes) && l < lanes && i < |v| && |x| == lanes
    ensures Wide(v[i := x], lanes)
    ensures Pick(v[i := x], lanes, l) == Pick(v, lanes, l)[i := x[l]]
  {
  }

  lemma PickAt(v: seq<Vec>, lanes: nat, l: nat, i: nat)
    requires Wide(v, lanes) && l < lanes && i < |v|
    ensures Pick(v, lanes, l)[i] == v[i][l]
  {
  }

  /** One PP, applied to the register file; j is its place in the list of 48. */
  function PPStep(j: nat, lanes: nat, a: seq<Vec>, b: seq<Vec>, c: seq<Vec>, m: seq<Vec>): (r: (seq<Vec>, seq<Vec>))
    requires j < 48 && |a| == 12 && |b| == |c| == |m| == 16
    requires Wide(a, lanes) && Wide(b, lanes) && Wide(c, lanes) && Wide(m, lanes)
    ensures |r.0| == 12 && |r.1| == 16 && Wide(r.0, lanes) && Wide(r.1, lanes)
  {
    var xa := PPA(a[j % 12], a[(j + 11) % 12], b[(j + 13) % 16], b[(j + 9) % 16], b[(j + 6) % 16],
                  c[(56 - j) % 16], m[j % 16]);
    (a[j % 12 := xa], b[j % 16 := PPB(b[j % 16], xa)])
  }

  lemma PPStepLane(j: nat, lanes: nat, l: nat, a: seq<Vec>, b: seq<Vec>, c: seq<Vec>, m: seq<Vec>)
    requires j < 48 && l < lanes && |a| == 12 && |b| == |c| == |m| == 16
    requires Wide(a, lanes) && Wide(b, lanes) && Wide(c, lanes) && Wide(m, lanes)
    ensures var r := PPStep(j, lanes, a, b, c, m);
            AB(Pick(r.0, lanes, l), Pick(r.1, lanes, l)) ==
            PermElt(j, AB(Pick(a, lanes, l), Pick(b, lanes, l)), Pick(c, lanes, l), Pick(m, lanes, l))
  {
    hide PPA, PPB, EltA, EltB;
    var xa0, xa1, xb0 := a[j % 12], a[(j + 11) % 12], b[j % 16];
    var xb1, xb2, xb3 := b[(j + 13) % 16], b[(j + 9) % 16], b[(j + 6) % 16];
    var xc, xm := c[(56 - j) % 16], m[j % 16];
    PPLane(l, xa0, xa1, xb0, xb1, xb2, xb3, xc, xm);
    var xa := PPA(xa0, xa1, xb1, xb2, xb3, xc, xm);
    PPLane(l, xa, xa1, xb0, xb1, xb2, xb3, xc, xm);
    PickUpdate(a, lanes, l, j % 12, xa);
    PickUpdate(b, lanes, l, j % 16, PPB(xb0, xa));
  }

  /** Add the block, XOR the counter, rotate B, the 48 PPs: the first part of a round. */
  method Permute(lanes: nat, s: Regs, m: seq<Vec>) returns (t: Regs)
    requires ValidRegs(s, lanes) && |m| == 16 && Wide(m, lanes)
    ensures ValidRegs(t, lanes) && t.c == s.c && t.wlow == s.wlow && t.whigh == s.whigh
    ensures forall l | 0 <= l < lanes ::
              var x := Lane(s, lanes, l); var w := Pick(m, lanes, l);
              AB(Pick(t.a, lanes, l), Pick(t.b, lanes, l)) ==
              PermElts(48, AB(XorW(x.a, x.wlow, x.whigh), RotB(AddVec(x.b, w))), x.c, w)
  {
    hide Or, Xor, Plus, Sll17, Srl15, Rot17, PPStep, PermElt, IsSum, IsDifference;
    var a, b := s.a, s.b;
    for j := 0 to 16
      invariant |b| == 16 && Wide(b, lanes)
      invariant forall i | 0 <= i < 16 :: b[i] == if i < j then AddVec(s.b[i], m[i]) else s.b[i]
    {
      b := b[j := AddVec(b[j], m[j])];
    }
    a := a[0 := VXor(a[0], VSet1(lanes, s.wlow))];
    a := a[1 := VXor(a[1], VSet1(lanes, s.whigh))];
    ghost var b1 := b;
    for j := 0 to 16
      invariant |b| == 16 && Wide(b, lanes)
      invariant forall i | 0 <= i < 16 :: b[i] == if i < j then VOr(VMap(Sll17, b1[i]), VMap(Srl15, b1[i])) else b1[i]
    {
      b := b[j := VOr(VMap(Sll17, b[j]), VMap(Srl15, b[j]))];
    }
    ghost var a2, b2 := a, b;
    forall l | 0 <= l < lanes
      ensures Pick(a2, lanes, l) == XorW(Pick(s.a, lanes, l), s.wlow, s.whigh)
      ensures Pick(b2, lanes, l) == RotB(AddVec(Pick(s.b, lanes, l), Pick(m, lanes, l)))
    {
      forall i | 0 <= i < 16
        ensures b2[i][l] == RotB(AddVec(Pick(s.b, lanes, l), Pick(m, lanes, l)))[i]
      {
        Rot17Lane(b1[i][l]);
      }
    }
    for j := 0 to 48
      invariant |a| == 12 && |b| == 16 && Wide(a, lanes) && Wide(b, lanes)
      invariant forall l | 0 <= l < lanes ::
                  AB(Pick(a, lanes, l), Pick(b, lanes, l)) ==
                  PermElts(j, AB(Pick(a2, lanes, l), Pick(b2, lanes, l)), Pick(s.c, lanes, l), Pick(m, lanes, l))
    {
      forall l | 0 <= l < lanes
        ensures var r := PPStep(j, lanes, a, b, s.c, m);
                AB(Pick(r.0, lanes, l), Pick(r.1, lanes, l)) ==
                PermElts(j + 1, AB(Pick(a2, lanes, l), Pick(b2, lanes, l)), Pick(s.c, lanes, l), Pick(m, lanes, l))
      {
        PPStepLane(j, lanes, l, a, b, s.c, m);
      }
      var r := PPStep(j, lanes, a, b, s.c, m);
      a, b := r.0, r.1;
    }
    t := s.(a := a, b := b);
  }

  /** The 36 additions of C vectors into A. */
  method AddC(lanes: nat, a0: seq<Vec>, c: seq<Vec>) returns (a: seq<Vec>)
    requires |a0| == 12 && |c| == 16 && Wide(a0, lanes) && Wide(c, lanes)
    ensures |a| == 12 && Wide(a, lanes)
    ensures forall l | 0 <= l < lanes :: Pick(a, lanes, l) == AddElts(36, Pick(a0, lanes, l), Pick(c, lanes, l))
  {
    hide Plus, IsSum, IsDifference, Pick;
    a := a0;
    for k := 0 to 36
      invariant |a| == 12 && Wide(a, lanes)
      invariant forall l | 0 <= l < lanes :: Pick(a, lanes, l) == AddElts(k, Pick(a0, lanes, l), Pick(c, lanes, l))
    {
      var i, x := 11 - k % 12, c[(38 - k) % 16];
      forall l | 0 <= l < lanes
        ensures Pick(a[i := AddVec(a[i], x)], lanes, l) == AddElts(k + 1, Pick(a0, lanes, l), Pick(c, lanes, l))
      {
        PickUpdate(a, lanes, l, i, AddVec(a[i], x));
        PickAt(a, lanes, l, i);
        PickAt(c, lanes, l, (38 - k) % 16);
      }
      a := a[i := AddVec(a[i], x)];
    }
  }

  /** The sixteen SWAP_AND_SUBs. */
  method SwapAndSub(lanes: nat, s: Regs, m: seq<Vec>) returns (t: Regs)
    requires ValidRegs(s, lanes) && |m| == 16 && Wide(m, lanes)
    ensures ValidRegs(t, lanes)
    ensures forall l | 0 <= l < lanes :: Lane(t, lanes, l) == Turn(Lane(s, lanes, l), Pick(m, lanes, l))
  {
    hide Minus, IsSum, IsDifference;
    var b, c := s.b, s.c;
    for j := 0 to 16
      invariant |b| == |c| == 16 && Wide(b, lanes) && Wide(c, lanes)
      invariant forall i | 0 <= i < 16 :: b[i] == if i < j then SubVec(s.c[i], m[i]) else s.b[i]
      invariant forall i | 0 <= i < 16 :: c[i] == if i < j then s.b[i] else s.c[i]
    {
      var tmp := b[j];
      b := b[j := SubVec(c[j], m[j])];
      c := c[j := tmp];
    }
    t := s.(b := b, c := c);
    forall l | 0 <= l < lanes ensures Lane(t, lanes, l) == Turn(Lane(s, lanes, l), Pick(m, lanes, l)) {
      assert Pick(b, lanes, l) == SubVec(Pick(s.c, lanes, l), Pick(m, lanes, l));
      assert Pick(c, lanes, l) == Pick(s.b, lanes, l);
    }
  }

  /** One round on the block m up to and including the swap: in every lane, Mix then Turn. */
  method Round(lanes: nat, s: Regs, m: seq<Vec>) returns (t: Regs)
    requires ValidRegs(s, lanes) && |m| == 16 && Wide(m, lanes)
    ensures ValidRegs(t, lanes)
    ensures forall l | 0 <= l < lanes ::
              var w := Pick(m, lanes, l); Lane(t, lanes, l) == Turn(Mix(Lane(s, lanes, l), w), w)
  {
    hide PermElts, AddElts, XorW, RotB, AddVec, SubVec;
    var p := Permute(lanes, s, m);
    var a := AddC(lanes, p.a, p.c);
    var q := p.(a := a);
    forall l | 0 <= l < lanes ensures Lane(q, lanes, l) == Mix(Lane(s, lanes, l), Pick(m, lanes, l)) {
      var x, w := Lane(s, lanes, l), Pick(m, lanes, l);
      assert AB(Pick(p.a, lanes, l), Pick(p.b, lanes, l)) ==
        PermElts(48, AB(XorW(x.a, x.wlow, x.whigh), RotB(AddVec(x.b, w))), x.c, w);
    }
    t := SwapAndSub(lanes, q, m);
  }

  /** `if (++Wlow == 0) Whigh++;` */
  function Up(s: Regs): Regs {
    var lo := Plus(s.wlow, 1);
    s.(wlow := lo, whigh := if lo == 0 then Plus(s.whigh, 1) else s.whigh)
  }

  /** `if (Wlow-- == 0) Whigh--;` */
  function Down(s: Regs): Regs {
    s.(wlow := Minus(s.wlow, 1), whigh := if s.wlow == 0 then Minus(s.whigh, 1) else s.whigh)
  }

  /** Stepping the counter up and then down restores it, also when the low word carries. */
  lemma UpDown(s: Regs)
    ensures Down(Up(s)) == s
  {
    hide Plus, Minus, IsSum, IsDifference;
    PlusMinus(s.wlow, 1);
    PlusMinus(s.whigh, 1);
  }

  /** The state after the first block and k of the four rounds on the last one, in one lane. */
  ghost function AfterRounds(k: nat, s: Chain, m: seq<word>): (r: Chain)
    requires s.Valid() && |m| == 16
    ensures r.Valid()
  {
    if k == 0 then s else Turn(Rounds(k - 1, Mix(s, m), m), m)
  }

  lemma AfterRoundsNext(k: nat, s: Chain, m: seq<word>)
    requires s.Valid() && |m| == 16
    ensures AfterRounds(k + 1, s, m) == Turn(Mix(AfterRounds(k, s, m), m), m)
  {
    hide Mix, Turn;
  }

  /** The five rounds in registers, with the counter stepped up and down in each of the last four. */
  method FiveRounds(lanes: nat, s0: Regs, m1: seq<Vec>, m2: seq<Vec>) returns (s: Regs)
    requires ValidRegs(s0, lanes) && |m1| == |m2| == 16 && Wide(m1, lanes) && Wide(m2, lanes)
    ensures ValidRegs(s, lanes)
    ensures forall l | 0 <= l < lanes ::
              Pick(s.c, lanes, l) ==
              Final(Block(Lane(s0, lanes, l), Pick(m1, lanes, l)), Pick(m2, lanes, l)).b
  {
    hide Mix, Plus, Minus, IsSum, IsDifference;
    s := Round(lanes, s0, m1);
    s := Up(s);
    ghost var first := s;
    forall l | 0 <= l < lanes ensures Lane(first, lanes, l) == Block(Lane(s0, lanes, l), Pick(m1, lanes, l)) {
    }
    for k := 0 to 4
      invariant ValidRegs(s, lanes)
      invariant forall l | 0 <= l < lanes ::
                  Lane(s, lanes, l) == AfterRounds(k, Lane(first, lanes, l), Pick(m2, lanes, l))
    {
      forall l | 0 <= l < lanes {
        AfterRoundsNext(k, Lane(first, lanes, l), Pick(m2, lanes, l));
      }
      s := Round(lanes, s, m2);
      UpDown(s);
      s := Down(Up(s));
    }
    forall l | 0 <= l < lanes
      ensures Pick(s.c, lanes, l) == Final(Block(Lane(s0, lanes, l), Pick(m1, lanes, l)), Pick(m2, lanes, l)).b
    {
      assert Lane(s, lanes, l).c == Pick(s.c, lanes, l);
    }
  }
}
