/** The SIMD context and the interleaved input and output buffers: word i of lane l is at lanes * i + l. */
module ShabalMemory {
  import opened Arith
  import opened Words
  import opened Shabal
  import opened ShabalSimd

  lemma MulMonotone(lanes: nat, i: nat, n: nat)
    requires i < n
    ensures lanes * i + lanes <= lanes * n
  {
    MulGap(lanes, i, n);
  }

  /** Vector i of an interleaved buffer (a SIMD load). */
  function VecAt(p: seq<word>, lanes: nat, i: nat): (v: Vec)
    requires lanes * i + lanes <= |p|
    ensures |v| == lanes
  {
    p[lanes * i..lanes * i + lanes]
  }

  /** All n vectors of an interleaved buffer. */
  function Vectors(p: seq<word>, lanes: nat, n: nat): (v: seq<Vec>)
    requires |p| == lanes * n
    ensures |v| == n
    ensures forall i | 0 <= i < n :: |v[i]| == lanes
  {
    seq(n, i requires 0 <= i < n => (MulMonotone(lanes, i, n); VecAt(p, lanes, i)))
  }

  /** Word k of an interleaved buffer of the vectors v. */
  function Cell(v: seq<Vec>, lanes: nat, k: nat): word
    requires lanes > 0 && k < lanes * |v| && forall i | 0 <= i < |v| :: |v[i]| == lanes
  {
    assert k == lanes * (k / lanes) + k % lanes;
    MulGap(lanes, |v|, k / lanes);
    v[k / lanes][k % lanes]
  }

  /** Storing vectors and loading them again. */
  lemma StoredVectors(p: seq<word>, v: seq<Vec>, lanes: nat)
    requires lanes > 0 && |p| == lanes * |v| && forall i | 0 <= i < |v| :: |v[i]| == lanes
    requires forall k | 0 <= k < |p| :: p[k] == Cell(v, lanes, k)
    ensures Vectors(p, lanes, |v|) == v
  {
    forall i | 0 <= i < |v| ensures Vectors(p, lanes, |v|)[i] == v[i] {
      MulMonotone(lanes, i, |v|);
      forall l | 0 <= l < lanes ensures VecAt(p, lanes, i)[l] == v[i][l] {
        DivModUnique(lanes * i + l, lanes, i, l);
        assert p[lanes * i + l] == Cell(v, lanes, lanes * i + l);
      }
    }
  }

  /** A lane's words 8 and 9 of B after the five rounds: the first eight bytes of its digest. */
  ghost function LaneResult(s: Chain, m1: seq<word>, m2: seq<word>): (word, word)
    requires s.Valid() && |m1| == |m2| == 16
  {
    var f := Final(Block(s, m1), m2);
    (f.b[8], f.b[9])
  }

  /** mshabal_context_fast: 44 vectors of state, the shared counter, the output size in bits. */
  class FastContext {
    const lanes: nat
    const state: array<word>
    var wlow: word
    var whigh: word
    const outSize: nat

    ghost predicate Valid()
      reads this
    {
      lanes > 0 && state.Length == lanes * 44 && outSize == 256
    }

    /** The vectors A, B and C as loaded from memory. */
    function Loaded(): (s: Regs)
      requires state.Length == lanes * 44
      reads this, state
      ensures ValidRegs(s, lanes)
    {
      var v := Vectors(state[..], lanes, 44);
      Regs(v[..12], v[12..28], v[28..], wlow, whigh)
    }

    /** Every lane holds chaining state s. */
    ghost predicate AllLanes(s: Chain)
      requires Valid()
      reads this, state
    {
      forall l | 0 <= l < lanes :: Lane(Loaded(), lanes, l) == s
    }

    /** The memcpy of the global context. */
    constructor Copy(o: FastContext)
      requires o.Valid()
      ensures Valid() && fresh(this) && fresh(state)
      ensures lanes == o.lanes && state[..] == o.state[..] && Loaded() == o.Loaded()
    {
      lanes := o.lanes;
      outSize := o.outSize;
      wlow, whigh := o.wlow, o.whigh;
      state := new word[o.state.Length](i requires 0 <= i < o.state.Length reads o.state => o.state[i]);
      new;
      assert state[..] == o.state[..];
    }

    /** A context with the registers' contents in memory. */
    constructor FromRegs(lanes: nat, s: Regs)
      requires lanes > 0 && ValidRegs(s, lanes)
      ensures Valid() && fresh(this) && fresh(state) && this.lanes == lanes && Loaded() == s
    {
      var v := s.a + s.b + s.c;
      this.lanes := lanes;
      outSize := 256;
      wlow, whigh := s.wlow, s.whigh;
      state := new word[lanes * 44](k requires 0 <= k < lanes * 44 => Cell(v, lanes, k));
      new;
      StoredVectors(state[..], v, lanes);
    }

    ghost predicate Results(s0: Regs, u1: seq<word>, u2: seq<word>, dst: seq<(word, word)>)
      requires ValidRegs(s0, lanes) && |u1| == |u2| == lanes * 16
    {
      && |dst| == lanes
      && forall l | 0 <= l < lanes ::
           dst[l] == LaneResult(Lane(s0, lanes, l), Pick(Vectors(u1, lanes, 16), lanes, l),
                                Pick(Vectors(u2, lanes, 16), lanes, l))
    }

    /** The SSE2 form: results leave through the registers C[8] and C[9], and the counter is reset. */
    method OpenCloseRegisters(u1: array<word>, u2: array<word>) returns (dst: seq<(word, word)>)
      requires Valid() && u1.Length == u2.Length == lanes * 16
      modifies this`wlow, this`whigh
      ensures Valid() && wlow == 1 && whigh == 0
      ensures Results(old(Loaded()), u1[..], u2[..], dst)
    {
      hide Final, Block, Vectors;
      var s0 := Loaded();
      var s := FiveRounds(lanes, s0, Vectors(u1[..], lanes, 16), Vectors(u2[..], lanes, 16));
      dst := seq(lanes, l requires 0 <= l < lanes => (s.c[8][l], s.c[9][l]));
      wlow, whigh := 1, 0;
      forall l | 0 <= l < lanes
        ensures dst[l] == LaneResult(Lane(s0, lanes, l), Pick(Vectors(u1[..], lanes, 16), lanes, l),
                                     Pick(Vectors(u2[..], lanes, 16), lanes, l))
      {
        assert s.c[8][l] == Pick(s.c, lanes, l)[8] && s.c[9][l] == Pick(s.c, lanes, l)[9];
      }
    }

    /** The AVX, AVX2 and AVX-512 form: C[8] and C[9] are stored back, then read out at an offset from outSize. */
    method OpenCloseStored(u1: array<word>, u2: array<word>) returns (dst: seq<(word, word)>)
      requires Valid() && u1.Length == u2.Length == lanes * 16 && u1 != state && u2 != state
      modifies this`wlow, this`whigh, state
      ensures Valid()
      ensures Results(old(Loaded()), u1[..], u2[..], dst)
    {
      hide Final, Block, Vectors;
      var s0 := Loaded();
      var s := FiveRounds(lanes, s0, Vectors(u1[..], lanes, 16), Vectors(u2[..], lanes, 16));
      wlow, whigh := s.wlow, s.whigh;
      forall l | 0 <= l < lanes { state[lanes * 36 + l] := s.c[8][l]; }
      forall l | 0 <= l < lanes { state[lanes * 37 + l] := s.c[9][l]; }
      var off := lanes * (28 + (16 - outSize / 32));
      assert u1[..] == old(u1[..]) && u2[..] == old(u2[..]);
      assert outSize / 32 == 8 && off == lanes * 36 && off + lanes == lanes * 37;
      dst := seq(lanes, l requires 0 <= l < lanes && off + lanes + l < state.Length reads state =>
                          (state[off + l], state[off + lanes + l]));
      forall l | 0 <= l < lanes
        ensures dst[l] == LaneResult(Lane(s0, lanes, l), Pick(Vectors(u1[..], lanes, 16), lanes, l),
                                     Pick(Vectors(u2[..], lanes, 16), lanes, l))
      {
        assert s.c[8][l] == Pick(s.c, lanes, l)[8] && s.c[9][l] == Pick(s.c, lanes, l)[9];
        assert state[lanes * 36 + l] == s.c[8][l] && state[lanes * 37 + l] == s.c[9][l];
      }
    }
  }
}
