/** Feeding a message to Shabal-256 in pieces: the streaming context of sph_shabal.c. */
module ShabalStream {
  import opened Words
  import opened Shabal

  /** Absorbing x and then y is absorbing x + y. */
  lemma {:induction false} AbsorbAppend(s: Chain, x: seq<byte>, y: seq<byte>)
    requires s.Valid()
    ensures var r := Absorb(s, x); Absorb(s, x + y) == Absorb(r.0, r.1 + y)
    decreases |x|
  {
    hide Block, Decode;
    if |x| < 64 {
    } else {
      assert (x + y)[..64] == x[..64] && (x + y)[64..] == x[64..] + y;
      AbsorbAppend(Block(s, Decode(x[..64])), x[64..], y);
    }
  }

  function Concat(pieces: seq<seq<byte>>): seq<byte> {
    if pieces == [] then [] else pieces[0] + Concat(pieces[1..])
  }

  /** The chaining state and leftover after one sph_shabal256 call for each piece. */
  function AbsorbAll(s: Chain, rest: seq<byte>, pieces: seq<seq<byte>>): (r: (Chain, seq<byte>))
    requires s.Valid() && |rest| < 64
    ensures r.0.Valid() && |r.1| < 64
    decreases |pieces|
  {
    if pieces == [] then (s, rest)
    else
      var (t, p) := Absorb(s, rest + pieces[0]);
      AbsorbAll(t, p, pieces[1..])
  }

  lemma {:induction false} AbsorbPieces(s: Chain, rest: seq<byte>, pieces: seq<seq<byte>>)
    requires s.Valid() && |rest| < 64
    ensures AbsorbAll(s, rest, pieces) == Absorb(s, rest + Concat(pieces))
    decreases |pieces|
  {
    hide Block, Decode;
    if pieces == [] {
      assert rest + Concat(pieces) == rest;
    } else {
      var (t, p) := Absorb(s, rest + pieces[0]);
      AbsorbPieces(t, p, pieces[1..]);
      AbsorbAppend(s, rest + pieces[0], Concat(pieces[1..]));
      assert rest + Concat(pieces) == rest + pieces[0] + Concat(pieces[1..]);
    }
  }

  /** However a message is cut into pieces, feeding them in order and closing gives its digest. */
  lemma StreamingDigest(s: Chain, pieces: seq<seq<byte>>)
    requires s.Valid()
    ensures var (t, p) := AbsorbAll(s, [], pieces); Finish(t, p, 0x80) == Digest(s, Concat(pieces))
  {
    AbsorbPieces(s, [], pieces);
    assert [] + Concat(pieces) == Concat(pieces);
  }

  /** One final round as shabal_close runs it: swap B and C, XOR the counter, permute; M is not added. */
  function SwapRound(s: Chain, m: seq<word>): (r: Chain)
    requires s.Valid() && |m| == 16
    ensures r.Valid()
  {
    var t := ApplyP(AB(XorW(s.a, s.wlow, s.whigh), s.c), s.b, m);
    Chain(t.a, t.b, s.b, s.wlow, s.whigh)
  }

  /** Subtracting the block from C and adding it to B after the swap cancel out. */
  lemma SwapRoundIsTurnMix(s: Chain, m: seq<word>)
    requires s.Valid() && |m| == 16
    ensures SwapRound(s, m) == Mix(Turn(s, m), m)
  {
    hide ApplyP, Plus, Minus, IsSum, IsDifference;
    assert AddVec(SubVec(s.c, m), m) == s.c by {
      forall i | 0 <= i < 16 ensures Plus(Minus(s.c[i], m[i]), m[i]) == s.c[i] {
        PlusMinus(s.c[i], m[i]);
      }
    }
  }

  /** The byte that ends the message: the first n bits of `ub`, then a one bit. */
  function PadByte(ub: byte, n: nat): byte
    requires n < 8
  {
    var z := (0x80 as byte) >> n;
    (ub & (0 - z)) | z
  }

  /** sph_shabal_context: the block being filled, and the chaining state. */
  class Context {
    const buf: array<byte>
    var ptr: nat
    const a: array<word>
    const b: array<word>
    const c: array<word>
    var wlow: word
    var whigh: word

    ghost predicate Valid()
      reads this, buf
    {
      && buf.Length == 64 && ptr < 64
      && a.Length == 12 && b.Length == 16 && c.Length == 16
      && a != b && a != c && b != c
      && buf as object != a && buf as object != b && buf as object != c
    }

    ghost const Repr: set<object> := {this, buf, a, b, c}

    function State(): (s: Chain)
      requires a.Length == 12 && b.Length == 16 && c.Length == 16
      reads this, a, b, c
      ensures s.Valid()
    {
      Chain(a[..], b[..], c[..], wlow, whigh)
    }

    /** The message bytes held in the unfinished block. */
    function Pending(): (p: seq<byte>)
      requires Valid()
      reads this, buf
      ensures |p| < 64
    {
      buf[..ptr]
    }

    /** A new context, as left by sph_shabal256_init; what buf holds does not matter. */
    constructor ()
      ensures Valid() && fresh(Repr)
      ensures State() == Init256() && Pending() == []
    {
      buf := new byte[64](_ => 0);
      a := new word[12](i requires 0 <= i < 12 => A_INIT_256[i]);
      b := new word[16](i requires 0 <= i < 16 => B_INIT_256[i]);
      c := new word[16](i requires 0 <= i < 16 => C_INIT_256[i]);
      ptr, wlow, whigh := 0, 1, 0;
      new;
      assert a[..] == A_INIT_256 && b[..] == B_INIT_256 && c[..] == C_INIT_256;
    }

    /** A copy of another context (the memcpy the callers use instead of initialising again). */
    constructor Copy(o: Context)
      requires o.Valid()
      ensures Valid() && fresh(Repr)
      ensures State() == o.State() && Pending() == o.Pending()
    {
      buf := new byte[64](i requires 0 <= i < 64 reads o.buf => o.buf[i]);
      a := new word[12](i requires 0 <= i < 12 reads o.a => o.a[i]);
      b := new word[16](i requires 0 <= i < 16 reads o.b => o.b[i]);
      c := new word[16](i requires 0 <= i < 16 reads o.c => o.c[i]);
      ptr, wlow, whigh := o.ptr, o.wlow, o.whigh;
      new;
      assert a[..] == o.a[..] && b[..] == o.b[..] && c[..] == o.c[..] && buf[..] == o.buf[..];
      assert buf[..ptr] == buf[..][..ptr];
    }

    /** WRITE_STATE. */
    method WriteState(s: Chain)
      requires Valid() && s.Valid()
      modifies this`wlow, this`whigh, a, b, c
      ensures Valid() && State() == s
    {
      forall i | 0 <= i < 12 { a[i] := s.a[i]; }
      forall i | 0 <= i < 16 { b[i] := s.b[i]; }
      forall i | 0 <= i < 16 { c[i] := s.c[i]; }
      wlow, whigh := s.wlow, s.whigh;
      assert a[..] == s.a && b[..] == s.b && c[..] == s.c;
    }

    /** sph_shabal256: absorb `data`. */
    method Update(data: seq<byte>)
      requires Valid()
      modifies this, buf, a, b, c
      ensures Valid()
      ensures (State(), Pending()) == Absorb(old(State()), old(Pending()) + data)
    {
      hide Block, Decode;
      if |data| < 64 - ptr {
        forall i | 0 <= i < |data| { buf[ptr + i] := data[i]; }
        assert buf[..ptr + |data|] == old(buf[..ptr]) + data;
        ptr := ptr + |data|;
        assert Pending() == old(Pending()) + data && State() == old(State());
        return;
      }
      var s := State();
      ghost var whole := buf[..ptr] + data;
      var from, p := 0, ptr;
      assert data[0..] == data;
      while from < |data|
        invariant Valid() && s.Valid() && 0 <= from <= |data| && 0 <= p < 64
        invariant Absorb(s, buf[..p] + data[from..]) == Absorb(old(State()), whole)
      {
        var clen := if 64 - p > |data| - from then |data| - from else 64 - p;
        ghost var head := buf[..p];
        forall i | 0 <= i < clen { buf[p + i] := data[from + i]; }
        assert buf[..p + clen] == head + data[from..from + clen];
        assert buf[..p + clen] + data[from + clen..] == head + data[from..];
        p := p + clen;
        from := from + clen;
        if p == 64 {
          assert (buf[..64] + data[from..])[..64] == buf[..64];
          assert (buf[..64] + data[from..])[64..] == data[from..] == buf[..0] + data[from..];
          s := Block(s, Decode(buf[..64]));
          p := 0;
        }
      }
      assert data[from..] == [] && buf[..p] + [] == buf[..p];
      WriteState(s);
      ptr := p;
    }

    /** shabal_close with n extra bits of `ub`: pad, the last block, three swap rounds; `dst` is the digest. */
    method CloseBits(ub: byte, n: nat) returns (dst: seq<byte>)
      requires Valid() && n < 8
      modifies buf
      ensures Valid() && State() == old(State())
      ensures dst == Finish(old(State()), old(Pending()), PadByte(ub, n))
    {
      hide ApplyP, Output, PadByte;
      buf[ptr] := PadByte(ub, n);
      forall i | ptr < i < 64 { buf[i] := 0; }
      assert buf[..] == Pad(old(Pending()), PadByte(ub, n));
      var m := Decode(buf[..]);
      var s := Mix(State(), m);
      ghost var s0 := s;
      for i := 0 to 3
        invariant s.Valid() && s == Rounds(i, s0, m)
      {
        SwapRoundIsTurnMix(s, m);
        s := SwapRound(s, m);
      }
      dst := Output(s);
    }

    /** sph_shabal256_close. */
    method Close() returns (dst: seq<byte>)
      requires Valid()
      modifies buf
      ensures Valid() && State() == old(State())
      ensures dst == Finish(old(State()), old(Pending()), 0x80)
    {
      assert PadByte(0, 0) == 0x80;
      dst := CloseBits(0, 0);
    }
  }
}
