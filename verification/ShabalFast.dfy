/** The unrolled 96-byte path: a 32-byte signature and a 64-byte scoop hashed in two blocks. */
module ShabalFast {
  import opened Words
  import opened Shabal
  import opened ShabalStream

  /** Word i of a byte buffer, as the code's `((unsigned int*)p)[i]` reads it. */
  function WordAt(p: seq<byte>, i: nat): word
    requires 4 * i + 4 <= |p|
  {
    Dec32(p[4 * i..4 * i + 4])
  }

  /** The first block: the signature, then the first half of the scoop. */
  function FirstBlock(sig: seq<byte>, scoop: seq<byte>): (m: seq<word>)
    requires |sig| == 32 && |scoop| == 64
    ensures |m| == 16
  {
    seq(16, i requires 0 <= i < 16 => if i < 8 then WordAt(sig, i) else WordAt(scoop, i - 8))
  }

  /** The second block: the rest of the scoop, the padding word 0x80, zeros. */
  function LastBlock(scoop: seq<byte>): (m: seq<word>)
    requires |scoop| == 64
    ensures |m| == 16
  {
    seq(16, i requires 0 <= i < 16 => if i < 8 then WordAt(scoop, i + 8) else if i == 8 then 0x80 else 0)
  }

  lemma FirstBlockDecodes(sig: seq<byte>, scoop: seq<byte>)
    requires |sig| == 32 && |scoop| == 64
    ensures Decode((sig + scoop)[..64]) == FirstBlock(sig, scoop)
  {
    hide Dec32;
    var buf := (sig + scoop)[..64];
    assert forall k | 0 <= k < 64 :: buf[k] == if k < 32 then sig[k] else scoop[k - 32];
    forall i | 0 <= i < 16 ensures Decode(buf)[i] == FirstBlock(sig, scoop)[i] {
      if i < 8 {
        assert buf[4 * i..4 * i + 4] == sig[4 * i..4 * i + 4];
      } else {
        var j := i - 8;
        assert buf[4 * i..4 * i + 4] == scoop[4 * j..4 * j + 4];
        assert FirstBlock(sig, scoop)[i] == WordAt(scoop, j);
      }
    }
  }

  lemma LastBlockDecodes(scoop: seq<byte>)
    requires |scoop| == 64
    ensures Decode(Pad(scoop[32..], 0x80)) == LastBlock(scoop)
  {
    var buf := Pad(scoop[32..], 0x80);
    assert Dec32([0x80, 0, 0, 0]) == 0x80 && Dec32([0, 0, 0, 0]) == 0;
    hide Dec32;
    forall i | 0 <= i < 16 ensures Decode(buf)[i] == LastBlock(scoop)[i] {
      assert buf[4 * i..4 * i + 4] ==
        if i < 8 then scoop[4 * (i + 8)..4 * (i + 8) + 4] else if i == 8 then [0x80, 0, 0, 0] else [0, 0, 0, 0];
    }
  }

  /** The digest of a signature followed by a scoop, from any chaining state, is one block and the final rounds. */
  lemma TwoBlocks(s: Chain, sig: seq<byte>, scoop: seq<byte>)
    requires s.Valid() && |sig| == 32 && |scoop| == 64
    ensures Digest(s, sig + scoop) == Output(Final(Block(s, FirstBlock(sig, scoop)), LastBlock(scoop)))
  {
    hide Block, Final, Decode, Output, FirstBlock, LastBlock;
    var msg := sig + scoop;
    assert msg[64..] == scoop[32..];
    FirstBlockDecodes(sig, scoop);
    LastBlockDecodes(scoop);
    var t := Block(s, FirstBlock(sig, scoop));
    assert Absorb(s, msg) == Absorb(t, scoop[32..]) == (t, scoop[32..]);
  }

  /** The first eight digest bytes are B[8] and B[9]. */
  lemma OutputHead(s: Chain)
    requires s.Valid()
    ensures Output(s)[..8] == Enc32(s.b[8]) + Enc32(s.b[9])
  {
    hide Enc32;
    var w := s.b[8..];
    assert Encode(w) == Enc32(w[0]) + (Enc32(w[1]) + Encode(w[1..][1..]));
  }

  /** sph_shabal_openclose_fast: the first eight bytes of the Shabal-256 digest of sig + scoop. */
  method OpenCloseFast(scoop: seq<byte>, sig: seq<byte>) returns (dst: seq<byte>)
    requires |sig| == 32 && |scoop| == 64
    ensures dst == Digest(Init256(), sig + scoop)[..8]
  {
    hide ApplyP, Digest, Output, Enc32, FirstBlock, LastBlock, Init256;
    var s := Init256();
    var m := FirstBlock(sig, scoop);
    s := Tick(Turn(Mix(s, m), m));
    m := LastBlock(scoop);
    s := Mix(s, m);
    ghost var s0 := s;
    for i := 0 to 3
      invariant s.Valid() && s == Rounds(i, s0, m)
    {
      SwapRoundIsTurnMix(s, m);
      s := SwapRound(s, m);
    }
    dst := Enc32(s.b[8]) + Enc32(s.b[9]);
    TwoBlocks(Init256(), sig, scoop);
    OutputHead(s);
  }
}
