/** The SIMD contexts' own initialisation: they run the two prefix blocks where sph_shabal.c uses the precomputed state. */
module ShabalInit {
  import opened Words
  import opened Shabal
  import opened ShabalSimd
  import opened ShabalMemory
  import opened PrefixNumbers
  import opened ShabalPrefix

  /** The low two bytes of n, as stored by the initialisation; the other two stay zero. */
  function LowByte(n: word): byte { (n & 0xFF) as byte }

  function HighByte(n: word): byte { ((n >> 8) & 0xFF) as byte }

  lemma TwoBytes(n: word)
    requires n < 0x1_0000
    ensures (LowByte(n) as word) | ((HighByte(n) as word) << 8) == n
  {
  }

  lemma TwoByteWord(b: seq<byte>, n: word)
    requires |b| == 4 && b[0] == LowByte(n) && b[1] == HighByte(n) && b[2] == 0 && b[3] == 0 && n < 0x1_0000
    ensures Dec32(b) == n
  {
    TwoBytes(n);
    hide LowByte, HighByte;
    NoMore((b[0] as word) | ((b[1] as word) << 8));
  }

  lemma NoMore(x: word)
    ensures x | (((0 as byte) as word) << 16) | (((0 as byte) as word) << 24) == x
  {
  }

  /** Byte k of a prefix block that counts on from `first`. */
  function PrefixByte(first: word, k: nat): byte {
    var n := CountFrom(first, k / 4);
    if k % 4 == 0 then LowByte(n) else if k % 4 == 1 then HighByte(n) else 0
  }

  /** One of the loops that fill a lane's buffer, of which only the bytes it writes need not be zero before. */
  method FillBuffer(buf: array<byte>, first: word)
    requires buf.Length == 64 && forall k | 0 <= k < 64 && k % 4 >= 2 :: buf[k] == 0
    modifies buf
    ensures forall k | 0 <= k < 64 :: buf[k] == PrefixByte(first, k)
  {
    hide LowByte, HighByte, PrefixByte;
    var n := first;
    for u := 0 to 16
      invariant n == CountFrom(first, u)
      invariant forall k | 4 * u <= k < 64 && k % 4 >= 2 :: buf[k] == 0
      invariant forall k | 0 <= k < 4 * u :: buf[k] == PrefixByte(first, k)
    {
      FourBytes(first, u);
      buf[4 * u] := LowByte(n);
      buf[4 * u + 1] := HighByte(n);
      n := n + 1;
    }
  }

  lemma SmallCounts(i: nat)
    requires i < 16
    ensures CountFrom(0x100, i) < 0x1_0000 && CountFrom(0x110, i) < 0x1_0000
  {
    FirstSmall(i);
    SecondSmall(i);
    hide FirstM, SecondM;
    FirstCounts();
    SecondCounts();
    assert FirstBlock()[i] == Counting(0x100)[i] && SecondBlock()[i] == Counting(0x110)[i];
  }

  lemma FirstSmall(i: nat)
    ensures FirstM(i) < 0x1_0000
  {
  }

  lemma SecondSmall(i: nat)
    ensures SecondM(i) < 0x1_0000
  {
  }

  /** The 64 bytes decode to the counting words. */
  lemma PrefixDecodes(b: seq<byte>, first: word)
    requires |b| == 64 && (first == 0x100 || first == 0x110) && forall k | 0 <= k < 64 :: b[k] == PrefixByte(first, k)
    ensures Decode(b) == Counting(first)
  {
    hide LowByte, HighByte, Dec32, CountFrom;
    forall i | 0 <= i < 16 ensures Dec32(b[4 * i..4 * i + 4]) == CountFrom(first, i) {
      SmallCounts(i);
      PrefixBytesAt(b, first, i);
      TwoByteWord(b[4 * i..4 * i + 4], CountFrom(first, i));
    }
  }

  lemma PrefixBytesAt(b: seq<byte>, first: word, i: nat)
    requires |b| == 64 && i < 16 && forall k | 0 <= k < 64 :: b[k] == PrefixByte(first, k)
    ensures b[4 * i..4 * i + 4] == [LowByte(CountFrom(first, i)), HighByte(CountFrom(first, i)), 0, 0]
  {
    FourBytes(first, i);
    hide LowByte, HighByte, CountFrom, PrefixByte;
    var d := b[4 * i..4 * i + 4];
    assert d == [d[0], d[1], d[2], d[3]];
  }

  lemma FourBytes(first: word, i: nat)
    ensures PrefixByte(first, 4 * i) == LowByte(CountFrom(first, i))
    ensures PrefixByte(first, 4 * i + 1) == HighByte(CountFrom(first, i))
    ensures PrefixByte(first, 4 * i + 2) == PrefixByte(first, 4 * i + 3) == 0
  {
    hide LowByte, HighByte, CountFrom;
  }

  /** One call of mshabal_compress on one block; every lane gets the same buffer. */
  method Compress(lanes: nat, s: Regs, m: seq<Vec>) returns (t: Regs)
    requires ValidRegs(s, lanes) && |m| == 16 && Wide(m, lanes)
    ensures ValidRegs(t, lanes)
    ensures forall l | 0 <= l < lanes :: Lane(t, lanes, l) == Block(Lane(s, lanes, l), Pick(m, lanes, l))
  {
    hide Mix, Turn, Plus, IsSum, IsDifference;
    var r := Round(lanes, s, m);
    t := Up(r);
    forall l | 0 <= l < lanes ensures Lane(t, lanes, l) == Block(Lane(s, lanes, l), Pick(m, lanes, l)) {
      assert Lane(t, lanes, l) == Tick(Lane(r, lanes, l));
    }
  }

  /** The vectors read from buffers with the same bytes in every lane. */
  function Spread(lanes: nat, buf: seq<byte>): (m: seq<Vec>)
    requires |buf| == 64
    ensures |m| == 16 && forall i | 0 <= i < 16 :: |m[i]| == lanes
  {
    seq(16, i requires 0 <= i < 16 => VSet1(lanes, Dec32(buf[4 * i..4 * i + 4])))
  }

  lemma SpreadLane(lanes: nat, buf: seq<byte>, l: nat)
    requires |buf| == 64 && l < lanes
    ensures Wide(Spread(lanes, buf), lanes) && Pick(Spread(lanes, buf), lanes, l) == Decode(buf)
  {
    hide Dec32;
  }

  /** The state and the counter before the first block. */
  function Cleared(lanes: nat): Regs {
    Regs(seq(12, _ => VSet1(lanes, 0)), seq(16, _ => VSet1(lanes, 0)), seq(16, _ => VSet1(lanes, 0)), 0xFFFF_FFFF, 0xFFFF_FFFF)
  }

  lemma ClearedLane(lanes: nat, l: nat)
    requires l < lanes
    ensures ValidRegs(Cleared(lanes), lanes) && Lane(Cleared(lanes), lanes, l) == ZeroState()
  {
  }

  /**
   * mshabal_init for 256 bits, and the copy into the minimal context the kernels start from: every lane holds the
   * state sph_shabal256_init takes from its tables.
   */
  method InitContext(lanes: nat, outSize: word) returns (f: FastContext)
    requires lanes > 0 && outSize == 256
    ensures fresh(f) && fresh(f.state) && f.Valid() && f.lanes == lanes && f.AllLanes(Init256())
  {
    hide Block, Init256, ZeroState, Counting, Decode, PrefixByte, Spread, Cleared, Pick;
    var buf := new byte[64](_ => 0);
    var s := Cleared(lanes);
    ghost var s0 := s;
    ClearedLane(lanes, 0);
    FillBuffer(buf, outSize);
    ghost var b1 := buf[..];
    PrefixDecodes(b1, 0x100);
    SpreadLane(lanes, b1, 0);
    s := Compress(lanes, s, Spread(lanes, buf[..]));
    ghost var s1 := s;
    HighBytesZero(outSize);
    FillBuffer(buf, outSize + 16);
    ghost var b2 := buf[..];
    PrefixDecodes(b2, 0x110);
    SpreadLane(lanes, b2, 0);
    s := Compress(lanes, s, Spread(lanes, buf[..]));
    f := new FastContext.FromRegs(lanes, s);
    forall l | 0 <= l < lanes ensures Lane(s, lanes, l) == Init256() {
      ClearedLane(lanes, l);
      SpreadLane(lanes, b1, l);
      SpreadLane(lanes, b2, l);
      InitialState();
    }
  }

  lemma HighBytesZero(first: word)
    ensures forall k | 0 <= k < 64 && k % 4 >= 2 :: PrefixByte(first, k) == 0
  {
  }
}
