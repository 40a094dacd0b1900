/** calc_scoop and calc_dl: a nonce's plot data generated from scratch, and the deadline hash it leads to. */
module Deadline {
  import opened Arith
  import opened Words
  import opened Shabal
  import opened ShabalStream
  import opened ScanKernels

  const ROWS: nat := 8192  // hashes in a nonce: NONCE_SIZE / HASH_SIZE
  const NUM_SCOOPS: nat := 4096

  // ---- numbers as bytes ----

  /** The low n bytes of x as they lie in memory, least significant first. */
  function Memory(x: nat, n: nat): (b: seq<byte>)
    ensures |b| == n
  {
    if n == 0 then [] else [(x % 256) as byte] + Memory(x / 256, n - 1)
  }

  /** The low n bytes of x, most significant first. */
  function BigEndian(x: nat, n: nat): (b: seq<byte>)
    ensures |b| == n
  {
    if n == 0 then [] else BigEndian(x / 256, n - 1) + [(x % 256) as byte]
  }

  lemma {:induction false} MemoryReversed(x: nat, n: nat, k: nat)
    requires k < n
    ensures BigEndian(x, n)[k] == Memory(x, n)[n - 1 - k]
  {
    if k == n - 1 {
    } else {
      MemoryReversed(x / 256, n - 1, k);
    }
  }

  function Pow256(n: nat): (p: nat)
    ensures p > 0
  {
    if n == 0 then 1 else 256 * Pow256(n - 1)
  }

  /** The byte of x that weighs 256^k. */
  function ByteOf(x: nat, k: nat): byte {
    ((x / Pow256(k)) % 256) as byte
  }

  lemma DivTwice(x: nat, p: nat)
    requires p > 0
    ensures (x / 256) / p == x / (256 * p)
  {
    var q := x / 256;
    var u, s := q / p, q % p;
    assert q == p * u + s;
    assert x == 256 * (p * u) + (256 * s + x % 256);
    assert (256 * p) * u == 256 * (p * u);
    DivModUnique(x, 256 * p, u, 256 * s + x % 256);
  }

  /** Byte k of n, from the front, weighs 256^(n - 1 - k). */
  lemma {:induction false} BigEndianAt(x: nat, n: nat, k: nat)
    requires k < n
    ensures BigEndian(x, n)[k] == ByteOf(x, n - 1 - k)
  {
    if k == n - 1 {
      assert Pow256(0) == 1 && x / 1 == x;
    } else {
      BigEndianAt(x / 256, n - 1, k);
      DivTwice(x, Pow256(n - 2 - k));
      assert Pow256(n - 1 - k) == 256 * Pow256(n - 2 - k);
    }
  }

  /** What 16 bytes of account and nonce the generation starts from. */
  function Seed(accid: nat, nonce: nat): (b: seq<byte>)
    ensures |b| == 16
  {
    BigEndian(accid, 8) + BigEndian(nonce, 8)
  }

  /** The account comes first, then the nonce, each with its highest byte first. */
  lemma SeedIs(accid: nat, nonce: nat, k: nat)
    requires k < 8
    ensures Seed(accid, nonce)[k] == ByteOf(accid, 7 - k) && Seed(accid, nonce)[8 + k] == ByteOf(nonce, 7 - k)
  {
    hide ByteOf;
    BigEndianAt(accid, 8, k);
    BigEndianAt(nonce, 8, k);
    hide BigEndian;
  }

  // ---- the plot data ----

  /** The last n hashes of the generation followed by the seed: each hash is of up to 4096 bytes after it. */
  function Chained(n: nat, seed: seq<byte>): (g: seq<byte>)
    ensures |g| == 32 * n + |seed|
  {
    if n == 0 then seed
    else
      var g := Chained(n - 1, seed);
      Digest(Init256(), Head(g)) + g
  }

  /** At most the first 4096 bytes. */
  function Head(g: seq<byte>): (h: seq<byte>)
    ensures h <= g && (|g| <= 4096 ==> h == g) && (|g| > 4096 ==> |h| == 4096)
  {
    g[..if |g| > 4096 then 4096 else |g|]
  }

  /** Every one of the n hashes in g is of up to 4096 bytes after it, and the seed is at the end. */
  ghost predicate EveryHashOfWhatFollows(g: seq<byte>, n: nat, seed: seq<byte>) {
    && |g| == 32 * n + |seed| && g[32 * n..] == seed
    && forall i | 0 <= i < n :: g[32 * i..32 * i + 32] == Digest(Init256(), Head(g[32 * i + 32..]))
  }

  lemma OneHashMore(g: seq<byte>, n: nat, seed: seq<byte>)
    requires n > 0 && |g| == 32 * n + |seed|
    ensures EveryHashOfWhatFollows(g, n, seed) <==>
            g[..32] == Digest(Init256(), Head(g[32..])) && EveryHashOfWhatFollows(g[32..], n - 1, seed)
  {
    hide Digest, Init256, Head;
    var h := g[32..];
    assert h[32 * (n - 1)..] == g[32 * n..];
    forall i | 0 <= i < n - 1
      ensures h[32 * i..32 * i + 32] == g[32 * (i + 1)..32 * (i + 1) + 32] && h[32 * i + 32..] == g[32 * (i + 1) + 32..]
    {
    }
    if EveryHashOfWhatFollows(g, n, seed) {
      assert g[32 * 0..32 * 0 + 32] == g[..32];
      forall i | 0 <= i < n - 1 ensures h[32 * i..32 * i + 32] == Digest(Init256(), Head(h[32 * i + 32..])) {
        var j := i + 1;
        assert g[32 * j..32 * j + 32] == Digest(Init256(), Head(g[32 * j + 32..]));
      }
    }
    if g[..32] == Digest(Init256(), Head(h)) && EveryHashOfWhatFollows(h, n - 1, seed) {
      forall i | 0 <= i < n ensures g[32 * i..32 * i + 32] == Digest(Init256(), Head(g[32 * i + 32..])) {
        if i > 0 {
          var j := i - 1;
          assert h[32 * j..32 * j + 32] == Digest(Init256(), Head(h[32 * j + 32..]));
        }
      }
    }
  }

  /** The chain is the one sequence in which every hash is of what follows it. */
  lemma {:induction false} ChainedIff(g: seq<byte>, n: nat, seed: seq<byte>)
    requires |g| == 32 * n + |seed|
    ensures g == Chained(n, seed) <==> EveryHashOfWhatFollows(g, n, seed)
  {
    hide Digest, Init256, Head, EveryHashOfWhatFollows;
    if n == 0 {
      Unhashed(g, seed);
    } else {
      var c := Chained(n - 1, seed);
      var d := Digest(Init256(), Head(c));
      OneHashMore(g, n, seed);
      ChainedIff(g[32..], n - 1, seed);
      assert Chained(n, seed) == d + c;
      assert (d + c)[..32] == d && (d + c)[32..] == c && g == g[..32] + g[32..];
    }
  }

  lemma Unhashed(g: seq<byte>, seed: seq<byte>)
    requires |g| == |seed|
    ensures EveryHashOfWhatFollows(g, 0, seed) <==> g == seed
  {
    assert g[32 * 0..] == g;
  }

  function XorByte(x: byte, y: byte): byte { x ^ y }

  /** The plot data of n hashes: the chain, masked with the digest of all of it. */
  function Plot(n: nat, seed: seq<byte>): (p: seq<byte>)
    ensures |p| == 32 * n
  {
    var g := Chained(n, seed);
    var final := Digest(Init256(), g);
    seq(32 * n, i requires 0 <= i < 32 * n => XorByte(g[i], final[i % 32]))
  }

  lemma XorByteIs(x: byte, y: byte)
    ensures XorByte(x, y) == (x | y) & !(x & y) && XorByte(XorByte(x, y), y) == x
  {
  }

  /** Masking the plot data once more, with the 32 bytes of the chain's digest over and over, gives the chain back. */
  lemma Unmasked(n: nat, seed: seq<byte>, i: nat)
    requires i < 32 * n
    ensures XorByte(Plot(n, seed)[i], Digest(Init256(), Chained(n, seed))[i % 32]) == Chained(n, seed)[i]
  {
    hide Digest, Init256, Chained, XorByte;
    XorByteIs(Chained(n, seed)[i], Digest(Init256(), Chained(n, seed))[i % 32]);
  }

  /** The scoop calc_dl hashes: the first half of scoop s and the second half of its mirror. */
  function Mirrored(p: seq<byte>, s: nat, scoops: nat): (e: seq<byte>)
    requires |p| == 64 * scoops && s < scoops
    ensures |e| == 64
  {
    p[64 * s..64 * s + 32] + p[64 * (scoops - 1 - s) + 32..64 * (scoops - 1 - s) + 64]
  }

  /** The scoop number of a signature and a height. */
  function ScoopOf(sig: seq<byte>, height: nat): (s: nat)
    ensures s < NUM_SCOOPS
  {
    var d := Digest(Init256(), sig + BigEndian(height, 8));
    (d[31] as nat + 256 * (d[30] as nat)) % 4096
  }

  /** The last byte of the digest is the low byte of the scoop number, the one before it gives its upper four bits. */
  lemma ScoopIs(sig: seq<byte>, height: nat)
    ensures var d := Digest(Init256(), sig + BigEndian(height, 8));
            && ScoopOf(sig, height) % 256 == d[31] as nat
            && ScoopOf(sig, height) / 256 == (d[30] as nat) % 16
  {
    hide Digest, Init256, BigEndian, ScoopOf;
    var d := Digest(Init256(), sig + BigEndian(height, 8));
    ScoopSum(sig, height);
    ScoopParts(d[31] as nat, d[30] as nat);
  }

  lemma ScoopSum(sig: seq<byte>, height: nat)
    ensures var d := Digest(Init256(), sig + BigEndian(height, 8));
            ScoopOf(sig, height) == (d[31] as nat + 256 * (d[30] as nat)) % 4096
  {
    hide Digest, Init256, BigEndian;
  }

  lemma ScoopParts(lo: nat, hi: nat)
    requires lo < 256
    ensures ((lo + 256 * hi) % 4096) % 256 == lo && ((lo + 256 * hi) % 4096) / 256 == hi % 16
  {
    DivModUnique(lo + 256 * hi, 4096, hi / 16, 256 * (hi % 16) + lo);
    DivModUnique(256 * (hi % 16) + lo, 256, hi % 16, lo);
  }

  /** The plot data of an account's nonce. */
  function PlotOf(accid: nat, nonce: nat): (p: seq<byte>)
    ensures |p| == 64 * NUM_SCOOPS
  {
    Plot(ROWS, Seed(accid, nonce))
  }

  /** The number calc_dl returns. */
  function DeadlineHash(height: nat, sig: seq<byte>, accid: nat, nonce: nat): nat
    requires |sig| == 32
  {
    HashOf(sig, Mirrored(PlotOf(accid, nonce), ScoopOf(sig, height), NUM_SCOOPS))
  }

  // ---- the routines ----

  /** One message from a copy of the initial context, in one update. */
  method HashBytes(save: Context, data: seq<byte>) returns (d: seq<byte>)
    requires save.Valid() && save.State() == Init256() && save.Pending() == []
    ensures |d| == 32 && d == Digest(Init256(), data)
  {
    hide Init256, Absorb, Finish;
    var x := new Context.Copy(save);
    x.Update(data);
    assert [] + data == data;
    d := x.Close();
  }

  /** SET_NONCE: the memory bytes of x in reverse. */
  method SetNonce(gendata: array<byte>, at: nat, x: nat)
    requires at + 8 <= gendata.Length
    modifies gendata
    ensures gendata[..] == old(gendata[..at]) + BigEndian(x, 8) + old(gendata[at + 8..])
  {
    var xv := Memory(x, 8);
    forall k | 0 <= k < 8 { gendata[at + k] := xv[7 - k]; }
    forall k | 0 <= k < 8 ensures gendata[at + k] == BigEndian(x, 8)[k] {
      MemoryReversed(x, 8, k);
    }
  }

  /** The generation loop: hashes written from the back of gendata to the front. */
  method Generate(gendata: array<byte>, n: nat, save: Context)
    requires gendata.Length == 32 * n + 16
    requires save.Valid() && gendata !in save.Repr && save.State() == Init256() && save.Pending() == []
    modifies gendata
    ensures gendata[..] == Chained(n, old(gendata[32 * n..]))
  {
    hide Init256, Digest, Absorb, Finish;
    ghost var seed := gendata[32 * n..];
    var i := 32 * n;
    ghost var done := 0;
    while i > 0
      invariant done <= n && i == 32 * (n - done)
      invariant gendata[i..] == Chained(done, seed)
      decreases i
    {
      var len := 32 * n + 16 - i;
      if len > 4096 {
        len := 4096;
      }
      var d := HashBytes(save, gendata[i..i + len]);
      ghost var g := gendata[i..];
      assert gendata[i..i + len] == g[..len] == Head(g);
      forall k | 0 <= k < 32 { gendata[i - 32 + k] := d[k]; }
      assert gendata[i - 32..] == d + g;
      i := i - 32;
      done := done + 1;
    }
    assert gendata[0..] == gendata[..];
  }

  /** The masking loop. */
  method Mask(gendata: array<byte>, n: nat, final: seq<byte>)
    requires gendata.Length == 32 * n + 16 && |final| == 32
    modifies gendata
    ensures forall k | 0 <= k < 32 * n :: gendata[k] == XorByte(old(gendata[k]), final[k % 32])
    ensures gendata[32 * n..] == old(gendata[32 * n..])
  {
    for i := 0 to 32 * n
      invariant forall k | 0 <= k < gendata.Length ::
                  gendata[k] == if k < i then XorByte(old(gendata[k]), final[k % 32]) else old(gendata[k])
    {
      gendata[i] := XorByte(gendata[i], final[i % 32]);
    }
  }

  /** The part of calc_dl that fills gendata. */
  method MakePlot(n: nat, accid: nat, nonce: nat, save: Context) returns (gendata: array<byte>)
    requires save.Valid() && save.State() == Init256() && save.Pending() == []
    ensures fresh(gendata) && gendata.Length == 32 * n + 16
    ensures gendata[..32 * n] == Plot(n, Seed(accid, nonce))
    ensures gendata[32 * n..] == Seed(accid, nonce)
  {
    hide Init256, Digest, Absorb, Finish, XorByte, BigEndian, Chained;
    gendata := new byte[32 * n + 16];
    SetNonce(gendata, 32 * n, accid);
    SetNonce(gendata, 32 * n + 8, nonce);
    assert gendata[32 * n..] == Seed(accid, nonce);
    Generate(gendata, n, save);
    ghost var g := gendata[..];
    var final := HashBytes(save, gendata[..]);
    Mask(gendata, n, final);
    assert gendata[..32 * n] == Plot(n, Seed(accid, nonce));
    KeepsSeed(gendata[..], g, n, Seed(accid, nonce));
  }

  lemma KeepsSeed(now: seq<byte>, g: seq<byte>, n: nat, seed: seq<byte>)
    requires g == Chained(n, seed) && |now| == |g| && now[32 * n..] == g[32 * n..]
    ensures now[32 * n..] == seed
  {
    ChainedEnds(n, seed);
  }

  lemma {:induction false} ChainedEnds(n: nat, seed: seq<byte>)
    ensures Chained(n, seed)[32 * n..] == seed
  {
    hide Digest, Init256, Head;
    if n == 0 {
      assert seed[0..] == seed;
    } else {
      ChainedEnds(n - 1, seed);
      var c := Chained(n - 1, seed);
      var d := Digest(Init256(), Head(c));
      assert Chained(n, seed) == d + c;
      hide Chained;
      assert (d + c)[32 * n..] == c[32 * (n - 1)..];
    }
  }

  /** calc_scoop, from the decoded signature. */
  method CalcScoop(signature: seq<byte>, height: nat, gcc: Context) returns (scoop: nat)
    requires |signature| >= 32 && gcc.Valid() && gcc.State() == Init256() && gcc.Pending() == []
    ensures scoop == ScoopOf(signature[..32], height) && scoop < NUM_SCOOPS
  {
    hide Digest, Init256, BigEndian;
    var mov := Memory(height, 8);
    var scoopgen := signature[..32] + [mov[7], mov[6], mov[5], mov[4], mov[3], mov[2], mov[1], mov[0]];
    forall k | 0 <= k < 8 ensures scoopgen[32 + k] == BigEndian(height, 8)[k] {
      MemoryReversed(height, 8, k);
    }
    assert scoopgen == signature[..32] + BigEndian(height, 8);
    var xcache := HashBytes(gcc, scoopgen);
    scoop := (xcache[31] as nat + 256 * (xcache[30] as nat)) % 4096;
  }

  /** Hashing the signature and then the scoop is hashing the two at once. */
  lemma TwoUpdates(sig: seq<byte>, scoop: seq<byte>)
    requires |sig| == 32 && |scoop| == 64
    ensures var (t, p) := Absorb(Init256(), [] + sig);
            Finish(Absorb(t, p + scoop).0, Absorb(t, p + scoop).1, 0x80) == Digest(Init256(), sig + scoop)
  {
    assert [] + sig == sig;
    AbsorbAppend(Init256(), sig, scoop);
  }

  /** The two copies that assemble the scoop. */
  method TakeScoop(gendata: array<byte>, nr: nat) returns (scoop: seq<byte>)
    requires gendata.Length == 32 * ROWS + 16 && nr < NUM_SCOOPS
    ensures scoop == Mirrored(gendata[..32 * ROWS], nr, NUM_SCOOPS)
    ensures scoop[..32] == gendata[64 * nr..64 * nr + 32]
    ensures scoop[32..] == gendata[64 * (4095 - nr) + 32..64 * (4095 - nr) + 64]
  {
    ghost var p := gendata[..32 * ROWS];
    var first, second := gendata[nr * 64..nr * 64 + 32], gendata[(4095 - nr) * 64 + 32..(4095 - nr) * 64 + 64];
    assert first == p[nr * 64..nr * 64 + 32];
    assert second == p[(4095 - nr) * 64 + 32..(4095 - nr) * 64 + 64];
    scoop := first + second;
  }

  /** The signature and the scoop hashed in two updates, and the first eight bytes of the digest. */
  method HashScoop(save: Context, sig: seq<byte>, scoop: seq<byte>) returns (dl: nat)
    requires |sig| == 32 && |scoop| == 64
    requires save.Valid() && save.State() == Init256() && save.Pending() == []
    ensures dl == HashOf(sig, scoop)
  {
    hide Init256, Digest, Absorb, Finish, Load64;
    var x := new Context.Copy(save);
    x.Update(sig);
    x.Update(scoop);
    var finals := x.Close();
    TwoUpdates(sig, scoop);
    dl := Load64(finals);
  }

  /** calc_dl, from the decoded signature. */
  method CalcDl(height: nat, sig: seq<byte>, accid: nat, nonce: nat) returns (dl: nat)
    requires |sig| == 32
    ensures dl == DeadlineHash(height, sig, accid, nonce)
  {
    hide Init256, Plot, ScoopOf, HashOf, Mirrored, Seed;
    var save := new Context();
    var nr := CalcScoop(sig, height, save);
    assert sig[..32] == sig;
    var gendata := MakePlot(ROWS, accid, nonce, save);
    var scoop := TakeScoop(gendata, nr);
    dl := HashScoop(save, sig, scoop);
  }
}
