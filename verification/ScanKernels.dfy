/** The hashing routines run on each chunk of scoops: procscoop_sph and the lane-parallel procscoop_*_fast. */
module ScanKernels {
  import opened Arith
  import opened Words
  import opened Shabal
  import opened ShabalStream
  import opened ShabalFast
  import opened ShabalSimd
  import opened ShabalMemory
  import opened DeadlineSearch

  /** Two words as the 64-bit little-endian number a digest is compared by. */
  function Join(w: (word, word)): nat {
    w.0 as int + 0x1_0000_0000 * (w.1 as int)
  }

  /** Eight bytes read as a little-endian 64-bit number. */
  function Load64(b: seq<byte>): nat
    requires |b| >= 8
  {
    Join((Dec32(b[..4]), Dec32(b[4..8])))
  }

  /** The number a scoop is judged by: the first eight bytes of the digest of the signature and the scoop. */
  function HashOf(sig: seq<byte>, scoop: seq<byte>): nat
    requires |sig| == 32 && |scoop| == 64
  {
    Load64(Digest(Init256(), sig + scoop))
  }

  /** The digest's second word is the high half of the number, its first the low half. */
  lemma HashIs(sig: seq<byte>, scoop: seq<byte>)
    requires |sig| == 32 && |scoop| == 64
    ensures var d := Digest(Init256(), sig + scoop);
            && HashOf(sig, scoop) / 0x1_0000_0000 == Dec32(d[4..8]) as nat
            && HashOf(sig, scoop) % 0x1_0000_0000 == Dec32(d[..4]) as nat
  {
    hide Digest, Init256, Dec32;
    var d := Digest(Init256(), sig + scoop);
    var lo, hi := Dec32(d[..4]) as nat, Dec32(d[4..8]) as nat;
    assert d[..8] == d[..4] + d[4..8];
    DivModUnique(HashOf(sig, scoop), 0x1_0000_0000, hi, lo);
  }

  /** The hashes of the first n scoops of a cache. */
  function Hashes(sig: seq<byte>, cache: seq<byte>, n: nat): (hs: seq<nat>)
    requires |sig| == 32 && 64 * n <= |cache|
    ensures |hs| == n
  {
    seq(n, v requires 0 <= v < n => HashOf(sig, Entry(cache, v)))
  }

  /** Reading B[8] and B[9] as one number is reading the digest's first eight bytes. */
  lemma LaneResultIsHash(sig: seq<byte>, scoop: seq<byte>)
    requires |sig| == 32 && |scoop| == 64
    ensures Join(LaneResult(Init256(), FirstBlock(sig, scoop), LastBlock(scoop))) == HashOf(sig, scoop)
  {
    hide Digest, Output, Final, Block, FirstBlock, LastBlock, Init256, Dec32, Enc32, Join;
    TwoBlocks(Init256(), sig, scoop);
    var f := Final(Block(Init256(), FirstBlock(sig, scoop)), LastBlock(scoop));
    OutputHead(f);
    var d := Output(f);
    assert d[..4] == d[..8][..4] == Enc32(f.b[8]);
    assert d[4..8] == d[..8][4..8] == Enc32(f.b[9]);
    DecEnc(f.b[8]);
    DecEnc(f.b[9]);
  }

  /** How many groups of lanes cover n scoops. */
  function Groups(n: nat, lanes: nat): (g: nat)
    requires lanes > 0
    ensures n <= lanes * g < n + lanes
    ensures n % lanes == 0 ==> lanes * g == n
  {
    var g := (n + lanes - 1) / lanes;
    assert n + lanes - 1 == lanes * g + (n + lanes - 1) % lanes;
    assert n == lanes * (n / lanes) + n % lanes;
    MulGap(lanes, g, n / lanes);
    MulGap(lanes, n / lanes, g);
    g
  }

  /** The groups reach past the chunk if and only if it does not fill whole ones. */
  lemma GroupsReachPast(n: nat, lanes: nat)
    requires lanes > 0
    ensures lanes * Groups(n, lanes) > n <==> n % lanes != 0
  {
    var g := Groups(n, lanes);
    if lanes * g == n {
      DivModUnique(n, lanes, g, 0);
    }
  }

  /** hash_arg_t, with the reports sent during the call. */
  class HashArg {
    const job: Job
    const signature: seq<byte>
    const cacheSizeLocal: nat
    const cache: array<byte>
    var targetDl: nat
    var reports: seq<Report>

    ghost predicate Valid() {
      |signature| == 33 && job.base > 0
    }

    constructor (job: Job, signature: seq<byte>, n: nat, cache: array<byte>, targetDl: nat)
      ensures this.job == job && this.signature == signature && this.cacheSizeLocal == n && this.cache == cache
      ensures Progress() == Found(targetDl, [])
    {
      this.job, this.signature, this.cacheSizeLocal, this.cache := job, signature, n, cache;
      this.targetDl, reports := targetDl, [];
    }

    function Sig(): (s: seq<byte>)
      requires Valid()
      ensures |s| == 32
    {
      signature[..32]
    }

    function Progress(): Found
      reads this
    {
      Found(targetDl, reports)
    }

    /** The comparison every kernel ends with: report a better deadline and shrink the target to it. */
    method Judge(v: nat, wertung: nat)
      requires Valid()
      modifies this
      ensures Progress() == Offer(job, old(Progress()), v, wertung)
    {
      if wertung / job.base < targetDl {
        reports := reports + [Report(job.accid, job.height, Wrap(job.nonce + v), wertung)];
        targetDl := wertung / job.base;
      }
    }

    /** One hash through the streaming context, from a copy of the global one. */
    method HashOne(global: Context, v: nat) returns (wertung: nat)
      requires Valid() && 64 * v + 64 <= cache.Length
      requires global.Valid() && global.State() == Init256() && global.Pending() == []
      ensures wertung == HashOf(Sig(), Entry(cache[..], v))
    {
      hide Init256, Absorb, Finish, Load64;
      var sig := Sig() + cache[64 * v..64 * v + 64];
      assert sig == Sig() + Entry(cache[..], v) && [] + sig == sig;
      var x := new Context.Copy(global);
      x.Update(sig);
      var res := x.Close();
      wertung := Load64(res);
    }

    /** procscoop_sph: one scoop at a time. */
    method ScanScalar(global: Context)
      requires Valid() && 64 * cacheSizeLocal <= cache.Length
      requires global.Valid() && global.State() == Init256() && global.Pending() == []
      modifies this
      ensures Progress() == Scan(job, old(Progress()), Hashes(Sig(), cache[..], cacheSizeLocal), cacheSizeLocal)
    {
      hide Init256, HashOf, Entry, Offer;
      ghost var hs := Hashes(Sig(), cache[..], cacheSizeLocal);
      for v := 0 to cacheSizeLocal
        invariant Progress() == Scan(job, old(Progress()), hs, v)
      {
        var wertung := HashOne(global, v);
        Judge(v, wertung);
      }
    }

    /** Every lane of the first eight rows of u1 holds the signature, and of the last eight of u2 the padding. */
    ghost predicate Prepared(u1: seq<word>, u2: seq<word>, lanes: nat)
      requires Valid() && |u1| == |u2| == lanes * 16
    {
      && (forall k | 0 <= k < 8 :: Vectors(u1, lanes, 16)[k] == VSet1(lanes, WordAt(Sig(), k)))
      && (forall k | 8 <= k < 16 :: Vectors(u2, lanes, 16)[k] == VSet1(lanes, if k == 8 then 0x80 else 0))
    }

    /** Copy the signature into the first half of u1 and the padding into the second half of u2, in every lane. */
    method PrepareInputs(lanes: nat, u1: array<word>, u2: array<word>)
      requires Valid() && u1 != u2 && u1.Length == u2.Length == lanes * 16
      modifies u1, u2
      ensures Prepared(u1[..], u2[..], lanes)
    {
      hide WordAt, Vectors, VSet1;
      for i := 0 to 8
        invariant forall k | 0 <= k < i :: Vectors(u1[..], lanes, 16)[k] == VSet1(lanes, WordAt(Sig(), k))
        invariant forall k | 8 <= k < i + 8 :: Vectors(u2[..], lanes, 16)[k] == VSet1(lanes, if k == 8 then 0x80 else 0)
      {
        StoreVec(u1, lanes, i, VSet1(lanes, WordAt(Sig(), i)));
        StoreVec(u2, lanes, i + 8, VSet1(lanes, if i == 0 then 0x80 else 0));
      }
    }

    /** Shuffle the scoops v .. v + lanes of the cache into the lanes: first halves to u1, second halves to u2. */
    method LoadScoops(lanes: nat, v: nat, u1: array<word>, u2: array<word>)
      requires Valid() && u1 != u2 && u1.Length == u2.Length == lanes * 16
      requires 64 * (v + lanes) <= cache.Length && Prepared(u1[..], u2[..], lanes)
      modifies u1, u2
      ensures Prepared(u1[..], u2[..], lanes)
      ensures forall l | 0 <= l < lanes ::
                && Pick(Vectors(u1[..], lanes, 16), lanes, l) == FirstBlock(Sig(), Entry(cache[..], v + l))
                && Pick(Vectors(u2[..], lanes, 16), lanes, l) == LastBlock(Entry(cache[..], v + l))
    {
      hide WordAt, Vectors, Entry, VSet1;
      ghost var c := cache[..];
      for i := 0 to 8
        invariant Prepared(u1[..], u2[..], lanes)
        invariant forall k, l | 8 <= k < i + 8 && 0 <= l < lanes ::
                    Vectors(u1[..], lanes, 16)[k][l] == WordAt(Entry(c, v + l), k - 8)
        invariant forall k, l | 0 <= k < i && 0 <= l < lanes ::
                    Vectors(u2[..], lanes, 16)[k][l] == WordAt(Entry(c, v + l), k + 8)
      {
        assert cache[..] == c;
        var lo := seq(lanes, l requires 0 <= l < lanes reads cache => WordAt(Entry(cache[..], v + l), i));
        var hi := seq(lanes, l requires 0 <= l < lanes reads cache => WordAt(Entry(cache[..], v + l), i + 8));
        StoreVec(u1, lanes, i + 8, lo);
        StoreVec(u2, lanes, i, hi);
      }
      Shuffled(u1[..], u2[..], lanes, c, v);
      assert cache[..] == c;
    }

    lemma Shuffled(u1: seq<word>, u2: seq<word>, lanes: nat, c: seq<byte>, v: nat)
      requires Valid() && |u1| == |u2| == lanes * 16 && 64 * (v + lanes) <= |c|
      requires Prepared(u1, u2, lanes)
      requires forall k, l | 8 <= k < 16 && 0 <= l < lanes ::
                 Vectors(u1, lanes, 16)[k][l] == WordAt(Entry(c, v + l), k - 8)
      requires forall k, l | 0 <= k < 8 && 0 <= l < lanes ::
                 Vectors(u2, lanes, 16)[k][l] == WordAt(Entry(c, v + l), k + 8)
      ensures forall l | 0 <= l < lanes ::
                && Pick(Vectors(u1, lanes, 16), lanes, l) == FirstBlock(Sig(), Entry(c, v + l))
                && Pick(Vectors(u2, lanes, 16), lanes, l) == LastBlock(Entry(c, v + l))
    {
      hide WordAt, Vectors, Entry;
    }

    /** Hash the scoops v .. v + lanes together, with a fresh copy of the global context. */
    method HashGroup(global: FastContext, stored: bool, v: nat, u1: array<word>, u2: array<word>) returns (ws: seq<nat>)
      requires Valid() && global.Valid() && global.AllLanes(Init256())
      requires u1 != u2 && u1.Length == u2.Length == global.lanes * 16
      requires 64 * (v + global.lanes) <= cache.Length && Prepared(u1[..], u2[..], global.lanes)
      modifies u1, u2
      ensures Prepared(u1[..], u2[..], global.lanes)
      ensures |ws| == global.lanes
      ensures forall l | 0 <= l < global.lanes :: ws[l] == HashOf(Sig(), Entry(cache[..], v + l))
    {
      hide Init256, HashOf, Join, LaneResult, Vectors, FastContext.Loaded, Entry, FirstBlock, LastBlock;
      var lanes := global.lanes;
      ghost var c := cache[..];
      var z := new FastContext.Copy(global);
      LoadScoops(lanes, v, u1, u2);
      assert cache[..] == c;
      ghost var w1, w2, s0 := u1[..], u2[..], z.Loaded();
      var dst;
      if stored {
        dst := z.OpenCloseStored(u1, u2);
      } else {
        dst := z.OpenCloseRegisters(u1, u2);
      }
      assert cache[..] == c && u1[..] == w1 && u2[..] == w2;
      ws := seq(lanes, l requires 0 <= l < lanes => Join(dst[l]));
      forall l | 0 <= l < lanes ensures ws[l] == HashOf(Sig(), Entry(c, v + l)) {
        LaneResultIsHash(Sig(), Entry(c, v + l));
        assert Lane(s0, lanes, l) == Init256();
      }
    }

    /** One group: hash its scoops and judge the smallest hash, the first one if several are equal. */
    method JudgeGroup(global: FastContext, stored: bool, v: nat, u1: array<word>, u2: array<word>, ghost hs: seq<nat>)
      requires Valid() && global.Valid() && global.AllLanes(Init256())
      requires u1 != u2 && u1.Length == u2.Length == global.lanes * 16
      requires Prepared(u1[..], u2[..], global.lanes)
      requires v + global.lanes <= |hs| && 64 * |hs| <= cache.Length && hs == Hashes(Sig(), cache[..], |hs|)
      modifies this, u1, u2
      ensures Prepared(u1[..], u2[..], global.lanes)
      ensures var b := Best(hs, v, global.lanes); Progress() == Offer(job, old(Progress()), b, hs[b])
    {
      hide Init256, HashOf, Entry, Offer, Prepared, WordAt, FastContext.AllLanes;
      var ws := HashGroup(global, stored, v, u1, u2);
      assert ws == hs[v..v + global.lanes];
      var posn := Smallest(ws);
      BestOfSlice(hs, v, ws, posn);
      Judge(v + posn, ws[posn]);
    }

    /**
     * procscoop_sse_fast, _avx_fast, _avx2_fast and _avx512_fast: a group of lanes at a time, the last group
     * filled up from whatever the cache holds behind the chunk.
     */
    method ScanLanes(global: FastContext, stored: bool)
      requires Valid() && global.Valid() && global.AllLanes(Init256())
      requires 64 * (global.lanes * Groups(cacheSizeLocal, global.lanes)) <= cache.Length
      modifies this
      ensures var g := Groups(cacheSizeLocal, global.lanes);
              Progress() == GroupScan(job, old(Progress()), Hashes(Sig(), cache[..], global.lanes * g), global.lanes, g)
    {
      hide Init256, HashOf, FastContext.AllLanes, Prepared, Offer, Best, AfterGroups;
      var lanes := global.lanes;
      var u1, u2 := new word[lanes * 16], new word[lanes * 16];
      PrepareInputs(lanes, u1, u2);
      ghost var c := cache[..];
      ghost var hs := Hashes(Sig(), c, lanes * Groups(cacheSizeLocal, lanes));
      StartGroups(job, Progress(), hs, lanes);
      var v := 0;
      while v < cacheSizeLocal
        invariant cache[..] == c && Prepared(u1[..], u2[..], lanes) && global.AllLanes(Init256())
        invariant AfterGroups(job, old(Progress()), Progress(), hs, lanes, v)
        decreases cacheSizeLocal - v
      {
        ghost var before := Progress();
        NextGroup(job, old(Progress()), before, hs, lanes, cacheSizeLocal, v);
        JudgeGroup(global, stored, v, u1, u2, hs);
        v := v + lanes;
      }
      AllGroups(job, old(Progress()), Progress(), hs, lanes, cacheSizeLocal, v);
    }
  }

  /** After whole groups up to scoop v the search stands at f. */
  ghost predicate AfterGroups(j: Job, f0: Found, f: Found, hs: seq<nat>, lanes: nat, v: nat) {
    && j.base > 0 && lanes > 0
    && exists g: nat :: lanes * g == v && v <= |hs| && f == GroupScan(j, f0, hs, lanes, g)
  }

  lemma StartGroups(j: Job, f: Found, hs: seq<nat>, lanes: nat)
    requires j.base > 0 && lanes > 0
    ensures AfterGroups(j, f, f, hs, lanes, 0)
  {
    assert lanes * 0 == 0;
    assert f == GroupScan(j, f, hs, lanes, 0);
  }

  lemma NextGroup(j: Job, f0: Found, f: Found, hs: seq<nat>, lanes: nat, n: nat, v: nat)
    requires AfterGroups(j, f0, f, hs, lanes, v) && v < n && |hs| == lanes * Groups(n, lanes)
    ensures v + lanes <= |hs|
    ensures var b := Best(hs, v, lanes); AfterGroups(j, f0, Offer(j, f, b, hs[b]), hs, lanes, v + lanes)
  {
    var g: nat :| lanes * g == v && v <= |hs| && f == GroupScan(j, f0, hs, lanes, g);
    hide Offer, Best, GroupScan;
    MulGap(lanes, Groups(n, lanes), g);
    MulGap(lanes, g, Groups(n, lanes));
    GroupStep(j, f0, hs, lanes, g);
  }

  lemma AllGroups(j: Job, f0: Found, f: Found, hs: seq<nat>, lanes: nat, n: nat, v: nat)
    requires AfterGroups(j, f0, f, hs, lanes, v) && v >= n && |hs| == lanes * Groups(n, lanes)
    ensures f == GroupScan(j, f0, hs, lanes, Groups(n, lanes))
  {
    var g: nat :| lanes * g == v && v <= |hs| && f == GroupScan(j, f0, hs, lanes, g);
    MulGap(lanes, Groups(n, lanes), g);
    MulGap(lanes, g, Groups(n, lanes));
  }

  /** The first smallest of the results, by the chain of comparisons after each group. */
  method Smallest(ws: seq<nat>) returns (posn: nat)
    requires ws != []
    ensures posn < |ws|
    ensures forall i | 0 <= i < |ws| :: ws[posn] <= ws[i]
    ensures forall i | 0 <= i < posn :: ws[posn] < ws[i]
  {
    var wertung := ws[0];
    posn := 0;
    for l := 1 to |ws|
      invariant posn < l && wertung == ws[posn]
      invariant forall i | 0 <= i < l :: ws[posn] <= ws[i]
      invariant forall i | 0 <= i < posn :: ws[posn] < ws[i]
    {
      if ws[l] < wertung {
        wertung, posn := ws[l], l;
      }
    }
  }

  lemma BestOfSlice(hs: seq<nat>, v: nat, ws: seq<nat>, posn: nat)
    requires posn < |ws| && v + |ws| <= |hs| && ws == hs[v..v + |ws|]
    requires forall i | 0 <= i < |ws| :: ws[posn] <= ws[i]
    requires forall i | 0 <= i < posn :: ws[posn] < ws[i]
    ensures Best(hs, v, |ws|) == v + posn && hs[v + posn] == ws[posn]
  {
    var b := Best(hs, v, |ws|);
    assert ws[b - v] == hs[b] && ws[posn] == hs[v + posn];
  }

  /** Write row i of an interleaved buffer of 16 rows, one word per lane. */
  method StoreVec(u: array<word>, lanes: nat, i: nat, x: Vec)
    requires u.Length == lanes * 16 && i < 16 && |x| == lanes
    modifies u
    ensures Vectors(u[..], lanes, 16)[i] == x
    ensures forall k | 0 <= k < 16 && k != i :: Vectors(u[..], lanes, 16)[k] == old(Vectors(u[..], lanes, 16)[k])
  {
    MulMonotone(lanes, i, 16);
    for l := 0 to lanes
      invariant u[lanes * i..lanes * i + l] == x[..l]
      invariant forall p | 0 <= p < u.Length && !(lanes * i <= p < lanes * i + lanes) :: u[p] == old(u[p])
    {
      u[lanes * i + l] := x[l];
    }
    forall k | 0 <= k < 16 && k != i ensures Vectors(u[..], lanes, 16)[k] == old(Vectors(u[..], lanes, 16)[k]) {
      MulMonotone(lanes, k, 16);
      MulGap(lanes, i, k);
      MulGap(lanes, k, i);
      assert u[lanes * k..lanes * k + lanes] == old(u[lanes * k..lanes * k + lanes]);
    }
  }

  /**
   * Every lane-parallel kernel ends with the scalar kernel's target on a chunk of n scoops if and only if no scoop
   * it reads behind the chunk has a better deadline; on a chunk that fills whole groups it reads none, and the
   * scalar kernel reports at least as often and every deadline it reports.
   */
  lemma LanesRefineScalar(j: Job, f: Found, sig: seq<byte>, cache: seq<byte>, n: nat, lanes: nat)
    requires j.base > 0 && lanes > 0 && |sig| == 32 && 64 * (lanes * Groups(n, lanes)) <= |cache|
    ensures var g := Groups(n, lanes);
            var hs := Hashes(sig, cache, lanes * g);
            var s, p := Scan(j, f, Hashes(sig, cache, n), n), GroupScan(j, f, hs, lanes, g);
            && (p.target == s.target <==> forall v | n <= v < lanes * g :: hs[v] / j.base >= s.target)
            && (n % lanes == 0 ==> lanes * g == n && Covers(j.base, s, p))
  {
    var g := Groups(n, lanes);
    var hs, xs := Hashes(sig, cache, lanes * g), Hashes(sig, cache, n);
    HashesPrefix(sig, cache, n, lanes * g);
    hide *;
    GroupsOfChunk(j, f, hs, xs, lanes, g, n);
  }

  lemma HashesPrefix(sig: seq<byte>, cache: seq<byte>, n: nat, m: nat)
    requires |sig| == 32 && n <= m && 64 * m <= |cache|
    ensures Hashes(sig, cache, n) <= Hashes(sig, cache, m)
  {
    hide HashOf;
  }
}
