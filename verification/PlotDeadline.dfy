/** A whole plot file mined: layout, reading, hashing and search against the reference calc_dl. */
module PlotDeadline {
  import opened Arith
  import opened Words
  import opened Shabal
  import opened ShabalStream
  import opened ShabalMemory
  import opened DeadlineSearch
  import opened ScanKernels
  import opened PlotScan
  import opened PlotRead
  import opened Deadline

  /** What a plot file stores for scoop s of plot data p: the scoop itself, or in PoC2 format its shuffled form. */
  function Stored(poc2: bool, p: seq<byte>, s: nat): (e: seq<byte>)
    requires |p| == 64 * NUM_SCOOPS && s < NUM_SCOOPS
    ensures |e| == 64
  {
    if poc2 then Mirrored(p, s, NUM_SCOOPS) else Words.Entry(p, s)
  }

  /** Taking the second half from the mirror scoop turns either format into the other. */
  lemma MirroringConverts(p2: bool, p: seq<byte>, s: nat)
    requires |p| == 64 * NUM_SCOOPS && s < NUM_SCOOPS
    ensures Stored(p2, p, s)[..32] + Stored(p2, p, 4095 - s)[32..] == Stored(!p2, p, s)
  {
  }

  /** The file stores the plot data of the account's nonces in its own format at the scheduler's offsets. */
  ghost predicate HoldsPlots(file: seq<byte>, f: PlotFile, accid: nat, nonces: nat)
    requires f.stagger > 0
  {
    forall k: nat, s: nat | k < nonces && s < NUM_SCOOPS :: HoldsSlot(file, f, accid, k, s)
  }

  ghost predicate HoldsSlot(file: seq<byte>, f: PlotFile, accid: nat, k: nat, s: nat)
    requires f.stagger > 0 && s < NUM_SCOOPS
  {
    var at := SlotOffset(f, k, s);
    at + 64 <= |file| && file[at..at + 64] == Stored(f.p2, PlotOf(accid, f.startNonce + k), s)
  }

  /** What th_read delivers for a slot is the scoop in the network's format, whatever format the file has. */
  lemma Delivered(file: seq<byte>, f: PlotFile, accid: nat, k: nat, s: nat, poc2: bool, start: nat, mirrorStart: nat, t: nat)
    requires f.stagger > 0 && s < NUM_SCOOPS
    requires HoldsSlot(file, f, accid, k, s) && HoldsSlot(file, f, accid, k, 4095 - s)
    requires start + 64 * t == SlotOffset(f, k, s) && mirrorStart + 64 * t == SlotOffset(f, k, 4095 - s)
    ensures start + 64 * t + 64 <= |file| && mirrorStart + 64 * t + 64 <= |file|
    ensures Wanted(file, start, mirrorStart, f.p2 != poc2, t) == Stored(poc2, PlotOf(accid, f.startNonce + k), s)
  {
    hide Stored, SlotOffset, PlotOf, Wanted;
    WantedIs(file, start, mirrorStart, f.p2 != poc2, t);
    MirroringConverts(f.p2, PlotOf(accid, f.startNonce + k), s);
  }

  lemma WantedIs(file: seq<byte>, start: nat, mirrorStart: nat, merge: bool, t: nat)
    requires start + 64 * t + 64 <= |file| && mirrorStart + 64 * t + 64 <= |file|
    ensures var a, b := file[start + 64 * t..start + 64 * t + 64], file[mirrorStart + 64 * t..mirrorStart + 64 * t + 64];
            Wanted(file, start, mirrorStart, merge, t) == if merge then a[..32] + b[32..] else a
  {
    if merge {
      var a, b := file[start + 64 * t..start + 64 * t + 64], file[mirrorStart + 64 * t..mirrorStart + 64 * t + 64];
      assert a[..32] == file[start + 64 * t..start + 64 * t + 32];
      assert b[32..] == file[mirrorStart + 64 * t + 32..mirrorStart + 64 * t + 64];
    }
  }

  /** The deadline hashes of a list of plot indices, by the reference. */
  function References(f: PlotFile, height: nat, sig: seq<byte>, accid: nat, ks: seq<nat>): (hs: seq<nat>)
    requires |sig| == 32
    ensures |hs| == |ks|
  {
    seq(|ks|, i requires 0 <= i < |ks| => DeadlineHash(height, sig, accid, f.startNonce + ks[i]))
  }

  /** The cache holds the scoops of a chunk in PoC2 form. */
  ghost predicate HoldsChunk(cache: seq<byte>, f: PlotFile, accid: nat, scoop: nat, c: Chunk)
    requires scoop < NUM_SCOOPS
  {
    && 64 * c.count <= |cache|
    && forall t | 0 <= t < c.count ::
         Words.Entry(cache, t) == Mirrored(PlotOf(accid, f.startNonce + c.index + t), scoop, NUM_SCOOPS)
  }

  /** Hashing what the cache holds gives the reference values, nonce for nonce. */
  lemma ChunkHashes(cache: seq<byte>, f: PlotFile, accid: nat, height: nat, sig: seq<byte>, c: Chunk)
    requires |sig| == 32 && HoldsChunk(cache, f, accid, ScoopOf(sig, height), c)
    ensures 64 * c.count <= |cache|
    ensures Hashes(sig, cache, c.count) == References(f, height, sig, accid, Range(c.index, c.count))
  {
    hide HashOf, Mirrored, PlotOf, ScoopOf;
    var r := Range(c.index, c.count);
    forall t | 0 <= t < c.count
      ensures Hashes(sig, cache, c.count)[t] == References(f, height, sig, accid, r)[t]
    {
      assert r[t] == c.index + t;
    }
  }

  /** A chunk's offsets, and that both stretches lie in the file. */
  lemma ChunkInFile(file: seq<byte>, f: PlotFile, accid: nat, nonces: nat, scoop: nat, bytesPerSector: nat, c: Chunk)
    requires f.stagger > 0 && bytesPerSector >= 64 && scoop < NUM_SCOOPS && RightChunk(f, scoop, bytesPerSector, c)
    requires c.index + c.count <= nonces && HoldsPlots(file, f, accid, nonces)
    ensures c.index % f.stagger * 64 <= c.start && c.index % f.stagger * 64 <= c.mirrorStart
    ensures c.start + 64 * c.count <= |file| && c.mirrorStart + 64 * c.count <= |file|
  {
    hide Stored, PlotOf, SlotOffset;
    OffsetAtLeast(f, c.index, scoop);
    OffsetAtLeast(f, c.index, 4095 - scoop);
    assert c.start + 64 * 0 == SlotOffset(f, c.index + 0, scoop);
    var t := c.count - 1;
    assert c.start + 64 * t == SlotOffset(f, c.index + t, scoop);
    assert HoldsSlot(file, f, accid, c.index + t, scoop) && HoldsSlot(file, f, accid, c.index + t, 4095 - scoop);
  }

  lemma OffsetAtLeast(f: PlotFile, k: nat, s: nat)
    requires f.stagger > 0
    ensures SlotOffset(f, k, s) >= k % f.stagger * 64
  {
    var st := f.stagger;
    MulGap(st, 0, k / st);
    MulGap(st, 0, s);
    var a, b := (k / st) * st, s * st;
    assert SlotOffset(f, k, s) == a * NONCE_BYTES + b * 64 + k % st * 64 + f.offset * 4096;
  }

  /** What th_read should leave in entry t of the cache is the PoC2 scoop of its nonce. */
  lemma ChunkWanted(file: seq<byte>, f: PlotFile, accid: nat, nonces: nat, scoop: nat, bytesPerSector: nat, c: Chunk, t: nat)
    requires f.stagger > 0 && bytesPerSector >= 64 && scoop < NUM_SCOOPS && RightChunk(f, scoop, bytesPerSector, c)
    requires t < c.count && c.index + c.count <= nonces && HoldsPlots(file, f, accid, nonces)
    ensures c.start + 64 * t + 64 <= |file| && c.mirrorStart + 64 * t + 64 <= |file|
    ensures Wanted(file, c.start, c.mirrorStart, !f.p2, t) ==
            Mirrored(PlotOf(accid, f.startNonce + c.index + t), scoop, NUM_SCOOPS)
  {
    hide PlotOf, SlotOffset, HoldsSlot, Wanted, Mirrored;
    var k := c.index + t;
    assert HoldsSlot(file, f, accid, k, scoop) && HoldsSlot(file, f, accid, k, 4095 - scoop);
    Delivered(file, f, accid, k, scoop, true, c.start, c.mirrorStart, t);
  }

  lemma ChunkHeld(file: seq<byte>, f: PlotFile, accid: nat, nonces: nat, scoop: nat, bytesPerSector: nat, c: Chunk,
                  cache: seq<byte>)
    requires f.stagger > 0 && bytesPerSector >= 64 && scoop < NUM_SCOOPS && RightChunk(f, scoop, bytesPerSector, c)
    requires c.index + c.count <= nonces && HoldsPlots(file, f, accid, nonces) && 64 * c.count <= |cache|
    requires c.start + 64 * c.count <= |file| && c.mirrorStart + 64 * c.count <= |file|
    requires forall t | 0 <= t < c.count :: Words.Entry(cache, t) == Wanted(file, c.start, c.mirrorStart, !f.p2, t)
    ensures HoldsChunk(cache, f, accid, scoop, c)
  {
    hide HoldsPlots, RightChunk, Wanted, Words.Entry, Mirrored, PlotOf;
    forall t | 0 <= t < c.count
      ensures Words.Entry(cache, t) == Mirrored(PlotOf(accid, f.startNonce + c.index + t), scoop, NUM_SCOOPS)
    {
      ChunkWanted(file, f, accid, nonces, scoop, bytesPerSector, c, t);
      assert Words.Entry(cache, t) == Wanted(file, c.start, c.mirrorStart, !f.p2, t);
    }
  }

  /** Read one chunk. */
  method ReadChunk(h: Handle, f: PlotFile, ghost accid: nat, ghost nonces: nat, ghost scoop: nat,
                   ghost bytesPerSector: nat, c: Chunk, flip0: bool, cache: array<byte>, mirror: array<byte>, readChunk: nat)
    returns (cont: bool, flip: bool)
    requires f.stagger > 0 && bytesPerSector >= 64 && scoop < NUM_SCOOPS && RightChunk(f, scoop, bytesPerSector, c)
    requires c.index + c.count <= nonces && HoldsPlots(h.file, f, accid, nonces)
    requires cache != mirror && readChunk > 0 && 64 * c.count <= cache.Length && 64 * c.count <= mirror.Length
    modifies h, cache, mirror
    ensures h.faults >= old(h.faults) && (cont ==> h.faults > old(h.faults))
    ensures h.faults == old(h.faults) ==> HoldsChunk(cache[..], f, accid, scoop, c)
  {
    var i := c.index % f.stagger;
    assert c.count > 0 && i + c.count <= f.stagger;
    ChunkInFile(h.file, f, accid, nonces, scoop, bytesPerSector, c);
    hide HoldsPlots, RightChunk, HoldsChunk, Wanted, Words.Entry, Mirrored, PlotOf, Needed;
    var start, mirrorStart := c.start - i * 64, c.mirrorStart - i * 64;
    assert start + i * 64 == c.start && mirrorStart + i * 64 == c.mirrorStart;
    var bytes, chunk;
    cont, bytes, chunk, flip :=
      ThRead(h, start, mirrorStart, i, f.stagger, c.count, flip0, f.p2, true, cache, mirror, readChunk);
    if h.faults == old(h.faults) {
      ChunkHeld(h.file, f, accid, nonces, scoop, bytesPerSector, c, cache[..]);
    }
  }

  /** The least of t0 and one list of deadlines, then of a second list, is the least over both. */
  lemma LeastAppend(t0: nat, t1: nat, t2: nat, base: nat, xs: seq<nat>, ys: seq<nat>)
    requires base > 0 && IsLeast(t1, t0, base, xs, 0, |xs|) && IsLeast(t2, t1, base, ys, 0, |ys|)
    ensures IsLeast(t2, t0, base, xs + ys, 0, |xs + ys|)
  {
    var zs := xs + ys;
    forall v | 0 <= v < |zs| ensures t2 <= zs[v] / base {
      if v >= |xs| {
        assert zs[v] == ys[v - |xs|];
      }
    }
    if t2 != t1 {
      var v :| 0 <= v < |ys| && t2 == ys[v] / base;
      assert zs[|xs| + v] == ys[v];
    } else if t1 != t0 {
      var v :| 0 <= v < |xs| && t1 == xs[v] / base;
      assert zs[v] == xs[v];
    }
  }

  /** The indices of one chunk of the list lie among the indices of all. */
  lemma {:induction false} ChunkInside(chunks: seq<Chunk>, j: nat, nonces: nat)
    requires j < |chunks| && Indices(chunks) == Range(0, nonces) && chunks[j].count > 0
    ensures chunks[j].index + chunks[j].count <= nonces
  {
    IndicesPrefix(chunks, j + 1);
    var r := Indices(chunks[..j + 1]);
    assert chunks[..j + 1] == chunks[..j] + [chunks[j]];
    IndicesAppend(chunks[..j], chunks[j]);
    var last := chunks[j].index + chunks[j].count - 1;
    assert Range(chunks[j].index, chunks[j].count)[chunks[j].count - 1] == last;
    assert r[|r| - 1] == last;
    assert Range(0, nonces)[|r| - 1] == |r| - 1;
  }

  lemma {:induction false} IndicesPrefix(chunks: seq<Chunk>, j: nat)
    requires j <= |chunks|
    ensures Indices(chunks[..j]) <= Indices(chunks)
    decreases |chunks| - j
  {
    if j == |chunks| {
      assert chunks[..j] == chunks;
    } else {
      IndicesPrefix(chunks, j + 1);
      assert chunks[..j + 1] == chunks[..j] + [chunks[j]];
      IndicesAppend(chunks[..j], chunks[j]);
    }
  }

  lemma ReferencesAppend(f: PlotFile, height: nat, sig: seq<byte>, accid: nat, xs: seq<nat>, ys: seq<nat>)
    requires |sig| == 32
    ensures References(f, height, sig, accid, xs + ys) ==
            References(f, height, sig, accid, xs) + References(f, height, sig, accid, ys)
  {
    hide DeadlineHash;
  }

  lemma SearchAppend(job: Job, t0: nat, t: nat, reports: seq<Report>, xs: seq<nat>, hs: seq<nat>)
    requires job.base > 0 && IsLeast(t, t0, job.base, xs, 0, |xs|)
    ensures IsLeast(Scan(job, Found(t, reports), hs, |hs|).target, t0, job.base, xs + hs, 0, |xs + hs|)
  {
    hide IsLeast, Scan;
    ScanTarget(job, Found(t, reports), hs);
    LeastAppend(t0, t, Scan(job, Found(t, reports), hs, |hs|).target, job.base, xs, hs);
  }

  /** One more chunk in the cache: its hashes continue the reference values of the chunks before it. */
  lemma OneChunk(f: PlotFile, height: nat, sig: seq<byte>, accid: nat, chunks: seq<Chunk>, j: nat, cache: seq<byte>)
    requires |sig| == 32 && j < |chunks| && HoldsChunk(cache, f, accid, ScoopOf(sig, height), chunks[j])
    ensures References(f, height, sig, accid, Indices(chunks[..j + 1])) ==
            References(f, height, sig, accid, Indices(chunks[..j])) + Hashes(sig, cache, chunks[j].count)
  {
    hide HoldsChunk, Hashes, ScoopOf, References, Indices, Range, DeadlineHash, HashOf, PlotOf, Mirrored, Words.Entry;
    var c := chunks[j];
    ChunkHashes(cache, f, accid, height, sig, c);
    assert chunks[..j + 1] == chunks[..j] + [c];
    IndicesAppend(chunks[..j], c);
    ReferencesAppend(f, height, sig, accid, Indices(chunks[..j]), Range(c.index, c.count));
  }

  /** Falling deadlines followed by further falling ones. */
  lemma DescendsAppend(base: nat, t0: nat, t1: nat, t2: nat, xs: seq<Report>, ys: seq<Report>)
    requires base > 0 && Descends(base, t0, xs, t1) && Descends(base, t1, ys, t2)
    ensures Descends(base, t0, xs + ys, t2)
  {
  }

  /** A report of calc_dl's value for some nonce of the plot. */
  ghost predicate TrueReport(f: PlotFile, nonces: nat, height: nat, sig: seq<byte>, accid: nat, r: Report)
    requires |sig| == 32
  {
    exists k: nat :: k < nonces && r == ReportOf(f, height, sig, accid, k)
  }

  function ReportOf(f: PlotFile, height: nat, sig: seq<byte>, accid: nat, k: nat): Report
    requires |sig| == 32
  {
    Report(accid, height, Wrap(f.startNonce + k), DeadlineHash(height, sig, accid, f.startNonce + k))
  }

  /** What the search reports for a chunk in the cache is true of the plot. */
  lemma GenuineIsTrue(f: PlotFile, nonces: nat, height: nat, sig: seq<byte>, accid: nat, c: Chunk, cache: seq<byte>,
                      job: Job, r: Report)
    requires |sig| == 32 && HoldsChunk(cache, f, accid, ScoopOf(sig, height), c) && c.index + c.count <= nonces
    requires job.accid == accid && job.height == height && job.nonce == f.startNonce + c.index
    requires 64 * c.count <= |cache| && Genuine(job, Hashes(sig, cache, c.count), r)
    ensures TrueReport(f, nonces, height, sig, accid, r)
  {
    hide HoldsChunk, Hashes, ScoopOf, DeadlineHash, References, Range, Wrap;
    ChunkHashes(cache, f, accid, height, sig, c);
    var hs := References(f, height, sig, accid, Range(c.index, c.count));
    var v: nat :| v < |hs| && r == Report(job.accid, job.height, Wrap(job.nonce + v), hs[v]);
    ReferenceAt(f, height, sig, accid, c.index, c.count, v);
    assert job.nonce + v == f.startNonce + (c.index + v);
    assert r == ReportOf(f, height, sig, accid, c.index + v);
  }

  lemma ReferenceAt(f: PlotFile, height: nat, sig: seq<byte>, accid: nat, from: nat, count: nat, v: nat)
    requires |sig| == 32 && v < count
    ensures References(f, height, sig, accid, Range(from, count))[v] == DeadlineHash(height, sig, accid, f.startNonce + (from + v))
  {
    hide DeadlineHash;
    assert Range(from, count)[v] == from + v;
  }

  /**
   * Hash and search a chunk with the selected kernel: scalar, or the lanes of `fast`. The target is the same, and
   * either way the new reports fall strictly to it and are of the chunk's own nonces and hashes.
   */
  method SearchChunk(arg: HashArg, global: Context, fast: FastContext?, stored: bool)
    requires arg.Valid() && 64 * arg.cacheSizeLocal <= arg.cache.Length && arg.reports == []
    requires global.Valid() && global.State() == Init256() && global.Pending() == []
    requires fast != null ==> fast.Valid() && fast.AllLanes(Init256()) && arg.cacheSizeLocal % fast.lanes == 0
    modifies arg
    ensures var n := arg.cacheSizeLocal; var hs := Hashes(arg.Sig(), arg.cache[..], n);
            && arg.targetDl == Scan(arg.job, Found(old(arg.targetDl), []), hs, n).target
            && Descends(arg.job.base, old(arg.targetDl), arg.reports, arg.targetDl)
            && forall r | r in arg.reports :: Genuine(arg.job, hs, r)
  {
    hide Init256, Hashes, Scan, GroupScan, FastContext.AllLanes, Groups, Descends, Genuine;
    ghost var f, n := arg.Progress(), arg.cacheSizeLocal;
    ghost var hs := Hashes(arg.Sig(), arg.cache[..], n);
    if fast == null {
      arg.ScanScalar(global);
      ScanReports(arg.job, f, hs, n);
    } else {
      LanesRefineScalar(arg.job, f, arg.Sig(), arg.cache[..], n, fast.lanes);
      arg.ScanLanes(fast, stored);
      GroupScanReports(arg.job, f, hs, fast.lanes, Groups(n, fast.lanes));
    }
    assert arg.reports[|f.reports|..] == arg.reports;
  }

  /** What a scan of the plot should have found: the least deadline, and true reports falling strictly to it. */
  ghost predicate FoundBest(f: PlotFile, nonces: nat, ks: seq<nat>, height: nat, sig: seq<byte>, accid: nat, base: nat,
                            target0: nat, target: nat, reports: seq<Report>)
    requires |sig| == 32 && base > 0
  {
    && IsLeast(target, target0, base, References(f, height, sig, accid, ks), 0, |ks|)
    && forall r | r in reports :: TrueReport(f, nonces, height, sig, accid, r)
  }

  /** The chunk is in the cache, and has been searched from target t1 to t2 with these reports. */
  ghost predicate Searched(cache: seq<byte>, f: PlotFile, accid: nat, height: nat, sig: seq<byte>, base: nat, c: Chunk,
                           t1: nat, t2: nat, rs: seq<Report>)
    requires |sig| == 32 && base > 0
  {
    && HoldsChunk(cache, f, accid, ScoopOf(sig, height), c)
    && c.nonce == f.startNonce + c.index
    && var job := Job(accid, height, c.nonce, base); var hs := Hashes(sig, cache, c.count);
       && t2 == Scan(job, Found(t1, []), hs, c.count).target
       && forall r | r in rs :: Genuine(job, hs, r)
  }

  /** One more chunk, read and searched. */
  lemma FoundMore(f: PlotFile, nonces: nat, height: nat, sig: seq<byte>, accid: nat, chunks: seq<Chunk>, j: nat, cache: seq<byte>,
                  base: nat, t0: nat, t1: nat, t2: nat, xs: seq<Report>, ys: seq<Report>)
    requires |sig| == 32 && base > 0 && j < |chunks| && chunks[j].index + chunks[j].count <= nonces
    requires FoundBest(f, nonces, Indices(chunks[..j]), height, sig, accid, base, t0, t1, xs)
    requires Searched(cache, f, accid, height, sig, base, chunks[j], t1, t2, ys)
    ensures FoundBest(f, nonces, Indices(chunks[..j + 1]), height, sig, accid, base, t0, t2, xs + ys)
  {
    var c := chunks[j];
    assert 64 * c.count <= |cache|;
    hide HoldsChunk, ScoopOf, Scan, IsLeast, Hashes, Genuine, TrueReport, References, Indices;
    var job := Job(accid, height, c.nonce, base);
    OneChunk(f, height, sig, accid, chunks, j, cache);
    SearchAppend(job, t0, t1, [], References(f, height, sig, accid, Indices(chunks[..j])), Hashes(sig, cache, c.count));
    forall r | r in ys ensures TrueReport(f, nonces, height, sig, accid, r) {
      GenuineIsTrue(f, nonces, height, sig, accid, c, cache, job, r);
    }
  }

  /** One chunk: read it, and unless a seek failed hash and search it. */
  method MineChunk(h: Handle, f: PlotFile, ghost nonces: nat, ghost scoop: nat, ghost grid: nat, c: Chunk, flip0: bool,
                   cache: array<byte>, mirror: array<byte>, readChunk: nat, accid: nat, height: nat, signature: seq<byte>,
                   base: nat, target0: nat, global: Context, fast: FastContext?, stored: bool)
    returns (cont: bool, flip: bool, target: nat, reports: seq<Report>)
    requires |signature| == 33 && base > 0 && readChunk > 0 && scoop == ScoopOf(signature[..32], height)
    requires f.stagger > 0 && grid >= 64 && RightChunk(f, scoop, grid, c) && c.nonce == f.startNonce + c.index
    requires c.index + c.count <= nonces && HoldsPlots(h.file, f, accid, nonces)
    requires cache != mirror && 64 * c.count <= cache.Length && 64 * c.count <= mirror.Length
    requires global.Valid() && global.State() == Init256() && global.Pending() == []
    requires cache !in global.Repr && mirror !in global.Repr
    requires fast != null ==> fast.Valid() && fast.AllLanes(Init256()) && c.count % fast.lanes == 0
    requires fast != null ==> cache as object != fast.state && mirror as object != fast.state
    modifies h, cache, mirror
    ensures h.faults >= old(h.faults) && (cont ==> h.faults > old(h.faults))
    ensures !cont ==> Descends(base, target0, reports, target)
    ensures h.faults == old(h.faults) ==> Searched(cache[..], f, accid, height, signature[..32], base, c, target0, target, reports)
  {
    hide HoldsPlots, HoldsChunk, RightChunk, Init256, Hashes, Scan, ScoopOf, FastContext.AllLanes, Descends, Genuine;
    target, reports := target0, [];
    cont, flip := ReadChunk(h, f, accid, nonces, scoop, grid, c, flip0, cache, mirror, readChunk);
    if !cont {
      var arg := new HashArg(Job(accid, height, c.nonce, base), signature, c.count, cache, target0);
      SearchChunk(arg, global, fast, stored);
      target, reports := arg.targetDl, arg.reports;
    }
  }

  /**
   * Mining one plot file for a block: every chunk is read, hashed and searched with the target found so far. The
   * reports' deadlines fall strictly, down to the final target. If no read fails, that is the least of the initial
   * target and calc_dl's deadline of every nonce in the plot, and every report is of such a nonce with calc_dl's value:
   * with the scalar kernel, and with any number of lanes that divides the staggers and the chunk size.
   */
  method MineFile(f: PlotFile, nonces: nat, chunk: nat, bytesPerSector: nat, h: Handle, accid: nat, height: nat,
                  signature: seq<byte>, base: nat, target0: nat, readChunk: nat, global: Context,
                  fast: FastContext?, stored: bool)
    returns (target: nat, reports: seq<Report>)
    requires f.stagger > 0 && f.stagger < 0x8000_0000 && bytesPerSector >= 64 && Scannable(f, nonces, bytesPerSector)
    requires chunk > 0 && chunk % (bytesPerSector / 64) == 0 && readChunk > 0 && base > 0 && |signature| == 33
    requires nonces > 0 && HoldsPlots(h.file, f, accid, nonces)
    requires nonces % f.stagger == 0 || (nonces < f.stagger && nonces % chunk == 0) // the plot is read exactly
    requires global.Valid() && global.State() == Init256() && global.Pending() == []
    requires fast != null ==> fast.Valid() && fast.AllLanes(Init256()) && f.stagger % fast.lanes == chunk % fast.lanes == 0
    modifies h
    ensures Descends(base, target0, reports, target)
    ensures h.faults >= old(h.faults)
    ensures h.faults == old(h.faults) ==>
              FoundBest(f, nonces, Range(0, nonces), height, signature[..32], accid, base, target0, target, reports)
  {
    hide IsLeast, HoldsPlots, HoldsChunk, RightChunk, Indices, References, Blocks, Extent, Init256, Hashes, Scan, ScoopOf,
         FastContext.AllLanes, FoundBest, Descends, Genuine, Scannable;
    ghost var sig := signature[..32];
    var scoop := CalcScoop(signature, height, global);
    ghost var grid := if fast == null then bytesPerSector else 64 * fast.lanes;
    assert Scannable(f, nonces, grid) && chunk % (grid / 64) == 0 by {
      if fast != null {
        LanesScannable(f, nonces, chunk, fast.lanes);
      }
    }
    var chunks := ScanFile(f, nonces, scoop, chunk, grid);
    ReadsExactlyThePlot(nonces, f.stagger, chunk);
    var cache, mirror := new byte[64 * chunk], new byte[64 * chunk];
    var flip := false;
    target, reports := target0, [];
    NothingYet(f, nonces, height, sig, accid, base, target0);
    assert chunks[..0] == [];
    for j := 0 to |chunks|
      invariant cache != mirror && cache.Length == mirror.Length == 64 * chunk && fresh(cache) && fresh(mirror)
      invariant Descends(base, target0, reports, target)
      invariant h.faults >= old(h.faults)
      invariant h.faults == old(h.faults) ==>
                  FoundBest(f, nonces, Indices(chunks[..j]), height, sig, accid, base, target0, target, reports)
    {
      assert chunks[j] in chunks;
      CountWhole(f, scoop, grid, chunks[j]);
      ChunkInside(chunks, j, nonces);
      var cont, t, rs;
      cont, flip, t, rs := MineChunk(h, f, nonces, scoop, grid, chunks[j], flip, cache, mirror, readChunk,
                                     accid, height, signature, base, target, global, fast, stored);
      if cont {
        break; // cont stays set: nothing more of this file is hashed
      }
      DescendsAppend(base, target0, target, t, reports, rs);
      if h.faults == old(h.faults) {
        FoundMore(f, nonces, height, sig, accid, chunks, j, cache[..], base, target0, target, t, reports, rs);
      }
      target, reports := t, reports + rs;
    }
    assert chunks[..|chunks|] == chunks;
  }

  /** With staggers and chunks of whole groups of lanes, the scan is on the grid of the lanes. */
  lemma LanesScannable(f: PlotFile, nonces: nat, chunk: nat, lanes: nat)
    requires f.stagger > 0 && chunk > 0 && nonces > 0 && lanes > 0 && f.stagger % lanes == chunk % lanes == 0
    requires nonces % f.stagger == 0 || (nonces < f.stagger && nonces % chunk == 0)
    ensures Scannable(f, nonces, 64 * lanes) && (64 * lanes) / 64 == lanes
  {
    AtLeast(f.stagger, lanes);
    AtLeast(chunk, lanes);
    if nonces % f.stagger == 0 {
      AtLeast(nonces, f.stagger);
    } else {
      AtLeast(nonces, chunk);
    }
  }

  lemma AtLeast(x: nat, d: nat)
    requires x > 0 && d > 0 && x % d == 0
    ensures x >= d
  {
  }

  lemma NothingYet(f: PlotFile, nonces: nat, height: nat, sig: seq<byte>, accid: nat, base: nat, t: nat)
    requires |sig| == 32 && base > 0
    ensures FoundBest(f, nonces, Indices([]), height, sig, accid, base, t, t, []) && Descends(base, t, [], t)
  {
  }

  lemma CountWhole(f: PlotFile, scoop: nat, bytesPerSector: nat, c: Chunk)
    requires f.stagger > 0 && bytesPerSector >= 64 && scoop < NUM_SCOOPS && RightChunk(f, scoop, bytesPerSector, c)
    ensures c.count > 0 && c.count % (bytesPerSector / 64) == 0 && c.nonce == f.startNonce + c.index
  {
  }
}
