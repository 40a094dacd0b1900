/** sche_runnew: which parts of a plot file are read, in which chunks, and under which nonces they are hashed. */
module PlotScan {
  import opened Arith
  import opened Options

  const NONCE_BYTES: nat := 262144  // 4096 scoops of 64 bytes

  /** t_files, as far as the scan uses it. */
  datatype PlotFile = PlotFile(startNonce: nat, nonces: nat, stagger: nat, offset: nat, size: nat, p2: bool, bfs: bool)

  /** The cache sizes in nonces and whether the network wants the PoC2 layout. */
  datatype Config = Config(cacheSize1: nat, cacheSize2: nat, poc2: bool)

  /** One read handed to the hasher: the first plot index, how many, both file offsets, and the nonce it is labelled. */
  datatype Chunk = Chunk(index: nat, count: nat, start: nat, mirrorStart: nat, nonce: nat)

  /** The number of nonces to scan: damaged plots are cut to whole staggers, or skipped when the scoop is missing. */
  function EffectiveNonces(f: PlotFile, scoop: nat): Option<nat>
    requires f.stagger > 0
  {
    if f.nonces == f.size / NONCE_BYTES then Some(f.nonces)
    else if f.nonces != f.stagger then Some(((f.size / NONCE_BYTES) / f.stagger) * f.stagger)
    else if scoop > f.size / (f.stagger * 64) then None
    else Some(f.nonces)
  }

  /** Staggers and plots smaller than a sector, and staggers off the sector grid, are skipped. */
  predicate Scannable(f: PlotFile, nonces: nat, bytesPerSector: nat)
    requires bytesPerSector >= 64
  {
    && f.stagger * 64 >= bytesPerSector
    && nonces * 64 >= bytesPerSector
    && f.stagger % (bytesPerSector / 64) == 0
  }

  /** With sectors of g slots: the stagger is whole sectors, at least one, and so many nonces there are. */
  lemma SectorGrid(f: PlotFile, nonces: nat, g: nat)
    requires g > 0
    ensures Scannable(f, nonces, 64 * g) <==> f.stagger > 0 && f.stagger % g == 0 && nonces >= g
  {
    assert (64 * g) / 64 == g;
    if f.stagger > 0 && f.stagger % g == 0 {
      assert f.stagger == g * (f.stagger / g);
      MulGap(g, 1, f.stagger / g);
      assert g * 0 == 0;
    }
  }

  /** The chunk size before rounding. */
  function CacheChoice(f: PlotFile, nonces: nat, c: Config): nat {
    if f.p2 != c.poc2 then
      if f.stagger == nonces && c.cacheSize2 < f.stagger then c.cacheSize2 else f.stagger
    else if f.stagger == nonces && c.cacheSize1 < f.stagger then c.cacheSize1
    else if !f.bfs then f.stagger
    else c.cacheSize1
  }

  /** The chunk size, rounded down to whole sectors. */
  function ChunkSize(f: PlotFile, nonces: nat, c: Config, bytesPerSector: nat): (s: nat)
    requires bytesPerSector >= 64
    ensures s % (bytesPerSector / 64) == 0
  {
    var g := bytesPerSector / 64;
    var q := CacheChoice(f, nonces, c) / g;
    assert (q * g) % g == 0 by { DivModUnique(q * g, g, q, 0); }
    q * g
  }

  lemma RoundDown(x: nat, g: nat)
    requires g > 0
    ensures (x / g) * g > 0 <==> x >= g
    ensures x % g == 0 ==> (x / g) * g == x
  {
    assert x == g * (x / g) + x % g;
    MulGap(g, 1, x / g);
    MulGap(g, x / g, 0);
  }

  /** The chunk size is positive exactly when the chosen cache holds a sector; the stagger itself always does. */
  lemma ChunkSizePositive(f: PlotFile, nonces: nat, c: Config, bytesPerSector: nat)
    requires bytesPerSector >= 64 && f.stagger > 0 && Scannable(f, nonces, bytesPerSector)
    ensures ChunkSize(f, nonces, c, bytesPerSector) > 0 <==> CacheChoice(f, nonces, c) >= bytesPerSector / 64
    ensures CacheChoice(f, nonces, c) == f.stagger ==> ChunkSize(f, nonces, c, bytesPerSector) == f.stagger
  {
    RoundDown(CacheChoice(f, nonces, c), bytesPerSector / 64);
  }

  function Smaller(x: nat, y: nat): nat {
    if x < y then x else y
  }

  /**
   * The chunk size is the largest on the sector grid that fits the smaller of cache and stagger in a plot of one
   * stagger, the stagger in any other plot, and the first cache in a BFS plot of the wanted layout. The second cache
   * is for plots that must be converted.
   */
  lemma ChunkSizeIs(f: PlotFile, nonces: nat, c: Config, bytesPerSector: nat)
    requires bytesPerSector >= 64
    ensures var g, s := bytesPerSector / 64, ChunkSize(f, nonces, c, bytesPerSector);
            && (f.p2 != c.poc2 && f.stagger == nonces ==> s <= Smaller(c.cacheSize2, f.stagger) < s + g)
            && (f.p2 != c.poc2 && f.stagger != nonces ==> s <= f.stagger < s + g)
            && (f.p2 == c.poc2 && !f.bfs && f.stagger == nonces ==> s <= Smaller(c.cacheSize1, f.stagger) < s + g)
            && (f.p2 == c.poc2 && !f.bfs && f.stagger != nonces ==> s <= f.stagger < s + g)
            && (f.p2 == c.poc2 && f.bfs ==> s <= c.cacheSize1 < s + g)
  {
    var m, g := CacheChoice(f, nonces, c), bytesPerSector / 64;
    assert m == g * (m / g) + m % g;
  }

  /** Where the 64 bytes of scoop s of plot index k lie. */
  function SlotOffset(f: PlotFile, k: nat, s: nat): nat
    requires f.stagger > 0
  {
    (k / f.stagger) * f.stagger * NONCE_BYTES + s * f.stagger * 64 + (k % f.stagger) * 64 + f.offset * 4096
  }

  /** The plot begins with slot (0, 0); scoops of one stagger lie nonce after nonce, then the next scoop, then the next stagger. */
  lemma LayoutSteps(f: PlotFile, k: nat, s: nat)
    requires f.stagger > 0
    ensures SlotOffset(f, 0, 0) == f.offset * 4096
    ensures k % f.stagger + 1 < f.stagger ==> SlotOffset(f, k + 1, s) == SlotOffset(f, k, s) + 64
    ensures SlotOffset(f, k, s + 1) == SlotOffset(f, k, s) + 64 * f.stagger
    ensures SlotOffset(f, k + f.stagger, s) == SlotOffset(f, k, s) + 4096 * (64 * f.stagger)
  {
    var st, q, r := f.stagger, k / f.stagger, k % f.stagger;
    hide SlotOffset;
    SlotOffsetAt(f, 0, 0, 0, 0);
    SlotOffsetAt(f, k, s, q, r);
    SlotOffsetAt(f, k, s + 1, q, r);
    SlotOffsetAt(f, k + st, s, q + 1, r);
    if r + 1 < st {
      SlotOffsetAt(f, k + 1, s, q, r + 1);
    }
  }

  lemma SlotOffsetAt(f: PlotFile, k: nat, s: nat, q: nat, r: nat)
    requires f.stagger > 0 && k == f.stagger * q + r && r < f.stagger
    ensures SlotOffset(f, k, s) == (f.stagger * q) * NONCE_BYTES + (f.stagger * s) * 64 + r * 64 + f.offset * 4096
  {
    DivModUnique(k, f.stagger, q, r);
  }

  /** The position of slot (k, s), counted in slots from the start of the plot. */
  function Slot(f: PlotFile, k: nat, s: nat): nat
    requires f.stagger > 0
  {
    f.stagger * (4096 * (k / f.stagger) + s) + k % f.stagger
  }

  lemma SlotOffsetIs(f: PlotFile, k: nat, s: nat)
    requires f.stagger > 0
    ensures SlotOffset(f, k, s) == 64 * Slot(f, k, s) + f.offset * 4096
  {
    var q, st := k / f.stagger, f.stagger;
    assert st * (4096 * q + s) == 4096 * (q * st) + s * st;
  }

  lemma SlotParts(f: PlotFile, k: nat, s: nat)
    requires f.stagger > 0
    ensures Slot(f, k, s) / f.stagger == 4096 * (k / f.stagger) + s
    ensures Slot(f, k, s) % f.stagger == k % f.stagger
  {
    DivModUnique(Slot(f, k, s), f.stagger, 4096 * (k / f.stagger) + s, k % f.stagger);
  }

  lemma SlotInjective(f: PlotFile, k1: nat, s1: nat, k2: nat, s2: nat)
    requires f.stagger > 0 && s1 < 4096 && s2 < 4096
    ensures Slot(f, k1, s1) == Slot(f, k2, s2) ==> k1 == k2 && s1 == s2
  {
    hide Slot;
    SlotParts(f, k1, s1);
    SlotParts(f, k2, s2);
    SameQuotient(k1, k2, f.stagger);
  }

  lemma SameQuotient(x: nat, y: nat, d: nat)
    requires d > 0
    ensures x / d == y / d && x % d == y % d ==> x == y
  {
    assert x == d * (x / d) + x % d && y == d * (y / d) + y % d;
  }

  /** Slots of different (index, scoop) pairs do not overlap. */
  lemma SlotsDisjoint(f: PlotFile, k1: nat, s1: nat, k2: nat, s2: nat)
    requires f.stagger > 0 && s1 < 4096 && s2 < 4096 && (k1, s1) != (k2, s2)
    ensures SlotOffset(f, k1, s1) + 64 <= SlotOffset(f, k2, s2) || SlotOffset(f, k2, s2) + 64 <= SlotOffset(f, k1, s1)
  {
    hide Slot, SlotOffset;
    SlotOffsetIs(f, k1, s1);
    SlotOffsetIs(f, k2, s2);
    SlotInjective(f, k1, s1, k2, s2);
  }

  /** A plot of whole staggers holds all its slots: nothing past `nonces` nonces is read for an index below it. */
  lemma SlotInFile(f: PlotFile, nonces: nat, k: nat, s: nat)
    requires f.stagger > 0 && nonces % f.stagger == 0 && k < nonces && s < 4096
    ensures SlotOffset(f, k, s) + 64 <= f.offset * 4096 + nonces * NONCE_BYTES
  {
    hide Slot, SlotOffset;
    SlotOffsetIs(f, k, s);
    var st, q := f.stagger, k / f.stagger;
    SlotParts(f, k, s);
    SlotBelow(Slot(f, k, s), st, 4096 * q + s, k % st, q, s, nonces / st);
    BelowBlocks(nonces, k, st);
    assert st * (4096 * (nonces / st)) == 4096 * (st * (nonces / st));
  }

  lemma BelowBlocks(nonces: nat, k: nat, st: nat)
    requires st > 0 && nonces % st == 0 && k < nonces
    ensures nonces == st * (nonces / st) && k / st < nonces / st
  {
    assert nonces == st * (nonces / st) + nonces % st && k == st * (k / st) + k % st;
    MulGap(st, nonces / st, k / st);
  }

  lemma SlotBelow(slot: nat, st: nat, row: nat, r: nat, q: nat, s: nat, b: nat)
    requires st > 0 && slot / st == row && slot % st == r && row == 4096 * q + s && s < 4096
    ensures q < b ==> slot < st * (4096 * b)
  {
    assert slot == st * row + r;
    MulGap(st, row, 4096 * b);
  }

  /** The chunk as th_read leaves it: no longer than what is left of the stagger. */
  function Shorten(i: nat, chunk: nat, stagger: nat): nat
    requires i <= stagger
  {
    if i + chunk > stagger then stagger - i else chunk
  }

  /** How many indices of each stagger are read: all of them, or whole chunks until `nonces` is reached. */
  function Extent(nonces: nat, stagger: nat, chunk: nat): nat
    requires chunk > 0
  {
    if stagger <= nonces then stagger
    else
      var up := chunk * ((nonces + chunk - 1) / chunk);
      if up < stagger then up else stagger
  }

  /** The plot indices read, in order: the first `extent` of each of the first b staggers. */
  function Blocks(b: nat, stagger: nat, extent: nat): (ks: seq<nat>)
    ensures |ks| == b * extent
  {
    if b == 0 then []
    else
      assert b * extent == (b - 1) * extent + extent;
      Blocks(b - 1, stagger, extent) + seq(extent, i requires 0 <= i < extent => (b - 1) * stagger + i)
  }

  /** The plot indices a list of chunks covers, in order. */
  function Indices(chunks: seq<Chunk>): seq<nat> {
    if chunks == [] then []
    else Indices(chunks[..|chunks| - 1]) + Range(chunks[|chunks| - 1].index, chunks[|chunks| - 1].count)
  }

  function Range(from: nat, count: nat): (r: seq<nat>)
    ensures |r| == count
  {
    seq(count, t requires 0 <= t < count => from + t)
  }

  lemma IndicesAppend(chunks: seq<Chunk>, c: Chunk)
    ensures Indices(chunks + [c]) == Indices(chunks) + Range(c.index, c.count)
  {
    assert (chunks + [c])[..|chunks|] == chunks;
  }

  /** A chunk is right: whole sectors inside one stagger, at its slots' offsets, labelled with its first nonce. */
  ghost predicate RightChunk(f: PlotFile, scoop: nat, bytesPerSector: nat, c: Chunk)
    requires f.stagger > 0 && bytesPerSector >= 64 && scoop < 4096
  {
    && c.count > 0 && c.count % (bytesPerSector / 64) == 0
    && c.index % f.stagger + c.count <= f.stagger
    && c.nonce == f.startNonce + c.index
    && forall t | 0 <= t < c.count ::
         && c.start + 64 * t == SlotOffset(f, c.index + t, scoop)
         && c.mirrorStart + 64 * t == SlotOffset(f, c.index + t, 4095 - scoop)
  }

  /** Slot (b * stagger + i + t, scoop) is t slots after what the scan computes for chunk i of stagger b. */
  lemma OffsetOf(f: PlotFile, scoop: nat, n: nat, b: nat, i: nat, t: nat)
    requires f.stagger > 0 && n == f.stagger * b && i + t < f.stagger
    ensures n * 4096 * 64 + scoop * f.stagger * 64 + f.offset * 64 * 64 + i * 64 + 64 * t == SlotOffset(f, n + i + t, scoop)
    ensures (n + i + t) % f.stagger == i + t
  {
    DivModUnique(n + i + t, f.stagger, b, i + t);
    assert b * f.stagger * NONCE_BYTES == n * 4096 * 64;
  }

  /** Where sche_runnew starts reading stagger n for a scoop. */
  function StaggerStart(f: PlotFile, n: nat, scoop: nat): nat {
    n * 4096 * 64 + scoop * f.stagger * 64 + f.offset * 64 * 64
  }

  lemma MakeChunk(f: PlotFile, scoop: nat, bytesPerSector: nat, n: nat, b: nat, i: nat, count: nat)
    requires f.stagger > 0 && bytesPerSector >= 64 && scoop < 4096
    requires n == f.stagger * b && 0 < count && i + count <= f.stagger && count % (bytesPerSector / 64) == 0
    ensures RightChunk(f, scoop, bytesPerSector,
                       Chunk(n + i, count, StaggerStart(f, n, scoop) + i * 64,
                             StaggerStart(f, n, 4095 - scoop) + i * 64, n + f.startNonce + i))
  {
    OffsetOf(f, scoop, n, b, i, 0);
    forall t | 0 <= t < count
      ensures StaggerStart(f, n, scoop) + i * 64 + 64 * t == SlotOffset(f, n + i + t, scoop)
      ensures StaggerStart(f, n, 4095 - scoop) + i * 64 + 64 * t == SlotOffset(f, n + i + t, 4095 - scoop)
    {
      OffsetOf(f, scoop, n, b, i, t);
      OffsetOf(f, 4095 - scoop, n, b, i, t);
    }
  }

  lemma GridQuotient(x: nat, g: nat, q: nat)
    requires g > 0
    ensures x == g * q ==> x % g == 0 && x / g == q
    ensures x % g == 0 ==> x == g * (x / g)
  {
    if x == g * q {
      DivModUnique(x, g, q, 0);
    }
  }

  /** Sizes on the sector grid stay on it. */
  lemma GridSum(x: nat, y: nat, g: nat)
    requires g > 0 && x % g == 0 && y % g == 0
    ensures (x + y) % g == 0
  {
    GridQuotient(x, g, 0);
    GridQuotient(y, g, 0);
    assert x + y == g * (x / g + y / g);
    GridQuotient(x + y, g, x / g + y / g);
  }

  lemma GridDifference(x: nat, y: nat, g: nat)
    requires g > 0 && x % g == 0 && y % g == 0 && y <= x
    ensures (x - y) % g == 0
  {
    GridQuotient(x, g, 0);
    GridQuotient(y, g, 0);
    MulGap(g, x / g, y / g);
    assert x - y == g * (x / g - y / g);
    GridQuotient(x - y, g, x / g - y / g);
  }

  /** The index after so many chunks: a multiple of the chunk size, or the end of the stagger. */
  ghost predicate AtTurn(nonces: nat, stagger: nat, chunk: nat, i: nat) {
    var most := if nonces < stagger then nonces else stagger;
    exists turns: nat ::
      && i == (if chunk * turns < stagger then chunk * turns else stagger)
      && (turns > 0 ==> chunk * (turns - 1) < most)
  }

  lemma FirstTurn(nonces: nat, stagger: nat, chunk: nat)
    requires stagger > 0
    ensures AtTurn(nonces, stagger, chunk, 0)
  {
    assert chunk * 0 == 0;
  }

  lemma NextTurn(nonces: nat, stagger: nat, chunk: nat, i: nat)
    requires AtTurn(nonces, stagger, chunk, i) && i < stagger && i < nonces
    ensures AtTurn(nonces, stagger, chunk, i + Shorten(i, chunk, stagger))
  {
    var turns: nat :| i == (if chunk * turns < stagger then chunk * turns else stagger);
    assert chunk * (turns + 1) == chunk * turns + chunk;
    assert turns + 1 - 1 == turns;
  }

  lemma LastTurn(nonces: nat, stagger: nat, chunk: nat, i: nat)
    requires AtTurn(nonces, stagger, chunk, i) && chunk > 0 && stagger > 0 && nonces > 0
    requires i >= if nonces < stagger then nonces else stagger
    ensures i == Extent(nonces, stagger, chunk)
  {
    if nonces < stagger {
      var turns: nat :| i == (if chunk * turns < stagger then chunk * turns else stagger)
        && (turns > 0 ==> chunk * (turns - 1) < nonces);
      CeilingIs(nonces, chunk, turns);
    }
  }

  /** The least number of chunks reaching n. */
  lemma CeilingIs(n: nat, d: nat, q: nat)
    requires d > 0 && n > 0
    ensures d * q >= n && (q > 0 ==> d * (q - 1) < n) ==> q == (n + d - 1) / d
  {
    var c := (n + d - 1) / d;
    assert n + d - 1 == d * c + (n + d - 1) % d;
    MulGap(d, q, c);
    MulGap(d, c, q);
    assert d * 0 == 0;
    if q > 0 {
      assert d * q == d * (q - 1) + d;
    }
  }

  /** The inner loop of the scan: the stagger that begins at n, in chunks whose size th_read shortens at the end. */
  method ScanStagger(f: PlotFile, nonces: nat, scoop: nat, chunk: nat, ghost bytesPerSector: nat, n: nat, ghost b: nat, done: seq<Chunk>)
    returns (chunks: seq<Chunk>)
    requires f.stagger > 0 && scoop < 4096 && bytesPerSector >= 64 && nonces > 0 && n == f.stagger * b
    requires chunk > 0 && chunk % (bytesPerSector / 64) == 0 && f.stagger % (bytesPerSector / 64) == 0
    requires f.stagger < 0x8000_0000 // i is an int
    requires forall c | c in done :: RightChunk(f, scoop, bytesPerSector, c) && c.count <= chunk
    ensures Indices(chunks) == Indices(done) + Range(n, Extent(nonces, f.stagger, chunk))
    ensures forall c | c in chunks :: RightChunk(f, scoop, bytesPerSector, c) && c.count <= chunk
  {
    hide RightChunk, Indices, StaggerStart, AtTurn, Extent;
    var start, mirrorStart := StaggerStart(f, n, scoop), StaggerStart(f, n, 4095 - scoop);
    var most := if nonces < f.stagger then nonces else f.stagger;
    ghost var g := bytesPerSector / 64;
    chunks := done;
    var cacheSizeLocal, i := chunk, 0;
    FirstTurn(nonces, f.stagger, chunk);
    assert Indices(done) + Range(n, 0) == Indices(done);
    while i < most
      invariant 0 <= i <= f.stagger && i % g == 0 && 0 < cacheSizeLocal
      invariant i < f.stagger ==> cacheSizeLocal == chunk
      invariant AtTurn(nonces, f.stagger, chunk, i)
      invariant Indices(chunks) == Indices(done) + Range(n, i)
      invariant forall c | c in chunks :: RightChunk(f, scoop, bytesPerSector, c) && c.count <= chunk
      decreases f.stagger - i
    {
      NextTurn(nonces, f.stagger, chunk, i);
      cacheSizeLocal := Shorten(i, cacheSizeLocal, f.stagger);
      var c := Chunk(n + i, cacheSizeLocal, start + i * 64, mirrorStart + i * 64, n + f.startNonce + i);
      GridDifference(f.stagger, i, g);
      GridSum(i, cacheSizeLocal, g);
      MakeChunk(f, scoop, bytesPerSector, n, b, i, cacheSizeLocal);
      IndicesAppend(chunks, c);
      assert Range(n, i) + Range(n + i, cacheSizeLocal) == Range(n, i + cacheSizeLocal);
      chunks := chunks + [c];
      i := i + cacheSizeLocal;
    }
    LastTurn(nonces, f.stagger, chunk, i);
  }

  /** How many staggers the outer loop visits. */
  function BlockCount(nonces: nat, stagger: nat): nat
    requires stagger > 0
  {
    (nonces + stagger - 1) / stagger
  }

  /** The scan of one file with chunk size `chunk`, not stopped and with no failing read. */
  method ScanFile(f: PlotFile, nonces: nat, scoop: nat, chunk: nat, ghost bytesPerSector: nat) returns (chunks: seq<Chunk>)
    requires f.stagger > 0 && scoop < 4096 && bytesPerSector >= 64 && Scannable(f, nonces, bytesPerSector)
    requires chunk > 0 && chunk % (bytesPerSector / 64) == 0
    requires f.stagger < 0x8000_0000
    ensures Indices(chunks) == Blocks(BlockCount(nonces, f.stagger), f.stagger, Extent(nonces, f.stagger, chunk))
    ensures forall c | c in chunks :: RightChunk(f, scoop, bytesPerSector, c) && c.count <= chunk
  {
    hide RightChunk, Indices, Extent, Blocks, BlockCount;
    chunks := [];
    var n := 0;
    ghost var b := 0;
    ghost var extent := Extent(nonces, f.stagger, chunk);
    assert f.stagger * 0 == 0;
    NoBlocks(f.stagger, extent);
    while n < nonces
      invariant 0 <= b && n == f.stagger * b && (b > 0 ==> f.stagger * (b - 1) < nonces)
      invariant Indices(chunks) == Blocks(b, f.stagger, extent)
      invariant forall c | c in chunks :: RightChunk(f, scoop, bytesPerSector, c) && c.count <= chunk
      decreases nonces - n
    {
      chunks := ScanStagger(f, nonces, scoop, chunk, bytesPerSector, n, b, chunks);
      NextBlock(b, n, f.stagger, extent);
      n := n + f.stagger;
      b := b + 1;
    }
    BlocksReached(nonces, f.stagger, b);
  }

  /**
   * The scan of one file from its table entry: skipped when damaged or off the sector grid, else cut into chunks. With
   * a chosen cache below one sector the chunk size, and so the step of the inner loop, is zero: the scan goes no
   * further until it is stopped (`advances` is false).
   */
  method ScanPlot(f: PlotFile, c: Config, scoop: nat, bytesPerSector: nat) returns (advances: bool, chunks: seq<Chunk>)
    requires f.stagger > 0 && scoop < 4096 && bytesPerSector >= 64 && f.stagger < 0x8000_0000
    ensures var n := EffectiveNonces(f, scoop);
            var skipped := n.None? || !Scannable(f, n.value, bytesPerSector);
            && (advances <==> skipped || CacheChoice(f, n.value, c) >= bytesPerSector / 64)
            && (skipped || !advances ==> chunks == [])
            && (!skipped && !advances ==> forall i: nat | i <= f.stagger :: Shorten(i, ChunkSize(f, n.value, c, bytesPerSector), f.stagger) == 0)
            && (!skipped && advances ==>
                  var chunk := ChunkSize(f, n.value, c, bytesPerSector);
                  && chunk > 0
                  && Indices(chunks) == Blocks(BlockCount(n.value, f.stagger), f.stagger, Extent(n.value, f.stagger, chunk))
                  && forall x | x in chunks :: RightChunk(f, scoop, bytesPerSector, x) && x.count <= chunk)
            && (!skipped && advances && n.value % f.stagger == 0 ==> Indices(chunks) == Range(0, n.value))
    ensures Undamaged(f) && f.nonces % f.stagger == 0 && Scannable(f, f.nonces, bytesPerSector) && advances ==>
              Indices(chunks) == Range(0, f.nonces)
  {
    hide RightChunk, Indices, Extent, Blocks, BlockCount, EffectiveNonces, Undamaged, CacheChoice, ChunkSize;
    advances, chunks := true, [];
    UndamagedNonces(f, scoop);
    var n := EffectiveNonces(f, scoop);
    if n.Some? && Scannable(f, n.value, bytesPerSector) {
      ChunkSizePositive(f, n.value, c, bytesPerSector);
      var chunk := ChunkSize(f, n.value, c, bytesPerSector);
      if chunk == 0 {
        advances := false;
      } else {
        chunks := ScanFile(f, n.value, scoop, chunk, bytesPerSector);
        ReadsExactlyThePlot(n.value, f.stagger, chunk);
      }
    }
  }

  /** The file has room for the nonces its name says, and not for one more. */
  predicate Undamaged(f: PlotFile) {
    f.nonces * NONCE_BYTES <= f.size < (f.nonces + 1) * NONCE_BYTES
  }

  /** All nonces of an undamaged plot are scanned. */
  lemma UndamagedNonces(f: PlotFile, scoop: nat)
    requires f.stagger > 0
    ensures Undamaged(f) ==> EffectiveNonces(f, scoop) == Some(f.nonces)
  {
    if Undamaged(f) {
      DivModUnique(f.size, NONCE_BYTES, f.nonces, f.size - NONCE_BYTES * f.nonces);
    }
  }

  /** Any other plot, unless of one stagger, is cut to the whole staggers its file has, as many as there are. */
  lemma CutPlotIsWhole(f: PlotFile, scoop: nat)
    requires f.stagger > 0 && f.nonces != f.size / NONCE_BYTES && f.nonces != f.stagger
    ensures var n := EffectiveNonces(f, scoop);
            && n.Some? && n.value % f.stagger == 0
            && n.value * NONCE_BYTES <= f.size < (n.value + f.stagger) * NONCE_BYTES
  {
    var q := (f.size / NONCE_BYTES) / f.stagger;
    assert q * f.stagger == f.stagger * q;
    GridQuotient(q * f.stagger, f.stagger, q);
    assert f.size / NONCE_BYTES == f.stagger * q + (f.size / NONCE_BYTES) % f.stagger;
    assert f.size == NONCE_BYTES * (f.size / NONCE_BYTES) + f.size % NONCE_BYTES;
  }

  /** The file holds the slots of scoop s of a plot of one stagger. */
  ghost predicate HoldsScoop(f: PlotFile, s: nat)
    requires f.stagger > 0
  {
    forall k: nat | k < f.stagger :: SlotOffset(f, k, s) + 64 <= f.size
  }

  /** All slots of a scoop in a plot of one stagger lie in the file if and only if the scoop's last byte does. */
  lemma StaggerHoldsScoop(f: PlotFile, s: nat)
    requires f.stagger > 0
    ensures HoldsScoop(f, s) <==> f.offset * 4096 + f.stagger * 64 * (s + 1) <= f.size
  {
    var st := f.stagger;
    assert st * 64 * (s + 1) == st * 64 * s + st * 64 && s * st * 64 == st * 64 * s;
    forall k: nat | k < st ensures SlotOffset(f, k, s) == s * st * 64 + k * 64 + f.offset * 4096 {
      DivModUnique(k, st, 0, k);
      assert st * 0 == 0;
    }
    assert SlotOffset(f, st - 1, s) + 64 == f.offset * 4096 + st * 64 * (s + 1);
  }

  lemma AtLeastTimes(x: nat, d: nat, c: nat)
    requires d > 0
    ensures x / d >= c <==> d * c <= x
  {
    assert x == d * (x / d) + x % d;
    MulGap(d, x / d, c);
    MulGap(d, c, x / d);
  }

  /**
   * A plot of one stagger, shorter than its name says, is skipped if and only if the scoop number is above the number
   * of whole scoops in the file; its slots lie in the file if and only if the number is below that, and those of the
   * mirror scoop likewise. With the two numbers equal the plot is scanned although no byte of the scoop need be there.
   */
  lemma DamagedStagger(f: PlotFile, scoop: nat)
    requires f.stagger > 0 && f.nonces == f.stagger && f.nonces != f.size / NONCE_BYTES && f.offset == 0 && scoop < 4096
    ensures var whole := f.size / (f.stagger * 64);
            && EffectiveNonces(f, scoop) == (if scoop > whole then None else Some(f.nonces))
            && (HoldsScoop(f, scoop) <==> scoop < whole)
            && (HoldsScoop(f, 4095 - scoop) <==> 4095 - scoop < whole)
  {
    StaggerHoldsScoop(f, scoop);
    StaggerHoldsScoop(f, 4095 - scoop);
    AtLeastTimes(f.size, f.stagger * 64, scoop + 1);
    AtLeastTimes(f.size, f.stagger * 64, 4095 - scoop + 1);
  }

  /** Such a plot: sixteen nonces, ten whole scoops in the file, and scoop number ten, which lies wholly behind it. */
  lemma PastTheEnd(f: PlotFile)
    requires f.nonces == 16 && f.stagger == 16 && f.size == 10 * 16 * 64 && f.offset == 0
    ensures EffectiveNonces(f, 10) == Some(16) && Scannable(f, 16, 512)
    ensures forall k: nat | k < 16 :: SlotOffset(f, k, 10) >= f.size
  {
    assert f.size / NONCE_BYTES == 0 by { DivModUnique(f.size, NONCE_BYTES, 0, f.size); }
    assert f.size / (16 * 64) == 10 by { DivModUnique(f.size, 16 * 64, 10, 0); }
    forall k: nat | k < 16 ensures SlotOffset(f, k, 10) >= f.size {
      DivModUnique(k, 16, 0, k);
    }
  }

  lemma NoBlocks(stagger: nat, extent: nat)
    ensures Indices([]) == Blocks(0, stagger, extent)
  {
  }

  lemma NextBlock(b: nat, n: nat, stagger: nat, extent: nat)
    requires n == stagger * b
    ensures Blocks(b + 1, stagger, extent) == Blocks(b, stagger, extent) + Range(n, extent)
    ensures n + stagger == stagger * (b + 1)
  {
    assert b * stagger == n;
    assert Range(n, extent) == seq(extent, i requires 0 <= i < extent => b * stagger + i);
  }

  lemma BlocksReached(nonces: nat, stagger: nat, b: nat)
    requires stagger > 0 && nonces > 0 && stagger * b >= nonces && (b > 0 ==> stagger * (b - 1) < nonces)
    ensures b == BlockCount(nonces, stagger)
  {
    CeilingIs(nonces, stagger, b);
  }

  lemma {:induction false} FullBlocks(b: nat, stagger: nat)
    ensures Blocks(b, stagger, stagger) == Range(0, b * stagger)
  {
    if b == 0 {
    } else {
      FullBlocks(b - 1, stagger);
      var before := (b - 1) * stagger;
      assert b * stagger == before + stagger;
      assert Blocks(b, stagger, stagger) == Range(0, before) + seq(stagger, i requires 0 <= i < stagger => before + i);
      hide Blocks;
    }
  }

  lemma CeilingMultiple(n: nat, d: nat)
    requires d > 0 && n > 0
    ensures d * ((n + d - 1) / d) >= n
    ensures d * ((n + d - 1) / d) == n <==> n % d == 0
  {
    var c := (n + d - 1) / d;
    assert n + d - 1 == d * c + (n + d - 1) % d;
    assert n == d * (n / d) + n % d;
    if n % d == 0 {
      MulGap(d, c, n / d);
      MulGap(d, n / d, c);
    } else if d * c == n {
      DivModUnique(n, d, c, 0);
    }
  }

  /**
   * Exactly when is every index of the plot read once, in order, and nothing else? If and only if the nonces are
   * whole staggers, or fill whole chunks of a single longer stagger (several plots sharing one disk layout).
   */
  lemma ReadsExactlyThePlot(nonces: nat, stagger: nat, chunk: nat)
    requires nonces > 0 && stagger > 0 && chunk > 0
    ensures Blocks(BlockCount(nonces, stagger), stagger, Extent(nonces, stagger, chunk)) == Range(0, nonces) <==>
            nonces % stagger == 0 || (nonces < stagger && nonces % chunk == 0)
  {
    var b, e := BlockCount(nonces, stagger), Extent(nonces, stagger, chunk);
    if stagger <= nonces {
      FullBlocks(b, stagger);
      CeilingMultiple(nonces, stagger);
      assert b * stagger == stagger * b;
      SameRange(b * stagger, nonces);
    } else {
      assert stagger * 1 == stagger && stagger * 0 == 0;
      CeilingIs(nonces, stagger, 1);
      NextBlock(0, 0, stagger, e);
      assert Blocks(0, stagger, e) == [];
      assert [] + Range(0, e) == Range(0, e);
      CeilingMultiple(nonces, chunk);
      SameRange(e, nonces);
      SmallMod(nonces, stagger);
    }
  }

  /**
   * A plot that passes every test of the scan and is read past its end: 24 nonces in staggers of 16, the size as
   * named, 512-byte sectors. Thirty-two indices are read.
   */
  lemma OverRead(f: PlotFile, c: Config, scoop: nat)
    requires f.nonces == 24 && f.stagger == 16 && f.size == 24 * NONCE_BYTES && !f.bfs
    ensures EffectiveNonces(f, scoop) == Some(24) && Scannable(f, 24, 512) && ChunkSize(f, 24, c, 512) == 16
    ensures Blocks(BlockCount(24, 16), 16, Extent(24, 16, 16)) == Range(0, 32) != Range(0, 24)
  {
    assert f.size / NONCE_BYTES == 24 by { DivModUnique(f.size, NONCE_BYTES, 24, 0); }
    ChunkSizePositive(f, 24, c, 512);
    FullBlocks(2, 16);
    SameRange(32, 24);
  }

  lemma SmallMod(x: nat, d: nat)
    requires x < d
    ensures x % d == x
  {
    DivModUnique(x, d, 0, x);
  }

  lemma SameRange(x: nat, y: nat)
    ensures Range(0, x) == Range(0, y) <==> x == y
  {
    assert |Range(0, x)| == x && |Range(0, y)| == y;
  }
}
