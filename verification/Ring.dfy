/**
 * The ring buffer on values. Positions run from 0 (hp) to n (tp) inclusive: a position may rest on tp as well as
 * on hp, so one content has several concrete forms, and one cell always stays free.
 */
module Ring {

  /** rbuff_datacount. */
  function DataCount(n: nat, rp: nat, wp: nat): int {
    if wp >= rp then wp - rp else n - (rp - wp)
  }

  /** rbuff_freecount. */
  function FreeCount(n: nat, rp: nat, wp: nat): int {
    if wp >= rp then n - (wp - rp) - 1 else rp - wp - 1
  }

  /** Positions the operations can reach: both in [hp, tp], never n bytes between them. */
  ghost predicate ValidAt(n: nat, rp: nat, wp: nat) {
    n >= 2 && rp <= n && wp <= n && DataCount(n, rp, wp) < n
  }

  /** datacount + freecount = maxcount, and neither is negative. */
  lemma CountsAddUp(n: nat, rp: nat, wp: nat)
    requires ValidAt(n, rp, wp)
    ensures DataCount(n, rp, wp) + FreeCount(n, rp, wp) == n - 1
    ensures 0 <= DataCount(n, rp, wp) <= n - 1 && 0 <= FreeCount(n, rp, wp) <= n - 1
  {
  }

  /** The cell k places after position p. */
  function Cell(n: nat, p: nat, k: nat): (c: nat)
    requires p <= n && k < n
    ensures c < n
  {
    if p + k < n then p + k else p + k - n
  }

  /** Position p moved on by k; a move that ends exactly at tp stays there. */
  function Advance(n: nat, p: nat, k: nat): (q: nat)
    requires p <= n && k <= n
    ensures q <= n
  {
    if p + k <= n then p + k else p + k - n
  }

  /**
   * rbuff_freecount as the producer computes it while the consumer may move rp: the macro reads rp twice, rp1 for the
   * comparison and rp2 for the difference.
   */
  function FreeRead(n: nat, rp1: nat, rp2: nat, wp: nat): int {
    if wp >= rp1 then n - (wp - rp2) - 1 else rp2 - wp - 1
  }

  /** rbuff_datacount as the consumer computes it while the producer may move wp between the two reads of it. */
  function DataRead(n: nat, rp: nat, wp1: nat, wp2: nat): int {
    if wp1 >= rp then wp2 - rp else n - (rp - wp2)
  }

  /**
   * The free count read is the present one, unless rp has wrapped around between the two reads; then, and only then,
   * it comes out negative although at least one cell is free.
   */
  lemma FreeReadTwice(n: nat, rp1: nat, rp2: nat, wp: nat, k: nat)
    requires ValidAt(n, rp1, wp) && k <= DataCount(n, rp1, wp) && rp2 == Advance(n, rp1, k)
    ensures FreeRead(n, rp1, rp2, wp) == FreeCount(n, rp2, wp) <==> !(wp < rp1 && rp2 <= wp)
    ensures FreeRead(n, rp1, rp2, wp) < 0 <==> wp < rp1 && rp2 <= wp
    ensures FreeRead(n, rp1, rp2, wp) < 0 ==> FreeCount(n, rp2, wp) > 0
  {
  }

  /** The data count read may be off after a wrap of wp, but it is zero exactly when the ring is empty. */
  lemma DataReadTwice(n: nat, rp: nat, wp1: nat, wp2: nat, k: nat)
    requires ValidAt(n, rp, wp1) && k <= FreeCount(n, rp, wp1) && wp2 == Advance(n, wp1, k)
    ensures DataRead(n, rp, wp1, wp2) == 0 <==> DataCount(n, rp, wp2) == 0
    ensures DataRead(n, rp, wp1, wp2) >= 0 ==> DataRead(n, rp, wp1, wp2) == DataCount(n, rp, wp2)
    ensures DataRead(n, rp, wp1, wp2) < 0 <==> wp1 >= rp && wp2 < rp
  {
  }

  /** How many bytes of the content lie in the first span. */
  function FirstSpan(n: nat, rp: nat, wp: nat): int {
    if wp >= rp then wp - rp else if rp == n then wp else n - rp
  }

  function Min(x: nat, y: nat): nat {
    if x < y then x else y
  }

  /** The cells of b with d stored from position p on, around the end if need be. */
  function Written<T>(b: seq<T>, p: nat, d: seq<T>): (r: seq<T>)
    requires p <= |b| && |d| < |b|
    ensures |r| == |b|
  {
    seq(|b|, c requires 0 <= c < |b| =>
               if p <= c < p + |d| then d[c - p] else if c + |b| < p + |d| then d[c + |b| - p] else b[c])
  }

  datatype State<T> = State(cells: seq<T>, rp: nat, wp: nat) {

    ghost predicate Valid() {
      ValidAt(|cells|, rp, wp)
    }

    /** The bytes in the ring, oldest first. */
    ghost function Content(): (s: seq<T>)
      requires Valid()
      ensures |s| == DataCount(|cells|, rp, wp)
    {
      seq(DataCount(|cells|, rp, wp), k requires 0 <= k < DataCount(|cells|, rp, wp) => cells[Cell(|cells|, rp, k)])
    }

    ghost function Free(): nat
      requires Valid()
    {
      FreeCount(|cells|, rp, wp)
    }

    /** Store as much of d as fits. */
    ghost function Put(d: seq<T>): (r: State<T>)
      requires Valid()
      ensures r.Valid()
    {
      var k := Min(|d|, Free());
      State(Written(cells, wp, d[..k]), rp, Advance(|cells|, wp, k))
    }

    /** Move the write position over at most k cells that were filled by other means. */
    ghost function Skip(k: nat): (r: State<T>)
      requires Valid()
      ensures r.Valid()
    {
      this.(wp := Advance(|cells|, wp, Min(k, Free())))
    }

    /** Drop at most k of the oldest bytes. */
    ghost function Drop(k: nat): (r: State<T>)
      requires Valid()
      ensures r.Valid()
    {
      this.(rp := Advance(|cells|, rp, Min(k, DataCount(|cells|, rp, wp))))
    }

    ghost function Reset(): (r: State<T>)
      requires Valid()
      ensures r.Valid()
    {
      this.(rp := 0, wp := 0)
    }
  }

  /** Storing appends: also across the wrap, and whichever of hp and tp the positions rest on. */
  lemma PutAppends<T>(s: State<T>, d: seq<T>)
    requires s.Valid()
    ensures var k := Min(|d|, s.Free());
            s.Put(d).Content() == s.Content() + d[..k] && s.Put(d).Free() == s.Free() - k
  {
  }

  lemma SkipExposes<T>(s: State<T>, k: nat)
    requires s.Valid()
    ensures var m := Min(k, s.Free());
            && |s.Skip(k).Content()| == |s.Content()| + m
            && s.Content() <= s.Skip(k).Content()
            && forall i | 0 <= i < m :: s.Skip(k).Content()[|s.Content()| + i] == s.cells[Cell(|s.cells|, s.wp, i)]
  {
  }

  lemma DropRemoves<T>(s: State<T>, k: nat)
    requires s.Valid()
    ensures s.Drop(k).Content() == s.Content()[Min(k, |s.Content()|)..]
  {
  }

  /** The write position is the read position moved on by the content: a new ring is so, and every call keeps it. */
  ghost predicate Aligned<T>(s: State<T>)
    requires s.Valid()
  {
    s.wp == Advance(|s.cells|, s.rp, DataCount(|s.cells|, s.rp, s.wp))
  }

  lemma AlignedKept<T>(s: State<T>, d: seq<T>, k: nat)
    requires s.Valid()
    ensures Aligned(s.Reset())
    ensures Aligned(s) ==> Aligned(s.Put(d)) && Aligned(s.Skip(k)) && Aligned(s.Drop(k))
  {
  }

  /** The calls a client can make. */
  datatype Op<T> = OpPut(data: seq<T>) | OpGet(size: nat) | OpPeek(size: nat) | OpErase(size: nat) | OpReset

  /** A bounded first-in first-out queue: what the ring stands for. */
  datatype Fifo<T> = Fifo(queue: seq<T>, capacity: nat)

  /** What one call does to the queue, and the bytes it hands back. */
  function FifoStep<T>(f: Fifo<T>, op: Op<T>): (r: (Fifo<T>, seq<T>))
    requires |f.queue| <= f.capacity
    ensures |r.0.queue| <= r.0.capacity == f.capacity
  {
    match op
    case OpPut(d) => (f.(queue := f.queue + d[..Min(|d|, f.capacity - |f.queue|)]), [])
    case OpGet(k) => (f.(queue := f.queue[Min(k, |f.queue|)..]), f.queue[..Min(k, |f.queue|)])
    case OpPeek(k) => (f, f.queue[..Min(k, |f.queue|)])
    case OpErase(k) => (f.(queue := f.queue[Min(k, |f.queue|)..]), [])
    case OpReset => (f.(queue := []), [])
  }

  ghost function RingStep<T>(s: State<T>, op: Op<T>): (r: (State<T>, seq<T>))
    requires s.Valid()
    ensures r.0.Valid()
  {
    match op
    case OpPut(d) => (s.Put(d), [])
    case OpGet(k) => (s.Drop(k), s.Content()[..Min(k, |s.Content()|)])
    case OpPeek(k) => (s, s.Content()[..Min(k, |s.Content()|)])
    case OpErase(k) => (s.Drop(k), [])
    case OpReset => (s.Reset(), [])
  }

  function FifoRun<T>(f: Fifo<T>, ops: seq<Op<T>>): (r: (Fifo<T>, seq<seq<T>>))
    requires |f.queue| <= f.capacity
    ensures |r.0.queue| <= r.0.capacity
    decreases |ops|
  {
    if ops == [] then (f, [])
    else
      var (g, out) := FifoStep(f, ops[0]);
      var (h, outs) := FifoRun(g, ops[1..]);
      (h, [out] + outs)
  }

  ghost function RingRun<T>(s: State<T>, ops: seq<Op<T>>): (r: (State<T>, seq<seq<T>>))
    requires s.Valid()
    ensures r.0.Valid()
    decreases |ops|
  {
    if ops == [] then (s, [])
    else
      var (t, out) := RingStep(s, ops[0]);
      var (u, outs) := RingRun(t, ops[1..]);
      (u, [out] + outs)
  }

  ghost function AsFifo<T>(s: State<T>): (f: Fifo<T>)
    requires s.Valid()
    ensures |f.queue| <= f.capacity
  {
    Fifo(s.Content(), |s.cells| - 1)
  }

  lemma StepRefines<T>(s: State<T>, op: Op<T>)
    requires s.Valid()
    ensures FifoStep(AsFifo(s), op) == (AsFifo(RingStep(s, op).0), RingStep(s, op).1)
  {
    CountsAddUp(|s.cells|, s.rp, s.wp);
    match op
    case OpPut(d) => PutAppends(s, d);
    case OpGet(k) => DropRemoves(s, k);
    case OpPeek(k) =>
    case OpErase(k) => DropRemoves(s, k);
    case OpReset => assert s.Reset().Content() == [];
  }

  /** Over every run of calls the ring is a bounded queue of tp - hp - 1 bytes, call for call and byte for byte. */
  lemma {:induction false} RunRefines<T>(s: State<T>, ops: seq<Op<T>>)
    requires s.Valid()
    ensures FifoRun(AsFifo(s), ops) == (AsFifo(RingRun(s, ops).0), RingRun(s, ops).1)
    decreases |ops|
  {
    if ops == [] {
    } else {
      StepRefines(s, ops[0]);
      RunRefines(RingStep(s, ops[0]).0, ops[1..]);
    }
  }

  /** Filling k free cells in order by any means and then skipping over them is Put. */
  lemma FillThenSkip<T>(s: State<T>, filled: seq<T>, d: seq<T>)
    requires s.Valid() && |d| <= s.Free() && |filled| == |s.cells|
    requires forall k | 0 <= k < |d| :: filled[Cell(|s.cells|, s.wp, k)] == d[k]
    requires forall c | 0 <= c < |filled| && (forall k | 0 <= k < |d| :: c != Cell(|s.cells|, s.wp, k)) :: filled[c] == s.cells[c]
    ensures s.(cells := filled).Skip(|d|) == s.Put(d)
  {
    var n := |s.cells|;
    assert d[..|d|] == d;
    forall c | 0 <= c < n ensures filled[c] == Written(s.cells, s.wp, d)[c] {
      if s.wp <= c < s.wp + |d| {
        assert c == Cell(n, s.wp, c - s.wp);
      } else if c + n < s.wp + |d| {
        assert c == Cell(n, s.wp, c + n - s.wp);
      }
    }
  }
}
