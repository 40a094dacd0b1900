/**
 * The exchange of NCACHE job records between the reader (sche_runnew) and the hasher (hash_thread) over two rings, with
 * the two threads interleaved in any order. A put, a get and an erase of a ring is one step each, and so is every look
 * at a list or at the run flag; rbuff_move is its looks, its two clips, its two puts and its erase.
 *
 * What the records contain does not matter here, but where each byte of them goes: a byte is known by the cache slot of
 * its record and by its place in the record.
 */
module JobExchange {
  import opened Arith
  import opened Ring
  import opened TaskQueue

  datatype Byte = Byte(slot: nat, at: nat)

  /** The record of a slot. */
  function Rec(slot: nat, len: nat): (r: seq<Byte>)
    ensures |r| == len
  {
    seq(len, k requires 0 <= k < len => Byte(slot, k))
  }

  /**
   * The reader waits, has seen idle_list non-empty, has peeked a record that is still in idle_list, has filled it,
   * or has put it on job_list and not yet erased it from idle_list.
   */
  datatype Reader = Waiting | Peeking | Peeked(rec: seq<Byte>) | Ready(rec: seq<Byte>) | Window(rec: seq<Byte>)

  /**
   * The hasher polls; is past its waiting loop; has then found the run flag set; works on its local record; is inside
   * rbuff_move, for the `last` time when its thread has been cancelled; or has ended. `stale` means that job_list
   * turned out empty, so that the local record is the one of an earlier turn.
   */
  datatype Hasher = Polling | Passed | Taking | Working(stale: bool) | Moving(last: bool, move: Move) | Ended

  /**
   * Where the hasher stands in rbuff_move from job_list to idle_list: `size` bytes are to be moved, in two spans of
   * len1 and len2 bytes; k, k1 and k2 are what the puts take; `seen` is idle_list's read position as last read.
   */
  datatype Move =
    | Start
    | Sized(size: nat)
    | Spanned(size: nat, len1: nat, len2: nat, seen: nat)
    | Put1(size: nat, len1: nat, len2: nat, k: nat)
    | Between(size: nat, len1: nat, len2: nat, k1: nat, seen: nat)
    | Put2(size: nat, len1: nat, len2: nat, k1: nat, k2: nat)
    | Done(k: nat)

  /** Both rings with their read positions, both threads, the hasher's local record and the run flag. */
  datatype Work = Work(idle: Fifo<Byte>, idleAt: nat, job: Fifo<Byte>, jobAt: nat,
                       reader: Reader, hasher: Hasher, local: seq<Byte>, run: bool)

  /** A worker with its number of records and their length. */
  datatype World = World(n: nat, len: nat, work: Work)

  /** Two rings for n records of len bytes. */
  ghost predicate Sound(w: Work, n: nat, len: nat) {
    && n > 0 && len > 0 && w.idle.capacity == w.job.capacity == len * n > 0
    && |w.idle.queue| <= w.idle.capacity && |w.job.queue| <= w.job.capacity
    && w.idleAt <= w.idle.capacity + 1 && w.jobAt <= w.job.capacity + 1
  }

  function Slice(q: seq<Byte>, a: nat, b: nat): seq<Byte> {
    if a <= b <= |q| then q[a..b] else []
  }

  /** The write position of a ring, from its read position and its content. */
  function WriteAt(f: Fifo<Byte>, at: nat): nat
    requires |f.queue| <= f.capacity && at <= f.capacity + 1
  {
    Advance(f.capacity + 1, at, |f.queue|)
  }

  function Room(f: Fifo<Byte>): nat
    requires |f.queue| <= f.capacity
  {
    f.capacity - |f.queue|
  }

  /** The length of the first span over the content (rbuff_get_read_ptrs). */
  function Span1(f: Fifo<Byte>, at: nat): (k: nat)
    requires |f.queue| <= f.capacity && at <= f.capacity + 1
    ensures k <= |f.queue| && k == FirstSpan(f.capacity + 1, at, WriteAt(f, at))
  {
    if at == f.capacity + 1 || at + |f.queue| <= f.capacity + 1 then |f.queue| else f.capacity + 1 - at
  }

  // ---- the reader's steps ----

  ghost predicate SeeIdle(w: Work, u: Work) {
    w.run && w.reader.Waiting? && w.idle.queue != [] && u == w.(reader := Peeking)
  }

  /** rbuff_peek of one record; a shorter answer makes the reader give up. */
  ghost predicate Peek(w: Work, u: Work, len: nat) {
    && w.reader.Peeking? && |w.idle.queue| <= w.idle.capacity
    && var rec := FifoStep(w.idle, OpPeek(len)).1;
       |rec| == len && u == w.(reader := Peeked(rec))
  }

  /** The record's cache and fields have been filled, and the run flag was still set. */
  ghost predicate Fill(w: Work, u: Work) {
    w.run && w.reader.Peeked? && u == w.(reader := Ready(w.reader.rec))
  }

  /** The run flag was found cleared, or a read failed: the reader leaves and a peeked record stays in idle_list. */
  ghost predicate GiveUp(w: Work, u: Work) {
    !w.reader.Ready? && !w.reader.Window? && u == w.(reader := Waiting)
  }

  /** The reader puts the filled record on job_list. */
  ghost predicate HandOver(w: Work, u: Work) {
    && w.reader.Ready? && |w.job.queue| <= w.job.capacity
    && u == w.(job := FifoStep(w.job, OpPut(w.reader.rec)).0, reader := Window(w.reader.rec))
  }

  /** The reader erases it from idle_list. */
  ghost predicate Erase(w: Work, u: Work, len: nat) {
    && w.reader.Window? && |w.idle.queue| <= w.idle.capacity && w.idleAt <= w.idle.capacity + 1
    && u == w.(idle := FifoStep(w.idle, OpErase(len)).0, reader := Waiting,
               idleAt := Advance(w.idle.capacity + 1, w.idleAt, Min(len, |w.idle.queue|)))
  }

  // ---- the hasher's steps ----

  /** At job_list and the flag in its waiting loop, at the flag again, or at its cancellation. */
  ghost predicate Look(w: Work, u: Work) {
    || (w.hasher.Polling? && (w.job.queue != [] || !w.run) && u == w.(hasher := Passed))
    || (w.hasher.Passed? && u == w.(hasher := if w.run then Taking else Moving(false, Start)))
    || (w.hasher.Polling? && u == w.(hasher := Moving(true, Start)))
  }

  /** rbuff_get of one record into the local one; what is missing of it keeps its old bytes. */
  ghost predicate TakeJob(w: Work, u: Work, len: nat) {
    && w.hasher.Taking? && |w.job.queue| <= w.job.capacity && w.jobAt <= w.job.capacity + 1 && |w.local| == len
    && var (job, got) := FifoStep(w.job, OpGet(len));
       && |got| <= len && |got| <= w.job.capacity + 1
       && u == w.(job := job, jobAt := Advance(w.job.capacity + 1, w.jobAt, |got|), local := got + w.local[|got|..],
                  hasher := Working(|got| < len))
  }

  /** The hasher puts its local record back on idle_list. */
  ghost predicate ReturnJob(w: Work, u: Work) {
    && w.hasher.Working? && |w.idle.queue| <= w.idle.capacity
    && u == w.(idle := FifoStep(w.idle, OpPut(w.local)).0, hasher := Polling)
  }

  /** rbuff_datacount(job_list); misread while wp wraps around, it is more than any ring holds. */
  ghost predicate LookSize(w: Work, u: Work) {
    && w.hasher.Moving? && w.hasher.move.Start?
    && u.hasher.Moving? && u.hasher.move.Sized?
    && (u.hasher.move.size == |w.job.queue| || u.hasher.move.size > w.job.capacity)
    && u == w.(hasher := Moving(w.hasher.last, Sized(u.hasher.move.size)))
  }

  /** rbuff_get_read_ptrs(job_list). */
  ghost predicate LookSpans(w: Work, u: Work) {
    && w.hasher.Moving? && w.hasher.move.Sized? && |w.job.queue| <= w.job.capacity && w.jobAt <= w.job.capacity + 1
    && var len1 := Span1(w.job, w.jobAt);
       u == w.(hasher := Moving(w.hasher.last, Spanned(Min(w.hasher.move.size, |w.job.queue|), len1, |w.job.queue| - len1, w.idleAt)))
  }

  /** rbuff_freecount(idle_list) comes out as nothing free, truly or because rp has wrapped around in between. */
  ghost predicate SeesNone(w: Work, seen: nat) {
    && |w.idle.queue| <= w.idle.capacity && w.idleAt <= w.idle.capacity + 1
    && FreeRead(w.idle.capacity + 1, seen, w.idleAt, WriteAt(w.idle, w.idleAt)) <= 0
  }

  /** The first put is left out, or clipped to what idle_list has room for. */
  ghost predicate First(w: Work, u: Work) {
    && w.hasher.Moving? && w.hasher.move.Spanned? && |w.idle.queue| <= w.idle.capacity
    && var v := w.hasher.move;
       || (SeesNone(w, v.seen) && u == w.(hasher := Moving(w.hasher.last, Put1(v.size, v.len1, v.len2, 0))))
       || u == w.(hasher := Moving(w.hasher.last, Put1(v.size, v.len1, v.len2, Min(Min(v.len1, v.size), Room(w.idle)))))
  }

  ghost predicate Publish1(w: Work, u: Work) {
    && w.hasher.Moving? && w.hasher.move.Put1?
    && var v := w.hasher.move;
       u == w.(idle := w.idle.(queue := w.idle.queue + Slice(w.job.queue, 0, v.k)),
               hasher := Moving(w.hasher.last, Between(v.size, v.len1, v.len2, v.k, w.idleAt)))
  }

  /** The second put is left out, or clipped. */
  ghost predicate Second(w: Work, u: Work) {
    && w.hasher.Moving? && w.hasher.move.Between? && |w.idle.queue| <= w.idle.capacity
    && w.hasher.move.k1 <= w.hasher.move.size
    && var v := w.hasher.move;
       || (SeesNone(w, v.seen) && u == w.(hasher := Moving(w.hasher.last, Put2(v.size, v.len1, v.len2, v.k1, 0))))
       || u == w.(hasher := Moving(w.hasher.last,
                    Put2(v.size, v.len1, v.len2, v.k1, Min(Min(v.len2, v.size - v.k1), Room(w.idle)))))
  }

  ghost predicate Publish2(w: Work, u: Work) {
    && w.hasher.Moving? && w.hasher.move.Put2?
    && var v := w.hasher.move;
       u == w.(idle := w.idle.(queue := w.idle.queue + Slice(w.job.queue, v.len1, v.len1 + v.k2)),
               hasher := Moving(w.hasher.last, Done(v.k1 + v.k2)))
  }

  /** The erase at the end of rbuff_move. */
  ghost predicate Finish(w: Work, u: Work) {
    && w.hasher.Moving? && w.hasher.move.Done? && |w.job.queue| <= w.job.capacity && w.jobAt <= w.job.capacity + 1
    && var k := Min(w.hasher.move.k, |w.job.queue|);
       u == w.(job := w.job.(queue := w.job.queue[k..]), jobAt := Advance(w.job.capacity + 1, w.jobAt, k),
               hasher := if w.hasher.last then Ended else Polling)
  }

  // ---- the step relation ----

  ghost predicate Next(w: World, u: World) {
    w.n == u.n && w.len == u.len && Moves(w.work, u.work, w.n, w.len)
  }

  ghost predicate Moves(w: Work, u: Work, n: nat, len: nat) {
    Reads(w, u, len) || Hands(w, u, len) || Hashes(w, u, len) || Carries(w, u)
  }

  /** Steps that change no ring, other than looks inside rbuff_move. */
  ghost predicate Reads(w: Work, u: Work, len: nat) {
    || SeeIdle(w, u) || Peek(w, u, len) || Fill(w, u) || GiveUp(w, u) || Look(w, u)
    || u == w.(run := true) || u == w.(run := false)
  }

  ghost predicate Hands(w: Work, u: Work, len: nat) {
    HandOver(w, u) || Erase(w, u, len)
  }

  ghost predicate Hashes(w: Work, u: Work, len: nat) {
    TakeJob(w, u, len) || ReturnJob(w, u)
  }

  ghost predicate Carries(w: Work, u: Work) {
    LookSize(w, u) || LookSpans(w, u) || First(w, u) || Publish1(w, u) || Second(w, u) || Publish2(w, u) || Finish(w, u)
  }

  // ---- records in rings ----

  function Recs(xs: seq<nat>, len: nat): (rs: seq<seq<Byte>>)
    ensures |rs| == |xs| && AllOfLength(rs, len)
  {
    seq(|xs|, i requires 0 <= i < |xs| => Rec(xs[i], len))
  }

  /** The bytes of the records of these slots, one after the other. */
  function Flat(xs: seq<nat>, len: nat): seq<Byte> {
    Flatten(Recs(xs, len))
  }

  lemma FlatLength(xs: seq<nat>, len: nat)
    ensures |Flat(xs, len)| == len * |xs|
  {
    FlattenLength(Recs(xs, len), len);
  }

  lemma {:induction false} FlattenJoin<T>(x: seq<seq<T>>, y: seq<seq<T>>)
    ensures Flatten(x + y) == Flatten(x) + Flatten(y)
  {
    if x == [] {
      assert x + y == y;
      assert Flatten(x) == [];
    } else {
      assert (x + y)[1..] == x[1..] + y && (x + y)[0] == x[0];
      FlattenJoin(x[1..], y);
    }
  }

  lemma FlatJoin(xs: seq<nat>, ys: seq<nat>, len: nat)
    ensures Flat(xs + ys, len) == Flat(xs, len) + Flat(ys, len)
  {
    assert Recs(xs + ys, len) == Recs(xs, len) + Recs(ys, len);
    FlattenJoin(Recs(xs, len), Recs(ys, len));
  }

  lemma FlatOne(x: nat, len: nat)
    ensures Flat([x], len) == Rec(x, len)
  {
    assert Recs([x], len) == [Rec(x, len)];
    FlattenAppend([], Rec(x, len));
    assert [] + [Rec(x, len)] == [Rec(x, len)];
  }

  /** Records a up to b lie at their multiples of len. */
  lemma FlatSlice(xs: seq<nat>, a: nat, b: nat, len: nat)
    requires a <= b <= |xs|
    ensures len * a <= len * b <= |Flat(xs, len)|
    ensures Flat(xs, len)[len * a..len * b] == Flat(xs[a..b], len)
  {
    var f := Flat(xs, len);
    FlatLength(xs, len);
    FlatLength(xs[..a], len);
    FlatLength(xs[a..b], len);
    MulGap(len, a, b);
    MulGap(len, b, |xs|);
    assert len * (b - a) == len * b - len * a;
    assert xs == xs[..a] + (xs[a..b] + xs[b..]);
    FlatJoin(xs[..a], xs[a..b] + xs[b..], len);
    FlatJoin(xs[a..b], xs[b..], len);
  }

  /** The first p bytes of record a. */
  lemma FlatPart(xs: seq<nat>, a: nat, p: nat, len: nat)
    requires a < |xs| && p <= len
    ensures len * a + p <= |Flat(xs, len)| && Flat(xs, len)[len * a..len * a + p] == Rec(xs[a], len)[..p]
  {
    FlatSlice(xs, a, a + 1, len);
    assert len * (a + 1) == len * a + len;
    assert xs[a..a + 1] == [xs[a]];
    FlatOne(xs[a], len);
    var f, from := Flat(xs, len), len * a;
    hide Flat, Rec;
    assert f[from..from + p] == f[from..from + len][..p];
  }

  lemma FlatInjective(xs: seq<nat>, ys: seq<nat>, len: nat)
    requires len > 0 && Flat(xs, len) == Flat(ys, len)
    ensures xs == ys
  {
    FlatLength(xs, len);
    FlatLength(ys, len);
    MulGap(len, |xs|, |ys|);
    MulGap(len, |ys|, |xs|);
    forall i | 0 <= i < |xs| ensures xs[i] == ys[i] {
      FlatPart(xs, i, len, len);
      FlatPart(ys, i, len, len);
      assert Rec(xs[i], len)[..len][0] == Rec(ys[i], len)[..len][0];
    }
  }

  // ---- whole records ----

  /**
   * How the bytes of a state are made up: the slots of the whole records in idle_list, those of the records in job_list,
   * and, inside rbuff_move, how many of the latter have been copied: m whole ones and p bytes of the next.
   */
  datatype Parts = Parts(xs: seq<nat>, ys: seq<nat>, m: nat, p: nat)

  /** The bytes rbuff_move has published in idle_list and not yet erased from job_list. */
  function Moved(h: Hasher): nat {
    if !h.Moving? then 0
    else
      match h.move
      case Between(_, _, _, k1, _) => k1
      case Put2(_, _, _, k1, _) => k1
      case Done(k) => k
      case _ => 0
  }

  ghost predicate WholeBy(w: Work, q: Parts, n: nat, len: nat) {
    && Sound(w, n, len)
    && Bytewise(w, q, len)
    && ReaderOk(w.reader, q.xs, len)
    && IsRecord(w.local, len)
    && (w.hasher.Moving? ==> MoveOk(w.hasher.move, w, len))
  }

  ghost predicate IsRecord(b: seq<Byte>, len: nat) {
    exists s :: b == Rec(s, len)
  }

  ghost predicate Bytewise(w: Work, q: Parts, len: nat) {
    && q.m <= |q.ys| && q.p < len && (q.p > 0 ==> q.m < |q.ys|)
    && Moved(w.hasher) == len * q.m + q.p
    && w.job.queue == Flat(q.ys, len)
    && w.idle.queue == Flat(q.xs, len) + Piece(q, len)
  }

  /** The record at the end of idle_list that is not yet copied to its end. */
  function Piece(q: Parts, len: nat): (r: seq<Byte>)
    requires q.p <= len && (q.p > 0 ==> q.m < |q.ys|)
    ensures |r| == q.p
  {
    if q.p == 0 then [] else Rec(q.ys[q.m], len)[..q.p]
  }

  /** The record the reader is busy with is the first whole one in idle_list. */
  ghost predicate ReaderOk(r: Reader, xs: seq<nat>, len: nat) {
    r.Peeked? || r.Ready? || r.Window? ==> xs != [] && r.rec == Rec(xs[0], len)
  }

  /** What rbuff_move has looked up still holds, and a first put that was cut took whole records. */
  ghost predicate MoveOk(v: Move, w: Work, len: nat)
    requires len > 0
  {
    match v
    case Start => true
    case Sized(size) => size > w.job.capacity || (size % len == 0 && size <= |w.job.queue|)
    case Spanned(size, len1, len2, _) => SpansOk(size, len1, len2, w, len)
    case Put1(size, len1, len2, k) =>
      && SpansOk(size, len1, len2, w, len)
      && k <= Min(len1, size) && k <= Room(w.idle) && (k == Min(len1, size) || k % len == 0)
    case Between(size, len1, len2, k1, _) =>
      && SpansOk(size, len1, len2, w, len)
      && k1 <= Min(len1, size) && (k1 == Min(len1, size) || k1 % len == 0)
    case Put2(size, len1, len2, k1, k2) =>
      && SpansOk(size, len1, len2, w, len)
      && k1 <= Min(len1, size) && (k1 == Min(len1, size) || k1 % len == 0)
      && k2 <= Min(len2, size - k1) && k2 <= Room(w.idle)
    case Done(k) => k % len == 0 && k <= |w.job.queue|
  }

  ghost predicate SpansOk(size: nat, len1: nat, len2: nat, w: Work, len: nat)
    requires len > 0
  {
    && size % len == 0 && size <= len1 + len2 <= |w.job.queue|
    && |w.idle.queue| <= w.idle.capacity
  }

  lemma Sizes(w: Work, q: Parts, n: nat, len: nat)
    requires WholeBy(w, q, n, len)
    ensures |w.idle.queue| == len * |q.xs| + q.p && |w.job.queue| == len * |q.ys|
    ensures |q.xs| <= n && |q.ys| <= n
    ensures Room(w.idle) == len * (n - |q.xs|) - q.p && Room(w.job) == len * (n - |q.ys|)
    ensures w.job.queue != [] <==> q.ys != []
    ensures len <= |w.idle.queue| <==> q.xs != []
  {
    FlatLength(q.xs, len);
    FlatLength(q.ys, len);
    MulGap(len, n, |q.xs|);
    MulGap(len, n, |q.ys|);
    MulGap(len, 0, |q.ys|);
    MulGap(len, 0, |q.xs|);
    assert len * (n - |q.xs|) == len * n - len * |q.xs| && len * (n - |q.ys|) == len * n - len * |q.ys|;
  }

  lemma MultipleOf(k: nat, len: nat, m: nat)
    requires len > 0 && k == len * m
    ensures k % len == 0 && k / len == m
  {
    DivModUnique(k, len, m, 0);
  }

  lemma Multiple(k: nat, len: nat)
    requires len > 0
    ensures k % len == 0 ==> k == len * (k / len)
    ensures k == len * (k / len) + k % len
  {
  }

  /** A record put into a ring with no unfinished one goes in whole, or not at all. */
  lemma PutWhole(f: Fifo<Byte>, xs: seq<nat>, s: nat, n: nat, len: nat)
    requires len > 0 && f.capacity == len * n && f.queue == Flat(xs, len) && |f.queue| <= f.capacity
    ensures |f.queue| == len * |xs| && |xs| <= n
    ensures |f.queue| + len <= f.capacity <==> |xs| < n
    ensures FifoStep(f, OpPut(Rec(s, len))).0 == if |xs| < n then f.(queue := Flat(xs + [s], len)) else f
  {
    FlatLength(xs, len);
    MulGap(len, n, |xs|);
    MulGap(len, |xs|, n);
    FlatJoin(xs, [s], len);
    FlatOne(s, len);
    assert Rec(s, len)[..len] == Rec(s, len);
  }

  /** The first record of a ring. */
  lemma FirstRecord(xs: seq<nat>, len: nat)
    requires xs != []
    ensures Flat(xs, len) == Rec(xs[0], len) + Flat(xs[1..], len)
  {
    assert xs == [xs[0]] + xs[1..];
    FlatJoin([xs[0]], xs[1..], len);
    FlatOne(xs[0], len);
  }

  // ---- all slots ----

  ghost function AllSlots(n: nat): multiset<nat> {
    multiset(seq(n, i => i))
  }

  /** The slot of the record the hasher has taken. */
  ghost function InHand(w: Work): multiset<nat> {
    if w.hasher == Working(false) && w.local != [] then multiset{w.local[0].slot} else multiset{}
  }

  /** The slot that is in idle_list and handed over as well. */
  ghost function Doubled(w: Work): multiset<nat> {
    if w.reader.Window? && w.reader.rec != [] then multiset{w.reader.rec[0].slot} else multiset{}
  }

  /** In idle_list, still to be moved from job_list, or in the hasher's hand: every slot once. */
  ghost predicate Spread(q: Parts, hand: multiset<nat>, doubled: multiset<nat>, n: nat)
    requires q.m <= |q.ys|
  {
    multiset(q.xs) + multiset(q.ys[q.m..]) + hand == AllSlots(n) + doubled
  }

  /** The record just handed over is the last in job_list, or the one in the hasher's hand. */
  ghost predicate HandedOverLast(w: Work, q: Parts)
    requires q.m <= |q.ys|
  {
    w.reader.Window? && w.reader.rec != [] ==>
      && (q.m < |q.ys| ==> q.ys[|q.ys| - 1] == w.reader.rec[0].slot)
      && (q.m == |q.ys| && w.hasher == Working(false) && w.local != [] ==> w.local[0].slot == w.reader.rec[0].slot)
  }

  ghost predicate KeptBy(w: Work, q: Parts, n: nat, len: nat) {
    WholeBy(w, q, n, len) && Spread(q, InHand(w), Doubled(w), n) && HandedOverLast(w, q)
  }

  /** Both rings hold whole records, but for one rbuff_move is copying. */
  ghost predicate Whole(w: Work, n: nat, len: nat) {
    exists q :: WholeBy(w, q, n, len)
  }

  /** And all n slots are there, each once. */
  ghost predicate Kept(w: Work, n: nat, len: nat) {
    exists q :: KeptBy(w, q, n, len)
  }

  // ---- what can go wrong ----

  /** The hasher's put on idle_list clips the record it has taken. */
  ghost predicate Loses(w: Work, u: Work, len: nat) {
    ReturnJob(w, u) && w.hasher == Working(false) && |w.idle.queue| + len > w.idle.capacity
  }

  /** A record left over from an earlier turn goes into idle_list once more. */
  ghost predicate Adds(w: Work, u: Work, len: nat) {
    ReturnJob(w, u) && w.hasher == Working(true) && |w.idle.queue| + len <= w.idle.capacity
  }

  /** The reader's put on job_list clips the record. */
  ghost predicate Drops(w: Work, u: Work, len: nat) {
    HandOver(w, u) && |w.job.queue| + len > w.job.capacity
  }

  /** rbuff_move copies from the second span although the first was cut, or stops inside a record. */
  ghost predicate Tears(w: Work, u: Work, len: nat)
    requires len > 0
  {
    && Publish2(w, u)
    && var v := w.hasher.move;
       (v.k2 > 0 && v.k1 < Min(v.len1, v.size)) || (v.k1 + v.k2) % len != 0
  }

  ghost predicate Bad(w: World, u: World) {
    w.len > 0 && (Loses(w.work, u.work, w.len) || Adds(w.work, u.work, w.len) || Drops(w.work, u.work, w.len) || Tears(w.work, u.work, w.len))
  }

  // ---- every step keeps whole records, and says what becomes of the slots ----

  lemma PeekOk(w: Work, u: Work, q: Parts, n: nat, len: nat)
    requires WholeBy(w, q, n, len) && Peek(w, u, len)
    ensures q.xs != [] && u == w.(reader := Peeked(Rec(q.xs[0], len)))
  {
    Sizes(w, q, n, len);
    FirstRecord(q.xs, len);
    assert w.idle.queue[..len] == Rec(q.xs[0], len);
  }

  lemma ReaderReadsOk(w: Work, u: Work, q: Parts, n: nat, len: nat)
    requires WholeBy(w, q, n, len) && (SeeIdle(w, u) || Peek(w, u, len) || Fill(w, u) || GiveUp(w, u))
    ensures WholeBy(u, q, n, len) && u == w.(reader := u.reader)
    ensures !w.reader.Window? && !u.reader.Window?
  {
    if Peek(w, u, len) {
      PeekOk(w, u, q, n, len);
    }
    hide Flat, Rec, Peek, Min;
    assert w.hasher.Moving? ==> MoveOk(u.hasher.move, u, len);
  }

  lemma LookOk(w: Work, u: Work, q: Parts, n: nat, len: nat)
    requires WholeBy(w, q, n, len) && (Look(w, u) || u == w.(run := true) || u == w.(run := false))
    ensures WholeBy(u, q, n, len) && u.reader == w.reader && u.local == w.local
    ensures u.hasher == w.hasher || (!w.hasher.Working? && !u.hasher.Working?)
  {
    hide Flat, Rec, Min;
    assert w.hasher == u.hasher || (Moved(w.hasher) == Moved(u.hasher) == 0);
    assert u.hasher.Moving? ==> MoveOk(u.hasher.move, u, len);
  }

  lemma ReadsOk(w: Work, u: Work, q: Parts, n: nat, len: nat)
    requires WholeBy(w, q, n, len) && Reads(w, u, len)
    ensures WholeBy(u, q, n, len)
    ensures InHand(u) == InHand(w) && Doubled(u) == Doubled(w)
    ensures q.m <= |q.ys| && (HandedOverLast(w, q) ==> HandedOverLast(u, q))
  {
    assert q.m <= |q.ys|;
    hide WholeBy, SeeIdle, Peek, Fill, GiveUp, Look;
    if SeeIdle(w, u) || Peek(w, u, len) || Fill(w, u) || GiveUp(w, u) {
      ReaderReadsOk(w, u, q, n, len);
      assert !u.reader.Window?;
    } else {
      LookOk(w, u, q, n, len);
    }
  }

  lemma HandOverOk(w: Work, u: Work, q: Parts, n: nat, len: nat) returns (t: Parts)
    requires WholeBy(w, q, n, len) && HandOver(w, u)
    ensures WholeBy(u, t, n, len) && t == if |q.ys| < n then q.(ys := q.ys + [q.xs[0]]) else q
    ensures q.xs != [] && (|q.ys| < n <==> !Drops(w, u, len))
    ensures InHand(u) == InHand(w) && Doubled(u) == multiset{q.xs[0]} && Doubled(w) == multiset{}
    ensures u.hasher == w.hasher && u.local == w.local && u.reader.rec == Rec(q.xs[0], len)
  {
    Sizes(w, q, n, len);
    PutWhole(w.job, q.ys, q.xs[0], n, len);
    hide Flat, FifoStep, Min;
    t := if |q.ys| < n then q.(ys := q.ys + [q.xs[0]]) else q;
    assert Piece(t, len) == Piece(q, len);
    assert w.hasher.Moving? ==> MoveOk(u.hasher.move, u, len);
  }

  lemma EraseOk(w: Work, u: Work, q: Parts, n: nat, len: nat) returns (t: Parts)
    requires WholeBy(w, q, n, len) && Erase(w, u, len)
    ensures q.xs != [] && t == q.(xs := q.xs[1..]) && WholeBy(u, t, n, len)
    ensures InHand(u) == InHand(w) && Doubled(w) == multiset{q.xs[0]} && Doubled(u) == multiset{}
  {
    Sizes(w, q, n, len);
    FirstRecord(q.xs, len);
    t := q.(xs := q.xs[1..]);
    assert w.idle.queue[len..] == Flat(t.xs, len) + Piece(t, len);
    hide Flat, Rec;
    assert w.hasher.Moving? ==> MoveOk(u.hasher.move, u, len);
  }

  lemma AtRest(w: Work, q: Parts, n: nat, len: nat)
    requires WholeBy(w, q, n, len) && Moved(w.hasher) == 0
    ensures q.m == 0 && q.p == 0 && Piece(q, len) == [] && w.idle.queue == Flat(q.xs, len) && q.ys[q.m..] == q.ys
  {
    MulGap(len, 1, q.m);
    assert len * 1 == len;
  }

  lemma TakeJobOk(w: Work, u: Work, q: Parts, n: nat, len: nat) returns (t: Parts)
    requires WholeBy(w, q, n, len) && TakeJob(w, u, len)
    ensures q.m == 0 && t == (if q.ys == [] then q else q.(ys := q.ys[1..])) && WholeBy(u, t, n, len)
    ensures q.ys == [] ==> u == w.(hasher := Working(true))
    ensures q.ys != [] ==> u.hasher == Working(false) && u.local == Rec(q.ys[0], len)
    ensures InHand(w) == multiset{} && u.reader == w.reader
    ensures InHand(u) == if q.ys == [] then multiset{} else multiset{q.ys[0]}
  {
    Sizes(w, q, n, len);
    AtRest(w, q, n, len);
    t := if q.ys == [] then q else q.(ys := q.ys[1..]);
    if q.ys == [] {
      assert w.job.queue == [];
      assert [] + w.local[0..] == w.local;
    } else {
      FirstRecord(q.ys, len);
      MulGap(len, 1, |q.ys|);
      assert w.job.queue[..len] == Rec(q.ys[0], len) && w.job.queue[len..] == Flat(t.ys, len);
      assert Rec(q.ys[0], len) + w.local[len..] == Rec(q.ys[0], len);
    }
    hide Flat;
  }

  lemma ReturnJobOk(w: Work, u: Work, q: Parts, s: nat, n: nat, len: nat) returns (t: Parts)
    requires WholeBy(w, q, n, len) && ReturnJob(w, u) && w.local == Rec(s, len)
    ensures q.m == 0 && t == (if |q.xs| < n then q.(xs := q.xs + [s]) else q) && WholeBy(u, t, n, len)
    ensures |q.xs| < n <==> |w.idle.queue| + len <= w.idle.capacity
    ensures InHand(u) == multiset{} && u.reader == w.reader
    ensures InHand(w) == if w.hasher == Working(false) then multiset{s} else multiset{}
  {
    Sizes(w, q, n, len);
    AtRest(w, q, n, len);
    PutWhole(w.idle, q.xs, s, n, len);
    t := if |q.xs| < n then q.(xs := q.xs + [s]) else q;
    hide Flat, FifoStep;
  }

  /** What a look of rbuff_move finds out is right. */
  lemma LookFinds(w: Work, u: Work, q: Parts, n: nat, len: nat)
    requires WholeBy(w, q, n, len) && (LookSize(w, u) || LookSpans(w, u) || Second(w, u))
    ensures u == w.(hasher := u.hasher) && w.hasher.Moving? && u.hasher.Moving? && Moved(u.hasher) == Moved(w.hasher)
    ensures MoveOk(u.hasher.move, u, len)
  {
    Sizes(w, q, n, len);
    MultipleOf(|w.job.queue|, len, |q.ys|);
    hide Bytewise, ReaderOk, IsRecord, SeesNone;
  }

  lemma FirstFinds(w: Work, u: Work, q: Parts, n: nat, len: nat)
    requires WholeBy(w, q, n, len) && First(w, u)
    ensures u == w.(hasher := u.hasher) && w.hasher.Moving? && u.hasher.Moving? && Moved(u.hasher) == Moved(w.hasher)
    ensures MoveOk(u.hasher.move, u, len)
  {
    Sizes(w, q, n, len);
    AtRest(w, q, n, len);
    MultipleOf(Room(w.idle), len, n - |q.xs|);
    MultipleOf(0, len, 0);
    hide Bytewise, ReaderOk, IsRecord, SeesNone, Sound;
  }

  lemma LooksOk(w: Work, u: Work, q: Parts, n: nat, len: nat)
    requires WholeBy(w, q, n, len) && (LookSize(w, u) || LookSpans(w, u) || First(w, u) || Second(w, u))
    ensures WholeBy(u, q, n, len) && InHand(u) == InHand(w) && u.reader == w.reader
  {
    if First(w, u) {
      FirstFinds(w, u, q, n, len);
    } else {
      LookFinds(w, u, q, n, len);
    }
    hide Flat, Rec, MoveOk, LookSize, LookSpans, First, Second;
    assert Bytewise(u, q, len);
  }

  /** A put of rbuff_move fits, and what has been looked up still holds. */
  lemma PublishFits(w: Work, u: Work, q: Parts, n: nat, len: nat)
    requires WholeBy(w, q, n, len) && (Publish1(w, u) || (Publish2(w, u) && !Tears(w, u, len)))
    ensures Sound(u, n, len) && MoveOk(u.hasher.move, u, len)
    ensures u == w.(idle := u.idle, hasher := u.hasher)
  {
    hide Bytewise, ReaderOk, IsRecord;
    var v := w.hasher.move;
    if Publish1(w, u) {
      SliceLength(w.job.queue, 0, v.k);
    } else {
      SliceLength(w.job.queue, v.len1, v.len1 + v.k2);
    }
  }

  lemma Assembled(w: Work, u: Work, q: Parts, t: Parts, n: nat, len: nat)
    requires WholeBy(w, q, n, len) && u == w.(idle := u.idle, hasher := u.hasher) && u.hasher.Moving? && w.hasher.Moving?
    requires Sound(u, n, len) && MoveOk(u.hasher.move, u, len) && Bytewise(u, t, len) && q.xs <= t.xs
    ensures WholeBy(u, t, n, len) && InHand(u) == InHand(w)
  {
    hide Bytewise, MoveOk, Sound;
    assert q.xs != [] ==> t.xs[0] == q.xs[0];
  }

  lemma Publish1Ok(w: Work, u: Work, q: Parts, n: nat, len: nat) returns (t: Parts)
    requires WholeBy(w, q, n, len) && Publish1(w, u)
    ensures q.m <= t.m <= |q.ys| && t.ys == q.ys && t.xs == q.xs + q.ys[q.m..t.m] && WholeBy(u, t, n, len)
    ensures InHand(u) == InHand(w) && u.reader == w.reader
  {
    AtRest(w, q, n, len);
    Sizes(w, q, n, len);
    var k := w.hasher.move.k;
    assert k <= |w.job.queue|;
    t := FirstBytes(q, w.job.queue, k, len);
    PublishFits(w, u, q, n, len);
    assert Bytewise(u, t, len) by {
      hide WholeBy, MoveOk, Flat, Piece, Slice;
      assert u.idle.queue == Flat(t.xs, len) + Piece(t, len);
    }
    hide Flat, Piece, MoveOk, Bytewise, Slice;
    Assembled(w, u, q, t, n, len);
  }

  lemma SamePiece(q: Parts, t: Parts, len: nat)
    requires q.p <= len && (q.p > 0 ==> q.m < |q.ys|) && t.ys == q.ys && t.m == q.m && t.p == q.p
    ensures Piece(q, len) == Piece(t, len)
  {
  }

  lemma FirstBytes(q: Parts, job: seq<Byte>, k: nat, len: nat) returns (t: Parts)
    requires len > 0 && job == Flat(q.ys, len) && k <= |job| && q.m == q.p == 0
    ensures t.ys == q.ys && t.m <= |q.ys| && t.xs == q.xs + q.ys[..t.m] && t.p < len && (t.p > 0 ==> t.m < |q.ys|)
    ensures q.ys[q.m..t.m] == q.ys[..t.m]
    ensures k == len * t.m + t.p
    ensures Flat(q.xs, len) + Slice(job, 0, k) == Flat(t.xs, len) + Piece(t, len)
  {
    hide Flat, Rec, Piece;
    var a, b := k / len, k % len;
    Multiple(k, len);
    FlatLength(q.ys, len);
    PrefixParts(q.ys, a, b, len);
    t := Parts(q.xs + q.ys[..a], q.ys, a, b);
    SamePiece(Parts([], q.ys, a, b), t, len);
    FlatJoin(q.xs, q.ys[..a], len);
    var whole, piece := Flat(q.ys[..a], len), Piece(t, len);
    assert Slice(job, 0, k) == whole + piece;
    assert Flat(q.xs, len) + (whole + piece) == Flat(q.xs, len) + whole + piece;
  }

  /** The first bytes of some records: whole ones and a piece. */
  lemma PrefixParts(ys: seq<nat>, a: nat, b: nat, len: nat)
    requires len > 0 && b < len && len * a + b <= len * |ys|
    ensures a <= |ys| && (b > 0 ==> a < |ys|) && len * a + b <= |Flat(ys, len)|
    ensures Flat(ys, len)[..len * a + b] == Flat(ys[..a], len) + Piece(Parts([], ys, a, b), len)
  {
    FlatLength(ys, len);
    MulGap(len, |ys|, a);
    FlatSlice(ys, 0, a, len);
    assert len * 0 == 0;
    if b > 0 {
      FlatPart(ys, a, b, len);
      var f := Flat(ys, len);
      assert f[..len * a + b] == f[len * 0..len * a] + f[len * a..len * a + b];
    }
  }

  lemma SecondBytes(q: Parts, idle: seq<Byte>, job: seq<Byte>, len1: nat, k1: nat, k2: nat, c: nat, len: nat)
    requires len > 0 && q.p < len && (q.p > 0 ==> q.m < |q.ys|) && q.m <= c <= |q.ys|
    requires k1 == len * q.m + q.p && k1 + k2 == len * c && (k2 > 0 ==> len1 == k1)
    requires job == Flat(q.ys, len) && idle == Flat(q.xs, len) + Piece(q, len)
    ensures idle + Slice(job, len1, len1 + k2) == Flat(q.xs + q.ys[q.m..c], len)
  {
    SecondStretch(q, k1, c, len);
    hide Flat, Rec, Piece;
    assert Slice(job, len1, len1 + k2) == job[k1..len * c];
    FlatJoin(q.xs, q.ys[q.m..c], len);
  }

  lemma Put2Is(w: Work, u: Work, q: Parts, n: nat, len: nat)
    requires WholeBy(w, q, n, len) && Publish2(w, u) && !Tears(w, u, len)
    ensures len > 0 && w.hasher.Moving? && w.hasher.move.Put2? && u.hasher.Moving? && Bytewise(w, q, len)
    ensures var v := w.hasher.move;
            && v.k1 == len * q.m + q.p && (v.k1 + v.k2) % len == 0 && (v.k2 > 0 ==> v.len1 == v.k1)
            && v.k1 + v.k2 <= len * |q.ys| && u.idle.queue == w.idle.queue + Slice(w.job.queue, v.len1, v.len1 + v.k2)
            && Moved(u.hasher) == v.k1 + v.k2
  {
    Sizes(w, q, n, len);
    hide Slice, ReaderOk, IsRecord;
  }

  lemma Publish2Ok(w: Work, u: Work, q: Parts, n: nat, len: nat) returns (t: Parts)
    requires WholeBy(w, q, n, len) && Publish2(w, u) && !Tears(w, u, len)
    ensures q.m <= t.m <= |q.ys| && t.ys == q.ys && t.xs == q.xs + q.ys[q.m..t.m] && WholeBy(u, t, n, len)
    ensures InHand(u) == InHand(w) && u.reader == w.reader
  {
    hide WholeBy, Tears, MoveOk, Flat, Slice, Publish2, InHand;
    Put2Is(w, u, q, n, len);
    var v := w.hasher.move;
    var c := WholeCount(v.k1 + v.k2, len, |q.ys|, q.m);
    t := Parts(q.xs + q.ys[q.m..c], q.ys, c, 0);
    SecondBytes(q, w.idle.queue, w.job.queue, v.len1, v.k1, v.k2, c, len);
    PublishFits(w, u, q, n, len);
    assert u.idle.queue == Flat(t.xs, len) + Piece(t, len);
    Assembled(w, u, q, t, n, len);
  }

  lemma WholeCount(k: nat, len: nat, most: nat, least: nat) returns (c: nat)
    requires len > 0 && k % len == 0 && len * least <= k <= len * most
    ensures k == len * c && least <= c <= most
  {
    c := k / len;
    Multiple(k, len);
    MulGap(len, most, c);
    MulGap(len, c, least);
  }

  lemma SliceLength(q: seq<Byte>, a: nat, b: nat)
    requires a <= b
    ensures |Slice(q, a, b)| <= b - a
  {
  }

  /** What is missing of the piece, and whole records behind it. */
  lemma SecondStretch(q: Parts, k1: nat, c: nat, len: nat)
    requires len > 0 && q.p < len && k1 == len * q.m + q.p && q.m <= c <= |q.ys| && (q.p > 0 ==> q.m < |q.ys|) && k1 <= len * c
    ensures len * c <= |Flat(q.ys, len)|
    ensures Piece(q, len) + Flat(q.ys, len)[k1..len * c] == Flat(q.ys[q.m..c], len)
  {
    var f := Flat(q.ys, len);
    FlatSlice(q.ys, q.m, c, len);
    if q.p > 0 {
      FlatPart(q.ys, q.m, q.p, len);
    }
    assert f[len * q.m..len * c] == f[len * q.m..k1] + f[k1..len * c];
  }

  lemma FinishOk(w: Work, u: Work, q: Parts, n: nat, len: nat) returns (t: Parts)
    requires WholeBy(w, q, n, len) && Finish(w, u)
    ensures t == Parts(q.xs, q.ys[q.m..], 0, 0) && WholeBy(u, t, n, len)
    ensures InHand(u) == InHand(w) && u.reader == w.reader
  {
    Sizes(w, q, n, len);
    var k := w.hasher.move.k;
    t := Parts(q.xs, q.ys[q.m..], 0, 0);
    DivModUnique(k, len, q.m, q.p);
    FlatSlice(q.ys, q.m, |q.ys|, len);
    assert q.ys[q.m..|q.ys|] == q.ys[q.m..];
    assert w.job.queue[k..] == w.job.queue[k..len * |q.ys|];
    assert len * 0 == 0;
    hide Flat, Rec;
  }

  // ---- the slots, step by step ----

  lemma BagJoin(xs: seq<nat>, ys: seq<nat>)
    ensures multiset(xs + ys) == multiset(xs) + multiset(ys)
  {
  }

  lemma HandOverKeeps(w: Work, u: Work, q: Parts, n: nat, len: nat) returns (t: Parts)
    requires KeptBy(w, q, n, len) && HandOver(w, u) && !Drops(w, u, len)
    ensures KeptBy(u, t, n, len)
  {
    t := HandOverOk(w, u, q, n, len);
    assert t.ys[t.m..] == q.ys[q.m..] + [q.xs[0]];
    BagJoin(q.ys[q.m..], [q.xs[0]]);
    hide WholeBy, HandOver, Drops, AllSlots, InHand, Doubled;
    AddBoth(multiset(q.xs), multiset(q.ys[q.m..]), InHand(w), AllSlots(n), multiset{q.xs[0]});
  }

  lemma AddBoth(a: multiset<nat>, b: multiset<nat>, h: multiset<nat>, e: multiset<nat>, s: multiset<nat>)
    requires a + b + h == e + multiset{}
    ensures a + (b + s) + h == e + s
  {
    assert a + (b + s) + h == (a + b + h) + s;
    assert e + multiset{} == e;
  }

  lemma EraseKeeps(w: Work, u: Work, q: Parts, n: nat, len: nat) returns (t: Parts)
    requires KeptBy(w, q, n, len) && Erase(w, u, len)
    ensures KeptBy(u, t, n, len)
  {
    t := EraseOk(w, u, q, n, len);
    assert !u.reader.Window?;
    hide WholeBy, Erase, Spread, InHand, Doubled;
    EraseSpread(q, t, InHand(w), n);
  }

  lemma EraseSpread(q: Parts, t: Parts, hand: multiset<nat>, n: nat)
    requires q.m <= |q.ys| && q.xs != [] && t == q.(xs := q.xs[1..]) && Spread(q, hand, multiset{q.xs[0]}, n)
    ensures Spread(t, hand, multiset{}, n)
  {
    assert q.xs == [q.xs[0]] + t.xs;
    BagJoin([q.xs[0]], t.xs);
    hide AllSlots;
    TakeBoth(multiset(t.xs), multiset(q.ys[q.m..]), hand, AllSlots(n), multiset{q.xs[0]});
  }

  lemma TakeBoth(a: multiset<nat>, b: multiset<nat>, h: multiset<nat>, e: multiset<nat>, s: multiset<nat>)
    requires s + a + b + h == e + s
    ensures a + b + h == e + multiset{}
  {
    forall x: nat ensures (a + b + h)[x] == (e + multiset{})[x] {
      assert (s + a + b + h)[x] == (e + s)[x];
    }
  }

  lemma TakeJobKeeps(w: Work, u: Work, q: Parts, n: nat, len: nat) returns (t: Parts)
    requires KeptBy(w, q, n, len) && TakeJob(w, u, len)
    ensures KeptBy(u, t, n, len)
  {
    t := TakeJobOk(w, u, q, n, len);
    assert w.hasher.Taking? && Doubled(u) == Doubled(w);
    hide WholeBy, Spread, InHand, Doubled, TakeJob;
    if q.ys != [] {
      TakeSpread(q, t, Doubled(w), n);
      assert t.ys != [] ==> t.ys[|t.ys| - 1] == q.ys[|q.ys| - 1];
      if len > 0 && u.reader.Window? && u.reader.rec != [] {
        assert t.ys == [] ==> q.ys[|q.ys| - 1] == q.ys[0];
        assert Rec(q.ys[0], len)[0].slot == q.ys[0];
      }
    }
  }

  lemma TakeSpread(q: Parts, t: Parts, doubled: multiset<nat>, n: nat)
    requires q.m == 0 && q.ys != [] && t == q.(ys := q.ys[1..]) && Spread(q, multiset{}, doubled, n)
    ensures Spread(t, multiset{q.ys[0]}, doubled, n)
  {
    assert q.ys[0..] == q.ys && q.ys == [q.ys[0]] + t.ys && t.ys[0..] == t.ys;
    BagJoin([q.ys[0]], t.ys);
    MoveOver(multiset(q.xs), multiset{q.ys[0]}, multiset(t.ys));
    hide AllSlots;
  }

  lemma ReturnSpread(q: Parts, t: Parts, s: nat, doubled: multiset<nat>, n: nat)
    requires q.m <= |q.ys| && t == q.(xs := q.xs + [s]) && Spread(q, multiset{s}, doubled, n)
    ensures Spread(t, multiset{}, doubled, n)
  {
    BagJoin(q.xs, [s]);
    var a, b, c := multiset(q.xs), multiset{s}, multiset(q.ys[q.m..]);
    assert a + b + c + multiset{} == a + c + b;
    hide AllSlots;
  }

  lemma MoveOver(a: multiset<nat>, s: multiset<nat>, b: multiset<nat>)
    ensures a + (s + b) + multiset{} == a + b + s
  {
  }

  lemma ReturnJobKeeps(w: Work, u: Work, q: Parts, n: nat, len: nat) returns (t: Parts)
    requires KeptBy(w, q, n, len) && ReturnJob(w, u) && !Loses(w, u, len) && !Adds(w, u, len)
    ensures KeptBy(u, t, n, len)
  {
    var s :| w.local == Rec(s, len);
    t := ReturnJobOk(w, u, q, s, n, len);
    assert u.hasher.Polling? && Doubled(u) == Doubled(w);
    hide WholeBy, Spread, InHand, Doubled, ReturnJob;
    if w.hasher == Working(false) {
      ReturnSpread(q, t, s, Doubled(w), n);
    }
  }

  /** Records copied from job_list count in idle_list from then on. */
  lemma CopySpread(q: Parts, t: Parts, hand: multiset<nat>, doubled: multiset<nat>, n: nat)
    requires q.m <= t.m <= |q.ys| && t.ys == q.ys && t.xs == q.xs + q.ys[q.m..t.m] && Spread(q, hand, doubled, n)
    ensures Spread(t, hand, doubled, n)
  {
    var a, b := q.ys[q.m..t.m], q.ys[t.m..];
    assert q.ys[q.m..] == a + b;
    BagJoin(a, b);
    BagJoin(q.xs, a);
    Regroup(multiset(q.xs), multiset(a), multiset(b), hand);
  }

  lemma Regroup(a: multiset<nat>, b: multiset<nat>, c: multiset<nat>, h: multiset<nat>)
    ensures a + (b + c) + h == a + b + c + h
  {
  }

  lemma CopiedKept(w: Work, u: Work, q: Parts, t: Parts, n: nat, len: nat)
    requires KeptBy(w, q, n, len) && WholeBy(u, t, n, len) && u.reader == w.reader && InHand(u) == InHand(w) && !u.hasher.Working?
    requires q.m <= t.m <= |q.ys| && t.ys == q.ys && t.xs == q.xs + q.ys[q.m..t.m]
    ensures KeptBy(u, t, n, len)
  {
    hide WholeBy, Spread, HandedOverLast, InHand, Doubled;
    SameDoubled(w, u);
    CopySpread(q, t, InHand(w), Doubled(w), n);
    StillLast(w, u, q, t);
  }

  lemma FinishedKept(w: Work, u: Work, q: Parts, t: Parts, n: nat, len: nat)
    requires KeptBy(w, q, n, len) && WholeBy(u, t, n, len) && u.reader == w.reader && InHand(u) == InHand(w) && !u.hasher.Working?
    requires q.m <= |q.ys| && t == Parts(q.xs, q.ys[q.m..], 0, 0)
    ensures KeptBy(u, t, n, len)
  {
    hide WholeBy, Spread, HandedOverLast, InHand, Doubled;
    SameDoubled(w, u);
    FinishSpread(q, t, InHand(w), Doubled(w), n);
    assert t.m < |t.ys| ==> t.ys[|t.ys| - 1] == q.ys[|q.ys| - 1];
    StillLast(w, u, q, t);
  }

  lemma CarriesKeeps(w: Work, u: Work, q: Parts, n: nat, len: nat) returns (t: Parts)
    requires len > 0 && KeptBy(w, q, n, len) && Carries(w, u) && !Tears(w, u, len)
    ensures KeptBy(u, t, n, len)
  {
    assert w.hasher.Moving? && !u.hasher.Working?;
    assert WholeBy(w, q, n, len);
    SoundIs(w, q, n, len);
    hide WholeBy, KeptBy, LookSize, LookSpans, First, Publish1, Second, Publish2, Finish, Tears, Slice, InHand;
    if Publish1(w, u) {
      t := Publish1Ok(w, u, q, n, len);
      CopiedKept(w, u, q, t, n, len);
    } else if Publish2(w, u) {
      t := Publish2Ok(w, u, q, n, len);
      CopiedKept(w, u, q, t, n, len);
    } else if Finish(w, u) {
      t := FinishOk(w, u, q, n, len);
      FinishedKept(w, u, q, t, n, len);
    } else {
      t := q;
      LooksOk(w, u, q, n, len);
      assert q.ys[q.m..q.m] == [] && q.xs + [] == q.xs;
      CopiedKept(w, u, q, t, n, len);
    }
  }

  lemma SameDoubled(w: Work, u: Work)
    requires u.reader == w.reader
    ensures Doubled(u) == Doubled(w)
  {
  }

  lemma StillLast(w: Work, u: Work, q: Parts, t: Parts)
    requires q.m <= |q.ys| && t.m <= |t.ys| && HandedOverLast(w, q) && u.reader == w.reader && !u.hasher.Working?
    requires t.m < |t.ys| ==> q.m < |q.ys| && t.ys[|t.ys| - 1] == q.ys[|q.ys| - 1]
    ensures HandedOverLast(u, t)
  {
  }

  lemma FinishSpread(q: Parts, t: Parts, hand: multiset<nat>, doubled: multiset<nat>, n: nat)
    requires q.m <= |q.ys| && t == Parts(q.xs, q.ys[q.m..], 0, 0) && Spread(q, hand, doubled, n)
    ensures Spread(t, hand, doubled, n)
  {
    assert t.ys[0..] == t.ys;
  }

  // ---- a step that is bad loses or doubles a slot, or tears a record ----

  function One(b: bool): nat {
    if b then 1 else 0
  }

  /** All bytes, without those copied and not yet erased and with the record in hand. */
  function Balance(w: Work, len: nat): int {
    |w.idle.queue| + |w.job.queue| - Moved(w.hasher) + len * One(w.hasher == Working(false)) - len * One(w.reader.Window?)
  }

  /** When all slots are kept there are n records. */
  lemma KeptCount(w: Work, q: Parts, n: nat, len: nat)
    requires KeptBy(w, q, n, len)
    ensures |q.xs| + (|q.ys| - q.m) + One(w.hasher == Working(false)) == n + One(w.reader.Window?)
    ensures Balance(w, len) == len * n
  {
    Sizes(w, q, n, len);
    assert w.local != [] && (w.reader.Window? ==> w.reader.rec != []);
    var a, b := |q.xs|, |q.ys| - q.m;
    var h, d := One(w.hasher == Working(false)), One(w.reader.Window?);
    assert |multiset(q.xs) + multiset(q.ys[q.m..]) + InHand(w)| == |AllSlots(n) + Doubled(w)|;
    assert a + b + h == n + d;
    Distribute(len, a, |q.ys|, q.m, h, n, d);
  }

  lemma Distribute(len: nat, a: nat, y: nat, m: nat, h: nat, n: nat, d: nat)
    requires a + (y - m) + h == n + d
    ensures len * a + len * y - len * m + len * h == len * n + len * d
  {
    assert len * a + len * y - len * m + len * h == len * (a + y - m + h);
    assert len * n + len * d == len * (n + d);
  }

  lemma BadCount(w: Work, u: Work, q: Parts, n: nat, len: nat)
    requires KeptBy(w, q, n, len) && (Loses(w, u, len) || Adds(w, u, len) || Drops(w, u, len))
    ensures !Kept(u, n, len)
  {
    KeptCount(w, q, n, len);
    ByteSteps(w, u, q, n, len);
    if Kept(u, n, len) {
      var t :| KeptBy(u, t, n, len);
      KeptCount(u, t, n, len);
    }
  }

  /** What a bad put does to the balance. */
  lemma ByteSteps(w: Work, u: Work, q: Parts, n: nat, len: nat)
    requires WholeBy(w, q, n, len)
    ensures Loses(w, u, len) ==> Balance(u, len) == Balance(w, len) - len
    ensures Adds(w, u, len) ==> Balance(u, len) == Balance(w, len) + len
    ensures Drops(w, u, len) ==> Balance(u, len) == Balance(w, len) - len
    ensures len > 0
  {
    Sizes(w, q, n, len);
    assert len * 0 == 0 && len * 1 == len;
    if Loses(w, u, len) || Adds(w, u, len) {
      var s :| w.local == Rec(s, len);
      var t := ReturnJobOk(w, u, q, s, n, len);
      Sizes(u, t, n, len);
      Longer(len, q.xs, s);
    }
    if Drops(w, u, len) {
      var t := HandOverOk(w, u, q, n, len);
    }
    hide WholeBy, FifoStep;
  }

  lemma Longer(len: nat, xs: seq<nat>, s: nat)
    ensures len * |xs + [s]| == len * |xs| + len
  {
  }

  /** Each slot still to be moved is in job_list once. */
  lemma NoRepeat(w: Work, q: Parts, n: nat, len: nat, i: nat, j: nat)
    requires KeptBy(w, q, n, len) && q.m <= i < j < |q.ys|
    ensures q.ys[i] != q.ys[j]
  {
    MovedOnce(w, q, n, len, q.ys[i]);
    Twice(q.ys[q.m..], i - q.m, j - q.m);
  }

  lemma Twice(r: seq<nat>, i: nat, j: nat)
    requires i < j < |r|
    ensures r[i] == r[j] ==> multiset(r)[r[i]] >= 2
  {
    var a, b := r[..j], r[j..];
    assert r == a + b;
    BagJoin(a, b);
    assert a[i] in a && b[0] in b;
  }

  lemma MovedOnce(w: Work, q: Parts, n: nat, len: nat, x: nat)
    requires KeptBy(w, q, n, len)
    ensures multiset(q.ys[q.m..])[x] <= 1
  {
    AtMostOnce(n, x);
    var a, b: multiset<nat> := multiset(q.xs), multiset(q.ys[q.m..]);
    assert (a + b + InHand(w))[x] == (AllSlots(n) + Doubled(w))[x];
    assert Doubled(w)[x] > 0 ==> q.xs[0] == x && x in q.xs && a[x] > 0;
  }

  lemma {:induction false} AtMostOnce(n: nat, x: nat)
    ensures AllSlots(n)[x] == if x < n then 1 else 0
  {
    if n == 0 {
      assert AllSlots(n) == multiset{};
    } else {
      AtMostOnce(n - 1, x);
      assert seq(n, i => i) == seq(n - 1, i => i) + [n - 1];
    }
  }

  /** The second span put after a first that was cut, and seemingly whole records in idle_list. */
  ghost predicate Torn(w: Work, u: Work, q: Parts, t: Parts, n: nat, len: nat) {
    && KeptBy(w, q, n, len) && Publish2(w, u) && KeptBy(u, t, n, len)
    && w.hasher.move.k2 > 0 && w.hasher.move.k1 < Min(w.hasher.move.len1, w.hasher.move.size)
  }

  lemma CutCounts(w: Work, u: Work, q: Parts, t: Parts, n: nat, len: nat)
    requires Torn(w, u, q, t, n, len) && len > 0
    ensures q.p == 0 && t.p == 0 && t.ys == q.ys && q.m < t.m <= |q.ys|
    ensures w.hasher.move.k1 == len * q.m && w.hasher.move.k2 == len * (t.m - q.m)
    ensures u.idle.queue == Flat(t.xs, len) && w.idle.queue == Flat(q.xs, len)
  {
    hide Flat, Rec, Sound, ReaderOk, Spread, HandedOverLast, IsRecord;
    var v := w.hasher.move;
    assert Bytewise(w, q, len) && Bytewise(u, t, len);
    assert v.k1 % len == 0 && (v.k1 + v.k2) % len == 0;
    hide MoveOk;
    TwoQuotients(v.k1, v.k2, len, q.m, q.p, t.m, t.p);
    FlatInjective(q.ys, t.ys, len);
  }

  lemma TwoQuotients(k1: nat, k2: nat, len: nat, m1: nat, p1: nat, m2: nat, p2: nat)
    requires len > 0 && k2 > 0 && k1 % len == 0 && (k1 + k2) % len == 0 && p1 < len && p2 < len
    requires k1 == len * m1 + p1 && k1 + k2 == len * m2 + p2
    ensures p1 == 0 && p2 == 0 && m1 < m2 && k2 == len * (m2 - m1)
  {
    DivModUnique(k1, len, m1, p1);
    DivModUnique(k1 + k2, len, m2, p2);
    MulGap(len, m2, m1);
    assert len * (m2 - m1) == len * m2 - len * m1;
  }

  lemma SecondCopied(w: Work, u: Work, q: Parts, t: Parts, n: nat, len: nat)
    requires Torn(w, u, q, t, n, len) && q.p == 0
    ensures w.hasher.Moving? && w.hasher.move.Put2?
    ensures var v := w.hasher.move;
            && v.k1 < v.len1 < v.len1 + v.k2 <= |Flat(q.ys, len)|
            && u.idle.queue == Flat(q.xs, len) + Flat(q.ys, len)[v.len1..v.len1 + v.k2]
  {
    hide Flat, Rec, ReaderOk, Spread, HandedOverLast, IsRecord;
    NoPiece(q, len);
  }

  /** Then the second span begins with a whole record, which is not the next to be moved. */
  lemma SkippedTo(w: Work, u: Work, q: Parts, t: Parts, n: nat, len: nat) returns (b: nat)
    requires Torn(w, u, q, t, n, len) && len > 0
    ensures q.m < b && q.m <= t.m && b + (t.m - q.m) <= |q.ys| && t.xs == q.xs + q.ys[b..b + (t.m - q.m)]
  {
    hide *;
    CutCounts(w, u, q, t, n, len);
    SecondCopied(w, u, q, t, n, len);
    var v := w.hasher.move;
    b := Landing(q.xs, q.ys, t.xs, v.len1, v.k2, q.m, t.m - q.m, len, u.idle.queue);
  }

  lemma NoPiece(t: Parts, len: nat)
    requires t.p == 0
    ensures Piece(t, len) == []
  {
  }

  lemma Landing(xs: seq<nat>, ys: seq<nat>, ts: seq<nat>, from: nat, k: nat, m: nat, c: nat, len: nat, idle: seq<Byte>)
    returns (b: nat)
    requires len > 0 && c > 0 && k == len * c && len * m < from && from + k <= |Flat(ys, len)|
    requires idle == Flat(ts, len) == Flat(xs, len) + Flat(ys, len)[from..from + k]
    ensures m < b && b + c <= |ys| && ts == xs + ys[b..b + c]
  {
    hide Flat, Rec;
    b := from / len;
    FlatLength(ys, len);
    LandsAt(from, len, b, m, c, |ys|);
    var more := Flat(ys, len)[from..from + k];
    Boundary(ts, xs, ys, from, b, from % len, len, more);
    Multiple(from, len);
    LandsExactly(from, len, b, m, c, |ys|);
    FlatSlice(ys, b, b + c, len);
    FlatJoin(xs, ys[b..b + c], len);
    FlatInjective(ts, xs + ys[b..b + c], len);
  }

  lemma LandsAt(from: nat, len: nat, b: nat, m: nat, c: nat, most: nat)
    requires len > 0 && c > 0 && b == from / len && len * m < from && from + len * c <= len * most
    ensures from == len * b + from % len && b < most && len * c > 0
  {
    Multiple(from, len);
    MulGap(len, 1, c);
    MulGap(len, most, b);
    assert len * 1 == len;
  }

  lemma LandsExactly(from: nat, len: nat, b: nat, m: nat, c: nat, most: nat)
    requires len > 0 && from == len * b && len * m < from && from + len * c <= len * most
    ensures m < b && b + c <= most && from + len * c == len * (b + c)
  {
    assert len * (b + c) == len * b + len * c;
    MulGap(len, b, m);
    MulGap(len, most, b + c);
  }

  /** Records follow in idle_list only if the stretch copied begins at the beginning of one. */
  lemma Boundary(ts: seq<nat>, xs: seq<nat>, ys: seq<nat>, from: nat, b: nat, r: nat, len: nat, more: seq<Byte>)
    requires len > 0 && from == len * b + r && r < len && b < |ys| && more != []
    requires Flat(ts, len) == Flat(xs, len) + more && more <= Flat(ys, len)[Min(from, |Flat(ys, len)|)..]
    ensures r == 0
  {
    FlatLength(xs, len);
    FlatLength(ts, len);
    FlatLength(ys, len);
    MulGap(len, |ts|, |xs|);
    assert |xs| < |ts|;
    FlatPart(ts, |xs|, len, len);
    FlatPart(ys, b, len, len);
    assert Flat(ts, len)[len * |xs|] == more[0];
    assert Flat(ts, len)[len * |xs|..len * |xs| + len][0] == Rec(ts[|xs|], len)[0];
    assert Flat(ys, len)[len * b..len * b + len][r] == Rec(ys[b], len)[r];
    assert more[0] == Flat(ys, len)[from];
  }

  lemma TornBags(w: Work, u: Work, q: Parts, t: Parts, n: nat, len: nat)
    requires Torn(w, u, q, t, n, len)
    ensures q.m <= |q.ys| && t.m <= |t.ys|
    ensures multiset(q.xs) + multiset(q.ys[q.m..]) + InHand(w) == multiset(t.xs) + multiset(t.ys[t.m..]) + InHand(w)
  {
    assert InHand(u) == InHand(w) && Doubled(u) == Doubled(w);
    hide WholeBy, HandedOverLast, AllSlots, InHand, Doubled;
  }

  /** Copying other records than the next ones leaves a slot out: for every slot to be in its place, one is there twice. */
  lemma WrongSlots(xs: seq<nat>, ys: seq<nat>, m: nat, tm: nat, b: nat, hand: multiset<nat>) returns (i: nat)
    requires m < tm <= |ys| && m < b && b + (tm - m) <= |ys|
    requires multiset(xs) + multiset(ys[m..]) + hand == multiset(xs + ys[b..b + (tm - m)]) + multiset(ys[tm..]) + hand
    ensures m < i < |ys| && ys[i] == ys[m]
  {
    var c, x := tm - m, ys[m];
    var due, got, rest := ys[m..tm], ys[b..b + c], ys[tm..];
    assert ys[m..] == due + rest;
    BagJoin(due, rest);
    BagJoin(xs, got);
    SameBag(multiset(xs), multiset(due), multiset(got), multiset(rest), hand, x);
    assert due[0] == x && x in due;
    assert x in got;
    var k :| 0 <= k < c && got[k] == x;
    i := b + k;
  }

  lemma SameBag(a: multiset<nat>, d: multiset<nat>, g: multiset<nat>, r: multiset<nat>, h: multiset<nat>, x: nat)
    requires a + (d + r) + h == a + g + r + h
    ensures d[x] == g[x]
  {
    assert (a + (d + r) + h)[x] == (a + g + r + h)[x];
  }

  lemma TornRepeats(w: Work, u: Work, q: Parts, t: Parts, n: nat, len: nat) returns (i: nat)
    requires Torn(w, u, q, t, n, len) && len > 0
    ensures q.m < i < |q.ys| && q.ys[i] == q.ys[q.m]
  {
    hide Torn;
    CutCounts(w, u, q, t, n, len);
    var b := SkippedTo(w, u, q, t, n, len);
    TornBags(w, u, q, t, n, len);
    i := WrongSlots(q.xs, q.ys, q.m, t.m, b, InHand(w));
  }

  lemma StopsAtRecord(w: Work, u: Work, t: Parts, n: nat, len: nat)
    requires Publish2(w, u) && WholeBy(u, t, n, len)
    ensures len > 0 && (w.hasher.move.k1 + w.hasher.move.k2) % len == 0
  {
  }

  /**
   * The second span put after a first that was cut: the bytes in between are missing from idle_list, and the erase
   * will remove others. Either a record is torn, or one slot has been copied for another.
   */
  lemma TornIsNotKept(w: Work, u: Work, q: Parts, n: nat, len: nat)
    requires len > 0 && KeptBy(w, q, n, len) && Tears(w, u, len)
    ensures !Kept(u, n, len)
  {
    hide WholeBy, Spread, HandedOverLast, Publish2, InHand, Doubled, Min;
    if Kept(u, n, len) {
      var t :| KeptBy(u, t, n, len);
      StopsAtRecord(w, u, t, n, len);
      var i := TornRepeats(w, u, q, t, n, len);
      NoRepeat(w, q, n, len, q.m, i);
    }
  }

  // ---- one step ----

  lemma SoundIs(w: Work, q: Parts, n: nat, len: nat)
    requires WholeBy(w, q, n, len)
    ensures len > 0 && n > 0 && IsRecord(w.local, len) && q.m <= |q.ys|
  {
  }

  /** Whole records stay whole, as long as rbuff_move does not tear one. */
  lemma NextWhole(w: World, u: World)
    requires Whole(w.work, w.n, w.len) && Next(w, u) && w.len > 0 && !Tears(w.work, u.work, w.len)
    ensures Whole(u.work, u.n, u.len)
  {
    var x, y, n, len := w.work, u.work, w.n, w.len;
    var q :| WholeBy(x, q, n, len);
    SoundIs(x, q, n, len);
    hide WholeBy, Reads, HandOver, Erase, TakeJob, ReturnJob, LookSize, LookSpans, First, Publish1, Second, Publish2, Finish, Tears;
    var t := q;
    if Reads(x, y, len) {
      ReadsOk(x, y, q, n, len);
    } else if HandOver(x, y) {
      t := HandOverOk(x, y, q, n, len);
    } else if Erase(x, y, len) {
      t := EraseOk(x, y, q, n, len);
    } else if TakeJob(x, y, len) {
      t := TakeJobOk(x, y, q, n, len);
    } else if ReturnJob(x, y) {
      var s :| x.local == Rec(s, len);
      t := ReturnJobOk(x, y, q, s, n, len);
    } else if Publish1(x, y) {
      t := Publish1Ok(x, y, q, n, len);
    } else if Publish2(x, y) {
      t := Publish2Ok(x, y, q, n, len);
    } else if Finish(x, y) {
      t := FinishOk(x, y, q, n, len);
    } else {
      LooksOk(x, y, q, n, len);
    }
    assert WholeBy(y, t, n, len);
  }

  /** From a state with all slots, a step keeps them all exactly when it is none of the bad ones. */
  lemma NextKeeps(w: World, u: World)
    requires Kept(w.work, w.n, w.len) && Next(w, u)
    ensures Kept(u.work, u.n, u.len) <==> !Bad(w, u)
  {
    var x, y, n, len := w.work, u.work, w.n, w.len;
    var q :| KeptBy(x, q, n, len);
    SoundIs(x, q, n, len);
    if Bad(w, u) {
      BadStep(x, y, q, n, len);
    } else {
      GoodStep(x, y, q, n, len);
    }
  }

  lemma BadStep(w: Work, u: Work, q: Parts, n: nat, len: nat)
    requires KeptBy(w, q, n, len) && len > 0
    requires Loses(w, u, len) || Adds(w, u, len) || Drops(w, u, len) || Tears(w, u, len)
    ensures !Kept(u, n, len)
  {
    hide KeptBy, Kept, Loses, Adds, Drops, Tears;
    if Tears(w, u, len) {
      TornIsNotKept(w, u, q, n, len);
    } else {
      BadCount(w, u, q, n, len);
    }
  }

  lemma GoodStep(w: Work, u: Work, q: Parts, n: nat, len: nat)
    requires KeptBy(w, q, n, len) && len > 0 && Moves(w, u, n, len)
    requires !Loses(w, u, len) && !Adds(w, u, len) && !Drops(w, u, len) && !Tears(w, u, len)
    ensures Kept(u, n, len)
  {
    hide KeptBy, Reads, HandOver, Erase, TakeJob, ReturnJob, Carries, Loses, Adds, Drops, Tears;
    var t := q;
    if Reads(w, u, len) {
      ReadsKeeps(w, u, q, n, len);
    } else if HandOver(w, u) {
      t := HandOverKeeps(w, u, q, n, len);
    } else if Erase(w, u, len) {
      t := EraseKeeps(w, u, q, n, len);
    } else if TakeJob(w, u, len) {
      t := TakeJobKeeps(w, u, q, n, len);
    } else if ReturnJob(w, u) {
      t := ReturnJobKeeps(w, u, q, n, len);
    } else {
      t := CarriesKeeps(w, u, q, n, len);
    }
    assert KeptBy(u, t, n, len);
  }

  lemma ReadsKeeps(w: Work, u: Work, q: Parts, n: nat, len: nat)
    requires KeptBy(w, q, n, len) && Reads(w, u, len)
    ensures KeptBy(u, q, n, len)
  {
    ReadsOk(w, u, q, n, len);
    hide WholeBy, Reads, Spread, HandedOverLast, InHand, Doubled;
  }

  // ---- runs ----

  /** As work_create leaves it: all n records in idle_list, nobody at work, any record in the local variable. */
  ghost predicate Init(w: World) {
    var x := w.work;
    && w.n > 0 && w.len > 0 && x.reader.Waiting? && x.hasher.Polling? && IsRecord(x.local, w.len)
    && x.idle == Fifo(Flat(seq(w.n, i => i), w.len), w.len * w.n) && x.job == Fifo([], w.len * w.n)
    && x.idleAt == x.jobAt == 0
  }

  ghost predicate Run(ws: seq<World>) {
    && ws != [] && Init(ws[0])
    && forall i | 0 <= i < |ws| - 1 :: Next(ws[i], ws[i + 1])
  }

  lemma InitOk(w: World)
    requires Init(w)
    ensures Kept(w.work, w.n, w.len) && Whole(w.work, w.n, w.len)
  {
    var x, n, len := w.work, w.n, w.len;
    var q := Parts(seq(n, i => i), [], 0, 0);
    FlatLength(q.xs, len);
    MulGap(len, 0, n);
    assert Flat([], len) == [];
    assert len * 0 + 0 == 0;
    assert KeptBy(x, q, n, len) by {
      assert IsRecord(x.local, len);
      assert Bytewise(x, q, len);
    }
  }

  lemma RunFacts(ws: seq<World>, i: nat)
    requires Run(ws) && i + 1 < |ws|
    ensures Next(ws[i], ws[i + 1]) && ws[i + 1].n == ws[i].n && ws[i + 1].len == ws[i].len
  {
  }

  lemma {:induction false} SameSizes(ws: seq<World>, i: nat)
    requires Run(ws) && i < |ws|
    ensures ws[i].n == ws[0].n > 0 && ws[i].len == ws[0].len > 0
  {
    if i == 0 {
      assert Init(ws[0]);
    } else {
      SameSizes(ws, i - 1);
      RunFacts(ws, i - 1);
    }
  }

  /**
   * In every reachable state, whatever the interleaving and whatever records have been lost or added, both rings hold
   * whole records, but for one that rbuff_move is copying: as long as no rbuff_move has torn one.
   */
  lemma {:induction false} EveryRunHoldsRecords(ws: seq<World>, i: nat)
    requires Run(ws) && i < |ws|
    requires forall k | 0 <= k < i :: ws[k].len > 0 && !Tears(ws[k].work, ws[k + 1].work, ws[k].len)
    ensures Whole(ws[i].work, ws[i].n, ws[i].len)
  {
    hide Whole, Next, Tears;
    if i == 0 {
      InitOk(ws[0]);
    } else {
      EveryRunHoldsRecords(ws, i - 1);
      RunFacts(ws, i - 1);
      assert !Tears(ws[i - 1].work, ws[i - 1 + 1].work, ws[i - 1].len);
      NextWhole(ws[i - 1], ws[i]);
    }
  }

  /** Up to state i all slots are kept as long as no step before it has been bad. */
  lemma {:induction false} KeptSoFar(ws: seq<World>, i: nat)
    requires Run(ws) && i < |ws|
    requires forall k | 0 <= k < i :: !Bad(ws[k], ws[k + 1])
    ensures Kept(ws[i].work, ws[i].n, ws[i].len)
  {
    hide Kept, Next, Bad;
    if i == 0 {
      InitOk(ws[0]);
    } else {
      KeptSoFar(ws, i - 1);
      RunFacts(ws, i - 1);
      assert !Bad(ws[i - 1], ws[i - 1 + 1]);
      NextKeeps(ws[i - 1], ws[i]);
    }
  }

  /**
   * Over every run all NCACHE slots are kept, each once and in whole records, if and only if no put of a record is
   * clipped, no stale record is put into an idle_list with room, and no rbuff_move copies from the second span after
   * a cut of the first or stops inside a record.
   */
  lemma AllSlotsKeptIff(ws: seq<World>)
    requires Run(ws)
    ensures (forall i | 0 <= i < |ws| :: Kept(ws[i].work, ws[i].n, ws[i].len)) <==>
            (forall i | 0 <= i < |ws| - 1 :: !Bad(ws[i], ws[i + 1]))
  {
    hide Next, Bad, Kept;
    if forall i | 0 <= i < |ws| :: Kept(ws[i].work, ws[i].n, ws[i].len) {
      forall i | 0 <= i < |ws| - 1 ensures !Bad(ws[i], ws[i + 1]) {
        RunFacts(ws, i);
        NextKeeps(ws[i], ws[i + 1]);
      }
    }
    if forall i | 0 <= i < |ws| - 1 :: !Bad(ws[i], ws[i + 1]) {
      forall i | 0 <= i < |ws| ensures Kept(ws[i].work, ws[i].n, ws[i].len) {
        KeptSoFar(ws, i);
      }
    }
  }
}
