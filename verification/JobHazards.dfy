/**
 * The exchange of job records: when a record can be lost, added or torn, for each way exactly; that none is when the
 * ring calls of one thread do not interleave with those of the other; and a run for each way.
 */
module JobHazards {
  import opened Arith
  import opened Options
  import opened Ring
  import opened RingBuffer
  import opened JobExchange

  // ---- how much room there is ----

  /**
   * With all slots kept, idle_list has room for exactly what is in job_list and not yet copied, and for the record in
   * the hasher's hand, but not for the one that is still there and already handed over.
   */
  lemma RoomIs(w: Work, q: Parts, n: nat, len: nat)
    requires KeptBy(w, q, n, len)
    ensures Sound(w, n, len)
    ensures Room(w.idle) == |w.job.queue| - Moved(w.hasher) + len * One(w.hasher == Working(false)) - len * One(w.reader.Window?)
  {
    KeptCount(w, q, n, len);
  }

  /**
   * The put that loses a record the hasher has taken: exactly when the reader is between put and erase and job_list is
   * empty; and the record lost is the very one just handed over.
   */
  lemma LosesWhen(w: Work, n: nat, len: nat)
    requires Kept(w, n, len) && w.hasher == Working(false)
    ensures |w.idle.queue| + len > w.idle.capacity <==> w.reader.Window? && w.job.queue == []
    ensures |w.idle.queue| + len > w.idle.capacity ==> w.local == w.reader.rec
  {
    var q :| KeptBy(w, q, n, len);
    RoomIs(w, q, n, len);
    Sizes(w, q, n, len);
    AtRest(w, q, n, len);
    assert len * 1 == len && len * 0 == 0;
    MulGap(len, 1, |q.ys|);
    assert w.job.queue != [] ==> |w.job.queue| >= len;
    if w.reader.Window? && w.job.queue == [] {
      var s :| w.local == Rec(s, len);
      assert w.local[0].slot == s && w.reader.rec[0].slot == q.xs[0];
    }
  }

  /**
   * The put that loses the record the reader hands over: exactly when all that is in idle_list has been put there by an
   * rbuff_move that has not erased it from job_list yet.
   */
  lemma DropsWhen(w: Work, n: nat, len: nat)
    requires Kept(w, n, len) && w.reader.Ready?
    ensures |w.job.queue| + len > w.job.capacity <==> |w.idle.queue| == Moved(w.hasher)
    ensures |w.idle.queue| > 0
  {
    var q :| KeptBy(w, q, n, len);
    Sizes(w, q, n, len);
    KeptCount(w, q, n, len);
    MulGap(len, n, |q.ys|);
    MulGap(len, |q.ys| + 1, n);
    assert len * (|q.ys| + 1) == len * |q.ys| + len;
    MulGap(len, |q.xs|, q.m);
    MulGap(len, q.m, |q.xs|);
    if |q.ys| == n {
      assert |q.xs| + One(w.hasher == Working(false)) == q.m;
      AtRestUnlessMoving(w, q, n, len);
    }
  }

  lemma AtRestUnlessMoving(w: Work, q: Parts, n: nat, len: nat)
    requires KeptBy(w, q, n, len)
    ensures !w.hasher.Moving? ==> q.m == 0 && q.p == 0
  {
    if !w.hasher.Moving? {
      AtRest(w, q, n, len);
    }
  }

  /**
   * The first put of rbuff_move is clipped short of its span exactly when the reader is between put and erase and the
   * span reaches into the last record of job_list.
   */
  lemma CutWhen(w: Work, n: nat, len: nat)
    requires Kept(w, n, len) && w.hasher.Moving? && w.hasher.move.Spanned?
    ensures var v := w.hasher.move;
            && |w.idle.queue| <= w.idle.capacity
            && (Room(w.idle) < Min(v.len1, v.size) <==> w.reader.Window? && Min(v.len1, v.size) > |w.job.queue| - len)
  {
    var q :| KeptBy(w, q, n, len);
    RoomIs(w, q, n, len);
    assert len * 1 == len && len * 0 == 0;
  }

  /**
   * A look of rbuff_move at the room in idle_list, with k bytes erased between its two reads of rp, finds none exactly
   * when there is none, or when rp has wrapped around past the end and is again before wp. Then the first put is left
   * out, or the second, although there is room.
   */
  lemma MisreadWhen(w: Work, seen: nat, k: nat, n: nat, len: nat)
    requires Sound(w, n, len) && seen <= w.idle.capacity + 1 && |w.idle.queue| + k <= w.idle.capacity
    requires w.idleAt == Advance(w.idle.capacity + 1, seen, k)
    ensures SeesNone(w, seen) <==> Room(w.idle) == 0 || (WriteAt(w.idle, w.idleAt) < seen && w.idleAt <= WriteAt(w.idle, w.idleAt))
  {
    var size, wp := w.idle.capacity + 1, WriteAt(w.idle, w.idleAt);
    assert DataCount(size, seen, wp) == |w.idle.queue| + k;
    FreeReadTwice(size, seen, w.idleAt, wp, k);
    assert FreeCount(size, w.idleAt, wp) == Room(w.idle);
  }

  // ---- counting the reader's erases ----

  /** The reader has taken its record off idle_list. */
  predicate Erased(w: World, u: World) {
    w.work.reader.Window? && !u.work.reader.Window?
  }

  function Erases(ws: seq<World>, i: nat, j: nat): (k: nat)
    requires i <= j < |ws|
    ensures k > 0 <==> exists x | i <= x < j :: Erased(ws[x], ws[x + 1])
  {
    if i == j then 0
    else Erases(ws, i, j - 1) + if Erased(ws[j - 1], ws[j - 1 + 1]) then 1 else 0
  }

  /** Every step of the hasher changes where it stands, and no other step does. */
  lemma WhoseStep(w: Work, u: Work, len: nat)
    requires Hashes(w, u, len) || Carries(w, u)
    ensures u.hasher != w.hasher && u.reader == w.reader && u.idleAt == w.idleAt
  {
    hide FifoStep, SeesNone, Slice, Min;
  }

  /** While the hasher stands still, an erase frees one record, and nothing else changes idle_list. */
  lemma StandsStill(w: World, u: World)
    requires Whole(w.work, w.n, w.len) && Next(w, u) && u.work.hasher == w.work.hasher
    ensures u.work.idle.capacity == w.work.idle.capacity && u.n == w.n && u.len == w.len
    ensures |u.work.idle.queue| == |w.work.idle.queue| - (if Erased(w, u) then w.len else 0)
  {
    var x, y, len := w.work, u.work, w.len;
    if Hashes(x, y, len) || Carries(x, y) {
      WhoseStep(x, y, len);
    } else if Erase(x, y, len) {
      var q :| WholeBy(x, q, w.n, len);
      Sizes(x, q, w.n, len);
      assert q.xs != [];
      hide WholeBy;
    } else {
      hide Erase, Hashes, Carries, FifoStep, Whole;
    }
  }

  lemma NoTear(w: World, u: World)
    requires Whole(w.work, w.n, w.len) && Next(w, u) && !(w.work.hasher.Moving? && w.work.hasher.move.Put2?)
    ensures Whole(u.work, u.n, u.len)
  {
    var q :| WholeBy(w.work, q, w.n, w.len);
    SoundIs(w.work, q, w.n, w.len);
    hide WholeBy, Whole, Moves;
    NextWhole(w, u);
  }

  /** From i to j the hasher stands still. */
  ghost predicate Still(ws: seq<World>, i: nat, j: nat)
    requires i <= j < |ws|
  {
    forall k | i <= k <= j :: ws[k].work.hasher == ws[i].work.hasher
  }

  lemma {:induction false} RoomAfter(ws: seq<World>, i: nat, j: nat)
    requires Run(ws) && i <= j < |ws| && Still(ws, i, j) && Whole(ws[i].work, ws[i].n, ws[i].len)
    requires !(ws[i].work.hasher.Moving? && ws[i].work.hasher.move.Put2?)
    ensures Whole(ws[j].work, ws[j].n, ws[j].len) && ws[j].len == ws[i].len
    ensures ws[j].work.idle.capacity == ws[i].work.idle.capacity
    ensures |ws[j].work.idle.queue| + ws[i].len * Erases(ws, i, j) == |ws[i].work.idle.queue|
  {
    hide Whole, Next, Run;
    if i == j {
      assert ws[i].len * 0 == 0;
    } else {
      RoomAfter(ws, i, j - 1);
      RunFacts(ws, j - 1);
      assert ws[j - 1 + 1] == ws[j];
      StandsStill(ws[j - 1], ws[j]);
      NoTear(ws[j - 1], ws[j]);
      var len, e, d := ws[i].len, Erases(ws, i, j - 1), Erases(ws, i, j);
      assert d == e + if Erased(ws[j - 1], ws[j]) then 1 else 0;
      hide Erases, Erased;
      assert len * (e + 1) == len * e + len;
    }
  }

  /**
   * The run flag set again between the hasher's two looks at it, with job_list empty: the stale record it then puts
   * goes into idle_list if and only if the reader has completed a hand-over, one or several, since the empty get.
   */
  lemma AddsWhen(ws: seq<World>, i: nat, j: nat)
    requires Run(ws) && i < j < |ws| && Kept(ws[i].work, ws[i].n, ws[i].len)
    requires ws[i].work.hasher.Taking? && ws[i + 1].work.hasher == Working(true) && Still(ws, i + 1, j)
    ensures |ws[j].work.idle.queue| + ws[j].len <= ws[j].work.idle.capacity <==> exists k | i < k < j :: Erased(ws[k], ws[k + 1])
  {
    hide Kept, Whole, Next, Run, Still;
    RunFacts(ws, i);
    StaleBegins(ws[i], ws[i + 1]);
    RoomAfter(ws, i + 1, j);
    var len, e := ws[j].len, Erases(ws, i + 1, j);
    MulGap(len, 1, e);
    assert len * 1 == len && len * 0 == 0;
  }

  lemma OnlyTakes(w: World, u: World)
    requires Next(w, u) && w.work.hasher.Taking? && u.work.hasher.Working?
    ensures TakeJob(w.work, u.work, w.len) && u.n == w.n && u.len == w.len
  {
    hide TakeJob, FifoStep, SeesNone;
  }

  /** When job_list turns out empty with all slots kept, all records are in idle_list. */
  lemma StaleBegins(w: World, u: World)
    requires Kept(w.work, w.n, w.len) && Next(w, u) && w.work.hasher.Taking? && u.work.hasher == Working(true)
    ensures Whole(u.work, u.n, u.len) && u.len > 0 && |u.work.idle.queue| == u.work.idle.capacity
  {
    OnlyTakes(w, u);
    hide Next, KeptBy;
    var q :| KeptBy(w.work, q, w.n, w.len);
    StaleTake(w.work, u.work, q, w.n, w.len);
  }

  lemma StaleTake(w: Work, u: Work, q: Parts, n: nat, len: nat)
    requires KeptBy(w, q, n, len) && TakeJob(w, u, len) && u.hasher == Working(true)
    ensures Whole(u, n, len) && len > 0 && |u.idle.queue| == u.idle.capacity
  {
    RoomIs(w, q, n, len);
    Sizes(w, q, n, len);
    SoundIs(w, q, n, len);
    var t := TakeJobOk(w, u, q, n, len);
    hide WholeBy, TakeJob, Spread, HandedOverLast;
    assert q.ys == [];
    assert u == w.(hasher := Working(true));
    assert len * 0 == 0 && len * One(w.reader.Window?) >= 0;
    assert WholeBy(u, t, n, len);
  }

  /**
   * After a first put that was cut for want of room, the second takes something, and tears, if and only if the content
   * of job_list lies in two spans and the reader has erased its record in the meantime.
   */
  lemma TearsWhen(ws: seq<World>, i: nat, p: nat, j: nat)
    requires Run(ws) && i < p < j < |ws| && Kept(ws[i].work, ws[i].n, ws[i].len)
    requires CutAt(ws[i], ws[i + 1]) && Still(ws, i + 1, p) && Publish1(ws[p].work, ws[p + 1].work) && Still(ws, p + 1, j)
    ensures var v := ws[j].work.hasher.move;
            && |ws[j].work.idle.queue| <= ws[j].work.idle.capacity && v.k1 <= v.size && v.k1 < Min(v.len1, v.size)
            && (Min(Min(v.len2, v.size - v.k1), Room(ws[j].work.idle)) > 0 <==>
                  v.len2 > 0 && exists k | i < k < j :: Erased(ws[k], ws[k + 1]))
  {
    hide Kept, Whole, Next, Run;
    RunFacts(ws, i);
    RunFacts(ws, p);
    CutBegins(ws[i], ws[i + 1]);
    RoomAfter(ws, i + 1, p);
    assert Still(ws, p + 1, j);
    assert ws[p].work.hasher == ws[i + 1].work.hasher;
    PublishesRest(ws[p], ws[p + 1]);
    RoomAfter(ws, p + 1, j);
    var len, e1, e2 := ws[j].len, Erases(ws, i + 1, p), Erases(ws, p + 1, j);
    MulGap(len, 1, e1);
    MulGap(len, 1, e2);
    assert len * 1 == len && len * 0 == 0;
    assert !Erased(ws[p], ws[p + 1]);
    assert (exists k | i < k < j :: Erased(ws[k], ws[k + 1])) <==> e1 > 0 || e2 > 0;
  }

  /** The first put is clipped short of its span. */
  ghost predicate CutAt(w: World, u: World) {
    && w.work.hasher.Moving? && w.work.hasher.move.Spanned? && |w.work.idle.queue| <= w.work.idle.capacity
    && var v := w.work.hasher.move;
       && Room(w.work.idle) < Min(v.len1, v.size)
       && u.work == w.work.(hasher := Moving(w.work.hasher.last, Put1(v.size, v.len1, v.len2, Room(w.work.idle))))
  }

  lemma CutBegins(w: World, u: World)
    requires Kept(w.work, w.n, w.len) && Next(w, u) && CutAt(w, u)
    ensures Whole(u.work, u.n, u.len) && u.len > 0
    ensures u.work.hasher.Moving? && u.work.hasher.move.Put1?
    ensures u.work.hasher.move.k + |u.work.idle.queue| == u.work.idle.capacity
    ensures u.work.hasher.move.k < Min(u.work.hasher.move.len1, u.work.hasher.move.size)
  {
    var q :| KeptBy(w.work, q, w.n, w.len);
    assert WholeBy(w.work, q, w.n, w.len);
    NoTear(w, u);
    SoundIs(w.work, q, w.n, w.len);
  }

  lemma PublishesRest(w: World, u: World)
    requires Whole(w.work, w.n, w.len) && Next(w, u) && Publish1(w.work, u.work)
    ensures Whole(u.work, u.n, u.len) && u.work.hasher.Moving? && u.work.hasher.move.Between?
    ensures !Erased(w, u) && u.len == w.len && u.work.idle.capacity == w.work.idle.capacity
    ensures |u.work.idle.queue| == |w.work.idle.queue| + w.work.hasher.move.k
    ensures var v, x := w.work.hasher.move, u.work.hasher.move;
            x.size == v.size && x.len1 == v.len1 && x.len2 == v.len2 && x.k1 == v.k
  {
    var q :| WholeBy(w.work, q, w.n, w.len);
    NoTear(w, u);
  }

  // ---- without interleaving inside calls ----

  /**
   * The reader's put and erase follow each other directly, the reader hands nothing over during an rbuff_move, and the
   * run flag is not set again between the hasher's two looks with job_list empty.
   */
  ghost predicate OneByOne(w: World, u: World) {
    && (w.work.reader.Window? ==> Erase(w.work, u.work, w.len))
    && (w.work.hasher.Moving? ==> !HandOver(w.work, u.work))
    && u.work.hasher != Working(true)
  }

  /** An rbuff_move nobody disturbs takes all of job_list. */
  ghost predicate Undisturbed(w: Work) {
    w.hasher.Moving? ==>
      && !w.reader.Window?
      && match w.hasher.move
         case Start => true
         case Sized(size) => size >= |w.job.queue|
         case Spanned(size, len1, len2, seen) => seen == w.idleAt && size == len1 + len2 == |w.job.queue|
         case Put1(size, len1, len2, k) => k == len1 && size == len1 + len2 == |w.job.queue|
         case Between(size, len1, len2, k1, seen) => seen == w.idleAt && k1 == len1 && size == len1 + len2 == |w.job.queue|
         case Put2(size, len1, len2, k1, k2) => k1 == len1 && k2 == len2 && size == len1 + len2 == |w.job.queue|
         case Done(k) => k == |w.job.queue|
  }

  /** Read without rp moving in between, freecount is the room there is. */
  lemma SeesTruly(w: Work, n: nat, len: nat)
    requires Sound(w, n, len)
    ensures SeesNone(w, w.idleAt) <==> Room(w.idle) == 0
  {
  }

  lemma UndisturbedStep(w: World, u: World)
    requires Kept(w.work, w.n, w.len) && Next(w, u) && OneByOne(w, u) && Undisturbed(w.work)
    ensures Undisturbed(u.work)
  {
    var x, y, n, len := w.work, u.work, w.n, w.len;
    var q :| KeptBy(x, q, n, len);
    RoomIs(x, q, n, len);
    assert len * 0 == 0;
    hide KeptBy;
    if Carries(x, y) {
      UndisturbedCarries(x, y, n, len);
    } else if Hashes(x, y, len) {
      hide FifoStep;
    } else {
      UndisturbedReads(w, u);
    }
  }

  lemma UndisturbedCarries(w: Work, u: Work, n: nat, len: nat)
    requires Sound(w, n, len) && Carries(w, u) && Undisturbed(w) && !w.reader.Window?
    requires Room(w.idle) == |w.job.queue| - Moved(w.hasher)
    ensures Undisturbed(u)
  {
    SeesTruly(w, n, len);
    hide SeesNone, WriteAt, Slice;
  }

  lemma UndisturbedReads(w: World, u: World)
    requires Next(w, u) && OneByOne(w, u) && Undisturbed(w.work) && !Carries(w.work, u.work) && !Hashes(w.work, u.work, w.len)
    ensures Undisturbed(u.work)
  {
    hide FifoStep, Carries, Hashes;
  }

  lemma UndisturbedIsGood(w: World, u: World)
    requires Kept(w.work, w.n, w.len) && Next(w, u) && OneByOne(w, u) && Undisturbed(w.work)
    requires w.work.hasher != Working(true)
    ensures !Bad(w, u)
  {
    UndisturbedTearsNone(w, u);
    UndisturbedLosesNone(w, u);
    UndisturbedDropsNone(w, u);
    assert !Adds(w.work, u.work, w.len);
    hide Kept, Next, OneByOne, Undisturbed, Tears, Loses, Drops, Adds;
  }

  lemma UndisturbedTearsNone(w: World, u: World)
    requires Kept(w.work, w.n, w.len) && Undisturbed(w.work)
    ensures w.len > 0 ==> !Tears(w.work, u.work, w.len)
  {
    var x, len := w.work, w.len;
    var q :| KeptBy(x, q, w.n, len);
    SoundIs(x, q, w.n, len);
    Sizes(x, q, w.n, len);
    MultipleOf(|x.job.queue|, len, |q.ys|);
    hide KeptBy, Slice;
  }

  lemma UndisturbedLosesNone(w: World, u: World)
    requires Kept(w.work, w.n, w.len) && OneByOne(w, u)
    ensures !Loses(w.work, u.work, w.len)
  {
    if w.work.hasher == Working(false) {
      LosesWhen(w.work, w.n, w.len);
    }
    hide Kept, FifoStep;
  }

  lemma UndisturbedDropsNone(w: World, u: World)
    requires Kept(w.work, w.n, w.len) && OneByOne(w, u)
    ensures !Drops(w.work, u.work, w.len)
  {
    if w.work.reader.Ready? {
      DropsWhen(w.work, w.n, w.len);
    }
    hide Kept, FifoStep;
  }

  /**
   * With the reader's put and erase as one step, nothing handed over inside an rbuff_move, and no stale record, every
   * state of every run keeps all n slots, each once, and no step is bad.
   */
  lemma {:induction false} CallsOneByOne(ws: seq<World>, i: nat)
    requires Run(ws) && i < |ws| && forall k | 0 <= k < |ws| - 1 :: OneByOne(ws[k], ws[k + 1])
    ensures Kept(ws[i].work, ws[i].n, ws[i].len) && Undisturbed(ws[i].work) && ws[i].work.hasher != Working(true)
    ensures i + 1 < |ws| ==> !Bad(ws[i], ws[i + 1])
  {
    hide Kept, Next, Undisturbed, OneByOne, Bad;
    if i == 0 {
      InitOk(ws[0]);
      StartsUndisturbed(ws[0]);
    } else {
      CallsOneByOne(ws, i - 1);
      RunFacts(ws, i - 1);
      assert OneByOne(ws[i - 1], ws[i - 1 + 1]);
      UndisturbedStep(ws[i - 1], ws[i]);
      NextKeeps(ws[i - 1], ws[i]);
      NotStale(ws[i - 1], ws[i]);
    }
    if i + 1 < |ws| {
      RunFacts(ws, i);
      assert OneByOne(ws[i], ws[i + 1]);
      UndisturbedIsGood(ws[i], ws[i + 1]);
    }
  }

  lemma NotStale(w: World, u: World)
    requires OneByOne(w, u)
    ensures u.work.hasher != Working(true)
  {
  }

  lemma StartsUndisturbed(w: World)
    requires Init(w)
    ensures Undisturbed(w.work) && w.work.hasher != Working(true)
  {
  }

  /**
   * The erase that ends an rbuff_move, with all slots kept: job_list is empty afterwards if and only if all of it has
   * been copied, and then all n records are in idle_list, each slot once, and the reader is not between put and erase.
   * An rbuff_move nobody disturbs does so.
   */
  lemma AllRecordsReturn(w: Work, u: Work, n: nat, len: nat)
    requires Kept(w, n, len) && Finish(w, u)
    ensures u.job.queue == [] <==> w.hasher.move.k == |w.job.queue|
    ensures u.job.queue == [] ==>
              !u.reader.Window? && exists xs: seq<nat> :: u.idle.queue == Flat(xs, len) && multiset(xs) == AllSlots(n)
    ensures Undisturbed(w) ==> u.job.queue == []
  {
    var q :| KeptBy(w, q, n, len);
    SoundIs(w, q, n, len);
    Sizes(w, q, n, len);
    var t := FinishOk(w, u, q, n, len);
    FinishSpread(q, t, InHand(w), Doubled(w), n);
    assert w.hasher.move.k <= |w.job.queue|;
    if u.job.queue == [] {
      assert KeptBy(u, t, n, len);
      KeptCount(u, t, n, len);
      Sizes(u, t, n, len);
      AtRest(u, t, n, len);
      hide WholeBy, AllSlots, Finish;
      assert t.ys == [] && !u.reader.Window?;
      assert multiset(t.xs) + multiset{} + multiset{} == AllSlots(n) + multiset{};
      NothingElse(multiset(t.xs), AllSlots(n));
    }
  }

  lemma NothingElse(a: multiset<nat>, e: multiset<nat>)
    ensures a + multiset{} + multiset{} == e + multiset{} ==> a == e
  {
    assert a + multiset{} + multiset{} == a && e + multiset{} == e;
  }

  /**
   * With all slots kept, and the reader not between put and erase, the slot it is busy with is neither queued as a job
   * still to be moved nor in the hasher's hand.
   */
  lemma SlotsExclusive(w: Work, q: Parts, n: nat, len: nat)
    requires KeptBy(w, q, n, len) && (w.reader.Peeked? || w.reader.Ready?)
    ensures q.xs != [] && w.reader.rec == Rec(q.xs[0], len)
    ensures q.xs[0] !in q.ys[q.m..] && q.xs[0] !in q.xs[1..]
    ensures w.hasher == Working(false) ==> w.local != w.reader.rec
  {
    var x, r := q.xs[0], q.ys[q.m..];
    AtMostOnce(n, x);
    assert (multiset(q.xs) + multiset(r) + InHand(w))[x] == (AllSlots(n) + multiset{})[x];
    assert q.xs == [x] + q.xs[1..];
    BagJoin([x], q.xs[1..]);
    assert w.local != [];
    assert w.local == w.reader.rec ==> w.local[0].slot == x;
    hide WholeBy, AllSlots;
  }

  /** work_create's filling of idle_list: the write span covers all records, is cleared, and is stepped over. */
  method FillIdle<T(0)>(n: nat, len: nat, zero: T) returns (idle: RBuff<T>)
    requires 0 < n && 0 < len && len * n < 0x1_0000_0000
    ensures fresh(idle) && fresh(idle.cells) && idle.Valid() && idle.cells.Length == len * n + 1
    ensures |idle.Content()| == len * n && forall k | 0 <= k < len * n :: idle.Content()[k] == zero
  {
    MulGap(len, 0, n);
    idle := new RBuff<T>(len * n);
    var s := idle.WritePtrs();
    SpansOfEmpty(idle, s);
    assert s.len1 == len * n && s.p1.value == 0; // the assert in work_create
    forall k | 0 <= k < s.len1 { idle.cells[k] := zero; }
    SkipExposes(idle.Value(), s.len1);
    var _ := idle.Put(None, s.len1);
  }

  lemma SpansOfEmpty<T(0)>(b: RBuff<T>, s: Spans)
    requires b.Valid() && b.rp == b.wp == 0 && SpansAre(b.cells.Length, b.wp, FreeCount(b.cells.Length, b.rp, b.wp), s)
    requires s.len1 == b.cells.Length - 1
    ensures s.p1 == Some(0)
  {
    assert SpanCell(s, 0) == Cell(b.cells.Length, b.wp, 0);
  }
}
