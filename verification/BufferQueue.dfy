/**
 * bqueue_t: large buffers passed from one producer to one consumer and recycled. A buffer is named by a number that
 * stands for its address; both queues are rings of such names.
 */
module BufferQueue {
  import opened Options
  import opened Ring
  import opened RingBuffer

  /** A size handed to rbuff_init, whose parameter is an unsigned int. */
  function Low32(size: nat): (r: nat)
    ensures r < 0x1_0000_0000 && (size < 0x1_0000_0000 <==> r == size)
  {
    size % 0x1_0000_0000
  }

  lemma Low32Repeats(size: nat)
    ensures Low32(size + 0x1_0000_0000) == Low32(size)
  {
  }

  function Elements(q: seq<nat>): set<nat> {
    set b | b in q
  }

  /** The buffers of a queue not marked needfree, in order. */
  function Live(q: seq<nat>, needfree: set<nat>): (r: seq<nat>)
  {
    if q == [] then [] else (if q[0] in needfree then [] else [q[0]]) + Live(q[1..], needfree)
  }

  /** How many buffers at the head of a queue are marked needfree. */
  function Leading(q: seq<nat>, needfree: set<nat>): (k: nat)
    ensures k <= |q|
    ensures forall i | 0 <= i < k :: q[i] in needfree
    ensures k < |q| ==> q[k] !in needfree
  {
    if q == [] || q[0] !in needfree then 0 else 1 + Leading(q[1..], needfree)
  }

  lemma {:induction false} LiveAppend(q: seq<nat>, b: nat, needfree: set<nat>)
    ensures Live(q + [b], needfree) == Live(q, needfree) + if b in needfree then [] else [b]
  {
    if q == [] {
      assert q + [b] == [b] && Live([b][1..], needfree) == [];
    } else {
      LiveAppend(q[1..], b, needfree);
      assert (q + [b])[1..] == q[1..] + [b] && (q + [b])[0] == q[0];
      var head, tail := if q[0] in needfree then [] else [q[0]], Live(q[1..], needfree);
      var last := if b in needfree then [] else [b];
      assert head + (tail + last) == head + tail + last;
    }
  }

  /** Marks on buffers outside a queue do not matter to it. */
  lemma {:induction false} LiveSame(q: seq<nat>, x: set<nat>, y: set<nat>)
    requires forall b | b in q :: b in x <==> b in y
    ensures Live(q, x) == Live(q, y)
  {
    if q == [] {
    } else {
      assert forall b | b in q[1..] :: b in q;
      LiveSame(q[1..], x, y);
    }
  }

  /** The queue as a value: where every buffer is, which are marked, how large each is, and two histories. */
  datatype Queue = Queue(
    free: seq<nat>, busy: seq<nat>,            // the two queues
    needfree: set<nat>,                        // the buffers whose needfree bit is set
    maxcount: map<nat, nat>,                   // the size of every live buffer
    alloced: nat, maxBufs: nat,
    withProducer: set<nat>, withConsumer: set<nat>,
    produced: seq<nat>,                        // every buffer put into the busy queue with data, in order
    delivered: seq<nat>)                       // every buffer handed to the consumer, in order

  /** Where the buffers are, counted: both queues, the producer's and the consumer's hands. */
  ghost function Places(q: Queue): multiset<nat> {
    multiset(q.free) + multiset(q.busy) + multiset(q.withProducer) + multiset(q.withConsumer)
  }

  /** Every live buffer is in exactly one place, once; there are alloced_bufs <= max_bufs of them. */
  ghost predicate Placed(q: Queue) {
    Places(q) == multiset(q.maxcount.Keys) && |q.maxcount| == q.alloced <= q.maxBufs
  }

  /** Only queued buffers are marked; what was produced is what was delivered followed by what waits. */
  ghost predicate Ordered(q: Queue) {
    && (forall b | b in q.needfree :: b in q.busy)
    && q.produced == q.delivered + Live(q.busy, q.needfree)
  }

  ghost predicate Inv(q: Queue) {
    Placed(q) && Ordered(q)
  }

  /** No buffer is in two places, or twice in one queue, and none is lost. */
  lemma OnePlaceEach(q: Queue, b: nat)
    requires Placed(q)
    ensures (b in q.free || b in q.busy || b in q.withProducer || b in q.withConsumer) <==> b in q.maxcount
    ensures b in q.free ==> b !in q.busy && b !in q.withProducer && b !in q.withConsumer && multiset(q.free)[b] == 1
    ensures b in q.busy ==> b !in q.withProducer && b !in q.withConsumer && multiset(q.busy)[b] == 1
    ensures b in q.withProducer ==> b !in q.withConsumer
  {
    var k := multiset(q.maxcount.Keys);
    assert Places(q)[b] == k[b] && k[b] <= 1;
    assert b in q.free <==> b in multiset(q.free);
    assert b in q.busy <==> b in multiset(q.busy);
  }

  lemma Room(q: Queue, b: nat)
    requires Placed(q)
    ensures |q.free| + |q.busy| <= q.maxBufs
    ensures b in q.withProducer || b in q.withConsumer ==> |q.free| + |q.busy| < q.maxBufs
  {
    var in1, in2 := multiset(q.withProducer), multiset(q.withConsumer);
    assert |Places(q)| == |q.free| + |q.busy| + |in1| + |in2|;
    assert |multiset(q.maxcount.Keys)| == |q.maxcount.Keys|;
  }

  lemma HeadTail(q: seq<nat>)
    requires q != []
    ensures multiset(q) == multiset{q[0]} + multiset(q[1..])
  {
    assert q == [q[0]] + q[1..];
  }

  lemma SetMove(s: set<nat>, b: nat)
    ensures b in s ==> multiset(s) == multiset(s - {b}) + multiset{b}
    ensures b !in s ==> multiset(s + {b}) == multiset(s) + multiset{b}
  {
  }

  /** The producer hands over a filled buffer. */
  function Put(q: Queue, b: nat): Queue {
    q.(busy := q.busy + [b], withProducer := q.withProducer - {b}, produced := q.produced + [b])
  }

  lemma PutOk(q: Queue, b: nat)
    requires Inv(q) && b in q.withProducer
    ensures Inv(Put(q, b)) && |q.busy| < q.maxBufs
    ensures Live(Put(q, b).busy, Put(q, b).needfree) == Live(q.busy, q.needfree) + [b]
    ensures b in Put(q, b).busy && b !in Put(q, b).withProducer && b !in Put(q, b).needfree
  {
    hide Live;
    Room(q, b);
    OnePlaceEach(q, b);
    SetMove(q.withProducer, b);
    assert Places(Put(q, b)) == Places(q);
    LiveAppend(q.busy, b, q.needfree);
  }

  /** The producer gives a buffer back unused, marked. */
  function PutMarked(q: Queue, b: nat): Queue {
    q.(busy := q.busy + [b], withProducer := q.withProducer - {b}, needfree := q.needfree + {b})
  }

  lemma PutMarkedOk(q: Queue, b: nat)
    requires Inv(q) && b in q.withProducer
    ensures Inv(PutMarked(q, b)) && |q.busy| < q.maxBufs
    ensures Live(PutMarked(q, b).busy, PutMarked(q, b).needfree) == Live(q.busy, q.needfree)
    ensures b in PutMarked(q, b).busy && b !in PutMarked(q, b).withProducer && b in PutMarked(q, b).needfree
  {
    hide Live;
    Room(q, b);
    OnePlaceEach(q, b);
    SetMove(q.withProducer, b);
    assert Places(PutMarked(q, b)) == Places(q);
    LiveSame(q.busy, q.needfree, q.needfree + {b});
    LiveAppend(q.busy, b, q.needfree + {b});
  }

  /** The consumer's buffer becomes free again. */
  function Recycle(q: Queue, b: nat): Queue {
    q.(free := q.free + [b], withConsumer := q.withConsumer - {b}, needfree := q.needfree - {b})
  }

  lemma RecycleOk(q: Queue, b: nat)
    requires Inv(q) && b in q.withConsumer
    ensures Inv(Recycle(q, b)) && |q.free| < q.maxBufs
  {
    hide Live;
    Room(q, b);
    OnePlaceEach(q, b);
    SetMove(q.withConsumer, b);
    assert Places(Recycle(q, b)) == Places(q);
    assert q.needfree - {b} == q.needfree;
  }

  /** The head of the busy queue goes to the consumer; if unmarked, it is delivered. */
  function Take(q: Queue): Queue
    requires q.busy != []
  {
    var b := q.busy[0];
    q.(busy := q.busy[1..], withConsumer := q.withConsumer + {b}, needfree := q.needfree - {b},
       delivered := q.delivered + if b in q.needfree then [] else [b])
  }

  lemma TakeOk(q: Queue)
    requires Inv(q) && q.busy != []
    ensures Inv(Take(q))
  {
    OnePlaceEach(q, q.busy[0]);
    TakePlaced(q);
    HeadTail(q.busy);
    assert q.busy[0] !in multiset(q.busy[1..]);
    hide Placed, Places;
    TakeOrdered(q);
  }

  lemma TakePlaced(q: Queue)
    requires Placed(q) && q.busy != [] && q.busy[0] !in q.withConsumer
    ensures Placed(Take(q))
  {
    var b := q.busy[0];
    HeadTail(q.busy);
    SetMove(q.withConsumer, b);
    assert Places(Take(q)) == Places(q);
  }

  lemma TakeOrdered(q: Queue)
    requires Ordered(q) && q.busy != [] && q.busy[0] !in q.busy[1..]
    ensures Ordered(Take(q))
  {
    var b, rest := q.busy[0], q.busy[1..];
    assert Live(q.busy, q.needfree) == (if b in q.needfree then [] else [b]) + Live(rest, q.needfree);
    hide Live;
    assert q.busy == [b] + rest;
    LiveSame(rest, q.needfree, q.needfree - {b});
  }

  /** A free buffer goes to the producer. */
  function Reuse(q: Queue): Queue
    requires q.free != []
  {
    q.(free := q.free[1..], withProducer := q.withProducer + {q.free[0]})
  }

  lemma ReuseOk(q: Queue)
    requires Inv(q) && q.free != []
    ensures Inv(Reuse(q)) && q.free[0] in q.maxcount && q.free[0] !in q.needfree && q.free[0] !in q.withProducer
  {
    hide Live;
    var b := q.free[0];
    OnePlaceEach(q, b);
    HeadTail(q.free);
    SetMove(q.withProducer, b);
    assert Places(Reuse(q)) == Places(q);
  }

  /** A new buffer b of the given size goes to the producer. */
  function Allocate(q: Queue, b: nat, size: nat): Queue {
    q.(maxcount := q.maxcount[b := size], alloced := q.alloced + 1, withProducer := q.withProducer + {b})
  }

  lemma AllocateOk(q: Queue, b: nat, size: nat)
    requires Inv(q) && q.alloced < q.maxBufs && b !in q.maxcount
    ensures Inv(Allocate(q, b, size)) && b !in q.needfree && b !in q.withProducer
  {
    hide Live;
    var r := Allocate(q, b, size);
    OnePlaceEach(q, b);
    SetMove(q.withProducer, b);
    SetMove(q.maxcount.Keys, b);
    assert r.maxcount.Keys == q.maxcount.Keys + {b};
    assert Places(r) == Places(q) + multiset{b};
  }

  /** The producer's buffer b is freed. */
  function Discard(q: Queue, b: nat): Queue {
    q.(maxcount := q.maxcount - {b}, alloced := if q.alloced > 0 then q.alloced - 1 else 0,
       withProducer := q.withProducer - {b})
  }

  lemma DiscardOk(q: Queue, b: nat)
    requires Inv(q) && b in q.withProducer
    ensures Inv(Discard(q, b)) && 0 < q.alloced <= q.maxBufs
  {
    hide Live;
    var r := Discard(q, b);
    OnePlaceEach(q, b);
    SetMove(q.withProducer, b);
    SetMove(q.maxcount.Keys, b);
    assert r.maxcount.Keys == q.maxcount.Keys - {b};
    assert Places(r) == Places(q) - multiset{b};
  }

  lemma AllocedBound(q: Queue)
    requires Inv(q)
    ensures q.alloced <= q.maxBufs
  {
  }

  class BQueue {
    const maxBufs: nat
    var allocedBufs: nat
    const freeQueue: RBuff<nat>
    const busyQueue: RBuff<nat>
    var needfree: set<nat>
    var maxcount: map<nat, nat>
    ghost var withProducer: set<nat>
    ghost var withConsumer: set<nat>
    ghost var produced: seq<nat>
    ghost var delivered: seq<nat>

    ghost predicate ValidRings()
      reads this, freeQueue, busyQueue
    {
      && freeQueue.Valid() && busyQueue.Valid()
      && freeQueue != busyQueue && freeQueue.cells != busyQueue.cells
      && freeQueue.cells.Length == busyQueue.cells.Length == maxBufs + 1
    }

    ghost function View(): Queue
      requires ValidRings()
      reads this, freeQueue, freeQueue.cells, busyQueue, busyQueue.cells
    {
      Queue(freeQueue.Content(), busyQueue.Content(), needfree, maxcount, allocedBufs, maxBufs,
            withProducer, withConsumer, produced, delivered)
    }

    ghost predicate Valid()
      reads this, freeQueue, freeQueue.cells, busyQueue, busyQueue.cells
    {
      ValidRings() && Inv(View())
    }

    /** bqueue_init. */
    constructor (maxBufs: nat)
      requires maxBufs > 0
      ensures Valid() && View() == Queue([], [], {}, map[], 0, maxBufs, {}, {}, [], [])
      ensures fresh(this) && fresh(freeQueue) && fresh(busyQueue) && fresh(freeQueue.cells) && fresh(busyQueue.cells)
    {
      this.maxBufs, allocedBufs := maxBufs, 0;
      freeQueue := new RBuff<nat>(maxBufs);
      busyQueue := new RBuff<nat>(maxBufs);
      needfree, maxcount := {}, map[];
      withProducer, withConsumer, produced, delivered := {}, {}, [], [];
    }

    /** malloc: the name of a buffer not in use. */
    method Fresh() returns (b: nat)
      ensures b !in maxcount
    {
      b := 0;
      var left := maxcount.Keys;
      while left != {}
        invariant forall x | x in maxcount && x !in left :: x < b
        decreases |left|
      {
        var x :| x in left;
        if x >= b {
          b := x + 1;
        }
        left := left - {x};
      }
    }

    /** The first half of bqueue_producer_get: recycle a free buffer, or allocate one up to the limit. */
    method Acquire(blen: nat) returns (b: Option<nat>)
      requires Valid()
      modifies this, freeQueue`rp
      ensures Valid()
      ensures var q := old(View());
              if q.free != [] then b == Some(q.free[0]) && View() == Reuse(q)
              else if q.alloced < q.maxBufs then b.Some? && b.value !in q.maxcount && View() == Allocate(q, b.value, Low32(blen))
              else b.None? && View() == q
      ensures b.Some? ==> b.value in withProducer && b.value !in old(withProducer) && b.value !in needfree && b.value in maxcount
    {
      hide State.Content, State.Drop, Inv;
      ghost var q := View();
      b := Dequeue(freeQueue);
      if b.Some? {
        ReuseOk(q);
        withProducer := withProducer + {b.value};
        assert View() == Reuse(q);
      } else if allocedBufs < maxBufs {
        var name := Fresh();
        AllocateOk(q, name, Low32(blen));
        b := Some(name);
        maxcount := maxcount[name := Low32(blen)];
        allocedBufs := allocedBufs + 1;
        withProducer := withProducer + {name};
        assert View() == Allocate(q, name, Low32(blen));
      }
    }

    /** bqueue_producer_get: recycle a buffer, or allocate one up to the limit; a too small one is replaced. */
    method ProducerGet(blen: nat) returns (b: Option<nat>)
      requires Valid()
      modifies this, freeQueue`rp
      ensures Valid()
      ensures b.None? <==> old(View()).free == [] && old(allocedBufs) == maxBufs
      ensures b.None? ==> View() == old(View())
      ensures b.Some? ==> b.value !in needfree && b.value in maxcount
      ensures b.Some? ==> maxcount[b.value] >= blen || (blen >= 0x1_0000_0000 && maxcount[b.value] == Low32(blen))
      ensures b.Some? ==> b.value !in old(withProducer) && withProducer == old(withProducer) + {b.value}
      ensures var q := old(View());
              forall x | x in q.maxcount && (q.free == [] || x != q.free[0]) :: x in maxcount && maxcount[x] == q.maxcount[x]
      ensures var q := old(View()); var r := View();
              && r.busy == q.busy && r.withConsumer == q.withConsumer && r.needfree == q.needfree
              && r.free == (if q.free == [] then [] else q.free[1..])
              && r.alloced == q.alloced + (if b.Some? && q.free == [] then 1 else 0)
              && r.produced == q.produced && r.delivered == q.delivered
    {
      hide State.Content, Inv;
      AllocedBound(View());
      b := Acquire(blen);
      if b.Some? && maxcount[b.value] < blen {
        assert old(withProducer) + {b.value} - {b.value} == old(withProducer);
        var name := Regrow(b.value, blen);
        b := Some(name);
      }
    }

    /** Free a buffer that is too small and allocate one of the size wanted in its place. */
    method Regrow(b: nat, blen: nat) returns (name: nat)
      requires Valid() && b in withProducer
      modifies this`maxcount, this`withProducer
      ensures Valid() && name !in needfree && (name == b || name !in old(maxcount)) && name !in old(withProducer) - {b}
      ensures maxcount == (old(maxcount) - {b})[name := Low32(blen)] && withProducer == old(withProducer) - {b} + {name}
      ensures View() == old(View()).(maxcount := maxcount, withProducer := withProducer)
    {
      hide State.Content, Inv;
      ghost var q := View();
      DiscardOk(q, b);
      maxcount := maxcount - {b};
      name := Fresh();
      AllocateOk(Discard(q, b), name, Low32(blen));
      maxcount := maxcount[name := Low32(blen)];
      withProducer := withProducer - {b} + {name};
      assert View() == Allocate(Discard(q, b), name, Low32(blen));
    }

    /** bqueue_producer_put: hand a filled buffer to the consumer. It is never dropped. */
    method ProducerPut(b: nat)
      requires Valid() && b in withProducer
      modifies this, busyQueue`wp, busyQueue.cells
      ensures Valid() && View() == Put(old(View()), b)
    {
      hide State.Content, Inv;
      PutOk(View(), b);
      Enqueue(busyQueue, b);
      withProducer := withProducer - {b};
      produced := produced + [b];
    }

    /** bqueue_producer_free: give a buffer back unused, through the busy queue, marked needfree. */
    method ProducerFree(b: nat)
      requires Valid() && b in withProducer
      modifies this, busyQueue`wp, busyQueue.cells
      ensures Valid() && View() == PutMarked(old(View()), b)
    {
      hide State.Content, Inv;
      PutMarkedOk(View(), b);
      needfree := needfree + {b};
      Enqueue(busyQueue, b);
      withProducer := withProducer - {b};
    }

    /** bqueue_consumer_free: the buffer becomes free again. */
    method ConsumerFree(b: nat)
      requires Valid() && b in withConsumer
      modifies this, freeQueue`wp, freeQueue.cells
      ensures Valid() && View() == Recycle(old(View()), b)
    {
      hide State.Content, Inv;
      RecycleOk(View(), b);
      needfree := needfree - {b};
      Enqueue(freeQueue, b);
      withConsumer := withConsumer - {b};
    }

    /** Take the head of the busy queue, if any, into the consumer's hands. */
    method TakeHead() returns (b: Option<nat>, marked: bool)
      requires Valid()
      modifies this, busyQueue`rp
      ensures Valid()
      ensures old(View()).busy == [] ==> b.None? && View() == old(View())
      ensures old(View()).busy != [] ==>
                b == Some(old(View()).busy[0]) && marked == (b.value in old(needfree)) && View() == Take(old(View()))
    {
      hide State.Content, Inv;
      ghost var q := View();
      if q.busy != [] {
        TakeOk(q);
      }
      b := Dequeue(busyQueue);
      marked := b.Some? && b.value in needfree;
      if b.Some? {
        withConsumer := withConsumer + {b.value};
        needfree := needfree - {b.value};
        if !marked {
          delivered := delivered + [b.value];
        }
        assert View() == Take(q) by {
          assert q.delivered + [] == q.delivered;
        }
      }
    }

    /**
     * bqueue_consumer_get: the oldest buffer with data. Buffers marked needfree before it are recycled on the way;
     * the loop ends because each turn shortens the busy queue.
     */
    method ConsumerGet() returns (b: Option<nat>)
      requires Valid()
      modifies this, busyQueue`rp, freeQueue`wp, freeQueue.cells
      ensures Valid()
      ensures var q := old(View()); var k := Leading(q.busy, q.needfree);
              && (k == |q.busy| ==> b.None? && View() == SkipMarked(q, k))
              && (k < |q.busy| ==> b == Some(q.busy[k]) && b.value !in q.needfree && View() == Delivered(q, k))
    {
      hide State.Content, Inv, Live;
      ghost var q, k := View(), 0;
      assert SkipMarked(q, 0) == q by {
        assert q.free + q.busy[..0] == q.free && q.needfree - Elements(q.busy[..0]) == q.needfree;
      }
      var marked := true;
      b := None;
      while marked
        invariant 0 <= k <= Leading(q.busy, q.needfree)
        invariant marked ==> Valid() && View() == SkipMarked(q, k)
        invariant !marked ==>
                    && Valid() && k == Leading(q.busy, q.needfree)
                    && (if k == |q.busy| then b.None? && View() == SkipMarked(q, k)
                        else b == Some(q.busy[k]) && View() == Delivered(q, k))
        decreases marked, |q.busy| - k
      {
        if k < |q.busy| {
          SkipOne(q, k);
        }
        b, marked := TakeHead();
        if b.None? {
          break;
        }
        if marked {
          ConsumerFree(b.value);
          k := k + 1;
        }
      }
    }
  }

  /** The first k busy buffers, all marked, recycled. */
  function SkipMarked(q: Queue, k: nat): Queue
    requires k <= |q.busy|
  {
    q.(free := q.free + q.busy[..k], busy := q.busy[k..], needfree := q.needfree - Elements(q.busy[..k]))
  }

  /** The first k busy buffers, all marked, recycled, and the next one handed to the consumer. */
  function Delivered(q: Queue, k: nat): Queue
    requires k < |q.busy|
  {
    Take(SkipMarked(q, k))
  }

  /** The head after k recycled buffers is marked exactly if it was; taking and recycling it makes k + 1. */
  lemma SkipOne(q: Queue, k: nat)
    requires Inv(q) && k < |q.busy|
    ensures var r := SkipMarked(q, k); var b := q.busy[k];
            && r.busy[0] == b && (b in r.needfree <==> b in q.needfree)
            && (b in q.needfree ==> Recycle(Take(r), b) == SkipMarked(q, k + 1))
  {
    NotBefore(q, k);
    hide Live, Inv;
    var r, b := SkipMarked(q, k), q.busy[k];
    assert q.busy[..k + 1] == q.busy[..k] + [b];
    assert r.free + [b] == q.free + q.busy[..k + 1];
    assert q.withConsumer + {b} - {b} == q.withConsumer;
    assert Elements(q.busy[..k + 1]) == Elements(q.busy[..k]) + {b};
    assert r.needfree - {b} - {b} == q.needfree - Elements(q.busy[..k + 1]);
  }

  lemma NotBefore(q: Queue, k: nat)
    requires Inv(q) && k < |q.busy|
    ensures q.busy[k] !in q.busy[..k] && q.busy[k] !in q.withConsumer
  {
    var b := q.busy[k];
    assert b in q.busy;
    OnePlaceEach(q, b);
    assert q.busy == q.busy[..k] + ([b] + q.busy[k + 1..]);
    assert b !in multiset(q.busy[..k]);
  }

  /** rbuff_put of one buffer name, into a ring with room. */
  method Enqueue(q: RBuff<nat>, b: nat)
    requires q.Valid() && |q.Content()| < q.cells.Length - 1
    modifies q`wp, q.cells
    ensures q.Valid() && q.Content() == old(q.Content()) + [b]
  {
    CountsAddUp(q.cells.Length, q.rp, q.wp);
    PutAppends(q.Value(), [b]);
    assert [b][..1] == [b];
    var n := q.Put(Some([b]), 1);
    assert n == 1;
  }

  /** rbuff_get of one buffer name. */
  method Dequeue(q: RBuff<nat>) returns (b: Option<nat>)
    requires q.Valid()
    modifies q`rp
    ensures q.Valid()
    ensures b == if old(q.Content()) == [] then None else Some(old(q.Content())[0])
    ensures q.Content() == if old(q.Content()) == [] then [] else old(q.Content())[1..]
  {
    DropRemoves(q.Value(), 1);
    var got := q.Get(1, false);
    b := if |got| == 0 then None else Some(got[0]);
  }
}
