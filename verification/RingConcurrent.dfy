/**
 * One producer in rbuff_put and one consumer in _rbuff_get on the same ring, without a lock. Each call is cut into
 * its snapshot of the other side's pointer, its copies one byte at a time, and its single pointer update; the steps
 * of the two sides interleave in any order. Memory is sequentially consistent.
 */
module RingConcurrent {
  import opened Ring

  /** Where the producer stands in rbuff_put. */
  datatype Producer<T> =
    | Idle
    | Snapped(data: seq<T>, rs: nat)
    | First(data: seq<T>, size: nat, len1: nat, done: nat)
    | Second(data: seq<T>, size: nat, len1: nat, rest: int, done: nat)

  /** Where the consumer stands in _rbuff_get; `got` is what it has copied out. */
  datatype Consumer<T> =
    | Waiting
    | Looked(want: nat, peek: bool, ws: nat)
    | Taking(peek: bool, ws: nat, size: nat, len1: nat, got: seq<T>)
    | TakingMore(peek: bool, size: nat, len1: nat, rest: int, got: seq<T>)

  /** The shared ring, both sides, and two histories: all bytes ever published and all ever consumed. */
  datatype World<T> = World(cells: seq<T>, rp: nat, wp: nat, p: Producer<T>, c: Consumer<T>,
                            published: seq<T>, consumed: seq<T>) {
    ghost predicate ValidRing() {
      ValidAt(|cells|, rp, wp)
    }

    ghost function Content(): seq<T>
      requires ValidRing()
    {
      State(cells, rp, wp).Content()
    }

    ghost function Data(): nat
      requires ValidRing()
    {
      DataCount(|cells|, rp, wp)
    }

    ghost function Free(): nat
      requires ValidRing()
    {
      FreeCount(|cells|, rp, wp)
    }
  }

  /** One atomic step of either side. */
  datatype Step<T> =
    | CallPut(data: seq<T>)
    | ClipPut
    | CopyIn
    | ClipAgain
    | PublishPut
    | CallGet(want: nat, peek: bool)
    | ClipGet
    | CopyOut
    | ClipGetAgain
    | PublishGet

  ghost predicate Enabled<T>(w: World<T>, s: Step<T>) {
    match s
    case CallPut(_) => w.p.Idle?
    case ClipPut => w.p.Snapped?
    case CopyIn => (w.p.First? && w.p.done < w.p.len1) || (w.p.Second? && w.p.done < w.p.rest)
    case ClipAgain => w.p.First? && w.p.done == w.p.len1 < w.p.size
    case PublishPut => (w.p.First? && w.p.done == w.p.len1 == w.p.size) || (w.p.Second? && w.p.done == w.p.rest)
    case CallGet(_, _) => w.c.Waiting?
    case ClipGet => w.c.Looked?
    case CopyOut => (w.c.Taking? && |w.c.got| < w.c.len1) || (w.c.TakingMore? && |w.c.got| < w.c.len1 + w.c.rest)
    case ClipGetAgain => w.c.Taking? && |w.c.got| == w.c.len1 < w.c.size
    case PublishGet =>
      (w.c.Taking? && |w.c.got| == w.c.len1 == w.c.size) || (w.c.TakingMore? && |w.c.got| == w.c.len1 + w.c.rest)
  }

  /** The clip against the snapshot `rs`, as rbuff_put computes it: the size and the length of the first memcpy. */
  function PutClip(n: nat, wp: nat, rs: nat, want: nat): (r: (int, int)) {
    if wp >= rs then
      var size := if want > n - (wp - rs) - 1 then n - (wp - rs) - 1 else want;
      (size, if n - wp >= size then size else n - wp)
    else
      var size := if want > rs - wp - 1 then rs - wp - 1 else want;
      (size, size)
  }

  /** The clip against the snapshot `ws`, as _rbuff_get computes it. */
  function GetClip(n: nat, rp: nat, ws: nat, want: nat): (r: (int, int)) {
    if ws >= rp then
      var size := if want > ws - rp then ws - rp else want;
      (size, size)
    else
      var size := if want > n - (rp - ws) then n - (rp - ws) else want;
      (size, if n - rp >= size then size else n - rp)
  }

  /** The cell the next CopyIn writes. */
  function WriteCell<T>(w: World<T>): nat
    requires w.p.First? || w.p.Second?
  {
    if w.p.First? then w.wp + w.p.done else w.p.done
  }

  /** The cell the next CopyOut reads. */
  function ReadCell<T>(w: World<T>): int
    requires w.c.Taking? || w.c.TakingMore?
  {
    if w.c.Taking? then w.rp + |w.c.got| else |w.c.got| - w.c.len1
  }

  /** u is a state w can step to by s. */
  ghost predicate Steps<T>(w: World<T>, s: Step<T>, u: World<T>) {
    Enabled(w, s) &&
    match s
    case CallPut(data) => u == w.(p := Snapped(data, w.rp))
    case ClipPut =>
      var (size, len1) := PutClip(|w.cells|, w.wp, w.p.rs, |w.p.data|);
      0 <= size && 0 <= len1 && u == w.(p := First(w.p.data, size, len1, 0))
    case CopyIn =>
      var d := if w.p.First? then w.p.done else w.p.len1 + w.p.done;
      && WriteCell(w) < |w.cells| && d < |w.p.data|
      && u == w.(cells := w.cells[WriteCell(w) := w.p.data[d]], p := w.p.(done := w.p.done + 1))
    case ClipAgain =>
      var rest := w.p.size - w.p.len1;
      u == w.(p := Second(w.p.data, w.p.size, w.p.len1, if rest > w.rp - 1 then w.rp - 1 else rest, 0))
    case PublishPut =>
      var wp := if w.p.First? then w.wp + w.p.size else w.p.rest;
      var put := if w.p.First? then w.p.size else w.p.len1 + w.p.rest;
      0 <= wp && 0 <= put <= |w.p.data| &&
      u == w.(wp := wp, p := Idle, published := w.published + w.p.data[..put])
    case CallGet(want, peek) => u == w.(c := Looked(want, peek, w.wp))
    case ClipGet =>
      var (size, len1) := GetClip(|w.cells|, w.rp, w.c.ws, w.c.want);
      0 <= size && 0 <= len1 && u == w.(c := Taking(w.c.peek, w.c.ws, size, len1, []))
    case CopyOut =>
      0 <= ReadCell(w) < |w.cells| && u == w.(c := w.c.(got := w.c.got + [w.cells[ReadCell(w)]]))
    case ClipGetAgain =>
      var rest := w.c.size - w.c.len1;
      u == w.(c := TakingMore(w.c.peek, w.c.size, w.c.len1, if rest > w.c.ws then w.c.ws else rest, w.c.got))
    case PublishGet =>
      var rp := if w.c.Taking? then w.rp + w.c.size else w.c.rest;
      0 <= rp && u == if w.c.peek then w.(c := Waiting) else w.(rp := rp, c := Waiting, consumed := w.consumed + w.c.got)
  }

  /** A freshly initialised ring of n cells, nobody calling. */
  ghost predicate Init<T>(w: World<T>) {
    && |w.cells| >= 2 && w.rp == w.wp == 0 && w.p.Idle? && w.c.Waiting?
    && w.published == w.consumed == []
  }

  ghost predicate Next<T(!new)>(w: World<T>, u: World<T>) {
    exists s :: Steps(w, s, u)
  }

  // ---- the invariant ----

  /** What the producer knows while the consumer moves on. */
  ghost predicate ProducerOk<T>(cells: seq<T>, rp: nat, wp: nat, p: Producer<T>)
    requires ValidAt(|cells|, rp, wp)
  {
    var n, free := |cells|, FreeCount(|cells|, rp, wp);
    match p
    case Idle => true
    case Snapped(_, rs) =>
      && rs <= n && 0 <= FreeCount(n, rs, wp) <= free
      && (wp >= rs ==> rs <= rp <= wp)
    case First(data, size, len1, done) =>
      && done <= len1 <= size <= |data| && size <= free && wp + len1 <= n
      && (len1 < size ==> len1 == n - wp && rp <= wp)
      && (forall i | 0 <= i < done :: cells[Cell(n, wp, i)] == data[i])
    case Second(data, size, len1, rest, done) =>
      && done <= rest == size - len1 && 0 < rest && size <= |data| && size <= free
      && len1 == n - wp && rp <= wp
      && (forall i | 0 <= i < len1 + done :: cells[Cell(n, wp, i)] == data[i])
  }

  /** What the consumer knows while the producer moves on. */
  ghost predicate ConsumerOk<T>(cells: seq<T>, rp: nat, wp: nat, c: Consumer<T>)
    requires ValidAt(|cells|, rp, wp)
  {
    var n, data := |cells|, DataCount(|cells|, rp, wp);
    match c
    case Waiting => true
    case Looked(_, _, ws) =>
      && ws <= n && 0 <= DataCount(n, rp, ws) <= data
      && (ws < rp ==> ws <= wp < rp)
    case Taking(_, ws, size, len1, got) =>
      && |got| <= len1 <= size <= data && rp + len1 <= n
      && (len1 < size ==> len1 == n - rp && size - len1 <= ws && wp < rp)
      && got == State(cells, rp, wp).Content()[..|got|]
    case TakingMore(_, size, len1, rest, got) =>
      && len1 <= |got| <= len1 + rest == size <= data && 0 < rest
      && len1 == n - rp && wp < rp
      && got == State(cells, rp, wp).Content()[..|got|]
  }

  ghost predicate Inv<T>(w: World<T>) {
    && w.ValidRing()
    && w.published == w.consumed + w.Content()
    && ProducerOk(w.cells, w.rp, w.wp, w.p) && ConsumerOk(w.cells, w.rp, w.wp, w.c)
  }

  /** The producer's next write goes to a free cell: no byte of the content is touched. */
  lemma WritesOnlyFreeCells<T>(w: World<T>)
    requires Inv(w) && Enabled(w, CopyIn)
    ensures WriteCell(w) < |w.cells|
    ensures forall i | 0 <= i < w.Data() :: WriteCell(w) != Cell(|w.cells|, w.rp, i)
    ensures exists j | 0 <= j < w.Free() :: WriteCell(w) == Cell(|w.cells|, w.wp, j)
  {
    var n := |w.cells|;
    var j := if w.p.First? then w.p.done else w.p.len1 + w.p.done;
    assert j < w.Free() && WriteCell(w) == Cell(n, w.wp, j);
  }

  /** The consumer's next read takes the next byte of the content, never a free cell the producer may be filling. */
  lemma ReadsOnlyContent<T>(w: World<T>)
    requires Inv(w) && Enabled(w, CopyOut)
    ensures |w.c.got| < w.Data()
    ensures ReadCell(w) == Cell(|w.cells|, w.rp, |w.c.got|)
    ensures forall j | 0 <= j < w.Free() :: ReadCell(w) != Cell(|w.cells|, w.wp, j)
  {
  }

  lemma InitOk<T>(w: World<T>)
    requires Init(w)
    ensures Inv(w)
  {
  }

  lemma PutStepOk<T>(w: World<T>, s: Step<T>, u: World<T>)
    requires Inv(w) && Steps(w, s, u) && (s.CallPut? || s.ClipPut? || s.ClipAgain?)
    ensures Inv(u)
  {
    hide ConsumerOk, State.Content;
  }

  /** Even with a stale snapshot and a second read of rp, the second clip never cuts anything. */
  lemma SecondClipIdle<T>(w: World<T>, u: World<T>)
    requires Inv(w) && Steps(w, ClipAgain, u)
    ensures u.p.rest == w.p.size - w.p.len1
  {
  }

  lemma CopyInKeepsContent<T>(w: World<T>, u: World<T>)
    requires Inv(w) && Steps(w, CopyIn, u)
    ensures u.ValidRing() && u.Content() == w.Content()
  {
    WritesOnlyFreeCells(w);
  }

  lemma CopyInAdvances<T>(w: World<T>, u: World<T>)
    requires Inv(w) && Steps(w, CopyIn, u)
    ensures ProducerOk(u.cells, u.rp, u.wp, u.p)
  {
    hide ConsumerOk, State.Content;
  }

  lemma CopyInOk<T>(w: World<T>, u: World<T>)
    requires Inv(w) && Steps(w, CopyIn, u)
    ensures Inv(u)
  {
    CopyInKeepsContent(w, u);
    hide State.Content, Steps;
    assert ConsumerOk(u.cells, u.rp, u.wp, u.c);
    CopyInAdvances(w, u);
  }

  /** Publishing appends exactly the bytes copied. */
  lemma PublishPutAppends<T>(w: World<T>, u: World<T>)
    requires Inv(w) && Steps(w, PublishPut, u)
    ensures u.ValidRing()
    ensures u.published[|w.published|..] <= w.p.data && u.Content() == w.Content() + u.published[|w.published|..]
  {
    hide ConsumerOk, State.Content;
    var n, put := |w.cells|, if w.p.First? then w.p.size else w.p.len1 + w.p.rest;
    var s := State(w.cells, w.rp, w.wp);
    assert s.Skip(put) == State(u.cells, u.rp, u.wp);
    assert forall i | 0 <= i < put :: s.cells[Cell(n, s.wp, i)] == w.p.data[i];
    SkipExposes(s, put);
    assert u.published[|w.published|..] == w.p.data[..put];
    assert u.Content() == w.Content() + w.p.data[..put];
  }

  /** New bytes behind the content change nothing for the consumer, whatever its snapshot. */
  lemma ConsumerSeesMore<T>(w: World<T>, u: World<T>)
    requires Inv(w) && Steps(w, PublishPut, u) && u.ValidRing() && w.Content() <= u.Content()
    ensures ConsumerOk(u.cells, u.rp, u.wp, u.c)
  {
    hide State.Content;
    assert w.c.Taking? || w.c.TakingMore? ==> u.Content()[..|w.c.got|] == w.Content()[..|w.c.got|];
  }

  lemma PublishPutOk<T>(w: World<T>, u: World<T>)
    requires Inv(w) && Steps(w, PublishPut, u)
    ensures Inv(u)
  {
    PublishPutAppends(w, u);
    ConsumerSeesMore(w, u);
    hide State.Content, ConsumerOk;
    assert u.published == w.published + u.published[|w.published|..];
  }

  lemma GetStepOk<T>(w: World<T>, s: Step<T>, u: World<T>)
    requires Inv(w) && Steps(w, s, u) && (s.CallGet? || s.ClipGet? || s.ClipGetAgain?)
    ensures Inv(u)
  {
    hide ProducerOk, State.Content;
  }

  lemma CopyOutOk<T>(w: World<T>, u: World<T>)
    requires Inv(w) && Steps(w, CopyOut, u)
    ensures Inv(u)
  {
    ReadsOnlyContent(w);
    var k := |w.c.got|;
    assert w.Content()[..k + 1] == w.Content()[..k] + [w.Content()[k]];
  }

  /** Publishing a get drops exactly the bytes handed out. */
  lemma PublishGetDrops<T>(w: World<T>, u: World<T>)
    requires Inv(w) && Steps(w, PublishGet, u) && !w.c.peek
    ensures u.ValidRing() && w.Content() == w.c.got + u.Content()
    ensures u.rp == Advance(|w.cells|, w.rp, |w.c.got|) && |w.c.got| <= w.Data()
  {
    hide ProducerOk;
    var n, k := |w.cells|, |w.c.got|;
    assert u.rp == Advance(n, w.rp, k);
    DropRemoves(State(w.cells, w.rp, w.wp), k);
    assert w.Content() == w.Content()[..k] + w.Content()[k..];
  }

  /** More free cells change nothing for the producer, whatever its snapshot. */
  lemma ProducerSeesMore<T>(w: World<T>, u: World<T>)
    requires Inv(w) && Steps(w, PublishGet, u) && !w.c.peek
    requires u.ValidRing() && u.rp == Advance(|w.cells|, w.rp, |w.c.got|) && |w.c.got| <= w.Data()
    ensures ProducerOk(u.cells, u.rp, u.wp, u.p)
  {
    hide State.Content;
  }

  lemma PublishGetOk<T>(w: World<T>, u: World<T>)
    requires Inv(w) && Steps(w, PublishGet, u)
    ensures Inv(u)
  {
    hide State.Content, ProducerOk;
    if w.c.peek {
      assert u == w.(c := Waiting);
    } else {
      PublishGetDrops(w, u);
      ProducerSeesMore(w, u);
      assert w.consumed + (w.c.got + u.Content()) == w.consumed + w.c.got + u.Content();
    }
  }

  lemma NextOk<T(!new)>(w: World<T>, u: World<T>)
    requires Inv(w) && Next(w, u)
    ensures Inv(u)
  {
    hide Inv, Steps, Enabled;
    var s :| Steps(w, s, u);
    match s
    case CallPut(_) => PutStepOk(w, s, u);
    case ClipPut => PutStepOk(w, s, u);
    case ClipAgain => PutStepOk(w, s, u);
    case CopyIn => CopyInOk(w, u);
    case PublishPut => PublishPutOk(w, u);
    case CallGet(_, _) => GetStepOk(w, s, u);
    case ClipGet => GetStepOk(w, s, u);
    case ClipGetAgain => GetStepOk(w, s, u);
    case CopyOut => CopyOutOk(w, u);
    case PublishGet => PublishGetOk(w, u);
  }

  /** No step that is due can be out of bounds: every enabled step has a successor. */
  lemma NeverStuck<T>(w: World<T>, s: Step<T>) returns (u: World<T>)
    requires Inv(w) && Enabled(w, s)
    ensures Steps(w, s, u)
  {
    match s
    case CallPut(data) => u := w.(p := Snapped(data, w.rp));
    case ClipPut =>
      var (size, len1) := PutClip(|w.cells|, w.wp, w.p.rs, |w.p.data|);
      u := w.(p := First(w.p.data, size, len1, 0));
    case CopyIn =>
      WritesOnlyFreeCells(w);
      var d := if w.p.First? then w.p.done else w.p.len1 + w.p.done;
      u := w.(cells := w.cells[WriteCell(w) := w.p.data[d]], p := w.p.(done := w.p.done + 1));
    case ClipAgain =>
      u := w.(p := Second(w.p.data, w.p.size, w.p.len1, w.p.size - w.p.len1, 0));
    case PublishPut =>
      var wp := if w.p.First? then w.wp + w.p.size else w.p.rest;
      var put := if w.p.First? then w.p.size else w.p.len1 + w.p.rest;
      u := w.(wp := wp, p := Idle, published := w.published + w.p.data[..put]);
    case CallGet(want, peek) => u := w.(c := Looked(want, peek, w.wp));
    case ClipGet =>
      var (size, len1) := GetClip(|w.cells|, w.rp, w.c.ws, w.c.want);
      u := w.(c := Taking(w.c.peek, w.c.ws, size, len1, []));
    case CopyOut =>
      ReadsOnlyContent(w);
      u := w.(c := w.c.(got := w.c.got + [w.cells[ReadCell(w)]]));
    case ClipGetAgain =>
      u := w.(c := TakingMore(w.c.peek, w.c.size, w.c.len1, w.c.size - w.c.len1, w.c.got));
    case PublishGet =>
      var rp := if w.c.Taking? then w.rp + w.c.size else w.c.rest;
      u := if w.c.peek then w.(c := Waiting) else w.(rp := rp, c := Waiting, consumed := w.consumed + w.c.got);
  }

  ghost predicate Run<T(!new)>(ws: seq<World<T>>) {
    && ws != [] && Init(ws[0])
    && forall i | 0 <= i < |ws| - 1 :: Next(ws[i], ws[i + 1])
  }

  /**
   * Safety over every interleaving: in every reachable state, also in the middle of copies, the bytes consumed
   * followed by the bytes in the ring are the bytes published, at most n - 1 of them are in the ring, and what the
   * consumer has copied so far is what comes next.
   */
  lemma {:induction false} EveryInterleavingSafe<T(!new)>(ws: seq<World<T>>, i: nat)
    requires Run(ws) && i < |ws|
    ensures var w := ws[i];
            && Inv(w)
            && w.published == w.consumed + w.Content()
            && |w.Content()| <= |w.cells| - 1
            && (w.c.Taking? || w.c.TakingMore? ==> w.consumed + w.c.got <= w.published)
  {
    if i == 0 {
      InitOk(ws[0]);
    } else {
      EveryInterleavingSafe(ws, i - 1);
      NextOk(ws[i - 1], ws[i]);
    }
  }
}
