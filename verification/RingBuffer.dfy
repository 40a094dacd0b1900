/** rbuff.c: the ring buffer as an object whose positions move and whose cells are filled in place. */
module RingBuffer {
  import opened Options
  import opened Ring

  /** A result of unsigned 32-bit arithmetic that is off by at most one wrap. */
  function U32(x: int): nat
    requires -0x1_0000_0000 <= x < 0x1_0000_0000
  {
    if x < 0 then x + 0x1_0000_0000 else x
  }

  /** `*(int *)len < 0` for an unsigned len. */
  predicate NegativeAsInt(len: nat) {
    len >= 0x8000_0000
  }

  /** Two stretches of cells; a NULL pointer is None. */
  datatype Spans = Spans(p1: Option<nat>, len1: nat, p2: Option<nat>, len2: nat)

  /** The k-th cell named by two spans. */
  function SpanCell(s: Spans, k: nat): int
    requires s.len1 > 0 ==> s.p1.Some?
    requires s.len2 > 0 ==> s.p2.Some?
    requires k < s.len1 + s.len2
  {
    if k < s.len1 then s.p1.value + k else s.p2.value + k - s.len1
  }

  /** The spans name, in order, exactly the `count` cells that follow position p. */
  ghost predicate SpansAre(n: nat, p: nat, count: nat, s: Spans)
    requires p <= n && count < n
  {
    && s.len1 + s.len2 == count
    && (s.len1 > 0 ==> s.p1.Some? && s.p1.value + s.len1 <= n)
    && (s.len2 > 0 ==> s.p2.Some? && s.p2.value + s.len2 <= n && s.len1 > 0)
    && (forall k | 0 <= k < count :: SpanCell(s, k) == Cell(n, p, k))
  }

  lemma OneSpan(n: nat, p: nat, count: nat, q1: Option<nat>, q2: Option<nat>)
    requires p <= n && count < n
    requires count > 0 ==> q1 == Some(if p == n then 0 else p) && q1.value + count <= n
    ensures SpansAre(n, p, count, Spans(q1, count, q2, 0))
  {
  }

  lemma SpansAddUp(n: nat, p: nat, s: Spans)
    ensures forall count: nat | p <= n && count < n && SpansAre(n, p, count, s) :: s.len1 + s.len2 == count
  {
  }

  /** With rp before wp, neither stretch of free cells has 2^31 of them or more. */
  predicate SmallStretches(n: nat, rp: nat, wp: nat) {
    rp < wp ==> n - wp - (if rp == 0 then 1 else 0) < 0x8000_0000 && rp - 1 < 0x8000_0000
  }

  lemma TwoSpans(n: nat, p: nat, count: nat)
    requires p < n && n - p < count < n
    ensures SpansAre(n, p, count, Spans(Some(p), n - p, Some(0), count - (n - p)))
  {
  }

  /** rbuff_t; hp is index 0 of `cells` and tp is cells.Length. */
  class RBuff<T(0)> {
    const cells: array<T>
    var rp: nat
    var wp: nat

    ghost predicate Valid()
      reads this
    {
      ValidAt(cells.Length, rp, wp)
    }

    ghost function Value(): (s: State<T>)
      requires Valid()
      reads this, cells
      ensures s.Valid()
    {
      State(cells[..], rp, wp)
    }

    ghost function Content(): seq<T>
      requires Valid()
      reads this, cells
    {
      Value().Content()
    }

    /** rbuff_init without given memory. */
    constructor (size: nat)
      requires size > 0
      ensures Valid() && fresh(this) && fresh(cells)
      ensures cells.Length == size + 1 && rp == wp == 0 && Content() == []
    {
      cells := new T[size + 1];
      rp, wp := 0, 0;
    }

    /** A struct copy: its own positions, the same memory. */
    constructor Clone(o: RBuff<T>)
      requires o.Valid()
      ensures Valid() && fresh(this) && cells == o.cells && Value() == o.Value()
    {
      cells, rp, wp := o.cells, o.rp, o.wp;
    }

    /** rbuff_reset. */
    method Reset()
      requires Valid()
      modifies this
      ensures Valid() && Value() == old(Value()).Reset()
    {
      rp, wp := 0, 0;
    }

    /** rbuff_put; without data only the write position moves. Returns the clipped size. */
    method Put(data: Option<seq<T>>, size0: nat) returns (size: nat)
      requires Valid() && (data.Some? ==> size0 <= |data.value|)
      modifies this`wp, cells
      ensures Valid() && size == Min(size0, old(Value()).Free())
      ensures data.Some? ==> Value() == old(Value()).Put(data.value[..size0])
      ensures data.None? ==> Value() == old(Value()).Skip(size0)
    {
      hide Written;
      var n, part := cells.Length, cells.Length - wp;
      size := size0;
      if wp >= rp {
        if size > n - (wp - rp) - 1 {
          size := n - (wp - rp) - 1;
        }
        if part >= size {
          StoreStraight(data, size);
        } else {
          size := StoreWrapped(data, size, part);
        }
      } else {
        if size > rp - wp - 1 {
          size := rp - wp - 1;
        }
        StoreStraight(data, size);
      }
      assert data.Some? ==> data.value[..size0][..size] == data.value[..size];
    }

    /** The branches of rbuff_put with room before tp: one memcpy, and the write position moves on. */
    method StoreStraight(data: Option<seq<T>>, size: nat)
      requires (data.Some? ==> size <= |data.value|) && wp + size <= cells.Length && size < cells.Length
      modifies this`wp, cells
      ensures wp == Advance(cells.Length, old(wp), size)
      ensures cells[..] == if data.Some? then Written(old(cells[..]), old(wp), data.value[..size]) else old(cells[..])
    {
      ghost var before := cells[..];
      if data.Some? {
        forall k | 0 <= k < size { cells[wp + k] := data.value[k]; }
        WrittenStraight(before, wp, data.value[..size], cells[..]);
      }
      wp := wp + size;
    }

    /** The branch of rbuff_put around the end: a memcpy up to tp, a second clip, a memcpy from hp. */
    method StoreWrapped(data: Option<seq<T>>, size0: nat, part: nat) returns (size: nat)
      requires data.Some? ==> size0 <= |data.value|
      requires rp <= wp <= cells.Length && part == cells.Length - wp < size0 <= cells.Length - (wp - rp) - 1
      modifies this`wp, cells
      ensures size == size0 && wp == Advance(cells.Length, old(wp), size)
      ensures cells[..] == if data.Some? then Written(old(cells[..]), old(wp), data.value[..size]) else old(cells[..])
    {
      ghost var before, p := cells[..], wp;
      if data.Some? {
        forall k | 0 <= k < part { cells[wp + k] := data.value[k]; }
      }
      var rest := size0 - part;
      if rest > rp - 1 {
        rest := rp - 1;
      }
      if data.Some? {
        forall k | 0 <= k < rest { cells[k] := data.value[part + k]; }
        WrittenAround(before, p, data.value[..size0], cells[..]);
      }
      wp := rest;
      size := rest + part;
    }

    static lemma WrittenStraight(before: seq<T>, p: nat, d: seq<T>, after: seq<T>)
      requires p + |d| <= |before| == |after| && |d| < |before|
      requires forall c | 0 <= c < |before| :: after[c] == if p <= c < p + |d| then d[c - p] else before[c]
      ensures after == Written(before, p, d)
    {
    }

    /** Two stretches written, up to the end and from the beginning, are one write around the end. */
    static lemma WrittenAround(before: seq<T>, p: nat, d: seq<T>, after: seq<T>)
      requires p <= |before| == |after| && |d| < |before| < p + |d|
      requires forall c | 0 <= c < |before| ::
                 after[c] == if c >= p then d[c - p] else if c < p + |d| - |before| then d[|before| - p + c] else before[c]
      ensures after == Written(before, p, d)
    {
    }

    /** _rbuff_get: the bytes handed out, and, unless peeking, dropped. Returns the clipped size as |data|. */
    method Get(size0: nat, peek: bool) returns (data: seq<T>)
      requires Valid()
      modifies this`rp
      ensures Valid() && data == old(Content())[..Min(size0, |old(Content())|)]
      ensures Value() == if peek then old(Value()) else old(Value()).Drop(size0)
    {
      hide State.Content;
      var n, part, size := cells.Length, cells.Length - rp, size0;
      if wp >= rp {
        if size > wp - rp {
          size := wp - rp;
        }
        data := TakeStraight(size, peek);
      } else {
        if size > n - (rp - wp) {
          size := n - (rp - wp);
        }
        if part >= size {
          data := TakeStraight(size, peek);
        } else {
          data := TakeWrapped(size, part, peek);
        }
      }
    }

    /** The branches of _rbuff_get with all bytes before tp: one memcpy. */
    method TakeStraight(size: nat, peek: bool) returns (data: seq<T>)
      requires Valid() && size <= DataCount(cells.Length, rp, wp) && rp + size <= cells.Length
      modifies this`rp
      ensures data == old(Content())[..size]
      ensures rp == if peek then old(rp) else Advance(cells.Length, old(rp), size)
    {
      hide State.Content;
      Straight(Value(), size);
      data := cells[rp..rp + size];
      if !peek {
        rp := rp + size;
      }
    }

    /** The branch of _rbuff_get around the end: a memcpy up to tp, a second clip, a memcpy from hp. */
    method TakeWrapped(size: nat, part: nat, peek: bool) returns (data: seq<T>)
      requires Valid() && wp < rp && part == cells.Length - rp < size <= DataCount(cells.Length, rp, wp)
      modifies this`rp
      ensures data == old(Content())[..size]
      ensures rp == if peek then old(rp) else Advance(cells.Length, old(rp), size)
    {
      hide State.Content;
      data := cells[rp..rp + part];
      var rest := size - part;
      if rest > wp {
        rest := wp;
      }
      Around(Value(), rest);
      data := data + cells[..rest];
      if !peek {
        rp := rest;
      }
    }

    static lemma Straight(s: State<T>, k: nat)
      requires s.Valid() && k <= DataCount(|s.cells|, s.rp, s.wp) && s.rp + k <= |s.cells|
      ensures s.cells[s.rp..s.rp + k] == s.Content()[..k]
    {
    }

    static lemma Around(s: State<T>, rest: nat)
      requires s.Valid() && |s.cells| - s.rp + rest <= DataCount(|s.cells|, s.rp, s.wp) && rest <= s.rp
      ensures s.cells[s.rp..] + s.cells[..rest] == s.Content()[..|s.cells| - s.rp + rest]
    {
    }

    /**
     * rbuff_get_write_ptrs. Its lengths are tested as signed integers, so that with rp before wp a stretch of 2^31
     * free bytes or more is dropped; the spans are the free cells exactly when there is none.
     */
    method WritePtrs() returns (s: Spans)
      requires Valid() && cells.Length <= 0x1_0000_0000
      ensures SpansAre(cells.Length, wp, FreeCount(cells.Length, rp, wp), s) <==>
              SmallStretches(cells.Length, rp, wp)
      ensures rp == wp == 0 ==> s.len1 == cells.Length - 1
    {
      hide SpansAre;
      var n := cells.Length;
      var len1: nat, len2: nat;
      var q1: Option<nat>, q2: Option<nat>;
      if wp == rp {
        if wp == 0 || wp == n {
          q1, len1, q2, len2 := Some(0), U32(n - 1), None, 0;
        } else {
          q1, len1 := Some(wp), U32(n - wp);
          q2, len2 := Some(0), U32(rp - 1);
          if len2 == 0 {
            q2 := None;
          }
        }
        assert len1 + len2 == n - 1;
      } else if wp > rp {
        q1, len1 := Some(wp), U32(n - wp);
        if rp == 0 {
          len1 := U32(len1 - 1);
        }
        if NegativeAsInt(len1) {
          len1 := 0;
        }
        if len1 == 0 {
          q1 := None;
        }
        q2, len2 := Some(0), U32(rp - 1);
        if NegativeAsInt(len2) {
          len2 := 0;
        }
        if len2 == 0 {
          q2 := None;
        }
        if q2.Some? && q1.None? {
          q1, len1, q2, len2 := q2, len2, None, 0;
        }
        assert SmallStretches(n, rp, wp) <==> len1 + len2 == n - 1 - (wp - rp);
      } else {
        q1, len1 := Some(wp), U32(rp - wp - 1);
        if len1 == 0 {
          q1 := None;
        }
        q2, len2 := None, 0;
        assert len1 + len2 == rp - wp - 1;
      }
      s := Spans(q1, len1, q2, len2);
      if !SmallStretches(n, rp, wp) {
        SpansAddUp(n, wp, s);
      } else if len2 == 0 {
        OneSpan(n, wp, len1, q1, q2);
      } else {
        TwoSpans(n, wp, len1 + len2);
      }
    }

    /** rbuff_get_read_ptrs: the spans hold the content in order. */
    method ReadPtrs() returns (s: Spans)
      requires Valid() && cells.Length <= 0x1_0000_0000
      ensures SpansAre(cells.Length, rp, DataCount(cells.Length, rp, wp), s)
      ensures s.p1.Some? <==> s.len1 > 0
      ensures s.p2.Some? <==> s.len2 > 0
      ensures s.len1 == FirstSpan(cells.Length, rp, wp) && s.len1 + s.len2 == |Content()|
      ensures s.len1 > 0 ==> s.p1.value + s.len1 <= cells.Length
      ensures s.len2 > 0 ==> s.p2.value + s.len2 <= cells.Length && s.len1 > 0
    {
      hide SpansAre;
      var n := cells.Length;
      var q1: Option<nat>, q2: Option<nat>, len1: nat, len2: nat := None, None, 0, 0;
      if wp == rp {
      } else if wp > rp {
        len1, q1 := U32(wp - rp), Some(rp);
      } else {
        len1, q1 := U32(n - rp), Some(rp);
        if len1 == 0 {
          q1 := None;
        }
        q2, len2 := Some(0), U32(wp);
        if len2 == 0 {
          q2 := None;
        }
        if q2.Some? && q1.None? {
          q1, len1, q2, len2 := q2, len2, None, 0;
        }
      }
      s := Spans(q1, len1, q2, len2);
      if len2 == 0 {
        OneSpan(n, rp, len1, q1, q2);
      } else {
        TwoSpans(n, rp, len1 + len2);
      }
    }

    /** Spans over the content are, cell for cell, the content. */
    lemma SpansHoldContent(s: Spans)
      requires Valid() && SpansAre(cells.Length, rp, DataCount(cells.Length, rp, wp), s)
      ensures s.len1 > 0 ==> cells[s.p1.value..s.p1.value + s.len1] == Content()[..s.len1]
      ensures s.len2 > 0 ==> cells[s.p2.value..s.p2.value + s.len2] == Content()[s.len1..]
    {
      var c := Content();
      if s.len1 > 0 {
        forall k | 0 <= k < s.len1 ensures cells[s.p1.value..s.p1.value + s.len1][k] == c[k] {
          assert SpanCell(s, k) == s.p1.value + k;
        }
      }
      if s.len2 > 0 {
        forall k | 0 <= k < s.len2 ensures cells[s.p2.value..s.p2.value + s.len2][k] == c[s.len1..][k] {
          assert SpanCell(s, s.len1 + k) == s.p2.value + k;
        }
      }
    }

    /** rbuff_peek_after_pos. */
    method PeekAfterPos(size: nat, pos: nat) returns (data: seq<T>)
      requires Valid()
      ensures data == if pos >= |Content()| then [] else Content()[pos..][..Min(size, |Content()| - pos)]
    {
      if pos >= DataCount(cells.Length, rp, wp) {
        return [];
      }
      var clone := new RBuff<T>.Clone(this);
      DropRemoves(Value(), pos);
      var _ := clone.Get(pos, false);
      data := clone.Get(size, true);
    }
  }

  /** Write d into the cells two spans name, in order. */
  method WriteSpans<T(0)>(b: RBuff<T>, s: Spans, ghost count: nat, d: seq<T>)
    requires b.wp <= b.cells.Length && |d| <= count < b.cells.Length && SpansAre(b.cells.Length, b.wp, count, s)
    modifies b.cells
    ensures FilledInOrder(old(b.cells[..]), b.wp, d, b.cells[..])
  {
    hide FilledInOrder;
    ghost var before := b.cells[..];
    var k := if |d| < s.len1 then |d| else s.len1;
    if k > 0 {
      forall i | 0 <= i < k { b.cells[s.p1.value + i] := d[i]; }
    }
    if k < |d| {
      forall i | 0 <= i < |d| - k { b.cells[s.p2.value + i] := d[k + i]; }
    }
    FillsInOrder(before, b.wp, count, s, d, k, b.cells[..]);
  }

  /** The cells after position p hold d, and no other cell has changed. */
  ghost predicate FilledInOrder<T>(before: seq<T>, p: nat, d: seq<T>, after: seq<T>)
    requires p <= |before| && |d| < |before|
  {
    && |after| == |before|
    && (forall i | 0 <= i < |d| :: after[Cell(|before|, p, i)] == d[i])
    && (forall c | 0 <= c < |after| && (forall i | 0 <= i < |d| :: c != Cell(|before|, p, i)) :: after[c] == before[c])
  }

  lemma FillsInOrder<T>(before: seq<T>, p: nat, count: nat, s: Spans, d: seq<T>, k: nat, after: seq<T>)
    requires p <= |before| && |d| <= count < |before| == |after| && SpansAre(|before|, p, count, s)
    requires k == Min(|d|, s.len1)
    requires forall c | 0 <= c < |before| ::
               after[c] == if k < |d| && s.p2.value <= c < s.p2.value + |d| - k then d[k + c - s.p2.value]
                           else if k > 0 && s.p1.value <= c < s.p1.value + k then d[c - s.p1.value]
                           else before[c]
    ensures FilledInOrder(before, p, d, after)
  {
    if d != [] {
      assert SpanCell(s, 0) == Cell(|before|, p, 0);
    }
    if k < |d| {
      assert SpanCell(s, k) == Cell(|before|, p, k);
      assert s.p2.value + |d| - k <= s.p1.value || s.p1.value + k <= s.p2.value;
    }
    forall c | 0 <= c < |after| && after[c] != before[c] ensures exists i | 0 <= i < |d| :: c == Cell(|before|, p, i) {
      var i := if k < |d| && s.p2.value <= c < s.p2.value + |d| - k then k + c - s.p2.value else c - s.p1.value;
      assert SpanCell(s, i) == Cell(|before|, p, i) == c;
    }
    forall i | 0 <= i < |d| ensures after[Cell(|before|, p, i)] == d[i] {
      assert SpanCell(s, i) == Cell(|before|, p, i);
    }
  }

  /** Writing d into the cells the write spans name, in order, and then stepping over them is rbuff_put of d. */
  method PutThroughSpans<T(0)>(b: RBuff<T>, d: seq<T>)
    requires b.Valid() && b.cells.Length <= 0x1_0000_0000 && SmallStretches(b.cells.Length, b.rp, b.wp)
    requires |d| <= b.Value().Free()
    modifies b`wp, b.cells
    ensures b.Valid() && b.Value() == old(b.Value()).Put(d)
  {
    hide State.Put, State.Skip, State.Content, Written, SpansAre, Cell;
    ghost var before := b.Value();
    var s := b.WritePtrs();
    WriteSpans(b, s, before.Free(), d);
    FillThenSkip(before, b.cells[..], d);
    var put := b.Put(None, |d|);
  }

  /** What rbuff_move does with one span of src, whose cells hold `chunk`: append as much as `size` and dest allow. */
  method PutSpan<T(0)>(dest: RBuff<T>, src: RBuff<T>, p: Option<nat>, len0: nat, size: nat, ghost chunk: seq<T>)
    returns (put: nat)
    requires dest.Valid() && src.Valid() && dest != src && dest.cells != src.cells
    requires if p.Some? then p.value + len0 <= src.cells.Length && chunk == src.cells[p.value..p.value + len0] else len0 == |chunk| == 0
    modifies dest`wp, dest.cells
    ensures dest.Valid() && src.Valid() && src.Value() == old(src.Value())
    ensures put == Min(Min(len0, size), old(dest.Value()).Free())
    ensures dest.Content() == old(dest.Content()) + chunk[..put]
    ensures dest.Value().Free() == old(dest.Value()).Free() - put
  {
    put := 0;
    if p.Some? && size > 0 && FreeCount(dest.cells.Length, dest.rp, dest.wp) > 0 {
      var len := if len0 > size then size else len0;
      var bytes := src.cells[p.value..p.value + len];
      assert bytes[..len] == bytes == chunk[..len];
      ghost var d := dest.Value();
      PutAppends(d, bytes);
      put := dest.Put(Some(bytes), len);
      assert dest.Value() == d.Put(bytes);
      assert chunk[..len][..put] == chunk[..put];
    }
  }

  /** The copying part of rbuff_move: the data is appended to dest but still in src. */
  method CopySpans<T(0)>(dest: RBuff<T>, src: RBuff<T>, size0: nat) returns (len: nat)
    requires dest.Valid() && src.Valid() && dest != src && dest.cells != src.cells
    requires src.cells.Length <= 0x1_0000_0000
    modifies dest`wp, dest.cells
    ensures dest.Valid() && src.Valid() && src.Value() == old(src.Value())
    ensures len == Min(size0, Min(|old(src.Content())|, old(dest.Value()).Free()))
    ensures dest.Content() == old(dest.Content()) + old(src.Content())[..len]
  {
    hide State.Content, State.Put, State.Skip, State.Drop, Written, Advance, Cell, SpansAre, SpanCell, FirstSpan, Min;
    var s := src.ReadPtrs();
    src.SpansHoldContent(s);
    ghost var data, held, room := src.Content(), dest.Content(), dest.Value().Free();
    assert data[..0] == [] && data[|data|..] == [];
    var put := PutSpan(dest, src, s.p1, s.len1, size0, data[..s.len1]);
    MinBounds(Min(s.len1, size0), room);
    MinBounds(s.len1, size0);
    len := PutSpan(dest, src, s.p2, s.len2, size0 - put, data[s.len1..]);
    Joined(data, held, s.len1, size0, room, put, len);
    len := put + len;
  }

  lemma MinBounds(x: nat, y: nat)
    ensures Min(x, y) <= x && Min(x, y) <= y
  {
  }

  lemma Joined<T>(data: seq<T>, held: seq<T>, len1: nat, size: nat, room: nat, put1: nat, put2: nat)
    requires len1 <= |data| && put1 == Min(Min(len1, size), room)
    requires put2 == Min(Min(|data| - len1, size - put1), room - put1)
    ensures put1 + put2 == Min(size, Min(|data|, room))
    ensures held + data[..len1][..put1] + data[len1..][..put2] == held + data[..put1 + put2]
  {
    assert put1 < len1 ==> put2 == 0;
    assert data[..len1][..put1] + data[len1..][..put2] == data[..put1 + put2];
    assert held + data[..len1][..put1] + data[len1..][..put2] == held + (data[..len1][..put1] + data[len1..][..put2]);
  }

  /** rbuff_move: take what src holds, dest has room for, and `size0` allows, in one pass over src's two spans. */
  method Move<T(0)>(dest: RBuff<T>, src: RBuff<T>, size0: nat) returns (len: nat)
    requires dest.Valid() && src.Valid() && dest != src && dest.cells != src.cells
    requires src.cells.Length <= 0x1_0000_0000
    modifies dest`wp, dest.cells, src`rp
    ensures dest.Valid() && src.Valid()
    ensures len == Min(size0, Min(|old(src.Content())|, old(dest.Value()).Free()))
    ensures dest.Content() == old(dest.Content()) + old(src.Content())[..len]
    ensures src.Value() == old(src.Value()).Drop(len) && src.Content() == old(src.Content())[len..]
  {
    len := CopySpans(dest, src, size0);
    ghost var sv := src.Value();
    DropRemoves(sv, len);
    if len > 0 {
      var _ := src.Get(len, false);
    } else {
      DropNothing(sv);
    }
  }

  lemma DropNothing<T>(s: State<T>)
    requires s.Valid()
    ensures s.Drop(0) == s && s.Content()[0..] == s.Content()
  {
  }
}
