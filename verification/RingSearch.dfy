/** rbuff_mem_pos: searching the ring's content, whose index moves back after every failed partial match. */
module RingSearch {
  import opened Options
  import opened Ring
  import opened RingBuffer

  ghost predicate Occurs<T>(c: seq<T>, d: seq<T>, s: nat) {
    s + |d| <= |c| && c[s..s + |d|] == d
  }

  /** A match from s would run past the first `len1` bytes, and those it covers there do match. */
  ghost predicate Straddles<T>(c: seq<T>, len1: nat, d: seq<T>, s: nat)
    requires len1 <= |c|
  {
    s < len1 < s + |d| && c[s..len1] == d[..len1 - s]
  }

  /**
   * The search stops for good: a partial match of two or more bytes straddles the spans and then fails,
   * with no occurrence before it.
   */
  ghost predicate GivesUp<T>(c: seq<T>, len1: nat, d: seq<T>)
    requires len1 <= |c|
  {
    exists s: nat :: s + 2 <= len1 && Straddles(c, len1, d, s) && !Occurs(c, d, s) && forall t: nat | t < s :: !Occurs(c, d, t)
  }

  /** Every start before s has been refused, and rightly; those of GivesUp's kind have not been met. */
  ghost predicate Refused<T>(c: seq<T>, len1: nat, d: seq<T>, s: nat)
    requires len1 <= |c|
  {
    && (forall t: nat | t < s :: !Occurs(c, d, t))
    && (forall t: nat | t < s && t + 2 <= len1 :: !Straddles(c, len1, d, t))
  }

  lemma Mismatch<T>(c: seq<T>, d: seq<T>, s: nat, m: nat)
    requires s + m < |c| && m < |d| && c[s + m] != d[m]
    ensures !Occurs(c, d, s)
  {
    if s + |d| <= |c| {
      assert c[s..s + |d|][m] == c[s + m];
    }
  }

  /** The loop over the first span; i - m is the start under trial, m the bytes matched so far. */
  method SearchFirst<T(==)>(p: seq<T>, d: seq<T>, ghost c: seq<T>) returns (i: nat, m: nat)
    requires d != [] && |p| <= |c| && p == c[..|p|]
    ensures m <= |d| && m <= i <= |p| && (m < |d| ==> i == |p|)
    ensures c[i - m..i] == d[..m] && Refused(c, |p|, d, i - m)
    ensures m == |d| ==> Answers(c, |p|, d, i - m)
  {
    hide Answers, Refused, Occurs, Straddles;
    i, m := 0, 0;
    NothingRefused(c, |p|, d);
    while m != |d| && i < |p|
      invariant m <= |d| && m <= i <= |p|
      invariant c[i - m..i] == d[..m]
      invariant Refused(c, |p|, d, i - m)
      decreases |p| - (i - m), |d| - m
    {
      if p[i] == d[m] {
        ExtendMatch(c, d, i - m, m);
        m := m + 1;
      } else {
        FailEarly(c, |p|, d, i - m, m);
        i := i - m;
        m := 0;
      }
      i := i + 1;
    }
    if m == |d| {
      Found(c, |p|, d, i - m);
    }
  }

  /** A failure in the first span: the next start is sound. */
  lemma FailEarly<T>(c: seq<T>, len1: nat, d: seq<T>, s: nat, m: nat)
    requires s + m < len1 <= |c| && m < |d| && c[s + m] != d[m] && Refused(c, len1, d, s)
    ensures Refused(c, len1, d, s + 1)
  {
    Mismatch(c, d, s, m);
    if Straddles(c, len1, d, s) {
      assert c[s..len1][m] == d[..len1 - s][m];
    }
  }

  /** A failure in the second span: either the next start is sound, or the search gives up. */
  lemma FailLate<T>(c: seq<T>, len1: nat, d: seq<T>, s: nat, m: nat)
    requires len1 <= s + m < |c| && m < |d| && c[s..s + m] == d[..m] && c[s + m] != d[m]
    requires Refused(c, len1, d, s)
    ensures if s + 2 <= len1 then GivesUp(c, len1, d) else Refused(c, len1, d, s + 1)
  {
    Mismatch(c, d, s, m);
    if s + 2 <= len1 {
      assert c[s..len1] == c[s..s + m][..len1 - s] == d[..m][..len1 - s] == d[..len1 - s];
      assert Straddles(c, len1, d, s);
    }
  }

  lemma ExtendMatch<T>(c: seq<T>, d: seq<T>, s: nat, m: nat)
    requires s + m < |c| && m < |d| && c[s..s + m] == d[..m] && c[s + m] == d[m]
    ensures c[s..s + m + 1] == d[..m + 1]
  {
    assert c[s..s + m + 1] == c[s..s + m] + [c[s + m]] && d[..m + 1] == d[..m] + [d[m]];
  }

  /** The loop over the second span. Going back past its beginning wraps the 32-bit index and ends the loop. */
  method SearchSecond<T(==)>(p: seq<T>, d: seq<T>, m0: nat, ghost c: seq<T>, ghost len1: nat) returns (i: nat, m: nat)
    requires m0 < |d| && m0 <= len1 && len1 + |p| == |c| < 0x1_0000_0000 && p == c[len1..]
    requires c[len1 - m0..len1] == d[..m0] && Refused(c, len1, d, len1 - m0)
    ensures m <= |d| && (m == |d| ==> m <= len1 + i)
    ensures Answers(c, len1, d, if m == |d| then len1 + i - m else -1)
  {
    hide GivesUp, Refused, Straddles, Occurs, Answers;
    i, m := 0, m0;
    ghost var stuck := false;
    while m != |d| && i < |p|
      invariant m <= |d| && i < 0x1_0000_0000
      invariant stuck ==> GivesUp(c, len1, d) && m < |d| && i >= |p|
      invariant !stuck ==> m <= len1 + i && i <= |p|
      invariant !stuck ==> c[len1 + i - m..len1 + i] == d[..m]
      invariant !stuck ==> Refused(c, len1, d, len1 + i - m)
      decreases !stuck, |c| - (len1 + i - m), |d| - m
    {
      if p[i] == d[m] {
        ExtendMatch(c, d, len1 + i - m, m);
        m := m + 1;
      } else {
        FailLate(c, len1, d, len1 + i - m, m);
        stuck := i + 1 < m;
        i := U32(i - m);
        m := 0;
      }
      i := U32Inc(i);
    }
    assert d[..|d|] == d;
    if m == |d| {
      Found(c, len1, d, len1 + i - m);
    } else {
      if !stuck {
        NoRoomLeft(c, len1, d, |c| - m);
      }
      NotFound(c, len1, d);
    }
  }

  lemma NoRoomLeft<T>(c: seq<T>, len1: nat, d: seq<T>, s: nat)
    requires len1 <= |c| < s + |d| && Refused(c, len1, d, s)
    ensures forall t: nat :: !Occurs(c, d, t)
  {
  }

  /** i++ on a 32-bit index. */
  function U32Inc(i: nat): nat {
    if i + 1 == 0x1_0000_0000 then 0 else i + 1
  }

  /** What the search returns: the first occurrence, or -1 if there is none or the search gives up. */
  ghost predicate Answers<T>(c: seq<T>, len1: nat, d: seq<T>, pos: int)
    requires len1 <= |c|
  {
    && pos >= -1
    && (pos >= 0 ==> Occurs(c, d, pos) && forall t: nat | t < pos :: !Occurs(c, d, t))
    && (pos == -1 <==> GivesUp(c, len1, d) || forall t: nat :: !Occurs(c, d, t))
  }

  /** A position returned as a 32-bit signed number. */
  function AsInt(i: int): (r: int)
    requires 0 <= i < 0xFFFF_FFFF
    ensures r != -1 && Position(r) == i && (i < 0x8000_0000 ==> r == i)
    ensures -0x8000_0000 <= r < 0x8000_0000 && (r - i) % 0x1_0000_0000 == 0
  {
    if i < 0x8000_0000 then i else i - 0x1_0000_0000
  }

  /** The position a result stands for; -1 stands for none. */
  function Position(r: int): int {
    if r < -1 then r + 0x1_0000_0000 else r
  }

  lemma InRange<T>(c: seq<T>, len1: nat, d: seq<T>, pos: int)
    requires d != [] && len1 <= |c| && Answers(c, len1, d, pos)
    ensures pos < |c|
  {
  }

  /** The two loops, on the bytes of the two spans; an empty span stands for a NULL pointer. */
  method SearchSpans<T(==)>(p1: seq<T>, p2: seq<T>, d: seq<T>) returns (pos: int)
    requires d != [] && |p1 + p2| < 0x1_0000_0000
    ensures Answers(p1 + p2, |p1|, d, Position(pos))
  {
    hide Answers, GivesUp, Refused, Occurs, Straddles;
    ghost var c, len1 := p1 + p2, |p1|;
    assert c[..len1] == p1 && c[len1..] == p2 && d[..|d|] == d;
    NothingRefused(c, len1, d);
    var i, m := 0, 0;
    if p1 != [] {
      i, m := SearchFirst(p1, d, c);
      if m == |d| {
        InRange(c, len1, d, i - m);
        return AsInt(i - m);
      }
    }
    if p2 != [] {
      i, m := SearchSecond(p2, d, m, c, len1);
      if m == |d| {
        InRange(c, len1, d, len1 + i - m);
        return AsInt(|p1| + i - m);
      }
    } else {
      NoRoomLeft(c, len1, d, |c| - m);
      NotFound(c, len1, d);
    }
    return -1;
  }

  lemma NotFound<T>(c: seq<T>, len1: nat, d: seq<T>)
    requires len1 <= |c| && (GivesUp(c, len1, d) || forall t: nat :: !Occurs(c, d, t))
    ensures Answers(c, len1, d, -1)
  {
  }

  /**
   * rbuff_mem_pos: the first occurrence, also across the wrap, unless the search gives up before it. A position of
   * 2^31 or more comes out negative, but never as -1.
   */
  method MemPos<T(0,==)>(buff: RBuff<T>, data: seq<T>) returns (pos: int)
    requires buff.Valid() && buff.cells.Length <= 0x1_0000_0000
    ensures data == [] ==> pos == -1
    ensures 0 <= FirstSpan(buff.cells.Length, buff.rp, buff.wp) <= |buff.Content()|
    ensures data != [] ==> Answers(buff.Content(), FirstSpan(buff.cells.Length, buff.rp, buff.wp), data, Position(pos))
  {
    hide State.Content, Answers, SpansAre;
    if data == [] {
      return -1;
    }
    var s := buff.ReadPtrs();
    buff.SpansHoldContent(s);
    var p1 := if s.p1.Some? then buff.cells[s.p1.value..s.p1.value + s.len1] else [];
    var p2 := if s.p2.Some? then buff.cells[s.p2.value..s.p2.value + s.len2] else [];
    assert p1 + p2 == buff.Content();
    pos := SearchSpans(p1, p2, data);
  }

  lemma NothingRefused<T>(c: seq<T>, len1: nat, d: seq<T>)
    requires len1 <= |c|
    ensures Refused(c, len1, d, 0)
  {
  }

  /** What has been found is the first occurrence, and the search has not given up before it. */
  lemma Found<T>(c: seq<T>, len1: nat, d: seq<T>, s: nat)
    requires len1 <= |c| && s + |d| <= |c| && c[s..s + |d|] == d && Refused(c, len1, d, s)
    ensures Answers(c, len1, d, s)
  {
    assert Occurs(c, d, s);
  }

  /** Content in one span is searched completely: the answer is the first occurrence, and -1 exactly when there is none. */
  lemma ContiguousIsComplete<T>(c: seq<T>, d: seq<T>, pos: int)
    requires d != [] && Answers(c, |c|, d, pos)
    ensures pos == -1 <==> forall t: nat :: !Occurs(c, d, t)
  {
    if GivesUp(c, |c|, d) {
      var s: nat :| s + 2 <= |c| && Straddles(c, |c|, d, s) && !Occurs(c, d, s) && forall t: nat | t < s :: !Occurs(c, d, t);
      forall t: nat ensures !Occurs(c, d, t) {
        assert t >= s ==> t + |d| > |c|;
      }
    }
  }

  /** Across the wrap it is not: searching "aab" in "aa" + "ab" gives up, though it occurs at 1. */
  lemma WrappedCanMiss()
    ensures GivesUp("aaab", 2, "aab") && Occurs("aaab", "aab", 1)
  {
    assert Straddles("aaab", 2, "aab", 0);
    assert "aaab"[0..3] == "aaa" && "aaa"[2] != "aab"[2];
    assert !Occurs("aaab", "aab", 0);
  }
}
