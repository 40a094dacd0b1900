/** The search for better deadlines, on the list of hashes of a chunk: one at a time, and a group of lanes at a time. */
module DeadlineSearch {
  import opened Arith

  const TWO64: nat := 0x1_0000_0000_0000_0000

  /** 64-bit wrap-around. */
  function Wrap(x: nat): nat {
    x % TWO64
  }

  lemma WrapIs(x: nat)
    ensures Wrap(x) <= 18446744073709551615
    ensures x <= 18446744073709551615 ==> Wrap(x) == x
    ensures Wrap(x + 18446744073709551616) == Wrap(x)
  {
  }

  /** A call of send_report. */
  datatype Report = Report(accid: nat, height: nat, nonce: nat, hash: nat)

  /** The fields of hash_arg_t the search only reads. */
  datatype Job = Job(accid: nat, height: nat, nonce: nat, base: nat)

  /** The target deadline and the reports sent so far. */
  datatype Found = Found(target: nat, reports: seq<Report>)

  /** One comparison: report and shrink the target when the deadline is better. */
  function Offer(j: Job, f: Found, v: nat, h: nat): Found
    requires j.base > 0
  {
    if h / j.base < f.target
    then Found(h / j.base, f.reports + [Report(j.accid, j.height, Wrap(j.nonce + v), h)])
    else f
  }

  /** The scalar search over the first n hashes. */
  function Scan(j: Job, f: Found, hs: seq<nat>, n: nat): Found
    requires j.base > 0 && n <= |hs|
  {
    if n == 0 then f else Offer(j, Scan(j, f, hs, n - 1), n - 1, hs[n - 1])
  }

  /** The index of the first smallest hash among hs[from..from+len]. */
  function Best(hs: seq<nat>, from: nat, len: nat): (b: nat)
    requires 0 < len && from + len <= |hs|
    ensures from <= b < from + len
    ensures forall v | from <= v < from + len :: hs[b] <= hs[v]
    ensures forall v | from <= v < b :: hs[b] < hs[v]
  {
    if len == 1 then from
    else
      var b := Best(hs, from, len - 1);
      if hs[from + len - 1] < hs[b] then from + len - 1 else b
  }

  /** The search over g groups of `lanes` hashes, offering only the best of each group. */
  function GroupScan(j: Job, f: Found, hs: seq<nat>, lanes: nat, g: nat): Found
    requires j.base > 0 && lanes > 0 && lanes * g <= |hs|
  {
    if g == 0 then f
    else
      assert lanes * g == lanes * (g - 1) + lanes;
      var b := Best(hs, lanes * (g - 1), lanes);
      Offer(j, GroupScan(j, f, hs, lanes, g - 1), b, hs[b])
  }

  /** One more group. */
  lemma GroupStep(j: Job, f: Found, hs: seq<nat>, lanes: nat, g: nat)
    requires j.base > 0 && lanes > 0 && lanes * g + lanes <= |hs|
    ensures lanes * (g + 1) == lanes * g + lanes
    ensures var b := Best(hs, lanes * g, lanes);
            GroupScan(j, f, hs, lanes, g + 1) == Offer(j, GroupScan(j, f, hs, lanes, g), b, hs[b])
  {
    hide Offer, Best;
    assert lanes * (g + 1) == lanes * g + lanes;
  }

  ghost predicate Genuine(j: Job, hs: seq<nat>, r: Report) {
    exists v: nat | v < |hs| :: r == Report(j.accid, j.height, Wrap(j.nonce + v), hs[v])
  }

  /** New reports rs, sent while the target fell from t0 to t, have strictly decreasing deadlines ending in t. */
  ghost predicate Descends(base: nat, t0: nat, rs: seq<Report>, t: nat)
    requires base > 0
  {
    && (forall i, k | 0 <= i < k < |rs| :: rs[k].hash / base < rs[i].hash / base)
    && (forall i | 0 <= i < |rs| :: t <= rs[i].hash / base < t0)
    && (if rs == [] then t == t0 else t == rs[|rs| - 1].hash / base)
  }

  lemma OfferDescends(j: Job, f0: Found, f: Found, v: nat, hs: seq<nat>)
    requires j.base > 0 && v < |hs| && f0.reports <= f.reports
    requires Descends(j.base, f0.target, f.reports[|f0.reports|..], f.target)
    requires forall r | r in f.reports[|f0.reports|..] :: Genuine(j, hs, r)
    ensures var g := Offer(j, f, v, hs[v]);
            && f0.reports <= g.reports
            && Descends(j.base, f0.target, g.reports[|f0.reports|..], g.target)
            && (forall r | r in g.reports[|f0.reports|..] :: Genuine(j, hs, r))
  {
    var g := Offer(j, f, v, hs[v]);
    if g != f {
      var r := Report(j.accid, j.height, Wrap(j.nonce + v), hs[v]);
      assert g.reports[|f0.reports|..] == f.reports[|f0.reports|..] + [r];
      assert Genuine(j, hs, r);
    }
  }

  /** The scalar search reports strictly decreasing deadlines of genuine (nonce, hash) pairs. */
  lemma {:induction false} ScanReports(j: Job, f: Found, hs: seq<nat>, n: nat)
    requires j.base > 0 && n <= |hs|
    ensures var r := Scan(j, f, hs, n);
            && f.reports <= r.reports
            && Descends(j.base, f.target, r.reports[|f.reports|..], r.target)
            && (forall x | x in r.reports[|f.reports|..] :: Genuine(j, hs, x))
  {
    if n == 0 {
    } else {
      ScanReports(j, f, hs, n - 1);
      OfferDescends(j, f, Scan(j, f, hs, n - 1), n - 1, hs);
    }
  }

  /** t is the least of t0 and the deadlines of hs[from..to]. */
  ghost predicate IsLeast(t: nat, t0: nat, base: nat, hs: seq<nat>, from: nat, to: nat)
    requires base > 0 && from <= to <= |hs|
  {
    && t <= t0
    && (forall v | from <= v < to :: t <= hs[v] / base)
    && (t == t0 || exists v :: from <= v < to && t == hs[v] / base)
  }

  /** From n to n + len the scalar target falls to the least deadline met, with a report whenever it falls. */
  lemma {:induction false} ScanSegment(j: Job, f: Found, hs: seq<nat>, n: nat, len: nat)
    requires j.base > 0 && n + len <= |hs|
    ensures var p, q := Scan(j, f, hs, n), Scan(j, f, hs, n + len);
            && IsLeast(q.target, p.target, j.base, hs, n, n + len)
            && p.reports <= q.reports
            && (q.target < p.target ==> |p.reports| < |q.reports| && q.reports[|q.reports| - 1].hash / j.base == q.target)
  {
    if len == 0 {
    } else {
      ScanSegment(j, f, hs, n, len - 1);
      var m := Scan(j, f, hs, n + len - 1);
      var q := Scan(j, f, hs, n + len);
      if q != m {
        assert q.target == hs[n + len - 1] / j.base;
      }
    }
  }

  /** The scalar search ends with the least of the initial target and every deadline. */
  lemma ScanTarget(j: Job, f: Found, hs: seq<nat>)
    requires j.base > 0
    ensures IsLeast(Scan(j, f, hs, |hs|).target, f.target, j.base, hs, 0, |hs|)
  {
    ScanSegment(j, f, hs, 0, |hs|);
  }

  /** One group: the best hash alone moves the target as far as the whole group does. */
  lemma BestIsLeast(hs: seq<nat>, from: nat, len: nat, t: nat, base: nat)
    requires base > 0 && len > 0 && from + len <= |hs|
    ensures var d := hs[Best(hs, from, len)] / base;
            IsLeast(if d < t then d else t, t, base, hs, from, from + len)
  {
    var b := Best(hs, from, len);
    forall v | from <= v < from + len ensures hs[b] / base <= hs[v] / base {
      DivMonotone(hs[b], hs[v], base);
    }
  }

  lemma LeastUnique(t: nat, u: nat, t0: nat, base: nat, hs: seq<nat>, from: nat, to: nat)
    requires base > 0 && from <= to <= |hs|
    requires IsLeast(t, t0, base, hs, from, to) && IsLeast(u, t0, base, hs, from, to)
    ensures t == u
  {
  }

  ghost predicate HasDeadline(base: nat, rs: seq<Report>, d: nat)
    requires base > 0
  {
    exists r :: r in rs && r.hash / base == d
  }

  lemma HasDeadlineGrows(base: nat, rs: seq<Report>, qs: seq<Report>, d: nat)
    requires base > 0 && rs <= qs && HasDeadline(base, rs, d)
    ensures HasDeadline(base, qs, d)
  {
  }

  /** The reports of the grouped search descend strictly and are genuine, like the scalar ones. */
  lemma {:induction false} GroupScanReports(j: Job, f: Found, hs: seq<nat>, lanes: nat, g: nat)
    requires j.base > 0 && lanes > 0 && lanes * g <= |hs|
    ensures var r := GroupScan(j, f, hs, lanes, g);
            && f.reports <= r.reports
            && Descends(j.base, f.target, r.reports[|f.reports|..], r.target)
            && (forall x | x in r.reports[|f.reports|..] :: Genuine(j, hs, x))
  {
    if g == 0 {
    } else {
      assert lanes * g == lanes * (g - 1) + lanes;
      GroupScanReports(j, f, hs, lanes, g - 1);
      OfferDescends(j, f, GroupScan(j, f, hs, lanes, g - 1), Best(hs, lanes * (g - 1), lanes), hs);
    }
  }

  /** s, the scalar search, has the target of r, at least as many reports, and every deadline r reported. */
  ghost predicate Covers(base: nat, s: Found, r: Found)
    requires base > 0
  {
    && r.target == s.target
    && |r.reports| <= |s.reports|
    && forall x | x in r.reports :: HasDeadline(base, s.reports, x.hash / base)
  }

  lemma OneGroup(j: Job, f: Found, hs: seq<nat>, from: nat, lanes: nat, r: Found)
    requires j.base > 0 && lanes > 0 && from + lanes <= |hs|
    requires Covers(j.base, Scan(j, f, hs, from), r)
    ensures var b := Best(hs, from, lanes);
            Covers(j.base, Scan(j, f, hs, from + lanes), Offer(j, r, b, hs[b]))
  {
    hide Scan, IsLeast;
    var p, q := Scan(j, f, hs, from), Scan(j, f, hs, from + lanes);
    ScanSegment(j, f, hs, from, lanes);
    var b := Best(hs, from, lanes);
    BestIsLeast(hs, from, lanes, r.target, j.base);
    LeastUnique(Offer(j, r, b, hs[b]).target, q.target, r.target, j.base, hs, from, from + lanes);
    CoversOffer(j, p, q, r, b, hs[b]);
  }

  lemma CoversOffer(j: Job, p: Found, q: Found, r: Found, v: nat, h: nat)
    requires j.base > 0 && Covers(j.base, p, r) && p.reports <= q.reports && Offer(j, r, v, h).target == q.target
    requires q.target < p.target ==> |p.reports| < |q.reports| && q.reports[|q.reports| - 1].hash / j.base == q.target
    ensures Covers(j.base, q, Offer(j, r, v, h))
  {
    var t := Offer(j, r, v, h);
    forall x | x in t.reports ensures HasDeadline(j.base, q.reports, x.hash / j.base) {
      if x in r.reports {
        HasDeadlineGrows(j.base, p.reports, q.reports, x.hash / j.base);
      } else {
        assert q.reports[|q.reports| - 1] in q.reports;
      }
    }
  }

  /**
   * The lane-parallel search refines the scalar one on the same hashes: the same final target, no more reports,
   * and every deadline it reports is one the scalar search reports too.
   */
  lemma {:induction false} GroupScanRefines(j: Job, f: Found, hs: seq<nat>, lanes: nat, g: nat)
    requires j.base > 0 && lanes > 0 && lanes * g <= |hs|
    ensures Covers(j.base, Scan(j, f, hs, lanes * g), GroupScan(j, f, hs, lanes, g))
  {
    if g == 0 {
      assert lanes * g == 0;
      forall x | x in f.reports ensures HasDeadline(j.base, f.reports, x.hash / j.base) {
      }
    } else {
      assert lanes * g == lanes * (g - 1) + lanes;
      GroupScanRefines(j, f, hs, lanes, g - 1);
      OneGroup(j, f, hs, lanes * (g - 1), lanes, GroupScan(j, f, hs, lanes, g - 1));
    }
  }

  /**
   * Groups that reach past the n hashes of a chunk: the grouped search ends with the scalar search's target if and
   * only if no hash beyond the chunk has a better deadline than the best in it.
   */
  lemma GroupsPastEnd(j: Job, f: Found, hs: seq<nat>, lanes: nat, g: nat, n: nat)
    requires j.base > 0 && lanes > 0 && n <= lanes * g <= |hs|
    ensures GroupScan(j, f, hs, lanes, g).target == Scan(j, f, hs, n).target <==>
            forall v | n <= v < lanes * g :: hs[v] / j.base >= Scan(j, f, hs, n).target
  {
    GroupScanRefines(j, f, hs, lanes, g);
    ScanSegment(j, f, hs, n, lanes * g - n);
  }

  /** Only the first n hashes matter to a search over n. */
  lemma {:induction false} ScanPrefix(j: Job, f: Found, hs: seq<nat>, xs: seq<nat>, n: nat)
    requires j.base > 0 && n <= |xs| && xs <= hs
    ensures Scan(j, f, hs, n) == Scan(j, f, xs, n)
  {
    if n == 0 {
    } else {
      ScanPrefix(j, f, hs, xs, n - 1);
    }
  }

  lemma GroupsOfChunk(j: Job, f: Found, hs: seq<nat>, xs: seq<nat>, lanes: nat, g: nat, n: nat)
    requires j.base > 0 && lanes > 0 && n == |xs| <= lanes * g == |hs| && xs <= hs
    ensures var s, p := Scan(j, f, xs, n), GroupScan(j, f, hs, lanes, g);
            && (p.target == s.target <==> forall v | n <= v < lanes * g :: hs[v] / j.base >= s.target)
            && (n == lanes * g ==> Covers(j.base, s, p))
  {
    hide Scan, GroupScan, Covers;
    ScanPrefix(j, f, hs, xs, n);
    GroupsPastEnd(j, f, hs, lanes, g, n);
    GroupScanRefines(j, f, hs, lanes, g);
  }
}
