/** Four runs of reader and hasher with three records: one loses a record, one adds one, one drops one, one tears one. */
module JobRuns {
  import opened Arith
  import opened Ring
  import opened JobExchange

  /** Three records of len bytes each: which are in idle_list and in job_list, and from where on in the two rings. */
  function St(len: nat, idle: seq<nat>, at: nat, job: seq<nat>, jobAt: nat, r: Reader, h: Hasher, l: nat, run: bool): (w: World)
    ensures w.n == 3 && w.len == len
  {
    World(3, len, Work(Fifo(Flat(idle, len), len * 3), at, Fifo(Flat(job, len), len * 3), jobAt, r, h, Rec(l, len), run))
  }

  /** The position one record further on. */
  function On(len: nat, at: nat): nat
    requires at <= len * 3 + 1
  {
    Advance(len * 3 + 1, at, len)
  }

  lemma Extend(ws: seq<World>, u: World) returns (vs: seq<World>)
    requires Run(ws) && Next(ws[|ws| - 1], u)
    ensures vs == ws + [u] && Run(vs)
  {
    vs := ws + [u];
    forall i | 0 <= i < |vs| - 1 ensures Next(vs[i], vs[i + 1]) {
      assert i < |ws| - 1 ==> Next(ws[i], ws[i + 1]);
    }
  }

  // ---- single steps ----

  lemma Lengths(len: nat, xs: seq<nat>)
    requires |xs| <= 3
    ensures |Flat(xs, len)| == len * |xs| <= len * 3
    ensures xs == [] ==> Flat(xs, len) == []
    ensures len > 0 && xs != [] ==> Flat(xs, len) != []
  {
    FlatLength(xs, len);
    MulGap(len, |xs|, 3);
    MulGap(len, 0, |xs|);
  }

  lemma Fills(len: nat, idle: seq<nat>, at: nat, job: seq<nat>, jobAt: nat, h: Hasher, l: nat)
    requires len > 0 && 0 < |idle| <= 3
    ensures Next(St(len, idle, at, job, jobAt, Waiting, h, l, true), St(len, idle, at, job, jobAt, Peeking, h, l, true))
    ensures var rec := Rec(idle[0], len);
            && Next(St(len, idle, at, job, jobAt, Peeking, h, l, true), St(len, idle, at, job, jobAt, Peeked(rec), h, l, true))
            && Next(St(len, idle, at, job, jobAt, Peeked(rec), h, l, true), St(len, idle, at, job, jobAt, Ready(rec), h, l, true))
  {
    Lengths(len, idle);
    FirstRecord(idle, len);
    assert Flat(idle, len)[..len] == Rec(idle[0], len);
    var a, b, c, d := St(len, idle, at, job, jobAt, Waiting, h, l, true), St(len, idle, at, job, jobAt, Peeking, h, l, true),
                      St(len, idle, at, job, jobAt, Peeked(Rec(idle[0], len)), h, l, true),
                      St(len, idle, at, job, jobAt, Ready(Rec(idle[0], len)), h, l, true);
    hide Flat, Rec;
    assert SeeIdle(a.work, b.work) && Peek(b.work, c.work, len) && Fill(c.work, d.work);
  }

  lemma HandsOver(len: nat, idle: seq<nat>, at: nat, job: seq<nat>, jobAt: nat, s: nat, h: Hasher, l: nat, run: bool)
    requires len > 0 && |job| <= 3
    ensures var rec := Rec(s, len);
            var w := St(len, idle, at, job, jobAt, Ready(rec), h, l, run);
            var u := St(len, idle, at, if |job| < 3 then job + [s] else job, jobAt, Window(rec), h, l, run);
            Next(w, u) && (|job| == 3 ==> Drops(w.work, u.work, len))
  {
    Lengths(len, job);
    var w := St(len, idle, at, job, jobAt, Ready(Rec(s, len)), h, l, run);
    var u := St(len, idle, at, if |job| < 3 then job + [s] else job, jobAt, Window(Rec(s, len)), h, l, run);
    PutWhole(w.work.job, job, s, 3, len);
    hide Flat, Rec, FifoStep;
    assert HandOver(w.work, u.work);
  }

  lemma ErasesOne(len: nat, idle: seq<nat>, at: nat, job: seq<nat>, jobAt: nat, rec: seq<Byte>, h: Hasher, l: nat, run: bool)
    requires len > 0 && 0 < |idle| <= 3 && at <= len * 3 + 1
    ensures Next(St(len, idle, at, job, jobAt, Window(rec), h, l, run), St(len, idle[1..], On(len, at), job, jobAt, Waiting, h, l, run))
  {
    Lengths(len, idle);
    FirstRecord(idle, len);
    MulGap(len, 1, |idle|);
    assert len * 1 == len;
    assert Flat(idle, len)[len..] == Flat(idle[1..], len);
    var w, u := St(len, idle, at, job, jobAt, Window(rec), h, l, run), St(len, idle[1..], On(len, at), job, jobAt, Waiting, h, l, run);
    hide Flat, Rec;
    assert Erase(w.work, u.work, len);
  }

  lemma Looks(len: nat, idle: seq<nat>, at: nat, job: seq<nat>, jobAt: nat, r: Reader, l: nat, run: bool)
    requires len > 0 && |job| <= 3 && (job != [] || !run)
    ensures Next(St(len, idle, at, job, jobAt, r, Polling, l, run), St(len, idle, at, job, jobAt, r, Passed, l, run))
    ensures Next(St(len, idle, at, job, jobAt, r, Passed, l, run),
                 St(len, idle, at, job, jobAt, r, if run then Taking else Moving(false, Start), l, run))
  {
    Lengths(len, job);
    var w, u := St(len, idle, at, job, jobAt, r, Polling, l, run), St(len, idle, at, job, jobAt, r, Passed, l, run);
    var v := St(len, idle, at, job, jobAt, r, if run then Taking else Moving(false, Start), l, run);
    hide Flat, Rec;
    assert Look(w.work, u.work) && Look(u.work, v.work);
  }

  lemma Takes(len: nat, idle: seq<nat>, at: nat, job: seq<nat>, jobAt: nat, r: Reader, l: nat)
    requires len > 0 && 0 < |job| <= 3 && jobAt <= len * 3 + 1
    ensures Next(St(len, idle, at, job, jobAt, r, Taking, l, true),
                 St(len, idle, at, job[1..], On(len, jobAt), r, Working(false), job[0], true))
  {
    Lengths(len, job);
    FirstRecord(job, len);
    MulGap(len, 1, |job|);
    assert len * 1 == len;
    assert Flat(job, len)[..len] == Rec(job[0], len) && Flat(job, len)[len..] == Flat(job[1..], len);
    assert Rec(job[0], len) + Rec(l, len)[len..] == Rec(job[0], len);
    var w := St(len, idle, at, job, jobAt, r, Taking, l, true);
    var u := St(len, idle, at, job[1..], On(len, jobAt), r, Working(false), job[0], true);
    hide Flat, Rec;
    assert TakeJob(w.work, u.work, len);
  }

  lemma TakesNone(len: nat, idle: seq<nat>, at: nat, jobAt: nat, r: Reader, l: nat)
    requires len > 0 && jobAt <= len * 3 + 1
    ensures Next(St(len, idle, at, [], jobAt, r, Taking, l, true), St(len, idle, at, [], jobAt, r, Working(true), l, true))
  {
    Lengths(len, []);
    assert [] + Rec(l, len)[0..] == Rec(l, len);
    var w, u := St(len, idle, at, [], jobAt, r, Taking, l, true), St(len, idle, at, [], jobAt, r, Working(true), l, true);
    hide Flat, Rec;
    assert TakeJob(w.work, u.work, len);
  }

  lemma Returns(len: nat, idle: seq<nat>, at: nat, job: seq<nat>, jobAt: nat, r: Reader, stale: bool, l: nat, run: bool)
    requires len > 0 && |idle| <= 3
    ensures var w := St(len, idle, at, job, jobAt, r, Working(stale), l, run);
            var u := St(len, if |idle| < 3 then idle + [l] else idle, at, job, jobAt, r, Polling, l, run);
            && Next(w, u)
            && (Loses(w.work, u.work, len) <==> |idle| == 3 && !stale) && (Adds(w.work, u.work, len) <==> |idle| < 3 && stale)
  {
    Lengths(len, idle);
    var w := St(len, idle, at, job, jobAt, r, Working(stale), l, run);
    var u := St(len, if |idle| < 3 then idle + [l] else idle, at, job, jobAt, r, Polling, l, run);
    PutWhole(w.work.idle, idle, l, 3, len);
    hide Flat, Rec, FifoStep;
    assert ReturnJob(w.work, u.work);
  }

  // ---- rounds ----

  lemma Begin(len: nat, l: nat) returns (ws: seq<World>)
    requires len > 0
    ensures Run(ws) && |ws| == 1 && ws[0] == St(len, [0, 1, 2], 0, [], 0, Waiting, Polling, l, true)
  {
    var w := St(len, [0, 1, 2], 0, [], 0, Waiting, Polling, l, true);
    Lengths(len, []);
    assert [0, 1, 2] == seq(3, i => i);
    ws := [w];
    assert IsRecord(w.work.local, len);
    hide Flat, Rec;
    assert Init(w);
  }

  /** The reader hands over the first idle record. */
  lemma HandOne(ws: seq<World>, len: nat, idle: seq<nat>, at: nat, job: seq<nat>, jobAt: nat, h: Hasher, l: nat) returns (vs: seq<World>)
    requires len > 0 && 0 < |idle| <= 3 && |job| < 3 && at <= len * 3 + 1
    requires Run(ws) && ws[|ws| - 1] == St(len, idle, at, job, jobAt, Waiting, h, l, true)
    ensures Run(vs) && vs[|vs| - 1] == St(len, idle[1..], On(len, at), job + [idle[0]], jobAt, Waiting, h, l, true)
  {
    Fills(len, idle, at, job, jobAt, h, l);
    HandsOver(len, idle, at, job, jobAt, idle[0], h, l, true);
    ErasesOne(len, idle, at, job + [idle[0]], jobAt, Rec(idle[0], len), h, l, true);
    hide Run, Next, St, Rec, On;
    var rec := Rec(idle[0], len);
    vs := Extend(ws, St(len, idle, at, job, jobAt, Peeking, h, l, true));
    vs := Extend(vs, St(len, idle, at, job, jobAt, Peeked(rec), h, l, true));
    vs := Extend(vs, St(len, idle, at, job, jobAt, Ready(rec), h, l, true));
    vs := Extend(vs, St(len, idle, at, job + [idle[0]], jobAt, Window(rec), h, l, true));
    vs := Extend(vs, St(len, idle[1..], On(len, at), job + [idle[0]], jobAt, Waiting, h, l, true));
  }

  /** The hasher takes the first job. */
  lemma TakeOne(ws: seq<World>, len: nat, idle: seq<nat>, at: nat, job: seq<nat>, jobAt: nat, r: Reader, l: nat) returns (vs: seq<World>)
    requires len > 0 && 0 < |job| <= 3 && jobAt <= len * 3 + 1
    requires Run(ws) && ws[|ws| - 1] == St(len, idle, at, job, jobAt, r, Polling, l, true)
    ensures Run(vs) && vs[|vs| - 1] == St(len, idle, at, job[1..], On(len, jobAt), r, Working(false), job[0], true)
  {
    Looks(len, idle, at, job, jobAt, r, l, true);
    Takes(len, idle, at, job, jobAt, r, l);
    hide Run, Next, St, On;
    vs := Extend(ws, St(len, idle, at, job, jobAt, r, Passed, l, true));
    vs := Extend(vs, St(len, idle, at, job, jobAt, r, Taking, l, true));
    vs := Extend(vs, St(len, idle, at, job[1..], On(len, jobAt), r, Working(false), job[0], true));
  }

  lemma Flips(len: nat, idle: seq<nat>, at: nat, job: seq<nat>, jobAt: nat, r: Reader, h: Hasher, l: nat, run: bool)
    ensures Next(St(len, idle, at, job, jobAt, r, h, l, run), St(len, idle, at, job, jobAt, r, h, l, !run))
  {
    hide Flat, Rec;
  }

  // ---- the runs ----

  /**
   * A record is lost although idle_list was not full at the hand-over: two records idle, none queued, one in the
   * hasher's hand. The hasher returns that one, takes the record just handed over, and returns it to a full idle_list;
   * the reader then erases the other copy. Slot 1 is gone.
   */
  lemma LossRun(len: nat) returns (ws: seq<World>, bad: nat)
    requires len > 0
    ensures Run(ws) && bad + 2 == |ws| - 1 && Loses(ws[bad].work, ws[bad + 1].work, len)
    ensures ws[|ws| - 1] == St(len, [2, 0], On(len, On(len, 0)), [], On(len, On(len, 0)), Waiting, Polling, 1, true)
  {
    var at1, rec := On(len, 0), Rec(1, len);
    var at2 := On(len, at1);
    ws := Begin(len, 9);
    ws := HandOne(ws, len, [0, 1, 2], 0, [], 0, Polling, 9);
    assert [0, 1, 2][1..] == [1, 2] && [] + [0] == [0] && [0][1..] == [] && [1, 2] + [0] == [1, 2, 0] && [1, 2, 0][1..] == [2, 0];
    ws := TakeOne(ws, len, [1, 2], at1, [0], 0, Waiting, 9);
    Fills(len, [1, 2], at1, [], at1, Working(false), 0);
    HandsOver(len, [1, 2], at1, [], at1, 1, Working(false), 0, true);
    Returns(len, [1, 2], at1, [1], at1, Window(rec), false, 0, true);
    Returns(len, [1, 2, 0], at1, [], at2, Window(rec), false, 1, true);
    ErasesOne(len, [1, 2, 0], at1, [], at2, rec, Polling, 1, true);
    assert [] + [1] == [1] && [1][1..] == [];
    hide Run, Next, St, Rec, On, Loses, Adds, Drops;
    ws := Extend(ws, St(len, [1, 2], at1, [], at1, Peeking, Working(false), 0, true));
    ws := Extend(ws, St(len, [1, 2], at1, [], at1, Peeked(rec), Working(false), 0, true));
    ws := Extend(ws, St(len, [1, 2], at1, [], at1, Ready(rec), Working(false), 0, true));
    ws := Extend(ws, St(len, [1, 2], at1, [1], at1, Window(rec), Working(false), 0, true));
    ws := Extend(ws, St(len, [1, 2, 0], at1, [1], at1, Window(rec), Polling, 0, true));
    ws := TakeOne(ws, len, [1, 2, 0], at1, [1], at1, Window(rec), 0);
    bad := |ws| - 1;
    ws := Extend(ws, St(len, [1, 2, 0], at1, [], at2, Window(rec), Polling, 1, true));
    ws := Extend(ws, St(len, [2, 0], at2, [], at2, Waiting, Polling, 1, true));
  }

  /**
   * A record is added: the run flag is set again between the hasher's two looks, the reader hands a record over while
   * the hasher works on the one left in its local variable, and that one is put back once more.
   */
  lemma AddRun(len: nat) returns (ws: seq<World>)
    requires len > 0
    ensures Run(ws) && |ws| > 1 && Adds(ws[|ws| - 2].work, ws[|ws| - 1].work, len)
    ensures ws[|ws| - 1] == St(len, [1, 2, 9], On(len, 0), [0], 0, Waiting, Polling, 9, true)
  {
    ws := Begin(len, 9);
    Flips(len, [0, 1, 2], 0, [], 0, Waiting, Polling, 9, true);
    Looks(len, [0, 1, 2], 0, [], 0, Waiting, 9, false);
    Flips(len, [0, 1, 2], 0, [], 0, Waiting, Passed, 9, false);
    PassesSet(len, [0, 1, 2], 0, [], 0, Waiting, 9);
    TakesNone(len, [0, 1, 2], 0, 0, Waiting, 9);
    Returns(len, [1, 2], On(len, 0), [0], 0, Waiting, true, 9, true);
    assert [0, 1, 2][1..] == [1, 2] && [] + [0] == [0] && [1, 2] + [9] == [1, 2, 9];
    hide Run, Next, St, On, Loses, Adds;
    ws := Extend(ws, St(len, [0, 1, 2], 0, [], 0, Waiting, Polling, 9, false));
    ws := Extend(ws, St(len, [0, 1, 2], 0, [], 0, Waiting, Passed, 9, false));
    ws := Extend(ws, St(len, [0, 1, 2], 0, [], 0, Waiting, Passed, 9, true));
    ws := Extend(ws, St(len, [0, 1, 2], 0, [], 0, Waiting, Taking, 9, true));
    ws := Extend(ws, St(len, [0, 1, 2], 0, [], 0, Waiting, Working(true), 9, true));
    ws := HandOne(ws, len, [0, 1, 2], 0, [], 0, Working(true), 9);
    ws := Extend(ws, St(len, [1, 2, 9], On(len, 0), [0], 0, Waiting, Polling, 9, true));
  }

  lemma PassesSet(len: nat, idle: seq<nat>, at: nat, job: seq<nat>, jobAt: nat, r: Reader, l: nat)
    ensures Next(St(len, idle, at, job, jobAt, r, Passed, l, true), St(len, idle, at, job, jobAt, r, Taking, l, true))
  {
    hide Flat, Rec;
    assert Look(St(len, idle, at, job, jobAt, r, Passed, l, true).work, St(len, idle, at, job, jobAt, r, Taking, l, true).work);
  }

  /** rbuff_move as far as its first put, with all three records in job_list from position 0. */
  lemma MovesThree(len: nat, at: nat, l: nat)
    requires len > 0 && at <= len * 3 + 1
    ensures var m, job := len * 3, [0, 1, 2];
            && Next(St(len, [], at, job, 0, Waiting, Moving(false, Start), l, false),
                    St(len, [], at, job, 0, Waiting, Moving(false, Sized(m)), l, false))
            && Next(St(len, [], at, job, 0, Waiting, Moving(false, Sized(m)), l, false),
                    St(len, [], at, job, 0, Waiting, Moving(false, Spanned(m, m, 0, at)), l, false))
            && Next(St(len, [], at, job, 0, Waiting, Moving(false, Spanned(m, m, 0, at)), l, false),
                    St(len, [], at, job, 0, Waiting, Moving(false, Put1(m, m, 0, m)), l, false))
            && Next(St(len, [], at, job, 0, Waiting, Moving(false, Put1(m, m, 0, m)), l, false),
                    St(len, job, at, job, 0, Waiting, Moving(false, Between(m, m, 0, m, at)), l, false))
  {
    var m, job := len * 3, [0, 1, 2];
    Lengths(len, job);
    Lengths(len, []);
    var a := St(len, [], at, job, 0, Waiting, Moving(false, Start), l, false);
    var b := St(len, [], at, job, 0, Waiting, Moving(false, Sized(m)), l, false);
    var c := St(len, [], at, job, 0, Waiting, Moving(false, Spanned(m, m, 0, at)), l, false);
    var d := St(len, [], at, job, 0, Waiting, Moving(false, Put1(m, m, 0, m)), l, false);
    var e := St(len, job, at, job, 0, Waiting, Moving(false, Between(m, m, 0, m, at)), l, false);
    assert Slice(Flat(job, len), 0, m) == Flat(job, len) && [] + Flat(job, len) == Flat(job, len);
    hide Flat, Rec, SeesNone, Slice;
    assert LookSize(a.work, b.work) && LookSpans(b.work, c.work);
    assert First(c.work, d.work) && Publish1(d.work, e.work);
  }

  /** The three records handed over, and the run flag cleared. */
  lemma AllHandedOver(len: nat) returns (ws: seq<World>, at: nat)
    requires len > 0
    ensures Run(ws) && at <= len * 3 + 1
    ensures ws[|ws| - 1] == St(len, [], at, [0, 1, 2], 0, Waiting, Moving(false, Start), 9, false)
  {
    var at1 := On(len, 0);
    var at2 := On(len, at1);
    at := On(len, at2);
    ws := Begin(len, 9);
    assert [0, 1, 2][1..] == [1, 2] && [1, 2][1..] == [2] && [2][1..] == [];
    assert [] + [0] == [0] && [0] + [1] == [0, 1] && [0, 1] + [2] == [0, 1, 2];
    ws := HandOne(ws, len, [0, 1, 2], 0, [], 0, Polling, 9);
    ws := HandOne(ws, len, [1, 2], at1, [0], 0, Polling, 9);
    ws := HandOne(ws, len, [2], at2, [0, 1], 0, Polling, 9);
    Flips(len, [], at, [0, 1, 2], 0, Waiting, Polling, 9, true);
    Looks(len, [], at, [0, 1, 2], 0, Waiting, 9, false);
    hide Run, Next, St, On;
    ws := Extend(ws, St(len, [], at, [0, 1, 2], 0, Waiting, Polling, 9, false));
    ws := Extend(ws, St(len, [], at, [0, 1, 2], 0, Waiting, Passed, 9, false));
    ws := Extend(ws, St(len, [], at, [0, 1, 2], 0, Waiting, Moving(false, Start), 9, false));
  }

  /**
   * A record is dropped at the hand-over: rbuff_move has put all three records into idle_list and not yet erased them
   * from job_list, which is full when the reader, started again, hands the first over. Slot 0 will be gone.
   */
  lemma DropRun(len: nat) returns (ws: seq<World>, at: nat)
    requires len > 0
    ensures Run(ws) && |ws| > 2 && Drops(ws[|ws| - 3].work, ws[|ws| - 2].work, len)
    ensures var m := len * 3;
            && at <= m + 1
            && ws[|ws| - 1] == St(len, [1, 2], On(len, at), [0, 1, 2], 0, Waiting, Moving(false, Between(m, m, 0, m, at)), 9, true)
  {
    ws, at := AllHandedOver(len);
    var m, job, rec := len * 3, [0, 1, 2], Rec(0, len);
    var h := Moving(false, Between(m, m, 0, m, at));
    MovesThree(len, at, 9);
    Flips(len, job, at, job, 0, Waiting, h, 9, false);
    Fills(len, job, at, job, 0, h, 9);
    HandsOver(len, job, at, job, 0, 0, h, 9, true);
    ErasesOne(len, job, at, job, 0, rec, h, 9, true);
    assert job[1..] == [1, 2];
    hide Run, Next, St, Rec, On, Drops;
    ws := Extend(ws, St(len, [], at, job, 0, Waiting, Moving(false, Sized(m)), 9, false));
    ws := Extend(ws, St(len, [], at, job, 0, Waiting, Moving(false, Spanned(m, m, 0, at)), 9, false));
    ws := Extend(ws, St(len, [], at, job, 0, Waiting, Moving(false, Put1(m, m, 0, m)), 9, false));
    ws := Extend(ws, St(len, job, at, job, 0, Waiting, h, 9, false));
    ws := Extend(ws, St(len, job, at, job, 0, Waiting, h, 9, true));
    ws := Extend(ws, St(len, job, at, job, 0, Peeking, h, 9, true));
    ws := Extend(ws, St(len, job, at, job, 0, Peeked(rec), h, 9, true));
    ws := Extend(ws, St(len, job, at, job, 0, Ready(rec), h, 9, true));
    ws := Extend(ws, St(len, job, at, job, 0, Window(rec), h, 9, true));
    ws := Extend(ws, St(len, [1, 2], On(len, at), job, 0, Waiting, h, 9, true));
  }

  /** One record goes round: handed over, taken, returned. */
  lemma Round(ws: seq<World>, len: nat, a: nat, b: nat, c: nat, at: nat, l: nat) returns (vs: seq<World>)
    requires len > 0 && at <= len * 3 + 1
    requires Run(ws) && ws[|ws| - 1] == St(len, [a, b, c], at, [], at, Waiting, Polling, l, true)
    ensures Run(vs) && vs[|vs| - 1] == St(len, [b, c, a], On(len, at), [], On(len, at), Waiting, Polling, a, true)
  {
    var on := On(len, at);
    assert [a, b, c][1..] == [b, c] && [] + [a] == [a] && [a][1..] == [] && [b, c] + [a] == [b, c, a];
    vs := HandOne(ws, len, [a, b, c], at, [], at, Polling, l);
    vs := TakeOne(vs, len, [b, c], on, [a], at, Waiting, l);
    Returns(len, [b, c], on, [], on, Waiting, false, a, true);
    hide Run, Next, St, On;
    vs := Extend(vs, St(len, [b, c, a], on, [], on, Waiting, Polling, a, true));
  }

  /** rbuff_move of one record of two bytes that lies in the cells 6 and 0 of a ring of seven, to a full idle_list. */
  lemma MovesTorn(rec: seq<Byte>, l: nat)
    ensures var full, h := [0, 1, 2], Moving(false, Spanned(2, 1, 1, 6));
            && Next(St(2, full, 6, [0], 6, Window(rec), Moving(false, Start), l, false),
                    St(2, full, 6, [0], 6, Window(rec), Moving(false, Sized(2)), l, false))
            && Next(St(2, full, 6, [0], 6, Window(rec), Moving(false, Sized(2)), l, false),
                    St(2, full, 6, [0], 6, Window(rec), h, l, false))
            && Next(St(2, full, 6, [0], 6, Window(rec), h, l, false),
                    St(2, full, 6, [0], 6, Window(rec), Moving(false, Put1(2, 1, 1, 0)), l, false))
            && Next(St(2, full, 6, [0], 6, Window(rec), Moving(false, Put1(2, 1, 1, 0)), l, false),
                    St(2, full, 6, [0], 6, Window(rec), Moving(false, Between(2, 1, 1, 0, 6)), l, false))
  {
    Lengths(2, [0]);
    Lengths(2, [0, 1, 2]);
    var w := St(2, [0, 1, 2], 6, [0], 6, Window(rec), Moving(false, Start), l, false);
    var a := St(2, [0, 1, 2], 6, [0], 6, Window(rec), Moving(false, Sized(2)), l, false);
    var b := St(2, [0, 1, 2], 6, [0], 6, Window(rec), Moving(false, Spanned(2, 1, 1, 6)), l, false);
    var c := St(2, [0, 1, 2], 6, [0], 6, Window(rec), Moving(false, Put1(2, 1, 1, 0)), l, false);
    var d := St(2, [0, 1, 2], 6, [0], 6, Window(rec), Moving(false, Between(2, 1, 1, 0, 6)), l, false);
    assert Slice(w.work.job.queue, 0, 0) == [];
    assert w.work.idle.queue + [] == w.work.idle.queue;
    hide Flat, Rec, SeesNone, Slice;
    assert LookSize(w.work, a.work) && LookSpans(a.work, b.work);
    assert First(b.work, c.work) && Publish1(c.work, d.work);
  }

  /** With two records idle the second put takes the one byte of the second span. */
  lemma Tearing(l: nat) returns (t: World, u: World)
    ensures var w := St(2, [1, 2], 1, [0], 6, Waiting, Moving(false, Between(2, 1, 1, 0, 6)), l, false);
            Next(w, t) && Next(t, u) && Tears(t.work, u.work, 2)
    ensures u.work.idle.queue == Flat([1, 2], 2) + [Byte(0, 1)] && u.work.job.queue == Rec(0, 2)
    ensures u.n == 3 && u.len == 2 && u.work.hasher == Moving(false, Done(1)) && u.work.jobAt == 6 && u.work.job.capacity == 6
  {
    Lengths(2, [0]);
    Lengths(2, [1, 2]);
    FlatOne(0, 2);
    var w := St(2, [1, 2], 1, [0], 6, Waiting, Moving(false, Between(2, 1, 1, 0, 6)), l, false);
    t := St(2, [1, 2], 1, [0], 6, Waiting, Moving(false, Put2(2, 1, 1, 0, 1)), l, false);
    u := World(3, 2, t.work.(idle := t.work.idle.(queue := t.work.idle.queue + [Byte(0, 1)]), hasher := Moving(false, Done(1))));
    assert Slice(t.work.job.queue, 1, 2) == [Byte(0, 1)];
    hide Flat, Rec, SeesNone, Slice;
    assert Second(w.work, t.work) && Publish2(t.work, u.work);
  }

  /** The erase takes the other byte of the record. */
  lemma TornApart(u: World) returns (v: World)
    requires u.n == 3 && u.len == 2 && u.work.hasher == Moving(false, Done(1))
    requires u.work.job.queue == Rec(0, 2) && u.work.jobAt == 6 && u.work.job.capacity == 6
    ensures Next(u, v) && v.work.idle == u.work.idle && v.work.job.queue == [Byte(0, 1)]
  {
    v := World(3, 2, u.work.(job := u.work.job.(queue := [Byte(0, 1)]), jobAt := Advance(7, 6, 1), hasher := Polling));
    assert Rec(0, 2)[1..] == [Byte(0, 1)];
    assert Finish(u.work, v.work);
  }

  /** Three rounds, a hand-over not yet erased, and the run flag cleared. */
  lemma Wrapped() returns (ws: seq<World>)
    ensures Run(ws) && ws[|ws| - 1] == St(2, [0, 1, 2], 6, [0], 6, Window(Rec(0, 2)), Moving(false, Start), 2, false)
  {
    var rec, full := Rec(0, 2), [0, 1, 2];
    assert [] + [0] == [0] && On(2, 4) == 6 && On(2, 2) == 4 && On(2, 0) == 2;
    ws := Begin(2, 9);
    ws := Round(ws, 2, 0, 1, 2, 0, 9);
    ws := Round(ws, 2, 1, 2, 0, 2, 0);
    ws := Round(ws, 2, 2, 0, 1, 4, 1);
    Fills(2, full, 6, [], 6, Polling, 2);
    HandsOver(2, full, 6, [], 6, 0, Polling, 2, true);
    Flips(2, full, 6, [0], 6, Window(rec), Polling, 2, true);
    Looks(2, full, 6, [0], 6, Window(rec), 2, false);
    hide Run, Next, St, Rec, On;
    ws := Extend(ws, St(2, full, 6, [], 6, Peeking, Polling, 2, true));
    ws := Extend(ws, St(2, full, 6, [], 6, Peeked(rec), Polling, 2, true));
    ws := Extend(ws, St(2, full, 6, [], 6, Ready(rec), Polling, 2, true));
    ws := Extend(ws, St(2, full, 6, [0], 6, Window(rec), Polling, 2, true));
    ws := Extend(ws, St(2, full, 6, [0], 6, Window(rec), Polling, 2, false));
    ws := Extend(ws, St(2, full, 6, [0], 6, Window(rec), Passed, 2, false));
    ws := Extend(ws, St(2, full, 6, [0], 6, Window(rec), Moving(false, Start), 2, false));
  }

  /** The first put left out, and then the reader's erase. */
  lemma CutAndErased() returns (ws: seq<World>)
    ensures Run(ws) && ws[|ws| - 1] == St(2, [1, 2], 1, [0], 6, Waiting, Moving(false, Between(2, 1, 1, 0, 6)), 2, false)
  {
    var rec, full, h := Rec(0, 2), [0, 1, 2], Moving(false, Between(2, 1, 1, 0, 6));
    ws := Wrapped();
    MovesTorn(rec, 2);
    ErasesOne(2, full, 6, [0], 6, rec, h, 2, false);
    assert full[1..] == [1, 2] && On(2, 6) == 1;
    hide Run, Next, St, Rec, On;
    ws := Extend(ws, St(2, full, 6, [0], 6, Window(rec), Moving(false, Sized(2)), 2, false));
    ws := Extend(ws, St(2, full, 6, [0], 6, Window(rec), Moving(false, Spanned(2, 1, 1, 6)), 2, false));
    ws := Extend(ws, St(2, full, 6, [0], 6, Window(rec), Moving(false, Put1(2, 1, 1, 0)), 2, false));
    ws := Extend(ws, St(2, full, 6, [0], 6, Window(rec), h, 2, false));
    ws := Extend(ws, St(2, [1, 2], 1, [0], 6, Waiting, h, 2, false));
  }

  /**
   * A record of two bytes is torn: after three rounds the next job lies in the cells 6 and 0 of job_list. The reader has
   * put it and not yet erased it from idle_list, which is full, when the hasher, stopped, begins its rbuff_move: the
   * first span is left out. The reader erases, and the second span is copied. One byte of slot 0 ends in each ring.
   */
  lemma TornRun() returns (ws: seq<World>, bad: nat)
    ensures Run(ws) && bad + 2 == |ws| - 1 && Tears(ws[bad].work, ws[bad + 1].work, 2)
    ensures ws[|ws| - 1].work.idle.queue == Flat([1, 2], 2) + [Byte(0, 1)] && ws[|ws| - 1].work.job.queue == [Byte(0, 1)]
  {
    ws := CutAndErased();
    var t, u := Tearing(2);
    var v := TornApart(u);
    hide Run, Next, St, Rec, On, Tears, Flat;
    bad := |ws|;
    ws := Extend(ws, t);
    ws := Extend(ws, u);
    ws := Extend(ws, v);
  }
}
