/** pool_api.go: which coin the miner works on, and which pushed blocks interrupt it. */
module CoinSwitch {
  import opened Options

  /** MiningInfo: one coin's current block. */
  datatype Info = Info(height: int, signature: string, baseTarget: int, targetDeadline: int, processingTime: int)

  const NO_INFO := Info(0, "", 0, 0, 0)

  /** The configuration; `miner` says whether a built-in miner exists. */
  datatype Conf = Conf(coins: seq<string>, embedded: bool, miner: bool, rescanRate: int)

  /** The fields a new block resets. */
  datatype Progress = Progress(speed: int, scannedBytes: int, percent: int, bestNonce: string, bestDL: int, scanMsec: int)

  const NO_PROGRESS := Progress(0, 0, 0, "", 0, 0)

  /** MinerParaStatus, with the OpenScan switch and the blocks the built-in miner was started on. */
  datatype Status = Status(coin: string, current: Info, infos: map<string, Info>, progress: Progress,
                           working: int, openScan: bool, launched: seq<(string, Info)>)

  /** A coin's rank: its last place in the list, or the list's length. */
  function Rank(coins: seq<string>, c: string): (r: nat)
    ensures r <= |coins| && (c in coins <==> r < |coins|)
    ensures r < |coins| ==> coins[r] == c
    ensures forall i | r < i < |coins| :: coins[i] != c
  {
    if coins == [] then 0
    else
      var last := |coins| - 1;
      if coins[last] == c then last
      else
        var r := Rank(coins[..last], c);
        if r == last then |coins| else r
  }

  /** The rank after i turns of the loop over the coins. */
  function RankSoFar(coins: seq<string>, i: nat, c: string): nat
    requires i <= |coins|
  {
    if Rank(coins[..i], c) < i then Rank(coins[..i], c) else |coins|
  }

  lemma RankNone(coins: seq<string>, c: string)
    ensures RankSoFar(coins, 0, c) == |coins|
  {
  }

  lemma RankNext(coins: seq<string>, i: nat, c: string)
    requires i < |coins|
    ensures RankSoFar(coins, i + 1, c) == if coins[i] == c then i else RankSoFar(coins, i, c)
  {
    assert coins[..i + 1][..i] == coins[..i];
  }

  lemma RankAll(coins: seq<string>, c: string)
    ensures RankSoFar(coins, |coins|, c) == Rank(coins, c)
  {
    assert coins[..|coins|] == coins;
  }

  /** A message without a coin means BHD. */
  function CoinOf(mark: string): string {
    if mark == "" then "BHD" else mark
  }

  /** Which pushed blocks are taken up: `busy` is what the scanning check says on entry. */
  predicate Accepts(conf: Conf, st: Status, mark: string, info: Info, busy: bool) {
    var c := CoinOf(mark);
    && c in conf.coins && c in st.infos
    && (!busy || Rank(conf.coins, c) <= Rank(conf.coins, st.coin))
    && (st.infos[c].height < info.height
        || (st.infos[c].height == info.height && st.infos[c].signature != info.signature))
  }

  /** Whether the interrupted block counts as not scanned; `busy` is what the second scanning check says. */
  predicate MarksUnscanned(conf: Conf, st: Status, busy: bool) {
    busy && (conf.embedded ==> st.progress.percent < conf.rescanRate)
  }

  function Lowered(info: Info): Info {
    info.(height := info.height - 1)
  }

  /** The state after a block has been pushed. */
  function Pushed(conf: Conf, st: Status, mark: string, info: Info, busy1: bool, busy2: bool): Status
    requires st.coin in st.infos
  {
    if !Accepts(conf, st, mark, info, busy1) then st
    else
      var c := CoinOf(mark);
      var table := if MarksUnscanned(conf, st, busy2) then st.infos[st.coin := Lowered(st.infos[st.coin])] else st.infos;
      Status(c, info, table[c := info], NO_PROGRESS, if conf.embedded then 2 else -2, conf.embedded || st.openScan,
             if conf.embedded && conf.miner && st.openScan then st.launched + [(c, info)] else st.launched)
  }

  /** g_miner_status and the handlers that change it. */
  class Miner {
    const conf: Conf
    var miningCoin: string
    var miningInfo: Info
    var miningInfos: map<string, Info>
    var progress: Progress
    var workingStatus: int
    var openScan: bool
    var launched: seq<(string, Info)>

    ghost predicate Valid()
      reads this
    {
      && conf.coins != [] && miningCoin in conf.coins
      && forall c | c in conf.coins :: c in miningInfos
    }

    ghost function View(): Status
      reads this
    {
      Status(miningCoin, miningInfo, miningInfos, progress, workingStatus, openScan, launched)
    }

    /** As main leaves it: the first coin, and a zero block for every coin. */
    constructor (conf: Conf, openScan: bool)
      requires conf.coins != []
      ensures Valid() && this.conf == conf && View() == Initial(conf, openScan)
    {
      this.conf, this.openScan := conf, openScan;
      miningCoin, miningInfo, progress, workingStatus, launched := conf.coins[0], NO_INFO, NO_PROGRESS, 0, [];
      miningInfos := map c | c in conf.coins :: NO_INFO;
    }

    /** GetNewMiningInfo: start on a block. */
    method GetNewMiningInfo(newCoin: string, minfo: Info)
      requires Valid() && newCoin in conf.coins
      modifies this
      ensures Valid() && miningCoin == newCoin && miningInfo == minfo && progress == NO_PROGRESS
      ensures miningInfos == old(miningInfos)[newCoin := minfo]
      ensures workingStatus == if conf.embedded then 2 else -2
      ensures openScan == (conf.embedded || old(openScan))
      ensures launched == if conf.embedded && conf.miner && old(openScan) then old(launched) + [(newCoin, minfo)] else old(launched)
    {
      miningInfo, progress := minfo, NO_PROGRESS;
      miningCoin := newCoin;
      miningInfos := miningInfos[newCoin := minfo];
      workingStatus := -2;
      if conf.embedded {
        workingStatus := 2;
        if conf.miner && openScan {
          launched := launched + [(newCoin, minfo)];
        }
        openScan := true;
      }
    }

    /** CoinPriorityIntr: -1 when the old coin ranks before the new one, 1 when behind it, 0 when they rank alike. */
    method CoinPriorityIntr(coinOld: string, coinNew: string) returns (r: int)
      ensures r == if Rank(conf.coins, coinOld) < Rank(conf.coins, coinNew) then -1
                   else if Rank(conf.coins, coinOld) > Rank(conf.coins, coinNew) then 1 else 0
    {
      hide Rank, RankSoFar;
      RankNone(conf.coins, coinOld);
      RankNone(conf.coins, coinNew);
      var pOldPrio, pNewPrio := |conf.coins|, |conf.coins|;
      for i := 0 to |conf.coins|
        invariant pOldPrio == RankSoFar(conf.coins, i, coinOld) && pNewPrio == RankSoFar(conf.coins, i, coinNew)
      {
        var c := conf.coins[i];
        RankNext(conf.coins, i, coinOld);
        RankNext(conf.coins, i, coinNew);
        if c == coinOld {
          pOldPrio := i;
        }
        if c == coinNew {
          pNewPrio := i;
        }
      }
      RankAll(conf.coins, coinOld);
      RankAll(conf.coins, coinNew);
      if pOldPrio < pNewPrio {
        return -1;
      }
      if pOldPrio > pNewPrio {
        return 1;
      }
      return 0;
    }

    /** poolapi_NewMiningInfo; a message that does not parse is None, and each scanning check is a parameter. */
    method NewMiningInfo(mark: string, para: Option<Info>, busy1: bool, busy2: bool)
      requires Valid()
      modifies this
      ensures Valid()
      ensures View() == if para.None? then old(View()) else Pushed(conf, old(View()), mark, para.value, busy1, busy2)
    {
      hide Rank;
      if para.None? {
        return;
      }
      ghost var st := View();
      var minfo, newCoin := para.value, mark;
      if newCoin == "" {
        newCoin := "BHD";
      }
      if newCoin !in conf.coins {
        return;
      }
      var intr := CoinPriorityIntr(miningCoin, newCoin);
      assert intr >= 0 <==> Rank(conf.coins, newCoin) <= Rank(conf.coins, st.coin);
      if !busy1 || intr >= 0 {
        var m := miningInfos[newCoin];
        if m.height < minfo.height || (m.height == minfo.height && m.signature != minfo.signature) {
          if busy2 {
            var mold := miningInfos[miningCoin];
            if conf.embedded {
              if progress.percent < conf.rescanRate {
                miningInfos := miningInfos[miningCoin := Lowered(mold)];
              }
            } else {
              miningInfos := miningInfos[miningCoin := Lowered(mold)];
            }
          }
          assert Accepts(conf, st, mark, minfo, busy1);
          GetNewMiningInfo(newCoin, minfo);
        }
      }
    }
  }

  function Initial(conf: Conf, openScan: bool): Status
    requires conf.coins != []
  {
    Status(conf.coins[0], NO_INFO, map c | c in conf.coins :: NO_INFO, NO_PROGRESS, 0, openScan, [])
  }

  // ---- runs ----

  /** A pushed block with what the two scanning checks said, or a change of the scan's progress. */
  datatype Event = Push(mark: string, info: Info, busy1: bool, busy2: bool) | Advance(progress: Progress)

  function Step(conf: Conf, st: Status, e: Event): (r: Status)
    requires st.coin in st.infos
    ensures r.coin in r.infos
  {
    match e
    case Push(mark, info, busy1, busy2) => Pushed(conf, st, mark, info, busy1, busy2)
    case Advance(progress) => st.(progress := progress)
  }

  predicate Takes(conf: Conf, st: Status, e: Event) {
    e.Push? && Accepts(conf, st, e.mark, e.info, e.busy1)
  }

  /** What happened so far: blocks taken up, each coin's last one's height, and coins interrupted since. */
  datatype History = History(accepted: seq<(string, Info)>, last: map<string, int>, cut: set<string>)

  function Record(conf: Conf, st: Status, h: History, e: Event): History {
    if !Takes(conf, st, e) then h
    else
      var c := CoinOf(e.mark);
      History(h.accepted + [(c, e.info)], h.last[c := e.info.height],
              (if MarksUnscanned(conf, st, e.busy2) then h.cut + {st.coin} else h.cut) - {c})
  }

  function Before(conf: Conf): History {
    History([], map c | c in conf.coins :: 0, {})
  }

  /** State and history after the first events of a run. */
  function After(conf: Conf, openScan: bool, es: seq<Event>): (r: (Status, History))
    requires conf.coins != []
    ensures r.0.coin in r.0.infos
  {
    if es == [] then (Initial(conf, openScan), Before(conf))
    else
      var n := |es| - 1;
      var (st, h) := After(conf, openScan, es[..n]);
      var e := es[n];
      (Step(conf, st, e), Record(conf, st, h, e))
  }

  /**
   * The active coin's entry is the current block; every coin's stored height is that of the last block taken up for
   * it, or one less while it is marked as interrupted, which the active coin never is; the built-in miner was
   * started on every block taken up, but for the first when scanning was switched off at the start.
   */
  ghost predicate Inv(conf: Conf, openScan: bool, st: Status, h: History, steps: nat) {
    && st.coin in conf.coins && st.coin in st.infos
    && (forall c :: c in conf.coins <==> c in st.infos)
    && (forall c | c in st.infos :: c in h.last)
    && st.infos[st.coin] == st.current
    && st.coin !in h.cut
    && (forall c | c in st.infos :: st.infos[c].height == h.last[c] - (if c in h.cut then 1 else 0))
    && (forall c | c in st.infos :: st.infos[c].height + steps >= 0)
    && st.openScan == (openScan || (conf.embedded && h.accepted != []))
    && st.launched == if !(conf.embedded && conf.miner) then []
                      else if openScan || h.accepted == [] then h.accepted else h.accepted[1..]
  }

  lemma StepOk(conf: Conf, openScan: bool, st: Status, h: History, steps: nat, e: Event)
    requires Inv(conf, openScan, st, h, steps)
    ensures Inv(conf, openScan, Step(conf, st, e), Record(conf, st, h, e), steps + 1)
  {
    if Takes(conf, st, e) {
      var r := Step(conf, st, e);
      var c := CoinOf(e.mark);
      assert h.accepted != [] ==> (h.accepted + [(c, e.info)])[1..] == h.accepted[1..] + [(c, e.info)];
      assert forall d | d in r.infos :: d == c || d == st.coin || r.infos[d] == st.infos[d];
    }
  }

  /** The invariant holds over every run of pushed blocks and progress reports. */
  lemma {:induction false} EveryRun(conf: Conf, openScan: bool, es: seq<Event>)
    requires conf.coins != []
    ensures var (st, h) := After(conf, openScan, es); Inv(conf, openScan, st, h, |es|)
  {
    if es == [] {
    } else {
      var before, e := es[..|es| - 1], es[|es| - 1];
      EveryRun(conf, openScan, before);
      StepOk(conf, openScan, After(conf, openScan, before).0, After(conf, openScan, before).1, |before|, e);
    }
  }

  /** In every run a block taken up is at most one lower than the last one of its coin, and lower only after a mark. */
  lemma NeverFarBack(conf: Conf, openScan: bool, es: seq<Event>, e: Event)
    requires conf.coins != [] && Takes(conf, After(conf, openScan, es).0, e)
    ensures var h := After(conf, openScan, es).1;
            var c := CoinOf(e.mark);
            && c in h.last && e.info.height >= h.last[c] - 1
            && (e.info.height < h.last[c] ==> c in h.cut)
  {
    EveryRun(conf, openScan, es);
  }

  /**
   * The coin changes only to one that ranks strictly before the active one while the entry check says scanning, and
   * the state changes exactly when the block is higher, or as high with another signature, for a configured coin.
   */
  lemma SwitchesUpwards(conf: Conf, openScan: bool, es: seq<Event>, e: Event)
    requires conf.coins != [] && e.Push?
    ensures var st := After(conf, openScan, es).0;
            var r := Step(conf, st, e);
            && (r.coin != st.coin && e.busy1 ==> Rank(conf.coins, r.coin) < Rank(conf.coins, st.coin))
            && (r.coin != st.coin ==> r.coin == CoinOf(e.mark) && r.coin in conf.coins)
            && (Takes(conf, st, e) <==> r.infos != st.infos)
  {
    hide Rank, After;
    EveryRun(conf, openScan, es);
    var st := After(conf, openScan, es).0;
    var c := CoinOf(e.mark);
    if Takes(conf, st, e) {
      assert Step(conf, st, e).infos[c] == e.info != st.infos[c];
    }
  }

  /** In every run the active coin's next block, or another block of the same height, is taken, scanning or not. */
  lemma NextBlockTaken(conf: Conf, openScan: bool, es: seq<Event>, e: Event)
    requires conf.coins != [] && e.Push? && CoinOf(e.mark) == After(conf, openScan, es).0.coin
    ensures var st := After(conf, openScan, es).0;
            var r := Step(conf, st, e);
            var next := e.info.height > st.current.height ||
                        (e.info.height == st.current.height && e.info.signature != st.current.signature);
            && (next ==> r.coin == st.coin && r.current == e.info && r.progress == NO_PROGRESS)
            && (!next ==> r == st)
  {
    hide Rank, After;
    EveryRun(conf, openScan, es);
  }

  /**
   * In every run a block higher than the last one taken for its coin is taken when the entry check says not scanning,
   * or the coin ranks no worse than the active one; and none is taken otherwise for a coin that ranks worse.
   */
  lemma HigherBlockTaken(conf: Conf, openScan: bool, es: seq<Event>, e: Event)
    requires conf.coins != [] && e.Push? && CoinOf(e.mark) in conf.coins
    ensures var (st, h) := After(conf, openScan, es);
            var c, r := CoinOf(e.mark), Step(conf, st, e);
            var better := Rank(conf.coins, c) <= Rank(conf.coins, st.coin);
            && c in h.last
            && (e.info.height > h.last[c] && (!e.busy1 || better) ==> r.coin == c && r.current == e.info)
            && (e.busy1 && !better ==> r == st)
  {
    hide Rank, After;
    EveryRun(conf, openScan, es);
  }

  /**
   * When another coin's block is taken, the old coin's stored block is one lower if the second check says scanning and
   * either the miner is not the built-in one or less than the configured share is scanned; else it stays.
   */
  lemma InterruptionMarks(conf: Conf, openScan: bool, es: seq<Event>, e: Event)
    requires conf.coins != [] && e.Push? && Step(conf, After(conf, openScan, es).0, e).coin != After(conf, openScan, es).0.coin
    ensures var st := After(conf, openScan, es).0;
            var r := Step(conf, st, e);
            st.coin in r.infos && r.infos[st.coin] ==
              if e.busy2 && (!conf.embedded || st.progress.percent < conf.rescanRate)
              then st.current.(height := st.current.height - 1)
              else st.current
  {
    hide Rank, After;
    EveryRun(conf, openScan, es);
  }

  /** A block without a coin is handled as one of BHD. */
  lemma NoCoinMeansBHD(conf: Conf, st: Status, info: Info, busy1: bool, busy2: bool)
    requires st.coin in st.infos
    ensures Step(conf, st, Push("", info, busy1, busy2)) == Step(conf, st, Push("BHD", info, busy1, busy2))
    ensures "BHD" !in conf.coins ==> Step(conf, st, Push("", info, busy1, busy2)) == st
  {
  }

  /** Pushing exactly the block stored for a coin changes nothing, whatever the checks say. */
  lemma StoredAgain(conf: Conf, openScan: bool, es: seq<Event>, e: Event)
    requires conf.coins != [] && e.Push?
    requires var st := After(conf, openScan, es).0;
             CoinOf(e.mark) in conf.coins ==> CoinOf(e.mark) in st.infos && e.info == st.infos[CoinOf(e.mark)]
    ensures var st := After(conf, openScan, es).0; Step(conf, st, e) == st
  {
  }

  /** Events that take up no block of coin a. */
  ghost predicate Spares(conf: Conf, st: Status, es: seq<Event>, a: string)
    requires st.coin in st.infos
    decreases |es|
  {
    es == [] || (!(Takes(conf, st, es[0]) && CoinOf(es[0].mark) == a) && Spares(conf, Step(conf, st, es[0]), es[1..], a))
  }

  function Steps(conf: Conf, st: Status, es: seq<Event>): (r: Status)
    requires st.coin in st.infos
    ensures r.coin in r.infos
    decreases |es|
  {
    if es == [] then st else Steps(conf, Step(conf, st, es[0]), es[1..])
  }

  /** An inactive coin's entry stays as it is until a block of that coin is taken up. */
  lemma {:induction false} EntryKept(conf: Conf, st: Status, es: seq<Event>, a: string)
    requires st.coin in st.infos && a in st.infos && st.coin != a && Spares(conf, st, es, a)
    ensures var r := Steps(conf, st, es); a in r.infos && r.infos[a] == st.infos[a] && r.coin != a
    decreases |es|
  {
    if es == [] {
    } else {
      EntryKept(conf, Step(conf, st, es[0]), es[1..], a);
    }
  }

  /**
   * Rescanning: coin a works on a block and is interrupted by another coin's; then, however many other events follow
   * before a block of coin a is taken up, the same block of a is taken up again, when the entry check lets it, if and
   * only if the interruption marked it as not scanned.
   */
  lemma InterruptedBlockReturns(conf: Conf, st: Status, cut: Event, es: seq<Event>, again: Event)
    requires st.coin in st.infos && st.coin in conf.coins && st.infos[st.coin] == st.current
    requires Takes(conf, st, cut) && CoinOf(cut.mark) != st.coin
    requires Spares(conf, Step(conf, st, cut), es, st.coin)
    requires again.Push? && CoinOf(again.mark) == st.coin && again.info == st.current
    requires var r := Steps(conf, Step(conf, st, cut), es);
             !again.busy1 || Rank(conf.coins, st.coin) <= Rank(conf.coins, r.coin)
    ensures var r := Steps(conf, Step(conf, st, cut), es);
            && (Takes(conf, r, again) <==> MarksUnscanned(conf, st, cut.busy2))
            && (Takes(conf, r, again) ==> Step(conf, r, again).coin == st.coin && Step(conf, r, again).current == st.current)
  {
    EntryKept(conf, Step(conf, st, cut), es, st.coin);
  }
}
