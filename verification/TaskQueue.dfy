/** taskq_t: a ring used as a queue of records of one fixed length. */
module TaskQueue {
  import opened Arith
  import opened Options
  import opened Ring
  import opened RingBuffer

  function Flatten<T>(recs: seq<seq<T>>): seq<T> {
    if recs == [] then [] else recs[0] + Flatten(recs[1..])
  }

  ghost predicate AllOfLength<T>(recs: seq<seq<T>>, len: nat) {
    forall i | 0 <= i < |recs| :: |recs[i]| == len
  }

  lemma {:induction false} FlattenLength<T>(recs: seq<seq<T>>, len: nat)
    requires AllOfLength(recs, len)
    ensures |Flatten(recs)| == len * |recs|
  {
    if recs == [] {
    } else {
      FlattenLength(recs[1..], len);
      assert len * |recs| == len + len * (|recs| - 1);
    }
  }

  lemma {:induction false} FlattenAppend<T>(recs: seq<seq<T>>, r: seq<T>)
    ensures Flatten(recs + [r]) == Flatten(recs) + r
  {
    if recs == [] {
      assert recs + [r] == [r] && Flatten([r]) == r + Flatten([]);
    } else {
      assert (recs + [r])[1..] == recs[1..] + [r] && (recs + [r])[0] == recs[0];
      FlattenAppend(recs[1..], r);
    }
  }

  class TaskQ<T(0)> {
    const rb: RBuff<T>
    const maxtasks: nat
    const tasklen: nat
    ghost var tasks: seq<seq<T>>

    ghost predicate Valid()
      reads this, rb, rb.cells
    {
      && maxtasks > 0 && tasklen > 0 && rb.Valid() && rb.cells.Length == tasklen * maxtasks + 1
      && AllOfLength(tasks, tasklen) && |tasks| <= maxtasks
      && rb.Content() == Flatten(tasks)
    }

    /** taskq_init. */
    constructor (maxtasks: nat, tasklen: nat)
      requires maxtasks > 0 && tasklen > 0
      ensures Valid() && fresh(rb) && fresh(rb.cells)
      ensures tasks == [] && this.maxtasks == maxtasks && this.tasklen == tasklen
    {
      assert tasklen * maxtasks > 0;
      rb := new RBuff<T>(tasklen * maxtasks);
      this.maxtasks, this.tasklen, this.tasks := maxtasks, tasklen, [];
    }

    /** The free bytes are those of the missing records. */
    lemma FreeBytes()
      requires Valid()
      ensures rb.Value().Free() == tasklen * maxtasks - tasklen * |tasks|
      ensures |rb.Content()| == tasklen * |tasks|
      ensures rb.Value().Free() < tasklen <==> |tasks| == maxtasks
    {
      CountsAddUp(rb.cells.Length, rb.rp, rb.wp);
      FlattenLength(tasks, tasklen);
      MulGap(tasklen, |tasks|, maxtasks);
    }

    /** taskq_push: a shorter task is filled up with whatever the cells hold, a longer one is cut. */
    method Push(task: seq<T>, tlen0: nat) returns (ret: int)
      requires Valid() && 0 < tlen0 <= |task|
      modifies this, rb, rb.cells
      ensures Valid()
      ensures ret == if |old(tasks)| < maxtasks then 0 else -1
      ensures ret == -1 ==> tasks == old(tasks)
      ensures ret == 0 ==>
                && |tasks| == |old(tasks)| + 1 && tasks[..|old(tasks)|] == old(tasks)
                && task[..Min(tlen0, tasklen)] <= tasks[|old(tasks)|]
    {
      hide State.Content, State.Put, State.Skip, State.Drop, Flatten;
      FreeBytes();
      if FreeCount(rb.cells.Length, rb.rp, rb.wp) < tasklen {
        return -1;
      }
      var tlen := if tlen0 > tasklen then tasklen else tlen0;
      ghost var s0 := rb.Value();
      PutAppends(s0, task[..tlen]);
      assert task[..tlen][..tlen] == task[..tlen];
      var _ := rb.Put(Some(task), tlen);
      ghost var s1, r := rb.Value(), task[..tlen];
      if tlen < tasklen {
        SkipExposes(s1, tasklen - tlen);
        var _ := rb.Put(None, tasklen - tlen);
        r := rb.Content()[|s0.Content()|..];
        assert s1.Content() <= rb.Content() && s0.Content() <= rb.Content();
        assert task[..tlen] == s1.Content()[|s0.Content()|..] <= r;
      }
      assert rb.Content() == s0.Content() + r && |r| == tasklen;
      FlattenAppend(tasks, r);
      tasks := tasks + [r];
      ret := 0;
    }

    /** taskq_pop: the oldest task, whole, or -1. */
    method Pop() returns (ret: int, task: seq<T>)
      requires Valid()
      modifies this, rb
      ensures Valid()
      ensures old(tasks) == [] ==> ret == -1 && task == [] && tasks == []
      ensures old(tasks) != [] ==> ret == 0 && task == old(tasks)[0] && tasks == old(tasks)[1..]
    {
      hide State.Content, State.Put, State.Skip, State.Drop;
      FreeBytes();
      MulGap(tasklen, 0, |tasks|);
      ghost var s0 := rb.Value();
      DropRemoves(s0, tasklen);
      task := rb.Get(tasklen, false);
      if |task| > 0 {
        assert |task| == tasklen;
        assert s0.Content() == tasks[0] + Flatten(tasks[1..]);
        tasks := tasks[1..];
        ret := 0;
      } else {
        assert s0.Content()[0..] == s0.Content();
        ret := -1;
      }
    }
  }
}
