/** th_read: filling the cache from a plot file, in either order of the two reads, and merging mirrored halves. */
module PlotRead {
  import opened Words
  import opened PlotScan

  /**
   * An open plot file: what it holds, where the next read begins, every position read so far, in order, and how many
   * seeks and reads have failed.
   */
  class Handle {
    const file: seq<byte>
    var pos: nat
    ghost var read: seq<nat>
    ghost var faults: nat

    constructor (file: seq<byte>)
      ensures this.file == file && read == [] && faults == 0
    {
      this.file, pos, read, faults := file, 0, [], 0;
    }

    /** SetFilePointerEx, which may fail. */
    method Seek(at: nat) returns (ok: bool)
      modifies this`pos, this`faults
      ensures ok ==> pos == at
      ensures faults == old(faults) + if ok then 0 else 1
    {
      ok := false;
      if * {
        ok, pos := true, at;
      } else {
        faults := faults + 1;
      }
    }

    /**
     * ReadFile: on success some positive multiple of 64 bytes, no more than asked for, copied from the file; `b` is
     * how many. It may also fail.
     */
    method ReadFile(dst: array<byte>, at: nat, want: nat) returns (ok: bool, b: nat)
      requires 0 < want && want % 64 == 0 && pos + want <= |file| && at + want <= dst.Length
      modifies this, dst
      ensures if ok then 0 < b <= want && b % 64 == 0 else b == 0
      ensures faults == old(faults) + if ok then 0 else 1
      ensures pos == old(pos) + b && read == old(read) + Range(old(pos), b)
      ensures forall k | 0 <= k < dst.Length ::
                dst[k] == if at <= k < at + b then file[old(pos) + k - at] else old(dst[k])
    {
      ok, b := false, 0;
      if * {
        var entries: nat :| 0 < entries <= want / 64;
        ok, b := true, 64 * entries;
        forall k | 0 <= k < b { dst[at + k] := file[pos + k]; }
      } else {
        faults := faults + 1;
      }
      read := read + Range(pos, b);
      pos := pos + b;
    }
  }

  /** The labels of th_read. */
  datatype Label = Poc1Read | Poc2Read | ReadEnd

  /** What entry t of a chunk should be: the scoop as stored, or its first half with the mirror scoop's second half. */
  function Wanted(file: seq<byte>, start: nat, mirrorStart: nat, merge: bool, t: nat): (e: seq<byte>)
    requires start + 64 * t + 64 <= |file| && (merge ==> mirrorStart + 64 * t + 64 <= |file|)
    ensures |e| == 64
  {
    if merge
    then file[start + 64 * t..start + 64 * t + 32] + file[mirrorStart + 64 * t + 32..mirrorStart + 64 * t + 64]
    else file[start + 64 * t..start + 64 * t + 64]
  }

  /** The first `count` entries of a buffer are the file's bytes from pos on. */
  ghost predicate Filled(b: seq<byte>, file: seq<byte>, pos: nat, count: nat) {
    && 64 * count <= |b| && pos + 64 * count <= |file|
    && forall k | 0 <= k < 64 * count :: b[k] == file[pos + k]
  }

  lemma FilledEntry(b: seq<byte>, file: seq<byte>, pos: nat, count: nat, t: nat)
    requires Filled(b, file, pos, count) && t < count
    ensures Entry(b, t) == file[pos + 64 * t..pos + 64 * t + 64]
  {
  }

  /** One do-while loop of th_read: `count` entries from the file position on, at most readChunk entries a call. */
  method ReadRegion(h: Handle, count: nat, dst: array<byte>, readChunk: nat) returns (bytes: nat, ok: bool)
    requires 0 < count && 0 < readChunk && h.pos + 64 * count <= |h.file| && 64 * count <= dst.Length
    modifies h, dst
    ensures bytes <= 64 * count && bytes % 64 == 0 && (ok <==> bytes == 64 * count)
    ensures h.faults == old(h.faults) + if ok then 0 else 1
    ensures h.read == old(h.read) + Range(old(h.pos), bytes)
    ensures ok ==> Filled(dst[..], h.file, old(h.pos), count)
    ensures forall k | 64 * count <= k < dst.Length :: dst[k] == old(dst[k])
  {
    bytes := 0;
    ok := true;
    var more := true;
    ghost var pos := h.pos;
    assert Range(pos, 0) == [];
    while more
      invariant bytes <= 64 * count && bytes % 64 == 0 && h.pos == pos + bytes
      invariant h.read == old(h.read) + Range(pos, bytes)
      invariant more ==> ok && bytes < 64 * count
      invariant h.faults == old(h.faults) + if ok then 0 else 1
      invariant !more ==> (ok <==> bytes == 64 * count)
      invariant forall k | 0 <= k < dst.Length :: dst[k] == if k < bytes then h.file[pos + k] else old(dst[k])
      decreases more, 64 * count - bytes
    {
      var left := count - bytes / 64;
      var want := (if readChunk < left then readChunk else left) * 64;
      var b;
      ok, b := h.ReadFile(dst, bytes, want);
      assert Range(pos, bytes) + Range(pos + bytes, b) == Range(pos, bytes + b);
      bytes := bytes + b;
      more := ok && bytes < 64 * count;
    }
  }

  /** The merge at the end of th_read: every entry's second half is replaced by the mirror cache's. */
  method Merge(cache: array<byte>, mirror: array<byte>, bytes: nat)
    requires cache != mirror && bytes <= cache.Length && bytes <= mirror.Length && bytes % 64 == 0
    modifies cache
    ensures forall k | 0 <= k < cache.Length :: cache[k] == if k < bytes && k % 64 >= 32 then mirror[k] else old(cache[k])
  {
    var t := 0;
    while t < bytes
      invariant 0 <= t <= bytes && t % 64 == 0
      invariant forall k | 0 <= k < cache.Length ::
                  cache[k] == if k < t && k % 64 >= 32 then mirror[k] else old(cache[k])
    {
      forall k | 0 <= k < 32 { cache[t + 32 + k] := mirror[t + 32 + k]; }
      t := t + 64;
    }
  }

  lemma MergedEntry(c: seq<byte>, before: seq<byte>, m: seq<byte>, bytes: nat, t: nat)
    requires |c| == |before| && bytes <= |c| && bytes <= |m| && 64 * t + 64 <= bytes
    requires forall k | 0 <= k < |c| :: c[k] == if k < bytes && k % 64 >= 32 then m[k] else before[k]
    ensures Entry(c, t) == Entry(before, t)[..32] + Entry(m, t)[32..]
  {
  }

  /** The end of th_read, after both regions have been read without failing. */
  method MergeIfNeeded(cache: array<byte>, mirror: array<byte>, merge: bool, bytes: nat,
                       ghost file: seq<byte>, ghost at1: nat, ghost at2: nat, ghost count: nat, ghost failed: bool)
    requires cache != mirror && (merge ==> bytes <= cache.Length && bytes <= mirror.Length) && bytes % 64 == 0
    requires !failed ==> bytes == 64 * count && Filled(cache[..], file, at1, count)
    requires !failed && merge ==> Filled(mirror[..], file, at2, count)
    modifies cache
    ensures !failed ==> 64 * count <= cache.Length && at1 + 64 * count <= |file| && (merge ==> at2 + 64 * count <= |file|)
    ensures !failed ==> forall t | 0 <= t < count :: Entry(cache[..], t) == Wanted(file, at1, at2, merge, t)
  {
    ghost var before := cache[..];
    if merge {
      Merge(cache, mirror, bytes);
    }
    if !failed {
      forall t | 0 <= t < count ensures Entry(cache[..], t) == Wanted(file, at1, at2, merge, t) {
        FilledEntry(before, file, at1, count, t);
        if merge {
          MergedEntry(cache[..], before, mirror[..], bytes, t);
          FilledEntry(mirror[..], file, at2, count, t);
        }
      }
    }
  }

  /** The positions th_read reads, by flip and by whether the mirror is needed. */
  function Needed(flip: bool, merge: bool, at1: nat, at2: nat, bytes: nat): seq<nat> {
    if !merge then Range(at1, bytes)
    else if flip then Range(at2, bytes) + Range(at1, bytes)
    else Range(at1, bytes) + Range(at2, bytes)
  }

  /** How many labels are still to come. */
  function ToCome(next: Label, flip: bool): nat {
    match next
    case ReadEnd => 0
    case Poc1Read => if flip then 1 else 2
    case Poc2Read => if flip then 2 else 1
  }

  /**
   * th_read, with its labels: `flip` decides whether the scoop or its mirror is read first, and jumps backwards; it
   * is turned over at the end. A seek that fails sets `cont` and returns at once. If nothing fails, every position
   * needed is read exactly once, and the cache holds the wanted entries whatever `flip` was.
   */
  method ThRead(h: Handle, start: nat, mirrorStart: nat, i: nat, stagger: nat, chunk0: nat, flip0: bool,
                p2: bool, poc2: bool, cache: array<byte>, mirror: array<byte>, readChunk: nat)
    returns (cont: bool, bytes: nat, chunk: nat, flip: bool)
    requires cache != mirror && 0 < readChunk && 0 < chunk0 && i < stagger
    requires var n := Shorten(i, chunk0, stagger);
             && 64 * n <= cache.Length && start + i * 64 + 64 * n <= |h.file|
             && (p2 != poc2 ==> 64 * n <= mirror.Length && mirrorStart + i * 64 + 64 * n <= |h.file|)
    modifies h, cache, mirror
    ensures chunk == Shorten(i, chunk0, stagger)
    ensures cont ==> flip == flip0
    ensures !cont ==> flip == !flip0
    ensures h.faults >= old(h.faults) && (cont ==> h.faults > old(h.faults))
    ensures h.faults == old(h.faults) ==> bytes == 64 * chunk
    ensures h.faults == old(h.faults) ==>
              h.read == old(h.read) + Needed(flip0, p2 != poc2, start + i * 64, mirrorStart + i * 64, 64 * chunk)
    ensures h.faults == old(h.faults) ==>
              forall t | 0 <= t < chunk ::
                Entry(cache[..], t) == Wanted(h.file, start + i * 64, mirrorStart + i * 64, p2 != poc2, t)
  {
    hide Filled, Wanted, Entry, Range;
    chunk := Shorten(i, chunk0, stagger);
    flip, cont, bytes := flip0, false, 0;
    ghost var failed := false;
    ghost var at1, at2, merge := start + i * 64, mirrorStart + i * 64, p2 != poc2;
    ghost var got1, got2 := false, false;
    assert old(h.read) + [] == old(h.read);
    var next := if flip then Poc2Read else Poc1Read;
    while next != ReadEnd
      invariant got1 <==> next == ReadEnd || (next == Poc2Read && !flip)
      invariant got2 <==> next == ReadEnd || (next == Poc1Read && flip)
      invariant flip == flip0 && !cont
      invariant h.faults >= old(h.faults) && (!failed <==> h.faults == old(h.faults))
      invariant (got1 || (got2 && merge)) && !failed ==> bytes == 64 * chunk
      invariant bytes % 64 == 0 && bytes <= 64 * chunk
      invariant got1 && !failed ==> Filled(cache[..], h.file, at1, chunk)
      invariant got2 && merge && !failed ==> Filled(mirror[..], h.file, at2, chunk)
      invariant !failed ==>
                  h.read == old(h.read) +
                  (if got1 && got2 then Needed(flip0, merge, at1, at2, 64 * chunk)
                   else if got1 then Range(at1, 64 * chunk) else if got2 && merge then Range(at2, 64 * chunk) else [])
      decreases ToCome(next, flip)
    {
      var ok;
      match next
      case Poc1Read =>
        ok := h.Seek(start + i * 64);
        if !ok {
          cont := true;
          return;
        }
        ghost var kept := mirror[..];
        bytes, ok := ReadRegion(h, chunk, cache, readChunk);
        assert mirror[..] == kept;
        failed, got1 := failed || !ok, true;
        next := if flip then ReadEnd else Poc2Read;
      case Poc2Read =>
        if p2 != poc2 {
          ok := h.Seek(mirrorStart + i * 64);
          if !ok {
            cont := true;
            return;
          }
          ghost var kept := cache[..];
          bytes, ok := ReadRegion(h, chunk, mirror, readChunk);
          assert cache[..] == kept;
          failed := failed || !ok;
        }
        got2 := true;
        next := if flip then Poc1Read else ReadEnd;
    }
    flip := !flip;
    MergeIfNeeded(cache, mirror, p2 != poc2, bytes, h.file, at1, at2, chunk, failed);
  }
}
