/** The physical frame allocator: a bitmap of 4 KiB frames (1 = in use), a
    next-fit search for one frame and a first-fit search for a run of frames.

    The abstract state is the set `Free()` of free frame numbers.
 */
module FrameAllocator {
  import opened Bits
  import opened Common
  import opened ModArith

  const PAGE_SIZE: nat := 4096

  /** The optional vector that the caller passes to collect allocated frames. */
  type Context = Option<seq<nat>>

  function Push(context: Context, frames: seq<nat>): Context {
    match context
    case None => None
    case Some(v) => Some(v + frames)
  }

  /** A memory map entry as the boot loader reports it. */
  datatype Entry = Entry(base: nat, length: nat, usable: bool)

  /** The frames that one entry contributes. */
  predicate Covers(e: Entry, f: nat) {
    e.usable && e.base / PAGE_SIZE <= f < e.base / PAGE_SIZE + e.length / PAGE_SIZE
  }

  /** Frame `f` lies inside the bytes of `e`. */
  predicate Inside(e: Entry, f: nat) {
    e.usable && e.base <= f * PAGE_SIZE && (f + 1) * PAGE_SIZE <= e.base + e.length
  }

  /** Some entry contributes frame `f`. */
  predicate Usable(entries: seq<Entry>, f: nat) {
    exists k :: 0 <= k < |entries| && Covers(entries[k], f)
  }

  /** The free set that `Fill` leaves: the frames covered by some entry. */
  function UsableFrames(entries: seq<Entry>, total: nat): set<nat> {
    set f: nat | f < total && Usable(entries, f)
  }

  predicate Within(f: nat, s: nat, len: nat) {
    s <= f < s + len
  }

  function Frames(s: nat, len: nat): set<nat> {
    set f: nat | f < s + len && Within(f, s, len)
  }

  /** Addresses of `len` adjacent frames starting with frame `s`. */
  function Addresses(s: nat, len: nat): seq<nat> {
    seq(len, j requires 0 <= j < len => (s + j) * PAGE_SIZE)
  }

  ghost predicate IsRun(free: set<nat>, s: nat, len: nat) {
    forall f: nat :: s <= f < s + len ==> f in free
  }

  /** `s` starts the lowest run of `len` free frames. */
  ghost predicate LowestRun(free: set<nat>, s: nat, len: nat) {
    IsRun(free, s, len) && forall t: nat :: t < s ==> !IsRun(free, t, len)
  }

  /** The frames from `s` on, and no others, are no longer free. */
  ghost predicate Taken(free: set<nat>, free': set<nat>, s: nat, len: nat, addresses: seq<nat>) {
    && |addresses| == len && (forall j :: 0 <= j < len ==> addresses[j] == (s + j) * PAGE_SIZE)
    && free' == free - Frames(s, len)
  }

  /** `i` is the lowest free frame from `from` on or, if there is none, the lowest of all. */
  ghost predicate NextFree(free: set<nat>, from: nat, i: nat) {
    i in free && forall f :: f in free ==> if from <= i then f < from || i <= f else i <= f < from
  }

  /** No frame looked at in the rounds before `off` is free. */
  ghost predicate NoneBefore(free: set<nat>, start: nat, total: nat, off: nat)
    requires total > 0
  {
    forall o: nat :: o < off ==> Visited(start, o, total) !in free
  }

  /** The first free frame met when walking cyclically from `start` is that one. */
  lemma FirstIsNext(free: set<nat>, start: nat, total: nat, off: nat)
    requires off < total && (forall f :: f in free ==> f < total)
    requires NoneBefore(free, start, total, off) && Visited(start, off, total) in free
    ensures NextFree(free, start % total, Visited(start, off, total))
  {
    var n, i := start % total, Visited(start, off, total);
    RoundOf(start, off, total);
    forall f | f in free ensures if n <= i then f < n || i <= f else i <= f < n {
      var o := if n <= f then f - n else total - n + f;
      RoundOf(start, o, total);
      assert Visited(start, o, total) == f;
    }
  }

  lemma RoundOf(start: nat, off: nat, total: nat)
    requires off < total
    ensures var n := start % total; Visited(start, off, total) == if n + off < total then n + off else n + off - total
  {
    var q, n := start / total, start % total;
    assert start + off == q * total + (n + off);
    if n + off < total {
      DivModUnique(q, total, n + off);
    } else {
      assert start + off == (q + 1) * total + (n + off - total);
      DivModUnique(q + 1, total, n + off - total);
    }
  }

  /** The frame looked at in round `off` of the cyclic search. */
  function Visited(start: nat, off: nat, total: nat): nat
    requires total > 0
  {
    (start + off) % total
  }

  /** The cyclic search looks at every frame. */
  lemma VisitsAll(start: nat, total: nat, i: nat) returns (off: nat)
    requires i < total
    ensures off < total && Visited(start, off, total) == i
  {
    var q, n := start / total, start % total;
    if n <= i {
      off := i - n;
      assert start + off == q * total + i;
      DivModUnique(q, total, i);
    } else {
      off := total - n + i;
      assert start + off == (q + 1) * total + i;
      DivModUnique(q + 1, total, i);
    }
  }

  /** State of the first-fit scan before frame `offset`: the last `k` frames are
      free, the one before them is not, and no full run has been passed. */
  ghost predicate Scanned(free: set<nat>, offset: nat, k: nat, len: nat) {
    && k <= offset
    && (if len == 0 then k == offset else k < len)
    && (forall f: nat :: offset - k <= f < offset ==> f in free)
    && (k < offset ==> offset - k - 1 !in free)
    && (len > 0 ==> forall s: nat :: s + len <= offset ==> !IsRun(free, s, len))
  }

  lemma ScanStep(free: set<nat>, offset: nat, k: nat, len: nat)
    requires Scanned(free, offset, k, len)
    ensures offset !in free && len > 0 ==> Scanned(free, offset + 1, 0, len)
    ensures offset in free && k + 1 != len ==> Scanned(free, offset + 1, k + 1, len)
    ensures offset in free && k + 1 == len ==> LowestRun(free, offset - k, len)
  {
    forall s: nat | s + len == offset + 1 && len > 0 && (offset in free ==> k + 1 < len)
      ensures !IsRun(free, s, len)
    {
      if offset in free {
        assert offset - k - 1 !in free;
      }
    }
  }

  lemma ScanEnd(free: set<nat>, total: nat, k: nat, len: nat)
    requires Scanned(free, total, k, len)
    requires forall f | f in free :: f < total
    ensures len > 0 ==> forall s: nat :: !IsRun(free, s, len)
    ensures len == 0 ==> forall f: nat :: f < total ==> f in free
  {
    forall s: nat | len > 0 ensures !IsRun(free, s, len) {
      assert s + len > total ==> s + len - 1 !in free;
    }
  }

  class BitmapAllocator {
    var bitmap: array<bv8>
    var next: nat

    constructor (bitmap: array<bv8>, next: nat)
      ensures this.bitmap == bitmap && this.next == next
    {
      this.bitmap := bitmap;
      this.next := next;
    }

    ghost function Total(): nat
      reads this
    {
      8 * bitmap.Length
    }

    ghost function Free(): set<nat>
      reads this, bitmap
    {
      ClearBits(bitmap[..])
    }

    /** Mark everything used, then free the usable regions. */
    method Fill(entries: seq<Entry>)
      requires forall k :: 0 <= k < |entries| && entries[k].usable ==>
                 entries[k].base / PAGE_SIZE + entries[k].length / PAGE_SIZE <= Total()
      modifies bitmap
      ensures Free() == UsableFrames(entries, Total())
    {
      for i := 0 to bitmap.Length
        invariant forall k :: 0 <= k < i ==> bitmap[k] == 0xff
      {
        bitmap[i] := 0xff;
      }
      forall f: nat | f < Total() ensures Bit(bitmap[..], f) {
        FullByte(f % 8);
      }
      for k := 0 to |entries|
        invariant Free() == UsableFrames(entries[..k], Total())
      {
        if entries[k].usable {
          SetUnusedByAddress(entries[k].base, entries[k].length / PAGE_SIZE);
        }
        UsableStep(entries, k, Total());
      }
      assert entries[..|entries|] == entries;
    }

    /** Set the bit of frame `idx`. */
    method Mark(idx: nat)
      requires idx < Total()
      modifies bitmap
      ensures Free() == old(Free()) - {idx}
    {
      ghost var before := bitmap[..];
      bitmap[idx / 8] := Set(bitmap[idx / 8], idx % 8);
      assert bitmap[..] == SetBit(before, idx);
      SetBitRemoves(before, idx);
    }

    /** Clear the bit of frame `idx`. */
    method Unmark(idx: nat)
      requires idx < Total()
      modifies bitmap
      ensures Free() == old(Free()) + {idx}
    {
      ghost var before := bitmap[..];
      bitmap[idx / 8] := Clear(bitmap[idx / 8], idx % 8);
      assert bitmap[..] == ClearBit(before, idx);
      ClearBitAdds(before, idx);
    }

    method SetUnusedByAddress(base: nat, pageCount: nat)
      requires base / PAGE_SIZE + pageCount <= Total()
      modifies bitmap
      ensures Free() == old(Free()) + Frames(base / PAGE_SIZE, pageCount)
    {
      for i := 0 to pageCount
        invariant Free() == old(Free()) + Frames(base / PAGE_SIZE, i)
      {
        Unmark(base / PAGE_SIZE + i);
      }
    }

    method SetUsedByAddress(base: nat, pageCount: nat)
      requires base / PAGE_SIZE + pageCount <= Total()
      modifies bitmap
      ensures Free() == old(Free()) - Frames(base / PAGE_SIZE, pageCount)
    {
      for i := 0 to pageCount
        invariant Free() == old(Free()) - Frames(base / PAGE_SIZE, i)
      {
        Mark(base / PAGE_SIZE + i);
      }
    }

    method FreeFrames(frames: seq<nat>)
      requires forall k :: 0 <= k < |frames| ==> frames[k] / PAGE_SIZE < Total()
      modifies bitmap
      ensures Free() == old(Free()) + FrameNumbers(frames)
    {
      for i := 0 to |frames|
        invariant Free() == old(Free()) + FrameNumbers(frames[..i])
      {
        Unmark(frames[i] / PAGE_SIZE);
        FrameNumbersStep(frames, i);
      }
      assert frames[..|frames|] == frames;
    }

    /** Is frame `i` marked? The whole-byte shortcut of both searches is taken
        only where the answer is yes. */
    method IsMarked(i: nat) returns (marked: bool)
      requires i < Total()
      ensures marked <==> i !in Free()
    {
      var byteIdx, bitIdx := i / 8, i % 8;
      assert Bit(bitmap[..], i) == Test(bitmap[byteIdx], bitIdx);
      if bitIdx == 0 && bitmap[byteIdx] == 0xff {
        FullByte(0);
        return true;
      }
      return Test(bitmap[byteIdx], bitIdx);
    }

    /** Next-fit: the first free frame cyclically from `next`. */
    method AllocateFrame(context: Context) returns (r: Option<nat>, context': Context)
      modifies `next, bitmap
      ensures r.None? <==> old(Free()) == {}
      ensures r.None? ==> Free() == old(Free()) && next == old(next) && context' == context
      ensures r.Some? ==>
                var i := r.value / PAGE_SIZE;
                && Total() > 0
                && r.value == i * PAGE_SIZE
                && NextFree(old(Free()), old(next) % Total(), i)
                && Free() == old(Free()) - {i}
                && next == (i + 1) % Total()
                && context' == if context.None? then None else Some(context.value + [r.value])
    {
      var totalBits := bitmap.Length * 8;
      for offset := 0 to totalBits
        invariant Free() == old(Free()) && next == old(next)
        invariant totalBits > 0 ==> NoneBefore(Free(), next, totalBits, offset)
      {
        var i := Visited(next, offset, totalBits);
        var marked := IsMarked(i);
        if !marked {
          FirstIsNext(Free(), next, totalBits, offset);
          Mark(i);
          next := (i + 1) % totalBits;
          return Some(i * PAGE_SIZE), Push(context, [i * PAGE_SIZE]);
        }
      }
      forall i: nat | i < totalBits ensures i !in Free() {
        var off := VisitsAll(next, totalBits, i);
      }
      assert Free() == {};
      return None, context;
    }

    /** First-fit: the lowest run of `len` adjacent free frames. */
    method AllocateContinuousFrames(context: Context, len: nat)
      returns (r: Option<seq<nat>>, context': Context)
      modifies `next, bitmap
      ensures len > 0 ==> (r.None? <==> forall s: nat :: !IsRun(old(Free()), s, len))
      ensures len > 0 && r.Some? ==>
                exists s: nat ::
                  && LowestRun(old(Free()), s, len)
                  && Taken(old(Free()), Free(), s, len, r.value) && Total() > 0 && next == (s + len) % Total()
      ensures len == 0 ==> r == if forall f: nat :: f < Total() ==> f in old(Free()) then None else Some([])
      ensures r.None? || len == 0 ==> Free() == old(Free()) && next == old(next) && context' == context
      ensures r.Some? && len > 0 ==> context' == if context.None? then None else Some(context.value + r.value)
    {
      var totalBits := bitmap.Length * 8;
      var indices: seq<nat> := [];
      ghost var free := Free();
      for offset := 0 to totalBits
        invariant Free() == free && next == old(next)
        invariant Scanned(free, offset, |indices|, len)
        invariant forall k :: 0 <= k < |indices| ==> indices[k] == offset - |indices| + k
      {
        var marked := IsMarked(offset);
        ScanStep(free, offset, |indices|, len);
        if marked {
          indices := [];
        } else {
          indices := indices + [offset];
        }
        if |indices| == len {
          r, context' := MarkUsed(context, indices);
          return;
        }
      }
      ScanEnd(free, totalBits, |indices|, len);
      r, context' := None, context;
    }

    /** Mark the frames of a found run and move `next` behind the last one. */
    method MarkUsed(context: Context, indices: seq<nat>) returns (r: Option<seq<nat>>, context': Context)
      requires forall k :: 0 <= k < |indices| ==> indices[k] == indices[0] + k
      requires indices != [] ==> indices[0] + |indices| <= Total()
      modifies `next, bitmap
      ensures indices == [] ==> r == Some([]) && Free() == old(Free()) && next == old(next) && context' == context
      ensures indices != [] ==>
                && r == Some(Addresses(indices[0], |indices|))
                && Free() == old(Free()) - Frames(indices[0], |indices|)
                && next == (indices[0] + |indices|) % Total()
                && context' == Push(context, r.value)
    {
      var totalBits := bitmap.Length * 8;
      var result: seq<nat> := [];
      context' := context;
      for k := 0 to |indices|
        invariant k == 0 ==> next == old(next) && Free() == old(Free()) && context' == context
        invariant k > 0 ==> Free() == old(Free()) - Frames(indices[0], k)
        invariant k > 0 ==> next == (indices[0] + k) % totalBits
        invariant |result| == k && forall j :: 0 <= j < k ==> result[j] == (indices[0] + j) * PAGE_SIZE
        invariant context' == if k == 0 then context else Push(context, result)
      {
        var i := indices[k];
        Mark(i);
        next := (i + 1) % totalBits;
        PushPush(context, result, [i * PAGE_SIZE]);
        result := result + [i * PAGE_SIZE];
        context' := Push(context', [i * PAGE_SIZE]);
      }
      assert indices != [] ==> result == Addresses(indices[0], |indices|);
      r := Some(result);
    }
  }

  lemma PushPush(context: Context, a: seq<nat>, b: seq<nat>)
    ensures Push(Push(context, a), b) == Push(context, a + b)
    ensures Push(context, []) == context
  {
    if context.Some? {
      assert context.value + a + b == context.value + (a + b);
      assert context.value + [] == context.value;
    }
  }

  /** The frame numbers of a list of frame addresses. */
  function FrameNumbers(frames: seq<nat>): set<nat> {
    set k | 0 <= k < |frames| :: frames[k] / PAGE_SIZE
  }

  lemma FrameNumbersStep(frames: seq<nat>, i: nat)
    requires i < |frames|
    ensures FrameNumbers(frames[..i + 1]) == FrameNumbers(frames[..i]) + {frames[i] / PAGE_SIZE}
  {
    var a, b := frames[..i], frames[..i + 1];
    forall f | f in FrameNumbers(a) + {frames[i] / PAGE_SIZE} ensures f in FrameNumbers(b) {
      if f in FrameNumbers(a) {
        var k :| 0 <= k < |a| && a[k] / PAGE_SIZE == f;
        assert b[k] == a[k];
      } else {
        assert b[i] / PAGE_SIZE == f;
      }
    }
  }

  lemma AddressFrames(s: nat, len: nat)
    ensures FrameNumbers(Addresses(s, len)) == Frames(s, len)
  {
    forall f | f in Frames(s, len) ensures f in FrameNumbers(Addresses(s, len)) {
      assert Addresses(s, len)[f - s] / PAGE_SIZE == f;
    }
  }

  lemma UsableStep(entries: seq<Entry>, k: nat, total: nat)
    requires k < |entries|
    requires entries[k].usable ==>
               entries[k].base / PAGE_SIZE + entries[k].length / PAGE_SIZE <= total
    ensures UsableFrames(entries[..k + 1], total) ==
            UsableFrames(entries[..k], total) +
            if entries[k].usable then Frames(entries[k].base / PAGE_SIZE, entries[k].length / PAGE_SIZE) else {}
  {
    var a, b := entries[..k], entries[..k + 1];
    forall f: nat ensures Usable(b, f) <==> Usable(a, f) || Covers(entries[k], f) {
      if Usable(a, f) {
        var j :| 0 <= j < k && Covers(a[j], f);
        assert Covers(b[j], f);
      }
      if Covers(entries[k], f) {
        assert Covers(b[k], f);
      }
      if Usable(b, f) {
        var j :| 0 <= j < k + 1 && Covers(b[j], f);
        assert j < k ==> Covers(a[j], f);
      }
    }
  }

  /** An entry frees only frames that lie inside it exactly when it starts on a
      page boundary or is shorter than a page; then it frees all of them. */
  lemma AlignedIff(e: Entry)
    requires e.usable
    ensures (forall f: nat :: Covers(e, f) ==> Inside(e, f)) <==>
            (e.base % PAGE_SIZE == 0 || e.length < PAGE_SIZE)
    ensures e.base % PAGE_SIZE == 0 ==> forall f: nat :: Covers(e, f) <==> Inside(e, f)
  {
    if e.base % PAGE_SIZE != 0 && e.length >= PAGE_SIZE {
      assert Covers(e, e.base / PAGE_SIZE);
      assert !Inside(e, e.base / PAGE_SIZE);
    }
  }

  // ----- whole runs -----

  datatype Op = One | Many(len: nat) | Release(frames: seq<nat>)

  /** What a caller sees: frames handed out, or frames given back. */
  datatype Event = Got(frames: set<nat>) | Freed(frames: set<nat>)

  /** Frames handed out and not given back since. */
  function Live(log: seq<Event>): set<nat> {
    if log == [] then {} else
      var before := Live(log[..|log| - 1]);
      match log[|log| - 1]
      case Got(fs) => before + fs
      case Freed(fs) => before - fs
  }

  /** No event hands out a frame that is live at that moment. */
  ghost predicate NeverTwice(log: seq<Event>) {
    forall k :: 0 <= k < |log| && log[k].Got? ==> log[k].frames !! Live(log[..k])
  }

  /** The free frames after a history that starts with `usable`. */
  ghost function FreeAfter(usable: set<nat>, log: seq<Event>): set<nat> {
    if log == [] then usable else
      var before := FreeAfter(usable, log[..|log| - 1]);
      match log[|log| - 1]
      case Got(fs) => before - fs
      case Freed(fs) => before + fs
  }

  method Apply(a: BitmapAllocator, op: Op) returns (e: Event)
    requires op.Release? ==> forall j :: 0 <= j < |op.frames| ==> op.frames[j] / PAGE_SIZE < a.Total()
    modifies a`next, a.bitmap
    ensures e.Got? ==> e.frames <= old(a.Free()) && a.Free() == old(a.Free()) - e.frames
    ensures e.Freed? ==> a.Free() == old(a.Free()) + e.frames
    ensures e.Freed? <==> op.Release?
    ensures op.Release? ==> e.frames == FrameNumbers(op.frames)
    ensures op.One? ==> |e.frames| == if old(a.Free()) == {} then 0 else 1
    ensures op.Many? && op.len > 0 ==>
              |e.frames| == if exists s: nat :: IsRun(old(a.Free()), s, op.len) then op.len else 0
  {
    ghost var was := a.Free();
    match op
    case One =>
      var r, _ := a.AllocateFrame(None);
      e := Got(if r.Some? then {r.value / PAGE_SIZE} else {});
    case Many(len) =>
      var r, _ := a.AllocateContinuousFrames(None, len);
      if r.None? || len == 0 {
        e := Got({});
      } else {
        ghost var s: nat :| LowestRun(was, s, len) && Taken(was, a.Free(), s, len, r.value);
        e := Got(FrameNumbers(r.value));
        assert r.value == Addresses(s, len);
        AddressFrames(s, len);
        assert IsRun(was, s, len);
        FramesSize(s, len);
      }
    case Release(frames) =>
      a.FreeFrames(frames);
      e := Freed(FrameNumbers(frames));
  }

  lemma FramesSize(s: nat, len: nat)
    ensures |Frames(s, len)| == len
  {
    if len > 0 {
      FramesSize(s, len - 1);
      assert Frames(s, len) == Frames(s, len - 1) + {s + len - 1};
    }
  }

  /** Every run of allocations and releases, starting from `Fill`, keeps the
      bitmap equal to the set of frames that the history says are free, and
      hands out only frames that are not live. */
  method Run(a: BitmapAllocator, entries: seq<Entry>, ops: seq<Op>) returns (log: seq<Event>)
    requires forall k :: 0 <= k < |entries| && entries[k].usable ==>
               entries[k].base / PAGE_SIZE + entries[k].length / PAGE_SIZE <= a.Total()
    requires forall k :: 0 <= k < |ops| && ops[k].Release? ==>
               forall j :: 0 <= j < |ops[k].frames| ==> ops[k].frames[j] / PAGE_SIZE < a.Total()
    modifies a`next, a.bitmap
    ensures |log| == |ops|
    ensures a.Free() == FreeAfter(UsableFrames(entries, a.Total()), log)
    ensures a.Free() !! Live(log)
    ensures NeverTwice(log)
  {
    a.Fill(entries);
    ghost var usable := a.Free();
    log := [];
    for n := 0 to |ops|
      invariant |log| == n
      invariant a.Free() == FreeAfter(usable, log)
      invariant a.Free() !! Live(log)
      invariant NeverTwice(log)
    {
      var e := Apply(a, ops[n]);
      Extend(usable, log, e);
      log := log + [e];
    }
  }

  lemma Extend(usable: set<nat>, log: seq<Event>, e: Event)
    requires NeverTwice(log)
    ensures Live(log + [e]) == if e.Got? then Live(log) + e.frames else Live(log) - e.frames
    ensures FreeAfter(usable, log + [e]) ==
            if e.Got? then FreeAfter(usable, log) - e.frames else FreeAfter(usable, log) + e.frames
    ensures (e.Got? ==> e.frames !! Live(log)) ==> NeverTwice(log + [e])
  {
    assert (log + [e])[..|log|] == log;
    assert forall k :: 0 <= k < |log| ==> (log + [e])[..k] == log[..k];
  }
}
