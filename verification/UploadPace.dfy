/**
 * When an image upload sends and when it waits: chunks follow one another while the window has room, and an answer
 * that leads elsewhere lets the window drain before the upload goes back to where the unit stands.
 */
module UploadPace {
  import opened Common

  /** A request as it is on the wire; one that is sent again keeps its number. */
  datatype Chunk = Chunk(number: nat, off: nat, end: nat)

  /** How a request ends: with an offset, with an answer that is none of this image, without one, or with an error. */
  datatype Completion = Answered(off: nat) | Unusable | TimedOut | Refused

  datatype Reply = Reply(chunk: Chunk, completion: Completion)

  /** A chunk that the client sent, and how many replies it had been told by then. */
  datatype Submission = Submission(chunk: Chunk, told: nat)

  datatype Limits = Limits(firstSize: nat, chunkSize: nat, window: nat, total: nat)

  /** The unit stands elsewhere than at the end of the chunk that was answered. */
  predicate IsOffTrack(r: Reply) { r.completion.Answered? && r.completion.off != r.chunk.end }

  /** Before the submission was sent, everything that was sent before it had been answered. */
  predicate IsAlone(asked: seq<Submission>, j: nat)
    requires j < |asked|
  {
    asked[j].told == j
  }

  /** Since the answer led elsewhere, the window has drained, and one of the first `k` chunks was sent after that. */
  ghost predicate HasDrained(asked: seq<Submission>, i: nat, k: nat)
    requires k <= |asked|
  {
    exists j :: i < j < k && IsAlone(asked, j)
  }

  /** One of the first `n` answers led elsewhere, and the window has not drained since. */
  ghost predicate IsHeld(asked: seq<Submission>, record: seq<Reply>, n: nat, k: nat)
    requires n <= |record| && k <= |asked|
  {
    exists i :: 0 <= i < n && IsOffTrack(record[i]) && !HasDrained(asked, i, k)
  }

  /** The chunk follows the one that was sent before it, within the window, and nothing holds it back. */
  ghost predicate Continues(asked: seq<Submission>, record: seq<Reply>, k: nat, limits: Limits)
    requires 0 < k < |asked| && asked[k].told <= |record|
  {
    && asked[k].chunk.off == asked[k - 1].chunk.end
    && k < asked[k].told + limits.window
    && !IsHeld(asked, record, asked[k].told, k)
  }

  /** The chunk is sent with nothing in flight, from where the unit stands, when there was no more to send. */
  ghost predicate Restarts(asked: seq<Submission>, record: seq<Reply>, k: nat, limits: Limits)
    requires 0 < k < |asked| && asked[k].told <= |record|
  {
    && IsAlone(asked, k)
    && record[k - 1].completion == Answered(asked[k].chunk.off)
    && (IsHeld(asked, record, k, k) || asked[k - 1].chunk.end == limits.total || asked[k - 1].chunk.off == 0)
  }

  /** The first chunk starts the image; every later one continues or restarts, and is as large as it may be. */
  ghost predicate IsPaced(asked: seq<Submission>, record: seq<Reply>, k: nat, limits: Limits)
    requires k < |asked|
  {
    var s := asked[k];
    && s.told <= k && s.told <= |record|
    && s.chunk.end == Min(s.chunk.off + (if s.chunk.off == 0 then limits.firstSize else limits.chunkSize), limits.total)
    && if k == 0 then s.chunk.off == 0
       else Continues(asked, record, k, limits) || Restarts(asked, record, k, limits)
  }

  /** When the `i`-th reply was awaited, `n` chunks were sent, and not another was to be sent. */
  ghost predicate IsAwaited(asked: seq<Submission>, record: seq<Reply>, i: nat, n: nat, limits: Limits)
    requires i < |record|
  {
    && i < n <= |asked|
    && (forall k :: 0 <= k < |asked| ==> (asked[k].told <= i <==> k < n))
    && IsFull(asked, record, i, n, limits)
  }

  ghost predicate WasAwaited(asked: seq<Submission>, record: seq<Reply>, i: nat, limits: Limits)
    requires i < |record|
  {
    exists n :: IsAwaited(asked, record, i, n, limits)
  }

  /** With `n` chunks sent and `i` answered there is no room for another, or none to send, or a reason to wait. */
  ghost predicate IsFull(asked: seq<Submission>, record: seq<Reply>, i: nat, n: nat, limits: Limits)
    requires i <= |record| && 0 < n <= |asked|
  {
    || n >= i + limits.window || asked[n - 1].chunk.end == limits.total || asked[n - 1].chunk.off == 0
    || IsHeld(asked, record, i, n)
  }

  /** Every chunk was sent, and every reply awaited, as it should. */
  ghost predicate KeepsPace(asked: seq<Submission>, record: seq<Reply>, limits: Limits) {
    && |record| <= |asked|
    && (forall k :: 0 <= k < |asked| ==> IsPaced(asked, record, k, limits))
    && (forall i :: 0 <= i < |record| ==> WasAwaited(asked, record, i, limits))
  }

  // What the client goes by.

  /** Where the client stands: what it would send next, whether it waits for the window to drain or has just begun. */
  ghost predicate IsAt(asked: seq<Submission>, record: seq<Reply>, limits: Limits, next: nat, isDraining: bool,
                       isFresh: bool)
  {
    && KeepsPace(asked, record, limits) && |asked| > 0
    && if isFresh then
         && |record| == |asked| && !isDraining && record[|record| - 1].completion == Answered(next)
         && MayRestart(asked, record, limits)
       else
         next == asked[|asked| - 1].chunk.end && isDraining == IsHeld(asked, record, |record|, |asked|)
  }

  ghost predicate MayRestart(asked: seq<Submission>, record: seq<Reply>, limits: Limits)
    requires |asked| > 0
  {
    || IsHeld(asked, record, |record|, |asked|)
    || asked[|asked| - 1].chunk.end == limits.total || asked[|asked| - 1].chunk.off == 0
  }

  lemma HeldStays(asked: seq<Submission>, more: seq<Submission>, record: seq<Reply>, later: seq<Reply>, n: nat, k: nat)
    requires n <= |record| && k <= |asked|
    ensures IsHeld(asked + more, record + later, n, k) == IsHeld(asked, record, n, k)
  {
    forall i | 0 <= i < n
      ensures (record + later)[i] == record[i] && HasDrained(asked + more, i, k) == HasDrained(asked, i, k)
    {
      forall j | i < j < k ensures IsAlone(asked + more, j) == IsAlone(asked, j) {
      }
    }
  }

  lemma PacedStays(asked: seq<Submission>, more: seq<Submission>, record: seq<Reply>, later: seq<Reply>, k: nat,
                   limits: Limits)
    requires k < |asked| && IsPaced(asked, record, k, limits)
    ensures IsPaced(asked + more, record + later, k, limits)
  {
    hide IsHeld;
    HeldStays(asked, more, record, later, asked[k].told, k);
  }

  lemma AwaitedStays(asked: seq<Submission>, s: Submission, record: seq<Reply>, later: seq<Reply>, i: nat, n: nat,
                     limits: Limits)
    requires i < |record| && IsAwaited(asked, record, i, n, limits) && s.told > i
    ensures IsAwaited(asked + [s], record + later, i, n, limits)
  {
    hide IsHeld;
    HeldStays(asked, [s], record, later, i, n);
  }

  lemma AwaitedLater(asked: seq<Submission>, record: seq<Reply>, later: seq<Reply>, i: nat, n: nat, limits: Limits)
    requires i < |record| && IsAwaited(asked, record, i, n, limits)
    ensures IsAwaited(asked, record + later, i, n, limits)
  {
    hide IsHeld;
    HeldStays(asked, [], record, later, i, n);
    assert asked + [] == asked;
  }

  /** One more chunk is sent. */
  lemma SentKeepsPace(asked: seq<Submission>, record: seq<Reply>, s: Submission, limits: Limits)
    requires KeepsPace(asked, record, limits) && s.told == |record|
    requires IsPaced(asked + [s], record, |asked|, limits)
    ensures KeepsPace(asked + [s], record, limits)
  {
    hide IsPaced, IsAwaited;
    assert record + [] == record;
    forall k | 0 <= k < |asked| ensures IsPaced(asked + [s], record, k, limits) {
      PacedStays(asked, [s], record, [], k, limits);
    }
    forall i | 0 <= i < |record| ensures WasAwaited(asked + [s], record, i, limits) {
      assert WasAwaited(asked, record, i, limits);
      var n :| IsAwaited(asked, record, i, n, limits);
      AwaitedStays(asked, s, record, [], i, n, limits);
    }
  }

  /** The first chunk, and one more after the unit said that it has no transfer. */
  lemma BeginsPaced(c: Chunk, limits: Limits)
    requires c.off == 0 && c.end == Min(limits.firstSize, limits.total)
    ensures KeepsPace([Submission(c, 0)], [], limits)
  {
  }

  lemma RestartsPaced(asked: seq<Submission>, record: seq<Reply>, c: Chunk, limits: Limits)
    requires KeepsPace(asked, record, limits) && |asked| == |record| > 0 && MayRestart(asked, record, limits)
    requires record[|record| - 1].completion == Answered(c.off)
    requires c.end == Min(c.off + (if c.off == 0 then limits.firstSize else limits.chunkSize), limits.total)
    ensures IsAt(asked + [Submission(c, |record|)], record, limits, c.end, false, false)
  {
    hide IsHeld, KeepsPace;
    var s := Submission(c, |record|);
    var k := |asked|;
    PaceCounts(asked, record, limits);
    assert record + [] == record;
    HeldStays(asked, [s], record, [], k, k);
    assert Restarts(asked + [s], record, k, limits);
    SentKeepsPace(asked, record, s, limits);
    AloneReleases(asked, s, record);
  }

  lemma AloneReleases(asked: seq<Submission>, s: Submission, record: seq<Reply>)
    requires |asked| == |record| == s.told
    ensures !IsHeld(asked + [s], record, |record|, |asked| + 1)
  {
    assert IsAlone(asked + [s], |asked|);
  }

  lemma ContinuesPaced(asked: seq<Submission>, record: seq<Reply>, c: Chunk, limits: Limits)
    requires IsAt(asked, record, limits, c.off, false, false) && |asked| < |record| + limits.window
    requires c.end == Min(c.off + (if c.off == 0 then limits.firstSize else limits.chunkSize), limits.total)
    ensures IsAt(asked + [Submission(c, |record|)], record, limits, c.end, false, false)
  {
    hide IsHeld, KeepsPace;
    var s := Submission(c, |record|);
    var k := |asked|;
    PaceCounts(asked, record, limits);
    assert record + [] == record;
    HeldStays(asked, [s], record, [], |record|, k);
    assert Continues(asked + [s], record, k, limits);
    SentKeepsPace(asked, record, s, limits);
    StillReleased(asked, s, record);
  }

  lemma PaceCounts(asked: seq<Submission>, record: seq<Reply>, limits: Limits)
    requires KeepsPace(asked, record, limits)
    ensures |record| <= |asked|
    ensures forall k :: 0 <= k < |asked| ==> asked[k].told <= k && asked[k].told <= |record|
  {
    hide Continues, Restarts, IsAwaited;
    forall k | 0 <= k < |asked| ensures asked[k].told <= k && asked[k].told <= |record| {
      assert IsPaced(asked, record, k, limits);
    }
  }

  lemma StillReleased(asked: seq<Submission>, s: Submission, record: seq<Reply>)
    requires !IsHeld(asked, record, |record|, |asked|)
    ensures !IsHeld(asked + [s], record, |record|, |asked| + 1)
  {
    forall i | 0 <= i < |record| && IsOffTrack(record[i]) ensures HasDrained(asked + [s], i, |asked| + 1) {
      var j :| i < j < |asked| && IsAlone(asked, j);
      assert IsAlone(asked + [s], j);
    }
  }

  /** The next chunk, from wherever the client stands. */
  lemma SentIsAt(asked: seq<Submission>, record: seq<Reply>, c: Chunk, limits: Limits, isFresh: bool)
    requires IsAt(asked, record, limits, c.off, false, isFresh) && |asked| < |record| + limits.window
    requires c.end == Min(c.off + (if c.off == 0 then limits.firstSize else limits.chunkSize), limits.total)
    ensures IsAt(asked + [Submission(c, |record|)], record, limits, c.end, false, false)
  {
    hide KeepsPace, IsHeld;
    if isFresh {
      RestartsPaced(asked, record, c, limits);
    } else {
      ContinuesPaced(asked, record, c, limits);
    }
  }

  /** A reply that was awaited with the window full, or all sent, or the window draining, or on the first chunk. */
  lemma ToldKeepsPace(asked: seq<Submission>, record: seq<Reply>, reply: Reply, limits: Limits)
    requires KeepsPace(asked, record, limits) && |record| < |asked|
    requires IsFull(asked, record, |record|, |asked|, limits)
    ensures KeepsPace(asked, record + [reply], limits)
  {
    hide IsPaced, IsAwaited, IsHeld;
    PaceCounts(asked, record, limits);
    var next := record + [reply];
    assert asked + [] == asked;
    forall k | 0 <= k < |asked| ensures IsPaced(asked, next, k, limits) {
      PacedStays(asked, [], record, [reply], k, limits);
    }
    HeldStays(asked, [], record, [reply], |record|, |asked|);
    LastIsAwaited(asked, record, reply, limits);
    forall i | 0 <= i < |next| ensures WasAwaited(asked, next, i, limits) {
      if i < |record| {
        assert WasAwaited(asked, record, i, limits);
        var n :| IsAwaited(asked, record, i, n, limits);
        AwaitedLater(asked, record, [reply], i, n, limits);
      } else {
        assert IsAwaited(asked, next, i, |asked|, limits);
      }
    }
  }

  lemma LastIsAwaited(asked: seq<Submission>, record: seq<Reply>, reply: Reply, limits: Limits)
    requires |record| < |asked| && forall k :: 0 <= k < |asked| ==> asked[k].told <= |record|
    requires IsFull(asked, record + [reply], |record|, |asked|, limits)
    ensures IsAwaited(asked, record + [reply], |record|, |asked|, limits)
  {
    hide IsHeld;
  }

  /** An answer keeps the client where it is, and makes it wait for the window to drain if it leads elsewhere. */
  lemma ToldIsAt(asked: seq<Submission>, record: seq<Reply>, reply: Reply, limits: Limits, next: nat, isDraining: bool)
    requires IsAt(asked, record, limits, next, isDraining, false) && |record| < |asked|
    requires isDraining || next == limits.total || |asked| >= |record| + limits.window
    ensures KeepsPace(asked, record + [reply], limits)
    ensures IsAt(asked, record + [reply], limits, next, isDraining || IsOffTrack(reply), false)
  {
    hide KeepsPace;
    ToldKeepsPace(asked, record, reply, limits);
    PaceCounts(asked, record, limits);
    var later := record + [reply];
    assert asked + [] == asked;
    HeldStays(asked, [], record, [reply], |record|, |asked|);
    assert forall i :: 0 <= i < |record| ==> later[i] == record[i];
    assert IsOffTrack(reply) ==> !HasDrained(asked, |record|, |asked|);
    assert IsHeld(asked, later, |later|, |asked|) <==> IsHeld(asked, later, |record|, |asked|) || IsOffTrack(reply);
  }

  lemma AtKeepsPace(asked: seq<Submission>, record: seq<Reply>, limits: Limits, next: nat, isDraining: bool,
                    isFresh: bool)
    requires IsAt(asked, record, limits, next, isDraining, isFresh)
    ensures KeepsPace(asked, record, limits)
  {
  }

  /** With everything answered the client stands where the last answer says. */
  lemma RestsAt(asked: seq<Submission>, record: seq<Reply>, limits: Limits, next: nat, isDraining: bool, off: nat)
    requires IsAt(asked, record, limits, next, isDraining, false) && |record| == |asked|
    requires record[|record| - 1].completion == Answered(off) && (isDraining || next == limits.total)
    ensures IsAt(asked, record, limits, off, false, true)
  {
  }

  /** The first chunk was sent alone and answered. */
  lemma FirstIsAt(asked: seq<Submission>, record: seq<Reply>, c: Chunk, off: nat, limits: Limits)
    requires c.off == 0 && c.end == Min(limits.firstSize, limits.total)
    requires if asked == [] then record == [] else IsAt(asked, record, limits, 0, false, true)
    ensures var s, reply := Submission(c, |record|), Reply(c, Answered(off));
            IsAt(asked + [s], record + [reply], limits, off, false, true)
  {
    FirstKeepsPace(asked, record, c, Answered(off), limits);
    hide KeepsPace, IsHeld;
  }

  lemma FirstKeepsPace(asked: seq<Submission>, record: seq<Reply>, c: Chunk, completion: Completion, limits: Limits)
    requires c.off == 0 && c.end == Min(limits.firstSize, limits.total)
    requires if asked == [] then record == [] else IsAt(asked, record, limits, 0, false, true)
    ensures |record| == |asked|
    ensures KeepsPace(asked + [Submission(c, |record|)], record + [Reply(c, completion)], limits)
  {
    hide KeepsPace, IsHeld;
    if asked == [] {
      BeginsPaced(c, limits);
      assert asked + [Submission(c, 0)] == [Submission(c, 0)];
    } else {
      RestartsPaced(asked, record, c, limits);
    }
    ToldKeepsPace(asked + [Submission(c, |record|)], record, Reply(c, completion), limits);
  }
}
