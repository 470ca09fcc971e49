/**
 * The windowed image upload. A chunk for the offset where the unit stands is written, any other is answered with that
 * offset. The link loses, repeats and delays; an orderly link loses and repeats, but keeps the order, and its unit
 * keeps the transfer.
 */
module ImageUpload {
  import opened Common
  import opened UploadPace

  const IMAGE_MAX_STALLS := 8

  /** The unit: the transfer it holds, and whether its slot holds the image. */
  datatype Unit = Unit(transfer: Option<Bytes>, stored: bool)

  /** What the unit does with a request: its new state, and the offset it answers. */
  function Handle(u: Unit, image: Bytes, c: Chunk): (Unit, nat)
    requires c.off < c.end <= |image|
  {
    if c.off == 0 && u.transfer.Some? then (u, |u.transfer.value|)
    else if c.off == 0 && u.stored then (u, |image|)
    else if c.off != 0 && u.transfer.None? then (u, 0)
    else
      var held := if u.transfer.Some? then u.transfer.value else [];
      if c.off != |held| then (u, |held|)
      else
        var grown := held + image[c.off..c.end];
        if |grown| < |image| then (u.(transfer := Some(grown)), |grown|)
        else (Unit(None, true), |image|)
  }

  /** What the unit holds is a prefix of the image. */
  ghost predicate IsPrefix(u: Unit, image: Bytes) {
    u.transfer.Some? ==> 0 < |u.transfer.value| < |image| && u.transfer.value == image[..|u.transfer.value|]
  }

  /** How far the unit has come. */
  function Level(u: Unit, image: Bytes): nat {
    if u.transfer.Some? then |u.transfer.value| else if u.stored then |image| else 0
  }

  /** A transfer is under way, or the image is stored, or neither. */
  ghost predicate IsSettled(u: Unit) { !(u.transfer.Some? && u.stored) }

  lemma HandleKeepsPrefix(u: Unit, image: Bytes, c: Chunk)
    requires c.off < c.end <= |image|
    requires IsPrefix(u, image)
    ensures var (v, answer) := Handle(u, image, c);
            && IsPrefix(v, image)
            && (u.stored ==> v.stored)
            && answer <= |image|
            && (answer == |image| ==> v.stored)
  {
    var held := if u.transfer.Some? then u.transfer.value else [];
    if c.off == |held| {
      assert image[..c.off] + image[c.off..c.end] == image[..c.end];
      assert held == image[..c.off];
    }
  }

  /** A chunk moves the unit exactly when it is the one expected, and the answer is where the unit stands. */
  lemma HandleMoves(u: Unit, image: Bytes, c: Chunk)
    requires c.off < c.end <= |image|
    requires IsPrefix(u, image) && IsSettled(u)
    ensures var (v, answer) := Handle(u, image, c);
            && IsSettled(v)
            && Level(v, image) == (if Level(u, image) == c.off then c.end else Level(u, image))
            && (answer == Level(v, image) || (answer == 0 && u.stored && c.off != 0))
            && (v.stored && !u.stored ==> answer == |image| && c.end == |image|)
  {
  }

  /** A request the unit handled: its answer, and how far the unit was after it. */
  datatype Exchange = Exchange(chunk: Chunk, answer: nat, level: nat)

  /** The unit and the link to it. */
  datatype Wire = Wire(
    unit: Unit,
    // Every request put on the wire, and how many of them an orderly link has brought to the unit or lost.
    sent: seq<Chunk>, handled: nat,
    // What the unit did, and how much of it an orderly link has brought back or lost.
    log: seq<Exchange>, delivered: nat)

  /** In every run: the unit holds a prefix of the image, and it said the whole length only once it had stored it. */
  ghost predicate Sound(w: Wire, image: Bytes) {
    && IsPrefix(w.unit, image)
    && (forall i :: 0 <= i < |w.sent| ==> w.sent[i].off < w.sent[i].end <= |image|)
    && (forall i :: 0 <= i < |w.log| ==> w.log[i].answer <= |image| && (w.log[i].answer == |image| ==> w.unit.stored))
  }

  /** The unit handles one of the requests that were sent. */
  function Handled(w: Wire, image: Bytes, index: nat): Wire
    requires Sound(w, image) && index < |w.sent|
  {
    var (unit, answer) := Handle(w.unit, image, w.sent[index]);
    w.(unit := unit, log := w.log + [Exchange(w.sent[index], answer, Level(unit, image))])
  }

  /** A chunk that ends the image behind the first; it is sent once. */
  predicate IsLast(c: Chunk, image: Bytes) { c.off != 0 && c.end == |image| }

  /** The answer says how far the unit was; only a chunk that trails a finished transfer is answered 0. */
  predicate IsFair(x: Exchange, image: Bytes) {
    x.answer == x.level || (x.answer == 0 && x.level == |image| && x.chunk.off != 0)
  }

  /** What an orderly link keeps of the answers. */
  ghost predicate Ordered(w: Wire, image: Bytes) {
    && IsSettled(w.unit)
    && w.handled <= |w.sent| && w.delivered <= |w.log|
    && (forall i, j :: 0 <= i < j < |w.log| ==> w.log[i].level <= w.log[j].level)
    && (forall i :: 0 <= i < |w.log| ==> IsFair(w.log[i], image) && w.log[i].level <= Level(w.unit, image))
  }

  /** The last chunk is on the wire at most once, and only while it is outstanding. */
  ghost predicate LastOnce(w: Wire, image: Bytes, open: set<Chunk>) {
    && w.handled <= |w.sent|
    && (forall i :: 0 <= i < |w.log| ==> w.log[i].chunk in w.sent[..w.handled])
    && (forall i, j :: 0 <= i < j < |w.sent| && IsLast(w.sent[i], image) ==> w.sent[i] != w.sent[j])
    && (forall i :: w.handled <= i < |w.sent| && IsLast(w.sent[i], image) ==> w.sent[i] in open)
  }

  /** The chunk whose handling stored the image, and whose only answer says so. */
  ghost predicate Reports(w: Wire, image: Bytes, c: Chunk) {
    && IsLast(c, image) && w.handled <= |w.sent| && c in w.sent[..w.handled]
    && forall i :: 0 <= i < |w.log| && w.log[i].chunk == c ==> w.log[i].answer == |image|
  }

  /** If the image came to be stored, that is for the last chunk to report, which is still outstanding. */
  ghost predicate Unreported(w: Wire, image: Bytes, open: set<Chunk>) {
    w.unit.stored ==> exists c :: c in open && Reports(w, image, c)
  }

  /** So far only first chunks were sent, and nothing moved the unit since it handled one. */
  ghost predicate OnlyFirst(w: Wire, image: Bytes) {
    && (forall i :: 0 <= i < |w.sent| ==> w.sent[i].off == 0)
    && (forall i :: 0 <= i < |w.log| ==> 0 < w.log[i].level == Level(w.unit, image) && w.log[i].chunk.off == 0)
  }

  /** The unit has come to `u`, and an outstanding chunk at `u` moved it further where it was handled. */
  ghost predicate Passed(w: Wire, image: Bytes, open: set<Chunk>, u: nat) {
    && u <= Level(w.unit, image)
    && forall i :: 0 <= i < |w.log| && w.log[i].chunk in open && w.log[i].chunk.off == u ==> w.log[i].level > u
  }

  /** What is still to be delivered is no older than `level`. */
  ghost predicate NotBefore(w: Wire, image: Bytes, level: nat) {
    level <= Level(w.unit, image) && forall i :: w.delivered <= i < |w.log| ==> w.log[i].level >= level
  }

  function HandledNext(w: Wire, image: Bytes): Wire
    requires Sound(w, image) && w.handled < |w.sent|
  {
    Handled(w, image, w.handled).(handled := w.handled + 1)
  }

  /** What the unit did with the next request is in the log, last. */
  lemma HandledNextIs(w: Wire, image: Bytes) returns (x: Exchange)
    requires Sound(w, image) && IsSettled(w.unit) && w.handled < |w.sent|
    ensures var v := HandledNext(w, image);
            && v == w.(unit := v.unit, log := w.log + [x], handled := w.handled + 1)
            && Sound(v, image) && IsSettled(v.unit) && IsFair(x, image)
            && x.chunk == w.sent[w.handled] && x.chunk.off < x.chunk.end
            && x.level == Level(v.unit, image)
            && x.level == if Level(w.unit, image) == x.chunk.off then x.chunk.end else Level(w.unit, image)
  {
    var c := w.sent[w.handled];
    HandleMoves(w.unit, image, c);
    HandleKeepsPrefix(w.unit, image, c);
    var (unit, answer) := Handle(w.unit, image, c);
    x := Exchange(c, answer, Level(unit, image));
  }

  /** What an orderly link keeps as the unit handles the next request. */
  lemma HandledNextKeeps(w: Wire, image: Bytes, open: set<Chunk>, u: nat, level: nat)
    requires Sound(w, image) && Ordered(w, image) && w.handled < |w.sent|
    ensures var v := HandledNext(w, image);
            && Sound(v, image) && Ordered(v, image)
            && (Passed(w, image, open, u) ==> Passed(v, image, open, u))
            && (NotBefore(w, image, level) ==> NotBefore(v, image, level))
            && (OnlyFirst(w, image) ==> OnlyFirst(v, image))
  {
    hide Sound, HandledNext, IsSettled, IsFair, Level;
    var x := HandledNextIs(w, image);
    var log := w.log + [x];
    assert forall i :: 0 <= i < |w.log| ==> log[i] == w.log[i];
    assert log[|w.log|] == x;
  }

  lemma HandledNextReports(w: Wire, image: Bytes, open: set<Chunk>)
    requires Sound(w, image) && Ordered(w, image) && w.handled < |w.sent|
    requires LastOnce(w, image, open)
    ensures var v := HandledNext(w, image);
            && LastOnce(v, image, open)
            && (Unreported(w, image, open) && Level(w.unit, image) > 0 ==> Unreported(v, image, open))
  {
    var c := w.sent[w.handled];
    var v := HandledNext(w, image);
    HandleMoves(w.unit, image, c);
    assert v.sent[..v.handled] == w.sent[..w.handled] + [c];
    if v.unit.stored && Unreported(w, image, open) && Level(w.unit, image) > 0 {
      if !w.unit.stored {
        forall i | 0 <= i < |w.log| ensures w.log[i].chunk != c {
          assert w.log[i].chunk in w.sent[..w.handled];
          var k :| 0 <= k < w.handled && w.sent[..w.handled][k] == w.log[i].chunk;
          assert w.sent[k] == w.log[i].chunk;
        }
        assert Reports(v, image, c);
      } else {
        var d :| d in open && Reports(w, image, d);
        assert d in w.sent[..w.handled];
        var k :| 0 <= k < w.handled && w.sent[..w.handled][k] == d;
        assert w.sent[k] == d && d != c;
        assert Reports(v, image, d);
      }
    }
  }

  /** A request that is sent, for the first time or again. */
  function Sent(w: Wire, c: Chunk): Wire { w.(sent := w.sent + [c]) }

  lemma SentReports(w: Wire, image: Bytes, open: set<Chunk>, c: Chunk)
    requires LastOnce(w, image, open)
    requires IsLast(c, image) ==> c !in w.sent
    ensures LastOnce(Sent(w, c), image, open + {c})
    ensures Unreported(w, image, open) ==> Unreported(Sent(w, c), image, open + {c})
  {
    var v := Sent(w, c);
    assert v.sent[..v.handled] == w.sent[..w.handled];
    if w.unit.stored && Unreported(w, image, open) {
      var d :| d in open && Reports(w, image, d);
      assert Reports(v, image, d);
    }
  }

  /** An answer that is delivered in order, to the request it belongs to. */
  function Delivered(w: Wire, i: nat): Wire { w.(delivered := i + 1) }

  lemma DeliveredKeeps(w: Wire, image: Bytes, open: set<Chunk>, i: nat, u: nat, level: nat)
    requires Sound(w, image) && Ordered(w, image)
    requires w.delivered <= i < |w.log| && w.log[i].chunk in open
    requires NotBefore(w, image, level) && Passed(w, image, open, u)
    ensures var v, x := Delivered(w, i), w.log[i];
            && Sound(v, image) && Ordered(v, image)
            && x.level >= level && NotBefore(v, image, x.level)
            && Passed(v, image, open - {x.chunk}, u)
            && (x.chunk.off == u ==> x.level > u)
            && IsFair(x, image)
            && (OnlyFirst(w, image) ==>
                  OnlyFirst(v, image) && 0 < x.level == Level(w.unit, image) && x.answer == x.level)
  {
  }

  lemma DeliveredReports(w: Wire, image: Bytes, open: set<Chunk>, i: nat)
    requires Sound(w, image) && Ordered(w, image) && LastOnce(w, image, open)
    requires w.delivered <= i < |w.log| && w.log[i].chunk in open
    ensures var v, rest := Delivered(w, i), open - {w.log[i].chunk};
            && LastOnce(v, image, rest)
            && (Unreported(w, image, open) && w.log[i].answer < |image| ==> Unreported(v, image, rest))
  {
    var c := w.log[i].chunk;
    var v := Delivered(w, i);
    var k :| 0 <= k < w.handled && w.sent[..w.handled][k] == c;
    assert w.sent[k] == c;
    forall j | v.handled <= j < |v.sent| && IsLast(v.sent[j], image) ensures v.sent[j] in open - {c} {
      assert v.sent[j] != c;
    }
    if w.unit.stored && Unreported(w, image, open) && w.log[i].answer < |image| {
      var d :| d in open && Reports(w, image, d);
      assert d != c;
      assert Reports(v, image, d);
    }
  }

  /** A request that is lost on its way. */
  function Lost(w: Wire): Wire { w.(handled := w.handled + 1) }

  lemma LostKeeps(w: Wire, image: Bytes, open: set<Chunk>, u: nat, level: nat)
    requires Sound(w, image) && Ordered(w, image) && LastOnce(w, image, open) && w.handled < |w.sent|
    ensures var v := Lost(w);
            && Sound(v, image) && Ordered(v, image) && LastOnce(v, image, open)
            && (Passed(w, image, open, u) ==> Passed(v, image, open, u))
            && (NotBefore(w, image, level) ==> NotBefore(v, image, level))
            && (OnlyFirst(w, image) ==> OnlyFirst(v, image))
            && (Unreported(w, image, open) ==> Unreported(v, image, open))
  {
    var v := Lost(w);
    assert v.sent[..v.handled] == w.sent[..w.handled] + [w.sent[w.handled]];
    if w.unit.stored && Unreported(w, image, open) {
      var d :| d in open && Reports(w, image, d);
      assert Reports(v, image, d);
    }
  }

  /** All that an orderly link keeps while requests are outstanding. */
  ghost predicate Tracks(w: Wire, image: Bytes, open: set<Chunk>, u: nat, level: nat) {
    && Ordered(w, image) && LastOnce(w, image, open) && Passed(w, image, open, u) && NotBefore(w, image, level)
    && (forall c :: c in open ==> c in w.sent)
  }

  /** Only requests that are outstanding are sent again. */
  ghost predicate OnlyRepeats(w: Wire, v: Wire, open: set<Chunk>) {
    forall c :: c in v.sent ==> c in w.sent || c in open
  }

  /** A step back is ruled out, and so is an image stored without a report. */
  ghost predicate Advances(w: Wire, v: Wire, image: Bytes, open: set<Chunk>) {
    && (w.unit.stored ==> v.unit.stored)
    && Level(w.unit, image) <= Level(v.unit, image)
    && (OnlyFirst(w, image) ==> OnlyFirst(v, image))
    && (Unreported(w, image, open) && Level(w.unit, image) > 0 ==> Unreported(v, image, open))
  }

  lemma StandstillAdvances(w: Wire, image: Bytes, open: set<Chunk>)
    ensures Advances(w, w, image, open)
  {
  }

  lemma RepeatAdvances(w: Wire, image: Bytes, open: set<Chunk>, c: Chunk, u: nat, level: nat)
    requires Sound(w, image) && Tracks(w, image, open, u, level)
    requires c in open && !IsLast(c, image)
    ensures Tracks(Sent(w, c), image, open, u, level) && Advances(w, Sent(w, c), image, open)
  {
    SentReports(w, image, open, c);
    assert open + {c} == open;
  }

  lemma StepAdvances(w: Wire, image: Bytes, open: set<Chunk>, u: nat, level: nat)
    requires Sound(w, image) && Tracks(w, image, open, u, level) && w.handled < |w.sent|
    ensures Sound(Lost(w), image) && Tracks(Lost(w), image, open, u, level) && Advances(w, Lost(w), image, open)
    ensures var v := HandledNext(w, image);
            Sound(v, image) && Tracks(v, image, open, u, level) && Advances(w, v, image, open)
  {
    hide Ordered, LastOnce, Passed, NotBefore, OnlyFirst, Unreported;
    assert IsSettled(w.unit) by { OrderedIsSettled(w, image); }
    LostKeeps(w, image, open, u, level);
    HandledNextKeeps(w, image, open, u, level);
    HandledNextReports(w, image, open);
    HandleMoves(w.unit, image, w.sent[w.handled]);
  }

  lemma OrderedIsSettled(w: Wire, image: Bytes)
    requires Ordered(w, image)
    ensures IsSettled(w.unit)
  {
  }

  /** The unit and the link to it, orderly or not. */
  class Link {
    const image: Bytes
    const orderly: bool
    var wire: Wire
    /** What the requests came to, in the order in which the client was told. */
    ghost var record: seq<Reply>
    /** What the client sent; the link's repeats are not in it. */
    ghost var asked: seq<Submission>

    constructor (image: Bytes, unit: Unit, orderly: bool)
      requires IsPrefix(unit, image) && IsSettled(unit)
      ensures this.image == image && this.orderly == orderly && wire == Wire(unit, [], 0, [], 0)
      ensures record == [] && asked == []
    {
      this.image, this.orderly, wire := image, orderly, Wire(unit, [], 0, [], 0);
      record, asked := [], [];
    }

    method Send(c: Chunk)
      modifies `wire, `asked
      ensures wire == Sent(old(wire), c) && asked == old(asked) + [Submission(c, |record|)]
    {
      wire := Sent(wire, c);
      asked := asked + [Submission(c, |record|)];
    }

    /** One thing that happens between two answers: a request is sent again, is lost, or reaches the unit. */
    method Happen(open: set<Chunk>, ghost u: nat, ghost level: nat)
      requires Sound(wire, image)
      requires orderly ==> Tracks(wire, image, open, u, level)
      requires forall c :: c in open ==> c.off < c.end <= |image|
      modifies `wire
      ensures Sound(wire, image) && (old(wire.unit.stored) ==> wire.unit.stored) && OnlyRepeats(old(wire), wire, open)
      ensures orderly ==> Tracks(wire, image, open, u, level) && Advances(old(wire), wire, image, open)
    {
      hide Tracks, Advances;
      var isRepeat: bool := *;
      if isRepeat && open != {} {
        var c :| c in open;
        if !orderly || !IsLast(c, image) {
          if orderly { RepeatAdvances(wire, image, open, c, u, level); }
          wire := Sent(wire, c);
        } else {
          StandstillAdvances(wire, image, open);
        }
      } else if orderly {
        if wire.handled < |wire.sent| {
          StepAdvances(wire, image, open, u, level);
          if * {
            wire := Lost(wire);
          } else {
            wire := HandledNext(wire, image);
          }
        } else {
          StandstillAdvances(wire, image, open);
        }
      } else if |wire.sent| > 0 {
        if * {
          // The unit loses its transfer.
          wire := wire.(unit := wire.unit.(transfer := None));
        } else {
          var index: nat :| index < |wire.sent|;
          wire := Handled(wire, image, index);
        }
      }
    }

    /** Anything may happen, and then a request that is in flight ends one way or another. */
    method NextCompletion(open: set<Chunk>, ghost u: nat, ghost level: nat)
      returns (chunk: Chunk, completion: Completion, ghost reached: nat)
      requires Sound(wire, image) && open != {}
      requires orderly ==> Tracks(wire, image, open, u, level)
      requires forall c :: c in open ==> c.off < c.end <= |image|
      modifies this
      ensures Sound(wire, image) && (old(wire.unit.stored) ==> wire.unit.stored) && OnlyRepeats(old(wire), wire, open)
      ensures chunk in open && record == old(record) + [Reply(chunk, completion)] && asked == old(asked)
      ensures completion.Answered? ==> completion.off <= |image| && (completion.off == |image| ==> wire.unit.stored)
      ensures orderly && completion.Answered? ==>
                && Tracks(wire, image, open - {chunk}, u, reached)
                && level <= reached
                && (chunk.off == u ==> reached > u)
                && IsFair(Exchange(chunk, completion.off, reached), image)
      ensures orderly && completion.Answered? && old(OnlyFirst(wire, image)) ==>
                OnlyFirst(wire, image) && 0 < reached == Level(wire.unit, image) && completion.off == reached
      ensures orderly && completion.Answered? && completion.off < |image| && old(Level(wire.unit, image) > 0) ==>
                old(Unreported(wire, image, open)) ==> Unreported(wire, image, open - {chunk})
    {
      hide Ordered, LastOnce, Passed, NotBefore, OnlyFirst, Unreported, IsFair, IsPrefix;
      var events: nat := *;
      while events > 0
        invariant asked == old(asked)
        invariant Sound(wire, image) && (old(wire.unit.stored) ==> wire.unit.stored)
        invariant OnlyRepeats(old(wire), wire, open) && record == old(record)
        invariant orderly ==> Tracks(wire, image, open, u, level) && Advances(old(wire), wire, image, open)
      {
        Happen(open, u, level);
        events := events - 1;
      }
      reached := 0;
      chunk :| chunk in open;
      if * {
        completion := TimedOut;
      } else if * {
        completion := Refused;
      } else if * {
        completion := Unusable;
      } else if orderly {
        if i: nat :| wire.delivered <= i < |wire.log| && wire.log[i].chunk in open {
          chunk, completion, reached := wire.log[i].chunk, Answered(wire.log[i].answer), wire.log[i].level;
          DeliveredKeeps(wire, image, open, i, u, level);
          DeliveredReports(wire, image, open, i);
          wire := Delivered(wire, i);
        } else {
          completion := TimedOut;
        }
      } else if |wire.log| > 0 {
        var i: nat :| i < |wire.log|;
        completion := Answered(wire.log[i].answer);
      } else {
        completion := TimedOut;
      }
      record := record + [Reply(chunk, completion)];
    }
  }

  // ---- The upload itself ----

  datatype Outcome = Returned(start: nat) | UploadLost(afterLast: bool) | UnitRefused | Misled | Stalled | Running

  function LastReply(record: seq<Reply>): Reply
    requires |record| > 0
  {
    record[|record| - 1]
  }

  /** Every answer but the last was an offset within the image, or the upload would have ended there. */
  ghost predicate GoesOn(record: seq<Reply>, total: nat) {
    |record| > 0 && forall i :: 0 <= i < |record| ==> record[i].completion.Answered? && record[i].completion.off < total
  }

  /** At these places in the record, one after the other, the upload went back, each time no further on than before. */
  ghost predicate IsStall(record: seq<Reply>, rewinds: seq<nat>) {
    && |rewinds| == IMAGE_MAX_STALLS + 2 && rewinds[IMAGE_MAX_STALLS + 1] == |record| - 1
    && (forall i :: 0 <= i < |rewinds| ==> rewinds[i] < |record| && record[rewinds[i]].completion.Answered?)
    && (forall i :: 0 <= i < |rewinds| - 1 ==>
          rewinds[i] < rewinds[i + 1] && record[rewinds[i + 1]].completion.off <= record[rewinds[i]].completion.off)
  }

  ghost predicate HasStalled(record: seq<Reply>, rewinds: seq<nat>) {
    |rewinds| >= IMAGE_MAX_STALLS + 2 && IsStall(record, rewinds[|rewinds| - IMAGE_MAX_STALLS - 2..])
  }

  /** Answers to which the upload went back. */
  ghost predicate AreAnswers(record: seq<Reply>, rewinds: seq<nat>) {
    forall i :: 0 <= i < |rewinds| ==> rewinds[i] < |record| && record[rewinds[i]].completion.Answered?
  }

  /** From one time back to the next the unit came further. */
  ghost predicate IsFurther(record: seq<Reply>, rewinds: seq<nat>, i: nat)
    requires AreAnswers(record, rewinds) && i + 1 < |rewinds|
  {
    record[rewinds[i]].completion.off < record[rewinds[i + 1]].completion.off
  }

  /** It never went back so often in a row without the unit coming further that it had to stop. */
  ghost predicate HasNotStalled(record: seq<Reply>, rewinds: seq<nat>) {
    && AreAnswers(record, rewinds)
    && forall a :: 0 <= a < |rewinds| - IMAGE_MAX_STALLS - 1 ==> CameFurther(record, rewinds, a)
  }

  ghost predicate CameFurther(record: seq<Reply>, rewinds: seq<nat>, a: nat)
    requires AreAnswers(record, rewinds) && a < |rewinds| - IMAGE_MAX_STALLS - 1
  {
    exists i :: a <= i <= a + IMAGE_MAX_STALLS && IsFurther(record, rewinds, i)
  }

  /** The outcome is what the replies of the unit and the link come to. */
  ghost predicate IsEarned(outcome: Outcome, record: seq<Reply>, rewinds: seq<nat>, total: nat, patience: nat) {
    && (if outcome.Stalled? then HasStalled(record, rewinds) else HasNotStalled(record, rewinds))
    && |record| > 0 && (|record| > 1 ==> GoesOn(record[..|record| - 1], total))
    && var last := LastReply(record);
    match outcome
    case Returned(start) => last.completion == Answered(total) && record[0].completion == Answered(start)
    case UploadLost(afterLast) =>
      && last.completion == TimedOut
      && (afterLast ==> |record| > 1 && last.chunk.end == total)
      && (last.chunk.off != 0 && last.chunk.end == total ==> afterLast)
    case UnitRefused => last.completion == Refused
    case Misled => last.completion == Unusable
    case Stalled => GoesOn(record, total)
    case Running => GoesOn(record, total) && |record| > patience
  }

  lemma OpenKeeps(w: Wire, image: Bytes, open: set<Chunk>, c: Chunk, u: nat, level: nat)
    requires Sound(w, image) && Tracks(w, image, open, u, level)
    requires c.off < c.end <= |image| && c !in w.sent
    ensures Tracks(Sent(w, c), image, open + {c}, u, level)
    ensures Unreported(w, image, open) ==> Unreported(Sent(w, c), image, open + {c})
  {
    SentReports(w, image, open, c);
    forall i | 0 <= i < |w.log| ensures w.log[i].chunk != c {
      assert w.log[i].chunk in w.sent[..w.handled];
    }
  }

  /** The first chunk, alone. */
  method SendFirst(link: Link, firstSize: nat, number: nat) returns (completion: Completion)
    requires Sound(link.wire, link.image) && |link.image| > 0 && firstSize > 0
    requires link.orderly ==> link.wire == Wire(link.wire.unit, [], 0, [], 0) && IsSettled(link.wire.unit)
    modifies link
    ensures Sound(link.wire, link.image) && (old(link.wire.unit.stored) ==> link.wire.unit.stored)
    ensures completion.Answered? ==>
              completion.off <= |link.image| && (completion.off == |link.image| ==> link.wire.unit.stored)
    ensures forall c :: c in link.wire.sent ==> c in old(link.wire.sent) || c.number == number
    ensures exists c: Chunk ::
              && c.off == 0 && c.end == Min(firstSize, |link.image|)
              && link.asked == old(link.asked) + [Submission(c, |old(link.record)|)]
              && link.record == old(link.record) + [Reply(c, completion)]
    ensures link.orderly && completion.Answered? && completion.off < |link.image| ==>
              && Tracks(link.wire, link.image, {}, completion.off, completion.off)
              && Unreported(link.wire, link.image, {})
              && 0 < completion.off == Level(link.wire.unit, link.image)
  {
    var c := Chunk(number, 0, Min(firstSize, |link.image|));
    if link.orderly { OpenKeeps(link.wire, link.image, {}, c, 0, 0); }
    link.Send(c);
    assert {} + {c} == {c};
    var chunk;
    ghost var reached;
    chunk, completion, reached := link.NextCompletion({c}, 0, 0);
    assert {c} - {chunk} == {} && chunk == c;
  }

  /**
   * A round, on an orderly link: it began with the unit at `u`, and nothing of it is missing. `level` is how far the
   * unit was at the last answer; a round that is fresh has sent nothing yet.
   */
  ghost predicate Round(w: Wire, image: Bytes, open: set<Chunk>, u: nat, level: nat, unitOffset: nat, nextOffset: nat,
                        isFresh: bool) {
    && Tracks(w, image, open, u, level) && Unreported(w, image, open)
    && 0 < u <= level && u <= nextOffset
    && (unitOffset == level || (unitOffset == 0 && level == |image|))
    && (isFresh || level > u || exists c :: c in open && c.off == u)
    && (isFresh ==> open == {} && unitOffset == nextOffset == u)
    && |open| + |image| - nextOffset <= |image| - u
  }

  lemma SendKeepsRound(
    w: Wire, image: Bytes, open: set<Chunk>, u: nat, level: nat, unitOffset: nat, c: Chunk, isFresh: bool)
    requires Sound(w, image) && c.off < c.end <= |image| && c !in w.sent
    requires Round(w, image, open, u, level, unitOffset, c.off, isFresh)
    ensures Round(Sent(w, c), image, open + {c}, u, level, unitOffset, c.end, false)
  {
    OpenKeeps(w, image, open, c, u, level);
    if isFresh { assert c in open + {c} && c.off == u; }
    if d :| d in open && d.off == u { assert d in open + {c}; }
  }

  lemma RoundBegins(w: Wire, image: Bytes, off: nat)
    requires Tracks(w, image, {}, off, off) && Unreported(w, image, {}) && 0 < off <= |image|
    ensures Round(w, image, {}, off, off, off, off, true)
  {
  }

  lemma RoundTracks(w: Wire, image: Bytes, open: set<Chunk>, u: nat, level: nat, unitOffset: nat, nextOffset: nat,
                    isFresh: bool)
    requires Round(w, image, open, u, level, unitOffset, nextOffset, isFresh)
    ensures Tracks(w, image, open, u, level) && Unreported(w, image, open) && Level(w.unit, image) > 0
    ensures isFresh ==> open == {}
  {
  }

  /** A round that is over has advanced the unit, and the next one can begin where it stands. */
  lemma RoundAdvances(w: Wire, image: Bytes, u: nat, level: nat, unitOffset: nat, nextOffset: nat)
    requires Sound(w, image) && Round(w, image, {}, u, level, unitOffset, nextOffset, false)
    ensures unitOffset > u
    ensures Round(w, image, {}, unitOffset, unitOffset, unitOffset, unitOffset, true)
  {
    assert !w.unit.stored;
  }

  /** Chunks that follow one another from one offset to another. */
  ghost predicate Consecutive(chunks: seq<Chunk>, from: nat, to: nat)
    decreases |chunks|
  {
    if chunks == [] then from == to
    else
      var last := chunks[|chunks| - 1];
      last.end == to && Consecutive(chunks[..|chunks| - 1], from, last.off)
  }

  /** The window is filled with the chunks from `next0` on. */
  method FillWindow(
    link: Link, firstSize: nat, chunkSize: nat, window: nat, open0: set<Chunk>, next0: nat, number0: nat,
    isDraining: bool,
    ghost inRound: bool, ghost u: nat, ghost level: nat, ghost unitOffset: nat, ghost isFresh: bool
  ) returns (open: set<Chunk>, next: nat, number: nat)
    requires firstSize > 0 && chunkSize > 0 && next0 <= |link.image|
    requires Sound(link.wire, link.image) && AreOpen(link.wire, link.image, open0, number0)
    requires inRound ==> Round(link.wire, link.image, open0, u, level, unitOffset, next0, isFresh)
    requires IsAt(link.asked, link.record, Limits(firstSize, chunkSize, window, |link.image|), next0, isDraining,
                  isFresh)
    requires |link.asked| == |link.record| + |open0|
    modifies link`wire, link`asked
    ensures IsAt(link.asked, link.record, Limits(firstSize, chunkSize, window, |link.image|), next, isDraining,
                 isFresh && next == next0)
    ensures |link.asked| == |link.record| + |open|
    ensures Sound(link.wire, link.image) && AreOpen(link.wire, link.image, open, number)
    ensures exists more ::
              link.wire == old(link.wire).(sent := old(link.wire.sent) + more) && Consecutive(more, next0, next)
    ensures next0 <= next <= |link.image| && open0 <= open && (next0 < next ==> open != {})
    ensures isDraining || next == |link.image| || |open| >= window
    ensures isDraining ==> next == next0 && open == open0 && link.wire == old(link.wire)
    ensures |open| <= (if |open0| < window then window else |open0|) && (next == next0 ==> open == open0)
    ensures u <= |link.image| ==> Left(|link.image|, u, open, next) <= Left(|link.image|, u, open0, next0)
    ensures inRound ==> Round(link.wire, link.image, open, u, level, unitOffset, next, isFresh && next == next0)
  {
    hide Round, Sound, AreOpen, IsAt;
    var limits := Limits(firstSize, chunkSize, window, |link.image|);
    open, next, number := open0, next0, number0;
    ghost var more: seq<Chunk> := [];
    assert link.wire.sent + [] == link.wire.sent;
    while !isDraining && |open| < window && next < |link.image|
      invariant Sound(link.wire, link.image) && AreOpen(link.wire, link.image, open, number)
      invariant link.wire == old(link.wire).(sent := old(link.wire.sent) + more) && Consecutive(more, next0, next)
      invariant next0 <= next <= |link.image| && |open| - next <= |open0| - next0
      invariant |open| <= (if |open0| < window then window else |open0|) && (next == next0 ==> open == open0)
      invariant isDraining ==> next == next0 && open == open0 && link.wire == old(link.wire)
      invariant IsAt(link.asked, link.record, limits, next, isDraining, isFresh && next == next0)
      invariant |link.asked| == |link.record| + |open|
      invariant open0 <= open && (next0 < next ==> open != {})
      invariant inRound ==> Round(link.wire, link.image, open, u, level, unitOffset, next, isFresh && next == next0)
      decreases |link.image| - next
    {
      var c := Chunk(number, next, Min(next + (if next == 0 then firstSize else chunkSize), |link.image|));
      SentIsOpen(link.wire, link.image, open, c);
      if inRound { SendKeepsRound(link.wire, link.image, open, u, level, unitOffset, c, isFresh && next == next0); }
      MoreSent(old(link.wire.sent), more, c);
      SentIsAt(link.asked, link.record, c, limits, isFresh && next == next0);
      more := more + [c];
      link.Send(c);
      open, next, number := open + {c}, c.end, number + 1;
    }
  }

  lemma SentIsOpen(w: Wire, image: Bytes, open: set<Chunk>, c: Chunk)
    requires Sound(w, image) && AreOpen(w, image, open, c.number) && c.off < c.end <= |image|
    ensures Sound(Sent(w, c), image) && AreOpen(Sent(w, c), image, open + {c}, c.number + 1)
    ensures c !in w.sent && c !in open
  {
  }

  lemma MoreSent(sent: seq<Chunk>, more: seq<Chunk>, c: Chunk)
    ensures sent + more + [c] == sent + (more + [c]) && (more + [c])[..|more|] == more
  {
  }

  /** The outstanding requests are within the image, and every number that was used is below `number`. */
  ghost predicate AreOpen(w: Wire, image: Bytes, open: set<Chunk>, number: nat) {
    && (forall c :: c in open ==> c.off < c.end <= |image| && c.number < number)
    && (forall c :: c in w.sent ==> c.number < number)
  }

  /** The next reply to a request in flight, and what it does to the round. */
  method NextReply(
    link: Link, open: set<Chunk>, ghost number: nat, ghost nextOffset: nat, ghost u: nat, ghost level: nat,
    ghost unitOffset: nat, ghost isFresh: bool
  ) returns (chunk: Chunk, completion: Completion, ghost reached: nat)
    requires Sound(link.wire, link.image) && AreOpen(link.wire, link.image, open, number) && open != {}
    requires link.orderly ==>
               && Round(link.wire, link.image, open, u, level, unitOffset, nextOffset, isFresh)
               && nextOffset <= |link.image|
    modifies link
    ensures Sound(link.wire, link.image) && AreOpen(link.wire, link.image, open - {chunk}, number)
    ensures old(link.wire.unit.stored) ==> link.wire.unit.stored
    ensures chunk in open && chunk.end <= |link.image| && link.record == old(link.record) + [Reply(chunk, completion)]
    ensures link.asked == old(link.asked)
    ensures completion.Answered? ==>
              completion.off <= |link.image| && (completion.off == |link.image| ==> link.wire.unit.stored)
    ensures link.orderly && completion.Answered? && completion.off < |link.image| ==>
              && Round(link.wire, link.image, open - {chunk}, u, reached, completion.off, nextOffset, false)
              && u <= |link.image|
              && Left(|link.image|, u, open - {chunk}, nextOffset) < Left(|link.image|, u, open, nextOffset)
  {
    hide Round, Tracks, Unreported, Sound, AreOpen, OnlyRepeats, Left, IsFair;
    ghost var before := link.wire;
    if link.orderly { RoundTracks(before, link.image, open, u, level, unitOffset, nextOffset, isFresh); }
    OpenIsWithin(before, link.image, open, number);
    chunk, completion, reached := link.NextCompletion(open, u, level);
    RepeatsStayOpen(before, link.wire, link.image, open, chunk, number);
    if link.orderly && completion.Answered? && completion.off < |link.image| {
      AnswerKeepsRound(before, link.wire, link.image, open, chunk, u, level, unitOffset, nextOffset, reached,
                       completion.off);
    }
  }

  /** Where the upload stands: what it has been told, how often it went back, and what it has sent. */
  ghost predicate Stands(asked: seq<Submission>, record: seq<Reply>, rewinds: seq<nat>, limits: Limits, start: nat,
                         unitOffset: nat, nextOffset: nat, isDraining: bool, isFresh: bool, rewoundAt: int, stalls: nat)
  {
    && IsRecorded(record, limits.total, start, unitOffset)
    && AreRewinds(record, rewinds, rewoundAt, stalls) && (isFresh || IsPast(rewinds, record))
    && IsAt(asked, record, limits, nextOffset, isDraining, isFresh)
  }

  /** It waits for a reply. */
  ghost predicate Waits(asked: seq<Submission>, record: seq<Reply>, rewinds: seq<nat>, limits: Limits, start: nat,
                        unitOffset: nat, nextOffset: nat, isDraining: bool, rewoundAt: int, stalls: nat, open: nat)
  {
    && IsRecorded(record, limits.total, start, unitOffset) && AreRewinds(record, rewinds, rewoundAt, stalls)
    && IsAt(asked, record, limits, nextOffset, isDraining, false) && |asked| == |record| + open
    && (isDraining || nextOffset == limits.total || open >= limits.window)
  }

  /** The first chunk, and where the upload stands after it. */
  method Begin(link: Link, firstSize: nat, ghost limits: Limits, ghost patience: nat) returns (first: Completion)
    requires limits.firstSize == firstSize > 0 && limits.total == |link.image| > 0
    requires Sound(link.wire, link.image) && IsSettled(link.wire.unit)
    requires link.wire == Wire(link.wire.unit, [], 0, [], 0) && link.record == [] && link.asked == []
    modifies link
    ensures Sound(link.wire, link.image) && AreOpen(link.wire, link.image, {}, 1)
    ensures KeepsPace(link.asked, link.record, limits) && |link.asked| == |link.record| > 0
    ensures !first.Answered? ==> IsEarned(Failure(first, false), link.record, [], limits.total, patience)
    ensures first.Answered? ==>
              && first.off <= limits.total && (first.off == limits.total ==> link.wire.unit.stored)
              && Stands(link.asked, link.record, [], limits, first.off, first.off, first.off, false, true, -1, 0)
    ensures link.orderly && first.Answered? && first.off < limits.total ==>
              Round(link.wire, link.image, {}, first.off, first.off, first.off, first.off, true)
  {
    hide Round, Tracks, Unreported, Sound, AreOpen, IsSettled, IsRecorded, AreRewinds, IsEarned, IsAt, KeepsPace,
      HasNotStalled;
    ghost var idle := link.wire;
    NothingSentYet(idle, link.image);
    first := SendFirst(link, firstSize, 0);
    FirstStaysOpen(idle, link.wire, link.image, 0);
    assert link.record == [link.record[0]];
    FirstKeepsPace([], [], link.record[0].chunk, first, limits);
    if !first.Answered? {
      FirstFailureIsEarned(link.record[0], limits.total, patience);
      return;
    }
    FirstIsRecorded(link.record[0], limits.total);
    FirstIsAt([], [], link.record[0].chunk, first.off, limits);
    NoRewinds(link.record);
    if link.orderly && first.off < limits.total { RoundBegins(link.wire, link.image, first.off); }
  }

  /** The first chunk once more, where the unit has no transfer. */
  method BeginAgain(
    link: Link, firstSize: nat, number: nat, ghost limits: Limits, ghost patience: nat, ghost rewinds: seq<nat>,
    ghost start: nat, ghost stalls: nat
  ) returns (first: Completion)
    requires limits.firstSize == firstSize > 0 && limits.total == |link.image| > 0 && !link.orderly
    requires Sound(link.wire, link.image) && AreOpen(link.wire, link.image, {}, number)
    requires Stands(link.asked, link.record, rewinds, limits, start, 0, 0, false, true, 0, stalls)
    requires |link.asked| == |link.record|
    modifies link
    ensures Sound(link.wire, link.image) && AreOpen(link.wire, link.image, {}, number + 1)
    ensures KeepsPace(link.asked, link.record, limits) && |link.asked| == |link.record| > |old(link.record)|
    ensures !first.Answered? ==> IsEarned(Failure(first, false), link.record, rewinds, limits.total, patience)
    ensures first.Answered? ==>
              && first.off <= limits.total && (first.off == limits.total ==> link.wire.unit.stored)
              && Stands(link.asked, link.record, rewinds, limits, start, first.off, first.off, false, true, 0, stalls)
  {
    hide Sound, AreOpen, IsRecorded, AreRewinds, IsPast, IsEarned, IsAt, KeepsPace, HasNotStalled;
    ghost var before, sofar, said := link.wire, link.asked, link.record;
    first := SendFirst(link, firstSize, number);
    FirstStaysOpen(before, link.wire, link.image, number);
    ghost var reply := LastReply(link.record);
    FirstKeepsPace(sofar, said, reply.chunk, first, limits);
    if !first.Answered? {
      RewindsAre(said, rewinds, 0, stalls);
      FailureIsEarned(said, reply, rewinds, limits.total, start, 0, patience, false);
      return;
    }
    FirstIsAt(sofar, said, reply.chunk, first.off, limits);
    RewindsStay(said, reply, rewinds, 0, stalls);
    RecordGrows(said, reply, limits.total, start, 0);
  }

  /** Fills the window; then the upload waits for a reply, or everything was answered. */
  method Fill(
    link: Link, limits: Limits, open0: set<Chunk>, next0: nat, number0: nat, isDraining: bool,
    ghost inRound: bool, ghost u: nat, ghost level: nat, ghost unitOffset: nat, ghost isFresh: bool,
    ghost patience: nat, ghost rewinds: seq<nat>, ghost start: nat, ghost rewoundAt: int, ghost stalls: nat
  ) returns (open: set<Chunk>, next: nat, number: nat)
    requires limits.firstSize > 0 && limits.chunkSize > 0 && limits.window > 0 && limits.total == |link.image|
    requires next0 <= limits.total && unitOffset <= limits.total
    requires Sound(link.wire, link.image) && AreOpen(link.wire, link.image, open0, number0)
    requires inRound ==> Round(link.wire, link.image, open0, u, level, unitOffset, next0, isFresh)
    requires Stands(link.asked, link.record, rewinds, limits, start, unitOffset, next0, isDraining, isFresh, rewoundAt,
                    stalls)
    requires |link.asked| == |link.record| + |open0|
    requires isFresh ==> open0 == {} && next0 == unitOffset && !isDraining
    requires unitOffset == limits.total ==> isFresh
    modifies link`wire, link`asked
    ensures Sound(link.wire, link.image) && AreOpen(link.wire, link.image, open, number)
    ensures next0 <= next <= limits.total && link.wire.unit == old(link.wire.unit)
    ensures unitOffset == limits.total ==>
              && open == {} && IsEarned(Returned(start), link.record, rewinds, limits.total, patience)
              && KeepsPace(link.asked, link.record, limits)
    ensures unitOffset < limits.total && open != {} ==>
              Waits(link.asked, link.record, rewinds, limits, start, unitOffset, next, isDraining, rewoundAt, stalls,
                    |open|)
    ensures unitOffset < limits.total && open == {} ==>
              && Stands(link.asked, link.record, rewinds, limits, start, unitOffset, next, isDraining, false, rewoundAt,
                        stalls)
              && |link.asked| == |link.record| && (isDraining || next == limits.total) && !isFresh
    ensures u <= limits.total ==> Left(limits.total, u, open, next) <= Left(limits.total, u, open0, next0)
    ensures inRound ==>
              Round(link.wire, link.image, open, u, level, unitOffset, next, isFresh && unitOffset == limits.total)
  {
    hide Round, Sound, AreOpen, Left, IsRecorded, AreRewinds, IsPast, IsEarned, IsAt, KeepsPace, HasNotStalled,
      Consecutive;
    open, next, number := FillWindow(link, limits.firstSize, limits.chunkSize, limits.window, open0, next0, number0,
                                     isDraining, inRound, u, level, unitOffset, isFresh);
    AtKeepsPace(link.asked, link.record, limits, next, isDraining, isFresh && next == next0);
    if unitOffset == limits.total {
      RewindsAre(link.record, rewinds, rewoundAt, stalls);
      ReturnIsEarned(link.record, rewinds, limits.total, start, patience);
    }
  }

  /** The next reply, and where the upload stands after it, or why it ends. */
  method Listen(
    link: Link, open: set<Chunk>, ghost number: nat, ghost nextOffset: nat, ghost u: nat, ghost level: nat,
    ghost unitOffset: nat, ghost isFresh: bool, ghost limits: Limits, ghost patience: nat, ghost rewinds: seq<nat>,
    ghost start: nat, ghost isDraining: bool, ghost rewoundAt: int, ghost stalls: nat
  ) returns (chunk: Chunk, completion: Completion, ghost reached: nat)
    requires Sound(link.wire, link.image) && AreOpen(link.wire, link.image, open, number) && open != {}
    requires limits.total == |link.image| && unitOffset < limits.total && nextOffset <= limits.total
    requires link.orderly ==> Round(link.wire, link.image, open, u, level, unitOffset, nextOffset, isFresh)
    requires Waits(link.asked, link.record, rewinds, limits, start, unitOffset, nextOffset, isDraining, rewoundAt,
                   stalls, |open|)
    modifies link
    ensures Sound(link.wire, link.image) && AreOpen(link.wire, link.image, open - {chunk}, number)
    ensures chunk in open && |link.record| == |old(link.record)| + 1
    ensures |link.asked| == |link.record| + |open - {chunk}| && KeepsPace(link.asked, link.record, limits)
    ensures !completion.Answered? ==>
              IsEarned(Failure(completion, chunk.end >= limits.total), link.record, rewinds, limits.total, patience)
    ensures completion.Answered? ==>
              && completion.off <= limits.total && (completion.off == limits.total ==> link.wire.unit.stored)
              && Stands(link.asked, link.record, rewinds, limits, start, completion.off, nextOffset,
                        isDraining || completion.off != chunk.end, false, rewoundAt, stalls)
    ensures link.orderly && completion.Answered? && completion.off < limits.total ==>
              && Round(link.wire, link.image, open - {chunk}, u, reached, completion.off, nextOffset, false)
              && u <= limits.total
              && Left(limits.total, u, open - {chunk}, nextOffset) < Left(limits.total, u, open, nextOffset)
  {
    hide Round, Sound, AreOpen, Left, IsRecorded, AreRewinds, IsPast, IsEarned, IsAt, KeepsPace, HasNotStalled;
    ghost var said := link.record;
    chunk, completion, reached := NextReply(link, open, number, nextOffset, u, level, unitOffset, isFresh);
    ghost var reply := Reply(chunk, completion);
    ToldIsAt(link.asked, said, reply, limits, nextOffset, isDraining);
    if completion.Answered? {
      RewindsStay(said, reply, rewinds, rewoundAt, stalls);
      RecordGrows(said, reply, limits.total, start, unitOffset);
    } else {
      RewindsAre(said, rewinds, rewoundAt, stalls);
      FailureIsEarned(said, reply, rewinds, limits.total, start, unitOffset, patience, chunk.end >= limits.total);
    }
  }

  /** The window has drained: the upload goes back to where the unit stands, or has done so too often. */
  lemma GoesBack(asked: seq<Submission>, record: seq<Reply>, rewinds: seq<nat>, limits: Limits, start: nat,
                 unitOffset: nat, nextOffset: nat, isDraining: bool, rewoundAt: int, stalls: nat, patience: nat)
    requires Stands(asked, record, rewinds, limits, start, unitOffset, nextOffset, isDraining, false, rewoundAt, stalls)
    requires |asked| == |record| && unitOffset < limits.total && (isDraining || nextOffset == limits.total)
    ensures |record| > 0
    ensures var again := if unitOffset <= rewoundAt then stalls + 1 else 0;
            if again > IMAGE_MAX_STALLS then IsEarned(Stalled, record, rewinds + [|record| - 1], limits.total, patience)
            else Stands(asked, record, rewinds + [|record| - 1], limits, start, unitOffset, unitOffset, false, true,
                        unitOffset, again)
  {
    hide IsRecorded, AreRewinds, IsPast, IsAt, IsEarned, HasStalled;
    LastIsRecorded(record, limits.total, start, unitOffset);
    RestsAt(asked, record, limits, nextOffset, isDraining, unitOffset);
    RewindsNext(record, rewinds, rewoundAt, stalls, unitOffset);
    if (if unitOffset <= rewoundAt then stalls + 1 else 0) > IMAGE_MAX_STALLS {
      StallIsEarned(record, rewinds + [|record| - 1], limits.total, start, unitOffset, patience);
    }
  }

  lemma StandsIsEarned(asked: seq<Submission>, record: seq<Reply>, rewinds: seq<nat>, limits: Limits, start: nat,
                       unitOffset: nat, nextOffset: nat, isDraining: bool, isFresh: bool, rewoundAt: int, stalls: nat,
                       patience: nat)
    requires Stands(asked, record, rewinds, limits, start, unitOffset, nextOffset, isDraining, isFresh, rewoundAt,
                    stalls)
    ensures KeepsPace(asked, record, limits)
    ensures unitOffset == limits.total ==> IsEarned(Returned(start), record, rewinds, limits.total, patience)
  {
    hide IsRecorded, AreRewinds, IsPast, IsAt, KeepsPace, IsEarned, HasNotStalled;
    AtKeepsPace(asked, record, limits, nextOffset, isDraining, isFresh);
    RewindsAre(record, rewinds, rewoundAt, stalls);
    if unitOffset == limits.total { ReturnIsEarned(record, rewinds, limits.total, start, patience); }
  }

  /** The window has drained: the next round begins where the unit stands. */
  method GoBack(
    link: Link, limits: Limits, number0: nat, unitOffset: nat, nextOffset: nat, isDraining: bool, rewoundAt: int,
    stalls0: nat, ghost patience: nat, ghost rewinds0: seq<nat>, ghost start: nat, ghost u: nat, ghost level: nat
  ) returns (back: nat, ghost rewinds: seq<nat>, ended: Option<Outcome>, number: nat, stalls: nat)
    requires limits.firstSize > 0 && limits.total == |link.image| > 0
    requires Sound(link.wire, link.image) && AreOpen(link.wire, link.image, {}, number0)
    requires Stands(link.asked, link.record, rewinds0, limits, start, unitOffset, nextOffset, isDraining, false,
                    rewoundAt, stalls0)
    requires |link.asked| == |link.record|
    requires unitOffset < limits.total && nextOffset <= limits.total && (isDraining || nextOffset == limits.total)
    requires link.orderly ==>
               && Round(link.wire, link.image, {}, u, level, unitOffset, nextOffset, false)
               && u <= limits.total && rewoundAt <= u && stalls0 == 0
    modifies link
    ensures Sound(link.wire, link.image) && AreOpen(link.wire, link.image, {}, number)
    ensures |link.asked| == |link.record| >= |old(link.record)|
    ensures ended.Some? ==>
              && IsEarned(ended.value, link.record, rewinds, limits.total, patience) && !ended.value.Returned?
              && !ended.value.Running? && KeepsPace(link.asked, link.record, limits) && !link.orderly
    ensures ended.None? ==>
              && back <= limits.total && (back == limits.total ==> link.wire.unit.stored)
              && Stands(link.asked, link.record, rewinds, limits, start, back, back, false, true, unitOffset, stalls)
    ensures link.orderly ==>
              && back == unitOffset > u && stalls == 0
              && Round(link.wire, link.image, {}, back, back, back, back, true)
              && Left(limits.total, back, {}, back) < Left(limits.total, u, {}, nextOffset)
  {
    hide Round, Sound, AreOpen, Left, Stands, IsEarned, KeepsPace;
    back, number, ended := unitOffset, number0, None;
    if link.orderly {
      RoundAdvances(link.wire, link.image, u, level, unitOffset, nextOffset);
      LeftDrops(limits.total, u, nextOffset, unitOffset);
    }
    GoesBack(link.asked, link.record, rewinds0, limits, start, unitOffset, nextOffset, isDraining, rewoundAt, stalls0,
             patience);
    StandsIsEarned(link.asked, link.record, rewinds0, limits, start, unitOffset, nextOffset, isDraining, false,
                   rewoundAt, stalls0, patience);
    rewinds := rewinds0 + [|link.record| - 1];
    stalls := if unitOffset <= rewoundAt then stalls0 + 1 else 0;
    if stalls > IMAGE_MAX_STALLS {
      ended := Some(Stalled);
    } else if unitOffset == 0 {
      // Without a transfer at the unit the upload begins anew.
      var first := BeginAgain(link, limits.firstSize, number0, limits, patience, rewinds, start, stalls);
      number := number0 + 1;
      if first.Answered? {
        back := first.off;
      } else {
        ended := Some(Failure(first, false));
      }
    }
  }

  method SendImage(link: Link, firstSize: nat, chunkSize: nat, window: nat, patience: nat)
    returns (outcome: Outcome, ghost rewinds: seq<nat>)
    requires |link.image| > 0 && firstSize > 0 && chunkSize > 0 && window > 0
    requires Sound(link.wire, link.image) && IsSettled(link.wire.unit)
    requires link.wire == Wire(link.wire.unit, [], 0, [], 0) && link.record == [] && link.asked == []
    modifies link
    // How it ends is what the last reply says, and it never goes on after a reply that ends it. It stops as soon as it
    // went back too often in a row without the unit coming further, and only then.
    ensures IsEarned(outcome, link.record, rewinds, |link.image|, patience)
    // Every chunk was sent, and every reply awaited, when it should be.
    ensures KeepsPace(link.asked, link.record, Limits(firstSize, chunkSize, window, |link.image|))
    // In every run the unit holds a prefix of the image, and the upload returns only once the unit stored all of it.
    ensures Sound(link.wire, link.image)
    ensures outcome.Returned? ==> link.wire.unit.stored && outcome.start <= |link.image|
    // On an orderly link every round advances the unit: no stall, and an end within the bound.
    ensures link.orderly ==> outcome != Stalled
    ensures link.orderly && patience > |link.image| * (|link.image| + 2) ==> outcome != Running
  {
    hide Round, Tracks, Unreported, Sound, Consecutive, AreOpen, Left, IsSettled, Stands, Waits, IsEarned, KeepsPace;
    var total := |link.image|;
    var limits := Limits(firstSize, chunkSize, window, total);
    var first := Begin(link, firstSize, limits, patience);
    if !first.Answered? {
      return Failure(first, false), [];
    }
    var start := first.off;
    var number := 1;
    var open: set<Chunk> := {};
    var unitOffset: nat, nextOffset: nat, isDraining := start, start, false;
    var rewoundAt: int, stalls: nat := -1, 0;
    var answers: nat := patience;
    ghost var u: nat, level: nat, isFresh := start, start, true;
    rewinds := [];
    LeftAtFirst(total, start);

    while true
      invariant Sound(link.wire, link.image) && AreOpen(link.wire, link.image, open, number)
      invariant unitOffset <= total && nextOffset <= total && u <= total
      invariant unitOffset == total ==> isFresh && link.wire.unit.stored
      invariant isFresh ==> open == {} && !isDraining && nextOffset == unitOffset
      invariant Stands(link.asked, link.record, rewinds, limits, start, unitOffset, nextOffset, isDraining, isFresh,
                       rewoundAt, stalls)
      invariant |link.asked| == |link.record| + |open| && |link.record| > patience - answers
      invariant link.orderly && unitOffset < total ==>
                  && Round(link.wire, link.image, open, u, level, unitOffset, nextOffset, isFresh)
                  && rewoundAt <= u && stalls == 0
                  && Left(total, u, open, nextOffset) + (patience - answers) <= Left(total, start, {}, start)
      decreases answers, if isFresh then 0 else 1
    {
      open, nextOffset, number := Fill(
        link, limits, open, nextOffset, number, isDraining, link.orderly && unitOffset < total, u, level, unitOffset,
        isFresh, patience, rewinds, start, rewoundAt, stalls);
      if open == {} {
        if unitOffset >= total {
          return Returned(start), rewinds;
        }
        var ended, back;
        back, rewinds, ended, number, stalls := GoBack(
          link, limits, number, unitOffset, nextOffset, isDraining, rewoundAt, stalls, patience, rewinds, start, u,
          level);
        if ended.Some? {
          return ended.value, rewinds;
        }
        rewoundAt, isDraining, unitOffset := unitOffset, false, back;
        nextOffset := unitOffset;
        u, level, isFresh := unitOffset, unitOffset, true;
        continue;
      }

      if answers == 0 {
        RunEnds(link.asked, link.record, rewinds, limits, start, unitOffset, nextOffset, isDraining, rewoundAt, stalls,
                |open|, patience);
        return Running, rewinds;
      }
      answers := answers - 1;
      var chunk, completion;
      ghost var reached;
      chunk, completion, reached := Listen(link, open, number, nextOffset, u, level, unitOffset, false, limits,
                                           patience, rewinds, start, isDraining, rewoundAt, stalls);
      if !completion.Answered? {
        return Failure(completion, chunk.end >= total), rewinds;
      }
      open := open - {chunk};
      level, isFresh := reached, false;
      unitOffset := completion.off;
      if unitOffset >= total {
        StandsIsEarned(link.asked, link.record, rewinds, limits, start, unitOffset, nextOffset,
                       isDraining || unitOffset != chunk.end, false, rewoundAt, stalls, patience);
        return Returned(start), rewinds;
      }
      if unitOffset != chunk.end {
        isDraining := true;
      }
    }
  }

  /** A run that lasts no longer. */
  lemma RunEnds(asked: seq<Submission>, record: seq<Reply>, rewinds: seq<nat>, limits: Limits, start: nat,
                unitOffset: nat, nextOffset: nat, isDraining: bool, rewoundAt: int, stalls: nat, open: nat,
                patience: nat)
    requires Waits(asked, record, rewinds, limits, start, unitOffset, nextOffset, isDraining, rewoundAt, stalls, open)
    requires unitOffset < limits.total && |record| > patience
    ensures IsEarned(Running, record, rewinds, limits.total, patience) && KeepsPace(asked, record, limits)
  {
    hide IsRecorded, AreRewinds, IsAt, KeepsPace, IsEarned, HasNotStalled;
    RewindsAre(record, rewinds, rewoundAt, stalls);
    RunIsEarned(record, rewinds, limits.total, start, unitOffset, patience);
    AtKeepsPace(asked, record, limits, nextOffset, isDraining, false);
  }

  /** What is raised for a request that did not end with an offset. */
  function Failure(completion: Completion, afterLast: bool): Outcome
    requires !completion.Answered?
  {
    match completion
    case TimedOut => UploadLost(afterLast)
    case Refused => UnitRefused
    case Unusable => Misled
  }

  /** The first reply was `start` and the last one `off`, and none but the last the end of the image. */
  ghost predicate IsRecorded(record: seq<Reply>, total: nat, start: nat, off: nat) {
    && |record| > 0 && record[0].completion == Answered(start) && LastReply(record).completion == Answered(off)
    && (|record| > 1 ==> GoesOn(record[..|record| - 1], total)) && off <= total
  }

  lemma AllGoOn(record: seq<Reply>, total: nat, start: nat, off: nat)
    requires IsRecorded(record, total, start, off) && off < total
    ensures GoesOn(record, total)
  {
    forall i | 0 <= i < |record| ensures record[i].completion.Answered? && record[i].completion.off < total {
      if i < |record| - 1 {
        assert record[..|record| - 1][i] == record[i];
      }
    }
  }

  lemma RecordGrows(record: seq<Reply>, reply: Reply, total: nat, start: nat, off: nat)
    requires IsRecorded(record, total, start, off) && off < total
    requires reply.completion.Answered? && reply.completion.off <= total
    ensures IsRecorded(record + [reply], total, start, reply.completion.off)
  {
    AllGoOn(record, total, start, off);
    assert (record + [reply])[..|record|] == record;
  }

  lemma FirstIsRecorded(reply: Reply, total: nat)
    requires reply.completion.Answered? && reply.completion.off <= total
    ensures IsRecorded([reply], total, reply.completion.off, reply.completion.off)
  {
  }

  lemma FirstFailureIsEarned(reply: Reply, total: nat, patience: nat)
    requires !reply.completion.Answered? && reply.chunk.off == 0
    ensures IsEarned(Failure(reply.completion, false), [reply], [], total, patience)
  {
  }

  lemma FailureIsEarned(
    record: seq<Reply>, reply: Reply, rewinds: seq<nat>, total: nat, start: nat, off: nat, patience: nat,
    afterLast: bool)
    requires HasNotStalled(record, rewinds)
    requires IsRecorded(record, total, start, off) && off < total && !reply.completion.Answered?
    requires afterLast ==> reply.chunk.end == total
    requires reply.chunk.off != 0 && reply.chunk.end == total ==> afterLast
    ensures IsEarned(Failure(reply.completion, afterLast), record + [reply], rewinds, total, patience)
  {
    NotStalledStays(record, reply, rewinds);
    hide HasNotStalled;
    AllGoOn(record, total, start, off);
    assert (record + [reply])[..|record|] == record;
  }

  lemma ReturnIsEarned(record: seq<Reply>, rewinds: seq<nat>, total: nat, start: nat, patience: nat)
    requires IsRecorded(record, total, start, total) && HasNotStalled(record, rewinds)
    ensures IsEarned(Returned(start), record, rewinds, total, patience)
  {
  }

  lemma RunIsEarned(record: seq<Reply>, rewinds: seq<nat>, total: nat, start: nat, off: nat, patience: nat)
    requires IsRecorded(record, total, start, off) && off < total && |record| > patience
    requires HasNotStalled(record, rewinds)
    ensures IsEarned(Running, record, rewinds, total, patience)
  {
    hide HasNotStalled;
    AllGoOn(record, total, start, off);
  }

  lemma StallIsEarned(record: seq<Reply>, rewinds: seq<nat>, total: nat, start: nat, off: nat, patience: nat)
    requires IsRecorded(record, total, start, off) && off < total
    requires HasStalled(record, rewinds)
    ensures IsEarned(Stalled, record, rewinds, total, patience)
  {
    hide HasStalled;
    AllGoOn(record, total, start, off);
  }

  lemma LastIsRecorded(record: seq<Reply>, total: nat, start: nat, off: nat)
    requires IsRecorded(record, total, start, off)
    ensures |record| > 0 && LastReply(record).completion == Answered(off)
  {
  }

  /** The last of the places where the upload went back, and how often in a row it was no further on. */
  ghost predicate AreRewinds(record: seq<Reply>, rewinds: seq<nat>, rewoundAt: int, stalls: nat) {
    && HasNotStalled(record, rewinds) && AreLast(record, rewinds, rewoundAt, stalls)
    && stalls <= IMAGE_MAX_STALLS
  }

  ghost predicate AreLast(record: seq<Reply>, rewinds: seq<nat>, rewoundAt: int, stalls: nat)
    requires AreAnswers(record, rewinds)
  {
    && (rewoundAt == -1 <==> rewinds == []) && stalls <= Max(0, |rewinds| - 1)
    && (rewinds != [] ==> record[rewinds[|rewinds| - 1]].completion.off == rewoundAt)
    && (stalls < |rewinds| - 1 ==> IsFurther(record, rewinds, |rewinds| - 2 - stalls))
    && (forall i :: |rewinds| - 1 - stalls <= i < |rewinds| - 1 ==>
          rewinds[i] < rewinds[i + 1] && !IsFurther(record, rewinds, i))
  }

  /** Since the upload last went back it was told something. */
  predicate IsPast(rewinds: seq<nat>, record: seq<Reply>) {
    rewinds != [] ==> rewinds[|rewinds| - 1] < |record| - 1
  }

  lemma NoRewinds(record: seq<Reply>)
    ensures AreRewinds(record, [], -1, 0)
  {
  }

  lemma OneMoreRewind(record: seq<Reply>, rewinds: seq<nat>, rewoundAt: int, stalls: nat, off: nat)
    requires |record| > 0 && LastReply(record).completion == Answered(off)
    requires AreAnswers(record, rewinds) && AreLast(record, rewinds, rewoundAt, stalls) && IsPast(rewinds, record)
    ensures var next := rewinds + [|record| - 1];
            && AreAnswers(record, next)
            && AreLast(record, next, off, if off <= rewoundAt then stalls + 1 else 0)
            && forall i :: 0 <= i < |rewinds| - 1 ==> IsFurther(record, next, i) == IsFurther(record, rewinds, i)
  {
    var next := rewinds + [|record| - 1];
    forall i | 0 <= i < |rewinds| - 1 ensures IsFurther(record, next, i) == IsFurther(record, rewinds, i) {
    }
    assert rewinds != [] ==> (IsFurther(record, next, |rewinds| - 1) <==> rewoundAt < off);
    hide IsFurther;
    assert forall i :: 0 <= i < |rewinds| ==> next[i] == rewinds[i];
  }

  lemma StillNotStalled(record: seq<Reply>, rewinds: seq<nat>, last: nat, off: nat, again: nat)
    requires HasNotStalled(record, rewinds) && AreAnswers(record, rewinds + [last]) && again <= IMAGE_MAX_STALLS
    requires AreLast(record, rewinds + [last], off, again)
    requires forall i :: 0 <= i < |rewinds| - 1 ==>
               IsFurther(record, rewinds + [last], i) == IsFurther(record, rewinds, i)
    ensures HasNotStalled(record, rewinds + [last])
  {
    hide IsFurther;
    var next := rewinds + [last];
    forall a | 0 <= a < |next| - IMAGE_MAX_STALLS - 1 ensures CameFurther(record, next, a) {
      if a < |rewinds| - IMAGE_MAX_STALLS - 1 {
        assert CameFurther(record, rewinds, a);
        var i :| a <= i <= a + IMAGE_MAX_STALLS && IsFurther(record, rewinds, i);
        assert IsFurther(record, next, i);
      } else {
        assert IsFurther(record, next, |next| - 2 - again);
      }
    }
  }

  /** One more time back: no further on often enough is a stall. */
  lemma RewindsNext(record: seq<Reply>, rewinds: seq<nat>, rewoundAt: int, stalls: nat, off: nat)
    requires |record| > 0 && LastReply(record).completion == Answered(off)
    requires AreRewinds(record, rewinds, rewoundAt, stalls) && IsPast(rewinds, record)
    ensures var next, again := rewinds + [|record| - 1], if off <= rewoundAt then stalls + 1 else 0;
            if again <= IMAGE_MAX_STALLS then AreRewinds(record, next, off, again)
            else HasStalled(record, next)
  {
    hide AreLast, HasStalled, HasNotStalled;
    var next, again := rewinds + [|record| - 1], if off <= rewoundAt then stalls + 1 else 0;
    AnswersAre(record, rewinds);
    OneMoreRewind(record, rewinds, rewoundAt, stalls, off);
    if again <= IMAGE_MAX_STALLS {
      StillNotStalled(record, rewinds, |record| - 1, off, again);
    } else {
      LastAreStall(record, next, off, again);
    }
  }

  lemma RewindsAre(record: seq<Reply>, rewinds: seq<nat>, rewoundAt: int, stalls: nat)
    requires AreRewinds(record, rewinds, rewoundAt, stalls)
    ensures HasNotStalled(record, rewinds)
  {
  }

  lemma AnswersAre(record: seq<Reply>, rewinds: seq<nat>)
    requires HasNotStalled(record, rewinds)
    ensures AreAnswers(record, rewinds)
  {
  }

  lemma LastAreStall(record: seq<Reply>, next: seq<nat>, off: nat, again: nat)
    requires AreAnswers(record, next) && AreLast(record, next, off, again) && again == IMAGE_MAX_STALLS + 1
    requires next != [] && next[|next| - 1] == |record| - 1
    ensures HasStalled(record, next)
  {
    var n := |next| - IMAGE_MAX_STALLS - 2;
    var last := next[n..];
    forall i | 0 <= i < |last| - 1
      ensures last[i] < last[i + 1] && record[last[i + 1]].completion.off <= record[last[i]].completion.off
    {
      assert !IsFurther(record, next, n + i);
    }
  }

  lemma RewindsStay(said: seq<Reply>, reply: Reply, rewinds: seq<nat>, rewoundAt: int, stalls: nat)
    requires AreRewinds(said, rewinds, rewoundAt, stalls)
    ensures AreRewinds(said + [reply], rewinds, rewoundAt, stalls) && IsPast(rewinds, said + [reply])
  {
    hide HasNotStalled, AreLast;
    NotStalledStays(said, reply, rewinds);
    AnswersAre(said, rewinds);
    LastStay(said, reply, rewinds, rewoundAt, stalls);
  }

  lemma LastStay(said: seq<Reply>, reply: Reply, rewinds: seq<nat>, rewoundAt: int, stalls: nat)
    requires AreAnswers(said, rewinds) && AreLast(said, rewinds, rewoundAt, stalls)
    ensures AreAnswers(said + [reply], rewinds) && AreLast(said + [reply], rewinds, rewoundAt, stalls)
    ensures IsPast(rewinds, said + [reply])
  {
    var record := said + [reply];
    assert forall i :: 0 <= i < |said| ==> record[i] == said[i];
    forall i | 0 <= i < |rewinds| - 1 ensures IsFurther(record, rewinds, i) == IsFurther(said, rewinds, i) {
    }
  }

  lemma NotStalledStays(said: seq<Reply>, reply: Reply, rewinds: seq<nat>)
    requires HasNotStalled(said, rewinds)
    ensures HasNotStalled(said + [reply], rewinds)
  {
    var record := said + [reply];
    forall i | 0 <= i < |rewinds| - 1 ensures IsFurther(record, rewinds, i) == IsFurther(said, rewinds, i) {
    }
    hide IsFurther;
    forall a | 0 <= a < |rewinds| - IMAGE_MAX_STALLS - 1 ensures CameFurther(record, rewinds, a) {
      assert CameFurther(said, rewinds, a);
    }
  }

  lemma AnswerKeepsRound(
    w: Wire, v: Wire, image: Bytes, open: set<Chunk>, chunk: Chunk, u: nat, level: nat, unitOffset: nat,
    nextOffset: nat, reached: nat, off: nat)
    requires Sound(w, image) && chunk in open && nextOffset <= |image|
    requires Round(w, image, open, u, level, unitOffset, nextOffset, false)
    requires Tracks(v, image, open - {chunk}, u, reached) && Unreported(v, image, open - {chunk})
    requires level <= reached && (chunk.off == u ==> reached > u)
    requires IsFair(Exchange(chunk, off, reached), image)
    ensures Round(v, image, open - {chunk}, u, reached, off, nextOffset, false)
    ensures u <= |image| && Left(|image|, u, open - {chunk}, nextOffset) < Left(|image|, u, open, nextOffset)
  {
    if level == u && reached == u {
      var c :| c in open && c.off == u;
      assert c in open - {chunk};
    }
  }

  lemma NothingSentYet(w: Wire, image: Bytes)
    requires w.sent == []
    ensures AreOpen(w, image, {}, 0)
  {
  }

  lemma LeftAtFirst(total: nat, start: nat)
    requires start <= total
    ensures Left(total, start, {}, start) <= total * (total + 2)
  {
    LessTimes(total - start, total, total + 1);
  }

  lemma FirstStaysOpen(w: Wire, v: Wire, image: Bytes, number: nat)
    requires AreOpen(w, image, {}, number)
    requires forall c :: c in v.sent ==> c in w.sent || c.number == number
    ensures AreOpen(v, image, {}, number + 1)
  {
  }

  lemma OpenIsWithin(w: Wire, image: Bytes, open: set<Chunk>, number: nat)
    requires AreOpen(w, image, open, number)
    ensures forall c :: c in open ==> c.off < c.end <= |image|
  {
  }

  lemma RepeatsStayOpen(w: Wire, v: Wire, image: Bytes, open: set<Chunk>, chunk: Chunk, number: nat)
    requires AreOpen(w, image, open, number) && OnlyRepeats(w, v, open)
    ensures AreOpen(v, image, open - {chunk}, number)
  {
  }

  lemma LeftDrops(total: nat, u: nat, nextOffset: nat, unitOffset: nat)
    requires u < unitOffset <= total && nextOffset <= total
    ensures Left(total, unitOffset, {}, unitOffset) < Left(total, u, {}, nextOffset)
  {
    LessTimes(total - unitOffset, total - u, total + 1);
  }

  /** The answers a round and those after it take at most. */
  function Left(total: nat, u: nat, open: set<Chunk>, nextOffset: nat): nat
    requires u <= total && nextOffset <= total
  {
    (total - u) * (total + 1) + |open| + total - nextOffset
  }
}
