/**
 * SMP over CAN: a packet is cut into frames `[S | sequence][data]`, and the receiver rebuilds it. Time is a
 * count of milliseconds that comes with each frame.
 */
module CanFraming {
  import opened Common

  const START_FLAG := 0x80
  const SEQUENCE_COUNT := 0x80      // SEQUENCE_MASK + 1
  const SMP_HEADER_SIZE := 8
  const REASSEMBLY_TIMEOUT := 100

  /** The CAN FD lengths past eight bytes. */
  function PaddedSize(size: nat, isCanFd: bool): (n: nat)
    requires size <= 64
    ensures size <= n <= 64
    ensures !isCanFd ==> n == size
  {
    if !isCanFd || size <= 8 then size
    else if size <= 12 then 12
    else if size <= 16 then 16
    else if size <= 20 then 20
    else if size <= 24 then 24
    else if size <= 32 then 32
    else if size <= 48 then 48
    else 64
  }

  function DataSize(isCanFd: bool): nat { if isCanFd then 63 else 7 }

  function FrameCount(packet: Bytes, isCanFd: bool): nat {
    (|packet| + DataSize(isCanFd) - 1) / DataSize(isCanFd)
  }

  lemma FrameSpan(packet: Bytes, isCanFd: bool, k: nat)
    requires k < FrameCount(packet, isCanFd)
    ensures k * DataSize(isCanFd) < |packet|
    ensures k + 1 < FrameCount(packet, isCanFd) ==> (k + 1) * DataSize(isCanFd) < |packet|
    ensures k + 1 == FrameCount(packet, isCanFd) ==> |packet| <= (k + 1) * DataSize(isCanFd)
  {
  }

  function Zeros(n: nat): Bytes { seq(n, _ => 0) }

  /** The part of the packet the k-th frame carries. */
  function Chunk(packet: Bytes, isCanFd: bool, k: nat): (c: Bytes)
    requires k < FrameCount(packet, isCanFd)
    ensures 1 <= |c| <= DataSize(isCanFd)
  {
    FrameSpan(packet, isCanFd, k);
    var ds := DataSize(isCanFd);
    packet[k * ds..Min(|packet|, (k + 1) * ds)]
  }

  function Frame(packet: Bytes, isCanFd: bool, k: nat): Bytes
    requires k < FrameCount(packet, isCanFd)
  {
    var control: byte := (if k == 0 then START_FLAG else 0) + k % SEQUENCE_COUNT;
    var frame: Bytes := [control] + Chunk(packet, isCanFd, k);
    frame + Zeros(PaddedSize(|frame|, isCanFd) - |frame|)
  }

  /** The lengths of data that a CAN FD frame can have. */
  predicate IsCanFdLength(n: nat) { n <= 8 || n in {12, 16, 20, 24, 32, 48, 64} }

  /**
   * A frame holds its control byte, its part of the packet and then zeros, as many as bring it to the least length
   * that it can have: any up to eight without CAN FD.
   */
  lemma FrameIsLeast(packet: Bytes, isCanFd: bool, k: nat, n: nat)
    requires k < FrameCount(packet, isCanFd)
    ensures var frame, size := Frame(packet, isCanFd, k), 1 + |Chunk(packet, isCanFd, k)|;
            && IsCanFdLength(|frame|) && (!isCanFd ==> |frame| <= 8)
            && (IsCanFdLength(n) && n >= size ==> size <= |frame| <= n)
            && (frame[0] >= START_FLAG <==> k == 0) && frame[0] % SEQUENCE_COUNT == k % SEQUENCE_COUNT
            && frame[1..size] == Chunk(packet, isCanFd, k)
            && forall i :: size <= i < |frame| ==> frame[i] == 0
  {
    hide Chunk, FrameCount;
  }

  method EncodeFrames(packet: Bytes, isCanFd: bool) returns (frames: seq<Bytes>)
    ensures frames == seq(FrameCount(packet, isCanFd),
                          k requires 0 <= k < FrameCount(packet, isCanFd) => Frame(packet, isCanFd, k))
  {
    hide Zeros, PaddedSize;
    var dataSize := DataSize(isCanFd);
    frames := [];
    var offset := 0;
    while offset < |packet|
      invariant offset == |frames| * dataSize
      invariant |frames| <= FrameCount(packet, isCanFd)
      invariant forall k :: 0 <= k < |frames| ==> frames[k] == Frame(packet, isCanFd, k)
    {
      var index := |frames|;
      var control: byte := (if offset == 0 then START_FLAG else 0) + index % SEQUENCE_COUNT;
      var frame: Bytes := [control] + packet[offset..Min(|packet|, offset + dataSize)];
      assert frame == [control] + Chunk(packet, isCanFd, index);
      var padding := Zeros(PaddedSize(|frame|, isCanFd) - |frame|);
      frames := frames + [frame + padding];
      offset := offset + dataSize;
    }
  }

  datatype State = State(buffer: Option<Bytes>, sequence: nat, last: nat)

  datatype Event = Event(frame: Bytes, at: nat)

  /** What one frame does to the receiver: its new state, and the packet the frame completed. */
  function Accepted(s: State, data: Bytes, now: nat): (State, Option<Bytes>) {
    var buffer := if s.buffer.Some? && now - s.last > REASSEMBLY_TIMEOUT then None else s.buffer;
    if data == [] then
      (s.(buffer := buffer), None)
    else
      var isStart := data[0] >= START_FLAG;
      var started := if isStart then Some([]) else buffer;
      var sequence := if isStart then 0 else s.sequence;
      if started.None? || data[0] % SEQUENCE_COUNT != sequence then
        (State(None, sequence, s.last), None)
      else
        var grown: Bytes := started.value + data[1..];
        var next := State(Some(grown), (sequence + 1) % SEQUENCE_COUNT, now);
        if |grown| < SMP_HEADER_SIZE then (next, None)
        else
          var size := SMP_HEADER_SIZE + FromBe16(grown[2], grown[3]);
          if |grown| < size then (next, None)
          else (next.(buffer := None), Some(grown[..size]))
  }

  /** The receiving end for one sender: a packet is kept only while each frame is the next one, and in time. */
  class Reassembler {
    var buffer: Option<Bytes>
    var sequence: nat
    var last: nat

    ghost function Contents(): State
      reads this
    {
      State(buffer, sequence, last)
    }

    constructor ()
      ensures Contents() == State(None, 0, 0)
    {
      buffer, sequence, last := None, 0, 0;
    }

    method Accept(data: Bytes, now: nat) returns (packet: Option<Bytes>)
      modifies this
      ensures (Contents(), packet) == Accepted(old(Contents()), data, now)
    {
      if buffer.Some? && now - last > REASSEMBLY_TIMEOUT {
        buffer := None;
      }
      if data == [] {
        return None;
      }

      var control := data[0];
      if control >= START_FLAG {
        buffer := Some([]);
        sequence := 0;
      }
      if buffer.None? || control % SEQUENCE_COUNT != sequence {
        buffer := None;
        return None;
      }

      var grown: Bytes := buffer.value + data[1..];
      buffer := Some(grown);
      sequence := (sequence + 1) % SEQUENCE_COUNT;
      last := now;

      if |grown| < SMP_HEADER_SIZE {
        return None;
      }
      var size := SMP_HEADER_SIZE + FromBe16(grown[2], grown[3]);
      if |grown| < size {
        return None;
      }

      // The last frame may be longer than what is missing.
      packet := Some(grown[..size]);
      buffer := None;
    }

    /** Everything one stream of frames completes, as the receiving loop collects it. */
    method AcceptAll(events: seq<Event>) returns (packets: seq<Bytes>)
      modifies this
      ensures (Contents(), packets) == Delivered(old(Contents()), events)
    {
      packets := [];
      for i := 0 to |events|
        invariant (Contents(), packets) == Delivered(old(Contents()), events[..i])
      {
        assert events[..i + 1][..i] == events[..i];
        var packet := Accept(events[i].frame, events[i].at);
        packets := packets + ToSeq(packet);
      }
      assert events[..|events|] == events;
    }
  }

  function ToSeq(packet: Option<Bytes>): seq<Bytes> {
    if packet.None? then [] else [packet.value]
  }

  /** A run of the receiver: where it ends, and the packets it emitted. */
  function Delivered(s: State, events: seq<Event>): (State, seq<Bytes>)
    decreases |events|
  {
    if events == [] then (s, [])
    else
      var (before, packets) := Delivered(s, events[..|events| - 1]);
      var last := events[|events| - 1];
      var (after, packet) := Accepted(before, last.frame, last.at);
      (after, packets + ToSeq(packet))
  }

  lemma {:induction false} DeliveredAppend(s: State, a: seq<Event>, b: seq<Event>)
    ensures Delivered(s, a + b).0 == Delivered(Delivered(s, a).0, b).0
    ensures Delivered(s, a + b).1 == Delivered(s, a).1 + Delivered(Delivered(s, a).0, b).1
    decreases |b|
  {
    if b == [] {
      assert a + b == a;
    } else {
      var front := b[..|b| - 1];
      assert (a + b)[..|a + b| - 1] == a + front;
      DeliveredAppend(s, a, front);
    }
  }

  /** One packet on the wire: which of its frames arrive, in order, and when. */
  datatype Transmission = Transmission(packet: Bytes, isCanFd: bool, kept: seq<nat>, times: seq<nat>)

  /** The length in the SMP header is the packet's. */
  ghost predicate HeaderMatches(packet: Bytes) {
    |packet| >= SMP_HEADER_SIZE && |packet| == SMP_HEADER_SIZE + FromBe16(packet[2], packet[3])
  }

  ghost predicate IsIntact(t: Transmission) { |t.kept| == FrameCount(t.packet, t.isCanFd) }

  /** The frames of an intact packet come within the timeout of each other, the first `n` of them. */
  ghost predicate IsTimely(t: Transmission, n: nat) {
    forall j :: 0 < j < n && j < |t.times| ==> t.times[j] - t.times[j - 1] <= REASSEMBLY_TIMEOUT
  }

  /** Any frames may be lost, and they may come at any time. */
  ghost predicate IsSent(t: Transmission) {
    && HeaderMatches(t.packet)
    && |t.kept| == |t.times|
    && (forall j :: 0 <= j < |t.kept| ==> t.kept[j] < FrameCount(t.packet, t.isCanFd))
    && (forall i, j :: 0 <= i < j < |t.kept| ==> t.kept[i] < t.kept[j])
  }

  ghost predicate HasStart(t: Transmission) { |t.kept| > 0 && t.kept[0] == 0 }

  ghost predicate IsStarted(t: Transmission) { IsSent(t) && HasStart(t) }

  /** No frame was lost, and none was late. */
  ghost predicate IsWell(t: Transmission) { IsIntact(t) && IsTimely(t, |t.times|) }

  function Events(t: Transmission): (events: seq<Event>)
    requires |t.kept| == |t.times|
    requires forall j :: 0 <= j < |t.kept| ==> t.kept[j] < FrameCount(t.packet, t.isCanFd)
    ensures |events| == |t.kept|
  {
    seq(|t.kept|, j requires 0 <= j < |t.kept| => Event(Frame(t.packet, t.isCanFd, t.kept[j]), t.times[j]))
  }

  lemma KeptBounds(t: Transmission, j: nat)
    requires IsSent(t)
    requires j < |t.kept|
    ensures j <= t.kept[j] <= FrameCount(t.packet, t.isCanFd) - (|t.kept| - j)
    decreases j
  {
    KeptLow(t, j);
    KeptHigh(t, j);
  }

  lemma {:induction false} KeptLow(t: Transmission, j: nat)
    requires IsSent(t)
    requires j < |t.kept|
    ensures j <= t.kept[j]
  {
    if j == 0 {
    } else {
      KeptLow(t, j - 1);
    }
  }

  lemma {:induction false} KeptHigh(t: Transmission, j: nat)
    requires IsSent(t)
    requires j < |t.kept|
    ensures t.kept[j] <= FrameCount(t.packet, t.isCanFd) - (|t.kept| - j)
    decreases |t.kept| - j
  {
    if j + 1 >= |t.kept| {
    } else {
      KeptHigh(t, j + 1);
    }
  }

  /** What the receiver holds after the first j frames of a transmission, before the last one. */
  ghost predicate Holding(t: Transmission, j: nat, s: State)
    requires IsStarted(t)
    requires 0 < j <= |t.kept|
  {
    var ds := DataSize(t.isCanFd);
    && (s.buffer.Some? ==>
          && 4 <= |s.buffer.value| <= j * ds
          && s.buffer.value[2..4] == t.packet[2..4]
          && IsTimely(t, j) && s.last == t.times[j - 1])
    && (IsIntact(t) && IsTimely(t, j) ==>
          && j * ds < |t.packet|
          && s == State(Some(t.packet[..j * ds]), j % SEQUENCE_COUNT, t.times[j - 1]))
  }

  lemma FrameData(packet: Bytes, isCanFd: bool, k: nat)
    requires k < FrameCount(packet, isCanFd)
    ensures var f := Frame(packet, isCanFd, k);
            && |f| > 0
            && (f[0] >= START_FLAG <==> k == 0)
            && f[0] % SEQUENCE_COUNT == k % SEQUENCE_COUNT
            && |f[1..]| <= DataSize(isCanFd)
            && |Chunk(packet, isCanFd, k)| <= |f[1..]|
            && f[1..][..|Chunk(packet, isCanFd, k)|] == Chunk(packet, isCanFd, k)
            && (k + 1 < FrameCount(packet, isCanFd) ==> f[1..] == Chunk(packet, isCanFd, k))
  {
    FrameSpan(packet, isCanFd, k);
    var c := Chunk(packet, isCanFd, k);
    var frame: Bytes := [Frame(packet, isCanFd, k)[0]] + c;
    assert Frame(packet, isCanFd, k)[1..] == c + Zeros(PaddedSize(|frame|, isCanFd) - |frame|);
    if k + 1 < FrameCount(packet, isCanFd) {
      assert |c| == DataSize(isCanFd);
    }
  }

  lemma FirstFrame(t: Transmission, s: State)
    requires IsStarted(t)
    requires |t.packet| > DataSize(t.isCanFd)
    ensures Accepted(s, Events(t)[0].frame, t.times[0]).1.None?
    ensures Holding(t, 1, Accepted(s, Events(t)[0].frame, t.times[0]).0)
  {
    hide Frame, Zeros, PaddedSize;
    FrameData(t.packet, t.isCanFd, 0);
    FrameSpan(t.packet, t.isCanFd, 0);
    var data := Events(t)[0].frame[1..];
    var grown: Bytes := [] + data;
    assert grown == t.packet[..DataSize(t.isCanFd)];
    assert grown[2..4] == t.packet[2..4];
    assert grown[2] == t.packet[2] && grown[3] == t.packet[3];
  }

  /** A frame that is not the first: it is dropped with what is held, or added to it. */
  lemma ContinueFrame(s: State, f: Bytes, now: nat)
    requires f != [] && f[0] < START_FLAG
    requires s.buffer.Some? ==>
               && |s.buffer.value| >= 4
               && |s.buffer.value| + |f[1..]| < SMP_HEADER_SIZE + FromBe16(s.buffer.value[2], s.buffer.value[3])
    ensures Accepted(s, f, now).1.None?
    ensures var next := Accepted(s, f, now).0;
            next.buffer.Some? ==>
              && s.buffer.Some? && next.buffer == Some(s.buffer.value + f[1..])
              && now - s.last <= REASSEMBLY_TIMEOUT && next.last == now
    ensures s.buffer.Some? && now - s.last <= REASSEMBLY_TIMEOUT && f[0] == s.sequence ==>
              Accepted(s, f, now).0 == State(Some(s.buffer.value + f[1..]), (s.sequence + 1) % SEQUENCE_COUNT, now)
  {
  }

  lemma NextFrame(t: Transmission, j: nat, s: State)
    requires IsStarted(t)
    requires 0 < j < |t.kept|
    requires j + 1 < FrameCount(t.packet, t.isCanFd)
    requires Holding(t, j, s)
    ensures Accepted(s, Frame(t.packet, t.isCanFd, t.kept[j]), t.times[j]).1.None?
    ensures Holding(t, j + 1, Accepted(s, Frame(t.packet, t.isCanFd, t.kept[j]), t.times[j]).0)
  {
    hide Accepted, Frame, Chunk, FromBe16, FrameCount, DataSize, Holding;
    var f := Frame(t.packet, t.isCanFd, t.kept[j]);
    NextData(t, j);
    HeldIsShort(t, j, s, f[1..]);
    ContinueFrame(s, f, t.times[j]);
    if IsIntact(t) {
      GrowIntact(t, j, f);
    }
    TimelyNext(t, j);
    HeldGrows(t, j, s, f, Accepted(s, f, t.times[j]).0);
  }

  lemma TimelyNext(t: Transmission, j: nat)
    requires 0 < j < |t.times|
    ensures IsTimely(t, j + 1) <==> IsTimely(t, j) && t.times[j] - t.times[j - 1] <= REASSEMBLY_TIMEOUT
  {
  }

  lemma NextData(t: Transmission, j: nat)
    requires IsStarted(t)
    requires 0 < j < |t.kept| && j + 1 < FrameCount(t.packet, t.isCanFd)
    ensures var f, ds := Frame(t.packet, t.isCanFd, t.kept[j]), DataSize(t.isCanFd);
            && f != [] && f[0] < START_FLAG && f[0] == t.kept[j] % SEQUENCE_COUNT && |f[1..]| <= ds
            && j * ds + ds == (j + 1) * ds < |t.packet|
            && 4 <= ds && (IsIntact(t) ==> t.kept[j] == j)
  {
    hide Frame, Chunk, FrameCount;
    KeptBounds(t, j);
    FrameData(t.packet, t.isCanFd, t.kept[j]);
    FrameSpan(t.packet, t.isCanFd, j + 1);
  }

  lemma HeldIsShort(t: Transmission, j: nat, s: State, data: Bytes)
    requires IsStarted(t) && 0 < j < |t.kept| && Holding(t, j, s)
    requires var ds := DataSize(t.isCanFd); |data| <= ds && j * ds + ds < |t.packet|
    ensures s.buffer.Some? ==>
              && |s.buffer.value| >= 4
              && |s.buffer.value| + |data| < SMP_HEADER_SIZE + FromBe16(s.buffer.value[2], s.buffer.value[3])
  {
    hide FromBe16, FrameCount, DataSize;
    if s.buffer.Some? {
      HeldHeader(s.buffer.value, t.packet, data);
    }
  }

  lemma HeldGrows(t: Transmission, j: nat, s: State, f: Bytes, next: State)
    requires IsStarted(t) && 0 < j < |t.kept| && Holding(t, j, s)
    requires f != [] && 4 <= DataSize(t.isCanFd)
    requires var ds := DataSize(t.isCanFd); |f[1..]| <= ds && j * ds + ds == (j + 1) * ds < |t.packet|
    requires IsTimely(t, j + 1) <==> IsTimely(t, j) && t.times[j] - t.times[j - 1] <= REASSEMBLY_TIMEOUT
    requires next.buffer.Some? ==>
               && s.buffer.Some? && next.buffer == Some(s.buffer.value + f[1..])
               && t.times[j] - s.last <= REASSEMBLY_TIMEOUT && next.last == t.times[j]
    requires s.buffer.Some? && t.times[j] - s.last <= REASSEMBLY_TIMEOUT && f[0] == s.sequence ==>
               next == State(Some(s.buffer.value + f[1..]), (s.sequence + 1) % SEQUENCE_COUNT, t.times[j])
    requires IsIntact(t) ==>
               && f[0] == j % SEQUENCE_COUNT
               && var ds := DataSize(t.isCanFd); t.packet[..j * ds] + f[1..] == t.packet[..(j + 1) * ds]
    ensures Holding(t, j + 1, next)
  {
    hide FromBe16, FrameCount, DataSize, IsTimely;
    if s.buffer.Some? {
      HeldHeader(s.buffer.value, t.packet, f[1..]);
    }
    NextSequence(j);
  }

  lemma NextSequence(j: nat)
    ensures (j % SEQUENCE_COUNT + 1) % SEQUENCE_COUNT == (j + 1) % SEQUENCE_COUNT
  {
  }

  /** What is held begins with the packet's header, and so does what it grows to. */
  lemma HeldHeader(held: Bytes, packet: Bytes, more: Bytes)
    requires |held| >= 4 && |packet| >= 4 && held[2..4] == packet[2..4]
    ensures held[2] == packet[2] && held[3] == packet[3] && (held + more)[2..4] == packet[2..4]
  {
    assert held[2] == held[2..4][0] && held[3] == held[2..4][1];
    assert packet[2] == packet[2..4][0] && packet[3] == packet[2..4][1];
    assert (held + more)[2..4] == held[2..4];
  }

  lemma GrowIntact(t: Transmission, j: nat, f: Bytes)
    requires IsStarted(t) && IsIntact(t)
    requires 0 < j < |t.kept| && j + 1 < FrameCount(t.packet, t.isCanFd)
    requires t.kept[j] == j && f == Frame(t.packet, t.isCanFd, j)
    ensures var ds := DataSize(t.isCanFd);
            j * ds <= (j + 1) * ds < |t.packet| && t.packet[..j * ds] + f[1..] == t.packet[..(j + 1) * ds]
  {
    FrameData(t.packet, t.isCanFd, j);
    FrameSpan(t.packet, t.isCanFd, j);
  }

  /** The frame that completes a packet, the first one or a later one in time. */
  lemma CompletingFrame(s: State, f: Bytes, now: nat, packet: Bytes)
    requires f != [] && HeaderMatches(packet)
    requires f[0] < START_FLAG ==> s.buffer.Some? && now - s.last <= REASSEMBLY_TIMEOUT && f[0] == s.sequence
    requires f[0] >= START_FLAG ==> f[0] % SEQUENCE_COUNT == 0
    requires var grown: Bytes := (if f[0] < START_FLAG then s.buffer.value else []) + f[1..];
             packet <= grown
    ensures Accepted(s, f, now).1 == Some(packet)
  {
    hide FromBe16;
    var grown: Bytes := (if f[0] < START_FLAG then s.buffer.value else []) + f[1..];
    assert grown[2] == packet[2] && grown[3] == packet[3] && grown[..|packet|] == packet;
  }

  /** The last frame of an intact packet completes it, unless it or one before it was late. */
  lemma LastFrame(t: Transmission, s: State)
    requires IsStarted(t) && IsIntact(t)
    requires |t.kept| > 1
    requires Holding(t, |t.kept| - 1, s)
    ensures Accepted(s, Events(t)[|t.kept| - 1].frame, t.times[|t.kept| - 1]).1 ==
            if IsWell(t) then Some(t.packet) else None
  {
    hide Frame, Chunk, FrameCount, DataSize, Accepted;
    var j := |t.kept| - 1;
    LastChunk(t);
    TimelyNext(t, j);
    var f := Frame(t.packet, t.isCanFd, j);
    assert Events(t)[j].frame == f;
    if IsWell(t) {
      WholePacket(t.packet, j * DataSize(t.isCanFd), f[1..]);
      CompletingFrame(s, f, t.times[j], t.packet);
    } else {
      LateFrame(s, f, t.times[j]);
    }
  }

  /** A frame that is no start has nothing to continue. */
  lemma LateFrame(s: State, f: Bytes, now: nat)
    requires f != [] && f[0] < START_FLAG && (s.buffer.Some? ==> now - s.last > REASSEMBLY_TIMEOUT)
    ensures Accepted(s, f, now).1.None? && Accepted(s, f, now).0.buffer.None?
  {
  }

  lemma LastChunk(t: Transmission)
    requires IsStarted(t) && IsIntact(t) && |t.kept| > 1
    ensures var j, ds := |t.kept| - 1, DataSize(t.isCanFd);
            var f := Frame(t.packet, t.isCanFd, j);
            && f != [] && f[0] < START_FLAG && f[0] == j % SEQUENCE_COUNT
            && var data := f[1..];
            && t.kept[j] == j && j * ds < |t.packet| <= j * ds + |data|
            && data[..|t.packet| - j * ds] == t.packet[j * ds..]
  {
    hide Frame, Chunk;
    var j := |t.kept| - 1;
    KeptBounds(t, j);
    FrameData(t.packet, t.isCanFd, j);
    LastChunkIs(t.packet, t.isCanFd, j);
  }

  lemma LastChunkIs(packet: Bytes, isCanFd: bool, k: nat)
    requires k + 1 == FrameCount(packet, isCanFd)
    ensures k * DataSize(isCanFd) < |packet|
    ensures Chunk(packet, isCanFd, k) == packet[k * DataSize(isCanFd)..]
  {
    hide FrameCount;
    FrameSpan(packet, isCanFd, k);
  }

  lemma WholePacket(packet: Bytes, n: nat, data: Bytes)
    requires n < |packet| <= n + |data| && data[..|packet| - n] == packet[n..]
    ensures packet <= packet[..n] + data
  {
    assert packet == packet[..n] + data[..|packet| - n];
  }

  lemma SingleFrame(t: Transmission, s: State)
    requires IsStarted(t)
    requires |t.packet| <= DataSize(t.isCanFd)
    ensures IsWell(t) && |t.kept| == 1
    ensures Accepted(s, Events(t)[0].frame, t.times[0]).1 == Some(t.packet)
  {
    hide Frame, Chunk, Accepted;
    KeptBounds(t, |t.kept| - 1);
    FrameData(t.packet, t.isCanFd, 0);
    LastChunkIs(t.packet, t.isCanFd, 0);
    var f := Events(t)[0].frame;
    assert t.packet[0..] == t.packet && [] + f[1..] == f[1..];
    CompletingFrame(s, f, t.times[0], t.packet);
  }

  lemma {:induction false} PrefixHolds(t: Transmission, j: nat, s: State)
    requires IsStarted(t)
    requires |t.packet| > DataSize(t.isCanFd)
    requires 0 < j <= |t.kept| && j < FrameCount(t.packet, t.isCanFd)
    ensures Delivered(s, Events(t)[..j]).1 == []
    ensures Holding(t, j, Delivered(s, Events(t)[..j]).0)
  {
    hide Delivered, Accepted, Frame, Chunk, Holding, HeaderMatches;
    var events := Events(t);
    DeliveredNext(s, events, j - 1);
    if j == 1 {
      DeliveredNone(s, events);
      FirstFrame(t, s);
    } else {
      PrefixHolds(t, j - 1, s);
      NextFrame(t, j - 1, Delivered(s, events[..j - 1]).0);
    }
  }

  lemma DeliveredNext(s: State, events: seq<Event>, j: nat)
    requires j < |events|
    ensures var (before, packets) := Delivered(s, events[..j]);
            var (after, packet) := Accepted(before, events[j].frame, events[j].at);
            Delivered(s, events[..j + 1]) == (after, packets + ToSeq(packet))
  {
    hide Accepted;
    assert events[..j + 1][..j] == events[..j];
  }

  lemma DeliveredNone(s: State, events: seq<Event>)
    ensures Delivered(s, events[..0]) == (s, [])
  {
  }

  /** With its start frame, a packet comes out, unchanged, exactly when no frame of it was lost or late. */
  lemma TransmissionDelivers(t: Transmission, s: State)
    requires IsStarted(t)
    ensures Delivered(s, Events(t)).1 == if IsWell(t) then [t.packet] else []
  {
    hide Delivered, Accepted, Frame, Chunk, Holding, HeaderMatches, IsTimely;
    var events := Events(t);
    var n := |t.kept|;
    KeptBounds(t, n - 1);
    KeptBounds(t, 0);
    assert events[..n] == events;
    DeliveredNext(s, events, n - 1);
    if |t.packet| <= DataSize(t.isCanFd) {
      SingleFrame(t, s);
      DeliveredNone(s, events);
    } else if IsIntact(t) {
      PrefixHolds(t, n - 1, s);
      LastFrame(t, Delivered(s, events[..n - 1]).0);
    } else {
      PrefixHolds(t, n, s);
    }
  }

  // ---- Without a start frame ----

  /** The header is there, and all that it announces. */
  predicate IsWhole(held: Bytes) {
    |held| >= SMP_HEADER_SIZE && |held| >= SMP_HEADER_SIZE + FromBe16(held[2], held[3])
  }

  /** The packet that was put together. */
  function PacketOf(held: Bytes): Bytes
    requires IsWhole(held)
  {
    held[..SMP_HEADER_SIZE + FromBe16(held[2], held[3])]
  }

  /** Every state that the receiver comes to. */
  predicate IsWaiting(s: State) { s.sequence < SEQUENCE_COUNT && (s.buffer.Some? ==> !IsWhole(s.buffer.value)) }

  lemma AcceptedWaits(s: State, f: Bytes, now: nat)
    requires IsWaiting(s)
    ensures IsWaiting(Accepted(s, f, now).0)
  {
    hide FromBe16;
  }

  lemma {:induction false} DeliveredWaits(s: State, events: seq<Event>)
    requires IsWaiting(s)
    ensures IsWaiting(Delivered(s, events).0)
    decreases |events|
  {
    hide Accepted, IsWaiting;
    if |events| == 0 {
    } else {
      var n := |events| - 1;
      DeliveredWaits(s, events[..n]);
      AcceptedWaits(Delivered(s, events[..n]).0, events[n].frame, events[n].at);
    }
  }

  predicate AreHeadless(events: seq<Event>) {
    forall i :: 0 <= i < |events| ==> events[i].frame != [] && events[i].frame[0] < START_FLAG
  }

  /** What is held with the data of the first `n` frames. */
  function HeldAfter(held: Bytes, events: seq<Event>, n: nat): Bytes
    requires n <= |events| && AreHeadless(events)
  {
    if n == 0 then held else HeldAfter(held, events, n - 1) + events[n - 1].frame[1..]
  }

  function LastTime(s: State, events: seq<Event>, n: nat): nat
    requires n <= |events|
  {
    if n == 0 then s.last else events[n - 1].at
  }

  /** The frame has the number that is expected after `i` others, and comes in time after the last of them. */
  predicate IsNext(s: State, events: seq<Event>, i: nat)
    requires i < |events| && AreHeadless(events)
  {
    && events[i].frame[0] == (s.sequence + i) % SEQUENCE_COUNT
    && events[i].at - LastTime(s, events, i) <= REASSEMBLY_TIMEOUT
  }

  /** The first `n` frames continue what is held. */
  predicate Continue(s: State, events: seq<Event>, n: nat)
    requires n <= |events| && AreHeadless(events)
  {
    s.buffer.Some? && forall i :: 0 <= i < n ==> IsNext(s, events, i)
  }

  predicate CompletesAt(s: State, events: seq<Event>, n: nat)
    requires AreHeadless(events)
  {
    0 < n <= |events| && Continue(s, events, n) && IsWhole(HeldAfter(s.buffer.value, events, n))
  }

  predicate CompletesFirst(s: State, events: seq<Event>, n: nat)
    requires AreHeadless(events)
  {
    CompletesAt(s, events, n) && forall m :: 0 < m < n ==> !CompletesAt(s, events, m)
  }

  /** Some of the first frames, all as expected and in time, make what is held before them whole. */
  ghost predicate Completes(s: State, events: seq<Event>)
    requires AreHeadless(events)
  {
    exists n :: CompletesAt(s, events, n)
  }

  /** One frame that is no start. */
  lemma HeadlessStep(s: State, f: Bytes, now: nat)
    requires IsWaiting(s) && f != [] && f[0] < START_FLAG
    ensures var (next, packet) := Accepted(s, f, now);
            if s.buffer.Some? && now - s.last <= REASSEMBLY_TIMEOUT && f[0] == s.sequence then
              var grown := s.buffer.value + f[1..];
              if IsWhole(grown) then next.buffer.None? && packet == Some(PacketOf(grown))
              else packet.None? && next == State(Some(grown), (s.sequence + 1) % SEQUENCE_COUNT, now)
            else next.buffer.None? && packet.None?
  {
    hide FromBe16;
  }

  /** After `n` frames: `m` of them completed a packet, the first of which that is so; or none did, if `m` is 0. */
  lemma {:induction false} HeadlessPrefix(s: State, events: seq<Event>, n: nat) returns (m: nat)
    requires IsWaiting(s) && AreHeadless(events) && n <= |events|
    ensures m <= n && (m > 0 ==> CompletesFirst(s, events, m))
    ensures m == 0 ==> forall k :: 0 < k <= n ==> !CompletesAt(s, events, k)
    ensures var (next, packets) := Delivered(s, events[..n]);
            if m > 0 then next.buffer.None? && packets == [PacketOf(HeldAfter(s.buffer.value, events, m))]
            else
              && packets == []
              && if Continue(s, events, n) then
                   next == State(Some(HeldAfter(s.buffer.value, events, n)), (s.sequence + n) % SEQUENCE_COUNT,
                                 LastTime(s, events, n))
                 else next.buffer.None?
  {
    hide Accepted, Delivered, IsWhole, PacketOf;
    if n == 0 {
      DeliveredNone(s, events);
      SequenceAfter(s.sequence, 0);
      m := 0;
    } else {
      m := HeadlessPrefix(s, events, n - 1);
      var (before, packets) := Delivered(s, events[..n - 1]);
      var f, now := events[n - 1].frame, events[n - 1].at;
      DeliveredNext(s, events, n - 1);
      DeliveredWaits(s, events[..n - 1]);
      HeadlessStep(before, f, now);
      ContinueNext(s, events, n - 1);
      var packet := Accepted(before, f, now).1;
      assert packets + ToSeq(None) == packets;
      assert [] + ToSeq(packet) == ToSeq(packet);
      if m == 0 && Continue(s, events, n) {
        var held := HeldAfter(s.buffer.value, events, n);
        assert held == before.buffer.value + f[1..];
        if IsWhole(held) {
          assert packet == Some(PacketOf(held));
          m := n;
        }
      }
    }
  }

  lemma ContinueNext(s: State, events: seq<Event>, n: nat)
    requires s.sequence < SEQUENCE_COUNT && n < |events| && AreHeadless(events)
    ensures Continue(s, events, n + 1) <==> Continue(s, events, n) && IsNext(s, events, n)
    ensures ((s.sequence + n) % SEQUENCE_COUNT + 1) % SEQUENCE_COUNT == (s.sequence + (n + 1)) % SEQUENCE_COUNT
  {
    hide IsNext;
    SequenceAfter(s.sequence, n);
  }

  lemma SequenceAfter(sequence: nat, n: nat)
    requires sequence < SEQUENCE_COUNT
    ensures (sequence + 0) % SEQUENCE_COUNT == sequence
    ensures ((sequence + n) % SEQUENCE_COUNT + 1) % SEQUENCE_COUNT == (sequence + n + 1) % SEQUENCE_COUNT
  {
  }

  /**
   * Frames without a start frame yield one packet, put together from what was held, exactly if the first of them
   * continue that until it is whole, and else none.
   */
  lemma HeadlessExactly(s: State, events: seq<Event>)
    requires IsWaiting(s) && AreHeadless(events)
    ensures !Completes(s, events) ==> Delivered(s, events).1 == []
    ensures Completes(s, events) ==>
              exists n :: && CompletesFirst(s, events, n)
                          && Delivered(s, events).1 == [PacketOf(HeldAfter(s.buffer.value, events, n))]
  {
    hide Delivered, IsWhole, PacketOf, HeldAfter, Continue;
    var m := HeadlessPrefix(s, events, |events|);
    assert events[..|events|] == events;
    if Completes(s, events) {
      var n :| CompletesAt(s, events, n);
      assert m > 0;
    }
  }

  // ---- Streams ----

  lemma HeadlessEvents(t: Transmission)
    requires IsSent(t) && !HasStart(t)
    ensures AreHeadless(Events(t))
  {
    hide Frame;
    forall i | 0 <= i < |t.kept| ensures Events(t)[i].frame != [] && Events(t)[i].frame[0] < START_FLAG {
      KeptLow(t, i);
      FrameData(t.packet, t.isCanFd, t.kept[i]);
    }
  }

  lemma WellHasStart(t: Transmission)
    requires IsSent(t) && IsWell(t)
    ensures HasStart(t)
  {
    if |t.kept| > 0 {
      KeptBounds(t, 0);
    }
  }

  function StreamEvents(ts: seq<Transmission>): seq<Event>
    requires forall i :: 0 <= i < |ts| ==> IsSent(ts[i])
  {
    if |ts| == 0 then [] else assert IsSent(ts[0]); Events(ts[0]) + StreamEvents(ts[1..])
  }

  ghost function WellPackets(ts: seq<Transmission>): seq<Bytes> {
    if |ts| == 0 then [] else (if IsWell(ts[0]) then [ts[0].packet] else []) + WellPackets(ts[1..])
  }

  /** The start of the packet was lost, and the rest completes what is held before it. */
  ghost predicate IsSpliced(s: State, t: Transmission)
    requires IsSent(t)
  {
    if HasStart(t) then false
    else
      HeadlessEvents(t);
      Completes(s, Events(t))
  }

  /** None of the packets is so, each with what is held when it begins. */
  ghost predicate NoneIsSpliced(s: State, ts: seq<Transmission>)
    requires forall i :: 0 <= i < |ts| ==> IsSent(ts[i])
    decreases |ts|
  {
    if |ts| == 0 then true
    else
      assert IsSent(ts[0]);
      !IsSpliced(s, ts[0]) && NoneIsSpliced(Delivered(s, Events(ts[0])).0, ts[1..])
  }

  /** One transmission: what comes out is the packet if it is well, and a spliced one if it completes what is held. */
  lemma OneDelivers(t: Transmission, s: State)
    requires IsSent(t) && IsWaiting(s)
    ensures IsSpliced(s, t) ==> !IsWell(t) && |Delivered(s, Events(t)).1| == 1
    ensures !IsSpliced(s, t) ==> Delivered(s, Events(t)).1 == if IsWell(t) then [t.packet] else []
  {
    hide Delivered, Completes, IsWell, HeaderMatches;
    if HasStart(t) {
      TransmissionDelivers(t, s);
    } else {
      HeadlessEvents(t);
      HeadlessExactly(s, Events(t));
      if IsWell(t) {
        WellHasStart(t);
      }
    }
  }

  /**
   * Framing under loss: of any sequence of packets, classic or FD, of which any frames are lost or late, the receiver
   * emits exactly those of which none was, unchanged and in order, if and only if no packet of which the start was lost
   * completes what is held before it. Else it emits more.
   */
  lemma {:induction false} StreamDelivers(ts: seq<Transmission>, s: State)
    requires IsWaiting(s) && forall i :: 0 <= i < |ts| ==> IsSent(ts[i])
    ensures Delivered(s, StreamEvents(ts)).1 == WellPackets(ts) <==> NoneIsSpliced(s, ts)
    ensures |Delivered(s, StreamEvents(ts)).1| >= |WellPackets(ts)|
  {
    hide Delivered, IsSpliced, IsWell, IsWaiting, HeaderMatches;
    if |ts| == 0 {
      DeliveredNone(s, []);
    } else {
      var t, rest := ts[0], ts[1..];
      var next := Delivered(s, Events(t)).0;
      DeliveredAppend(s, Events(t), StreamEvents(rest));
      OneDelivers(t, s);
      DeliveredWaits(s, Events(t));
      StreamDelivers(rest, next);
      SameFront(Delivered(s, Events(t)).1, if IsWell(t) then [t.packet] else [],
                Delivered(next, StreamEvents(rest)).1, WellPackets(rest));
    }
  }

  /** What is put before two lists makes them differ where they did, or where one of them gets more. */
  lemma SameFront(a: seq<Bytes>, b: seq<Bytes>, x: seq<Bytes>, y: seq<Bytes>)
    requires |x| >= |y| && (a == b || |a| > |b|)
    ensures a + x == b + y <==> a == b && x == y
    ensures |a + x| >= |b + y|
  {
    if a == b {
      assert (a + x)[|a|..] == x && (b + y)[|b|..] == y;
    }
  }

  /** Where every packet has its start nothing is spliced. */
  lemma {:induction false} StartsSuffice(ts: seq<Transmission>, s: State)
    requires forall i :: 0 <= i < |ts| ==> IsSent(ts[i]) && HasStart(ts[i])
    ensures NoneIsSpliced(s, ts)
  {
    hide Delivered;
    if |ts| == 0 {
    } else {
      StartsSuffice(ts[1..], Delivered(s, Events(ts[0])).0);
    }
  }

  /**
   * Packets are spliced: when the last frame of one packet and the start of the next are
   * lost, the receiver splices the two. For any two packets of three classic frames it emits a packet that was
   * never sent as soon as they differ both before and in their last frames.
   */
  lemma LostStartSplices(a: Bytes, b: Bytes, s: State, now: nat)
    requires HeaderMatches(a) && HeaderMatches(b) && |a| == |b| == 16
    ensures FrameCount(a, false) == FrameCount(b, false) == 3
    ensures var e0, e1 := Event(Frame(a, false, 0), now), Event(Frame(a, false, 1), now);
            Delivered(s, [e0, e1, Event(Frame(b, false, 2), now)]).1 == [a[..14] + b[14..]]
    ensures a[..14] != b[..14] && a[14..] != b[14..] ==> a[..14] + b[14..] !in {a, b}
  {
    hide Delivered, Accepted, Frame, Chunk;
    var e0, e1, e2 := Event(Frame(a, false, 0), now), Event(Frame(a, false, 1), now), Event(Frame(b, false, 2), now);
    var events := [e0, e1, e2];
    assert events[..3] == events;
    SpliceHead(a, s, now);
    SpliceTail(a, b, now);
    DeliveredNone(s, events);
    DeliveredNext(s, events, 0);
    DeliveredNext(s, events, 1);
    DeliveredNext(s, events, 2);
    assert [] + [a[..14] + b[14..]] == [a[..14] + b[14..]];
    Spliced(a, b);
  }

  lemma Spliced(a: Bytes, b: Bytes)
    requires |a| == |b| == 16
    ensures a[..14] != b[..14] && a[14..] != b[14..] ==> a[..14] + b[14..] !in {a, b}
  {
    var splice := a[..14] + b[14..];
    assert splice[..14] == a[..14] && splice[14..] == b[14..];
  }

  lemma SpliceHead(a: Bytes, s: State, now: nat)
    requires HeaderMatches(a) && |a| == 16
    ensures Accepted(s, Frame(a, false, 0), now) == (State(Some(a[..7]), 1, now), None)
    ensures Accepted(State(Some(a[..7]), 1, now), Frame(a, false, 1), now) == (State(Some(a[..14]), 2, now), None)
  {
    FrameData(a, false, 0);
    FrameData(a, false, 1);
    assert [] + Frame(a, false, 0)[1..] == a[..7];
    assert a[..7] + Frame(a, false, 1)[1..] == a[..14];
    ContinueFrame(State(Some(a[..7]), 1, now), Frame(a, false, 1), now);
  }

  lemma SpliceTail(a: Bytes, b: Bytes, now: nat)
    requires HeaderMatches(a) && HeaderMatches(b) && |a| == |b| == 16
    ensures Accepted(State(Some(a[..14]), 2, now), Frame(b, false, 2), now).1 == Some(a[..14] + b[14..])
  {
    FrameData(b, false, 2);
    var splice := a[..14] + b[14..];
    assert a[..14] + Frame(b, false, 2)[1..] == splice;
    assert splice[2] == a[2] && splice[3] == a[3] && splice[..16] == splice;
  }
}
