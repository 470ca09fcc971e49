/**
 * What the console decoder takes for a packet. Whatever the bytes, each packet it completes was carried by one start
 * line and the fragments after it, in the announced length and followed by its own checksum.
 */
module ConsolePackets {
  import opened Common
  import opened Console
  import Base64
  import Crc16

  /** What is left of a packet when its two last bytes are its checksum. */
  ghost predicate IsSealed(body: Bytes, packet: Bytes) { body == packet + Crc16.Packed(Crc16.Checksum(packet)) }

  /**
   * A body that is shorter than announced waits. One of the announced length that ends in the checksum of what is
   * before it completes that packet; any other completes nothing and counts once as corrupt and once as dropped.
   */
  lemma OnlySealedCompletes(f: Frames)
    requires f.packet.Some?
    ensures var body := f.packet.value;
            && (|body| < f.expected ==> Collected(f) == f)
            && (forall packet :: |body| == f.expected && |packet| > 0 && IsSealed(body, packet) ==>
                Collected(f) == f.(packet := None, packets := f.packets + [packet]))
            && (|body| >= f.expected &&
                (|body| > f.expected || forall packet :: IsSealed(body, packet) ==> |packet| == 0) ==>
                Collected(f) == f.(packet := None, corrupt := f.corrupt + 1, dropped := f.dropped + 1))
  {
    hide Crc16.Checksum, IsSealed;
    var body := f.packet.value;
    forall packet | IsSealed(body, packet) ensures |body| == |packet| + 2 && packet == body[..|packet|] {
      SealedLength(body, packet);
    }
    if |body| > 2 {
      ChecksIfSealed(body);
    }
  }

  lemma SealedLength(body: Bytes, packet: Bytes)
    requires IsSealed(body, packet)
    ensures |body| == |packet| + 2 && packet == body[..|packet|]
  {
    hide Crc16.Checksum;
  }

  lemma ChecksIfSealed(body: Bytes)
    requires |body| >= 2
    ensures Crc16.Checksum(body) == Crc16.Zeros(16) <==> IsSealed(body, body[..|body| - 2])
  {
    hide Crc16.Checksum, Crc16.Packed;
    var packet, tail := body[..|body| - 2], body[|body| - 2..];
    assert body == packet + tail;
    Crc16.ChecksOnly(packet, tail);
    if body == packet + Crc16.Packed(Crc16.Checksum(packet)) {
      assert tail == (packet + Crc16.Packed(Crc16.Checksum(packet)))[|packet|..];
    }
  }

  // What the lines say of packets.

  /** A line that was decoded, or one that is broken: cut short, overlong, or not base64. */
  datatype Event = Line(marker: Marker, raw: Bytes) | Broken

  predicate IsStart(e: Event) { e.Line? && e.marker == PacketStart && |e.raw| >= 2 }

  predicate IsFragment(e: Event) { e.Line? && e.marker == Fragment }

  /** What the next turn ends, if it ends a line. */
  function Happening(d: Decoder): seq<Event> {
    if d.marker.None? then []
    else if IsCut(d.buffer) then [Broken]
    else if IsOpen(d.buffer) then if |d.buffer| > 4 * MAX_LINE then [Broken] else []
    else [Read(d.marker.value, StripReturns(d.buffer[..FindNewline(d.buffer)]))]
  }

  function Read(marker: Marker, body: Bytes): Event {
    var raw := Base64.Decode(body);
    if SymbolPrefix(body) < |body| || raw.None? then Broken else Line(marker, raw.value)
  }

  function Happenings(d: Decoder): seq<Event>
    decreases Weight(d)
  {
    RunTurns(d);
    Happening(d) + if Turn(d).1 then Happenings(Turn(d).0) else []
  }

  function Did(f: Frames, e: Event): Frames {
    if e.Broken? then Corrupted(f) else RawAccepted(f, e.marker, e.raw)
  }

  function DidAll(f: Frames, events: seq<Event>): Frames
    decreases |events|
  {
    if |events| == 0 then f else Did(DidAll(f, events[..|events| - 1]), events[|events| - 1])
  }

  lemma {:induction false} DidAppend(f: Frames, a: seq<Event>, b: seq<Event>)
    ensures DidAll(f, a + b) == DidAll(DidAll(f, a), b)
    decreases |b|
  {
    hide Did;
    if |b| == 0 {
      assert a + b == a;
    } else {
      assert (a + b)[..|a + b| - 1] == a + b[..|b| - 1];
      DidAppend(f, a, b[..|b| - 1]);
    }
  }

  lemma DidOne(f: Frames, e: Event)
    ensures DidAll(f, [e]) == Did(f, e)
  {
    hide Did;
    assert [e][..0] == [] && DidAll(f, []) == f;
  }

  lemma TurnDoes(d: Decoder)
    ensures Turn(d).0.frames == DidAll(d.frames, Happening(d))
  {
    hide Turn, RawAccepted, Corrupted, FindMarker, FindNewline, StripReturns, Delivered;
    if d.marker.None? {
      TextTurn(d);
    } else {
      LineTurn(d);
      if Happening(d) != [] {
        DidOne(d.frames, Happening(d)[0]);
      }
    }
  }

  /** The packets and the counters follow from the lines alone. */
  lemma {:induction false} RunDoes(d: Decoder)
    ensures Run(d).frames == DidAll(d.frames, Happenings(d))
    decreases Weight(d)
  {
    hide Turn, DidAll, Happening;
    RunTurns(d);
    TurnDoes(d);
    if Turn(d).1 {
      RunDoes(Turn(d).0);
      DidAppend(d.frames, Happening(d), Happenings(Turn(d).0));
    } else {
      assert Happening(d) + [] == Happening(d);
    }
  }

  // What the packets are.

  function Raws(events: seq<Event>): Bytes
    decreases |events|
  {
    if |events| == 0 then []
    else
      var last := events[|events| - 1];
      Raws(events[..|events| - 1]) + if last.Line? then last.raw else []
  }

  /**
   * The body that was begun by the line before `i`, or by what the decoder had when `i` is 0, and went on with the
   * fragments up to `j`; and the length that was announced for it.
   */
  ghost predicate IsBody(f: Frames, events: seq<Event>, i: nat, j: nat, body: Bytes, expected: nat)
    requires i <= j <= |events|
  {
    && (forall k :: i <= k < j ==> IsFragment(events[k]))
    && if i == 0 then f.packet.Some? && expected == f.expected && body == f.packet.value + Raws(events[..j])
       else
         && IsStart(events[i - 1])
         && expected == FromBe16(events[i - 1].raw[0], events[i - 1].raw[1])
         && body == events[i - 1].raw[2..] + Raws(events[i..j])
  }

  /** The packet was carried in full, in the announced length and with its checksum. */
  ghost predicate IsCarried(f: Frames, events: seq<Event>, packet: Bytes) {
    exists i, j :: 0 <= i <= j <= |events| && Carries(f, events, i, j, packet)
  }

  ghost predicate Carries(f: Frames, events: seq<Event>, i: nat, j: nat, packet: Bytes)
    requires i <= j <= |events|
  {
    && |packet| > 0
    && IsBody(f, events, i, j, packet + Crc16.Packed(Crc16.Checksum(packet)), |packet| + 2)
  }

  /** What is being assembled has come in full so far. */
  ghost predicate IsGoingOn(f: Frames, events: seq<Event>, now: Frames) {
    now.packet.Some? ==>
      exists i :: 0 <= i <= |events| && IsBody(f, events, i, |events|, now.packet.value, now.expected)
  }

  lemma BodyStays(f: Frames, events: seq<Event>, e: Event, i: nat, j: nat, body: Bytes, expected: nat)
    requires i <= j <= |events|
    ensures IsBody(f, events, i, j, body, expected) == IsBody(f, events + [e], i, j, body, expected)
  {
    hide Raws, IsStart;
    var more := events + [e];
    assert more[..j] == events[..j] && more[i..j] == events[i..j];
    assert forall k :: 0 <= k < |events| ==> more[k] == events[k];
  }

  lemma CarriedStays(f: Frames, events: seq<Event>, e: Event, packet: Bytes)
    requires IsCarried(f, events, packet)
    ensures IsCarried(f, events + [e], packet)
  {
    hide IsBody, Crc16.Packed, Crc16.Checksum;
    var i, j :| 0 <= i <= j <= |events| && Carries(f, events, i, j, packet);
    BodyStays(f, events, e, i, j, packet + Crc16.Packed(Crc16.Checksum(packet)), |packet| + 2);
    assert Carries(f, events + [e], i, j, packet);
  }

  lemma BodyGrows(f: Frames, events: seq<Event>, e: Event, i: nat, body: Bytes, expected: nat)
    requires i <= |events| && IsBody(f, events, i, |events|, body, expected) && IsFragment(e)
    ensures IsBody(f, events + [e], i, |events| + 1, body + e.raw, expected)
  {
    var more := events + [e];
    var n := |events|;
    assert more[i..n + 1][..n - i] == more[i..n] == events[i..n];
    assert more[..n + 1][..n] == events == events[..n];
    BodyStays(f, events, e, i, n, body, expected);
    assert Raws(more[i..n + 1]) == Raws(events[i..n]) + e.raw;
    if i == 0 {
      assert f.packet.value + Raws(events) + e.raw == f.packet.value + (Raws(events) + e.raw);
    } else {
      var head := events[i - 1].raw[2..];
      assert head + Raws(events[i..n]) + e.raw == head + (Raws(events[i..n]) + e.raw);
    }
  }

  lemma BodyBegins(f: Frames, events: seq<Event>, e: Event)
    requires IsStart(e)
    ensures IsBody(f, events + [e], |events| + 1, |events| + 1, e.raw[2..], FromBe16(e.raw[0], e.raw[1]))
  {
    var more := events + [e];
    assert more[|more|..|more|] == [] && e.raw[2..] + [] == e.raw[2..];
  }

  /** A body that is complete with the last line. */
  lemma Collects(f: Frames, events: seq<Event>, i: nat, now: Frames)
    requires now.packet.Some? && i <= |events|
    requires IsBody(f, events, i, |events|, now.packet.value, now.expected)
    ensures var next := Collected(now);
            && IsGoingOn(f, events, next)
            && (next.packets == now.packets ||
                exists packet :: next.packets == now.packets + [packet] && IsCarried(f, events, packet))
  {
    hide IsBody, Crc16.Packed, Crc16.Checksum, Collected;
    OnlySealedCompletes(now);
    var body := now.packet.value;
    if |body| == now.expected && exists packet :: IsSealed(body, packet) && |packet| > 0 {
      var packet :| IsSealed(body, packet) && |packet| > 0;
      assert Carries(f, events, i, |events|, packet);
    }
  }

  lemma DidKeeps(f: Frames, events: seq<Event>, e: Event, now: Frames)
    requires IsGoingOn(f, events, now)
    ensures var next := Did(now, e);
            && IsGoingOn(f, events + [e], next)
            && (next.packets == now.packets ||
                exists packet :: next.packets == now.packets + [packet] && IsCarried(f, events + [e], packet))
  {
    hide IsBody, Collected, IsCarried;
    if IsStart(e) {
      BodyBegins(f, events, e);
      var begun := Dropped(now).(expected := FromBe16(e.raw[0], e.raw[1]), packet := Some(e.raw[2..]));
      Collects(f, events + [e], |events| + 1, begun);
    } else if IsFragment(e) && now.packet.Some? {
      var i :| 0 <= i <= |events| && IsBody(f, events, i, |events|, now.packet.value, now.expected);
      BodyGrows(f, events, e, i, now.packet.value, now.expected);
      Collects(f, events + [e], i, now.(packet := Some(now.packet.value + e.raw)));
    }
  }

  lemma {:induction false} DidAllCarried(f: Frames, events: seq<Event>)
    ensures var now := DidAll(f, events);
            && IsGoingOn(f, events, now)
            && |f.packets| <= |now.packets| && now.packets[..|f.packets|] == f.packets
            && forall k :: |f.packets| <= k < |now.packets| ==> IsCarried(f, events, now.packets[k])
    decreases |events|
  {
    hide IsCarried, Did;
    if |events| == 0 {
      NothingYet(f);
    } else {
      var n := |events| - 1;
      var before := DidAll(f, events[..n]);
      DidAllCarried(f, events[..n]);
      DidKeeps(f, events[..n], events[n], before);
      assert events == events[..n] + [events[n]];
      forall k | |f.packets| <= k < |before.packets| ensures IsCarried(f, events, before.packets[k]) {
        CarriedStays(f, events[..n], events[n], before.packets[k]);
      }
    }
  }

  lemma NothingYet(f: Frames)
    ensures IsGoingOn(f, [], f)
  {
    if f.packet.Some? {
      assert f.packet.value + Raws([][..0]) == f.packet.value;
      assert IsBody(f, [], 0, 0, f.packet.value, f.expected);
    }
  }

  /** For any decoder and any bytes: every packet that they complete was carried whole and with its own checksum. */
  lemma CompletedWereCarried(d: Decoder, data: Bytes)
    ensures var now := Fed(d, data);
            && |d.frames.packets| <= |now.frames.packets|
            && now.frames.packets[..|d.frames.packets|] == d.frames.packets
            && forall k :: |d.frames.packets| <= k < |now.frames.packets| ==>
                 IsCarried(d.frames, Happenings(Add(d, data)), now.frames.packets[k])
  {
    hide *;
    AddKeepsFrames(d, data);
    RunDoes(Add(d, data));
    DidAllCarried(d.frames, Happenings(Add(d, data)));
  }

  lemma AddKeepsFrames(d: Decoder, data: Bytes)
    ensures Add(d, data).frames == d.frames && Fed(d, data) == Run(Add(d, data))
  {
    hide Run;
  }

  // How the packets are counted.

  function Starts(events: seq<Event>): nat
    decreases |events|
  {
    if |events| == 0 then 0 else Starts(events[..|events| - 1]) + if IsStart(events[|events| - 1]) then 1 else 0
  }

  function Begun(f: Frames): nat { |f.packets| + f.dropped + if f.packet.Some? then 1 else 0 }

  lemma DidCounts(f: Frames, e: Event)
    ensures Begun(Did(f, e)) == Begun(f) + if IsStart(e) then 1 else 0
    ensures Did(f, e).dropped >= f.dropped && |Did(f, e).packets| >= |f.packets|
    ensures e.Broken? || (e.marker == PacketStart && !IsStart(e)) ==>
              Did(f, e).corrupt == f.corrupt + 1 && Did(f, e).packet.None? && Did(f, e).packets == f.packets
    ensures IsFragment(e) && f.packet.None? ==> Did(f, e) == f
  {
    hide Crc16.Checksum;
  }

  lemma {:induction false} DidAllCounts(f: Frames, events: seq<Event>)
    ensures Begun(DidAll(f, events)) == Begun(f) + Starts(events)
    decreases |events|
  {
    hide Did, Begun, IsStart;
    if |events| == 0 {
    } else {
      DidAllCounts(f, events[..|events| - 1]);
      DidCounts(DidAll(f, events[..|events| - 1]), events[|events| - 1]);
    }
  }

  /** Every packet that was begun is completed, dropped or in progress, and counted once. */
  lemma BegunAreCounted(d: Decoder, data: Bytes)
    ensures Begun(Fed(d, data).frames) == Begun(d.frames) + Starts(Happenings(Add(d, data)))
  {
    hide *;
    AddKeepsFrames(d, data);
    RunDoes(Add(d, data));
    DidAllCounts(d.frames, Happenings(Add(d, data)));
  }
}
