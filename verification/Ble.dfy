/**
 * SMP over Bluetooth: `[route][packet]`, one after the other, in notifications that are cut anywhere. The length in
 * the packet's header ends it.
 */
module Ble {
  import opened Common

  const SMP_HEADER_SIZE := 8
  const BLE_REASSEMBLY_TIMEOUT := 1000

  datatype Routed = Routed(route: byte, packet: Bytes)

  /** What a buffer comes to: the packets, what is left of it, and whether an impossible length made it be dropped. */
  datatype Drained = Drained(packets: seq<Routed>, rest: Bytes, isDropped: bool)

  function SizeOf(buffer: Bytes): (size: nat)
    requires |buffer| >= 1 + SMP_HEADER_SIZE
    ensures size >= SMP_HEADER_SIZE
  {
    SMP_HEADER_SIZE + FromBe16(buffer[3], buffer[4])
  }

  predicate IsTooLarge(buffer: Bytes, max: Option<nat>)
    requires |buffer| >= 1 + SMP_HEADER_SIZE
  {
    max.Some? && SizeOf(buffer) > max.value
  }

  function Drain(buffer: Bytes, max: Option<nat>): Drained
    decreases |buffer|
  {
    if |buffer| < 1 + SMP_HEADER_SIZE then Drained([], buffer, false)
    else if IsTooLarge(buffer, max) then Drained([], [], true)
    else if |buffer| < 1 + SizeOf(buffer) then Drained([], buffer, false)
    else
      var n := 1 + SizeOf(buffer);
      var d := Drain(buffer[n..], max);
      d.(packets := [Routed(buffer[0], buffer[1..n])] + d.packets)
  }

  /** The buffer begins with a whole packet that can be. */
  predicate HasPacket(buffer: Bytes, max: Option<nat>) {
    |buffer| >= 1 + SMP_HEADER_SIZE && !IsTooLarge(buffer, max) && |buffer| >= 1 + SizeOf(buffer)
  }

  lemma DrainNext(buffer: Bytes, max: Option<nat>)
    requires HasPacket(buffer, max)
    ensures var n := 1 + SizeOf(buffer); var d := Drain(buffer[n..], max);
            Drain(buffer, max) == d.(packets := [Routed(buffer[0], buffer[1..n])] + d.packets)
  {
  }

  /** What follows a packet does not change it. */
  lemma PacketStays(a: Bytes, b: Bytes, max: Option<nat>)
    requires |a| >= 1 + SMP_HEADER_SIZE
    ensures SizeOf(a + b) == SizeOf(a) && (IsTooLarge(a + b, max) <==> IsTooLarge(a, max))
    ensures HasPacket(a, max) ==>
              var n := 1 + SizeOf(a);
              HasPacket(a + b, max) && (a + b)[n..] == a[n..] + b && (a + b)[1..n] == a[1..n] && (a + b)[0] == a[0]
  {
  }

  /** Where nothing is dropped, draining early comes to the same as draining all at once. */
  lemma {:induction false} DrainSplit(a: Bytes, b: Bytes, max: Option<nat>)
    requires !Drain(a, max).isDropped
    ensures var first := Drain(a, max); var second := Drain(first.rest + b, max);
            Drain(a + b, max) == second.(packets := first.packets + second.packets)
    decreases |a|
  {
    hide *;
    if HasPacket(a, max) {
      PacketFits(a, max);
      var n := 1 + SizeOf(a);
      DrainNext(a, max);
      DrainSplit(a[n..], b, max);
      PacketStays(a, b, max);
      DrainNext(a + b, max);
      var tail := Drain(a[n..], max);
      var second := Drain(tail.rest + b, max);
      var head := [Routed(a[0], a[1..n])];
      assert head + (tail.packets + second.packets) == head + tail.packets + second.packets;
    } else {
      DrainWaits(a, max);
      assert [] + Drain(a + b, max).packets == Drain(a + b, max).packets;
    }
  }

  lemma PacketFits(a: Bytes, max: Option<nat>)
    requires HasPacket(a, max)
    ensures |a| >= 1 + SMP_HEADER_SIZE && 1 + SizeOf(a) <= |a|
  {
  }

  lemma DrainWaits(a: Bytes, max: Option<nat>)
    requires !HasPacket(a, max) && !Drain(a, max).isDropped
    ensures Drain(a, max) == Drained([], a, false)
  {
  }

  lemma {:induction false} DropStays(a: Bytes, b: Bytes, max: Option<nat>)
    requires Drain(a, max).isDropped
    ensures Drain(a + b, max).isDropped
    decreases |a|
  {
    PacketStays(a, b, max);
    if !HasPacket(a, max) {
    } else {
      DrainNext(a, max);
      hide Drain, HasPacket, SizeOf;
      DropStays(a[1 + SizeOf(a)..], b, max);
      DrainNext(a + b, max);
    }
  }

  // A link that loses nothing.

  predicate IsPacket(p: Bytes, max: Option<nat>) {
    && |p| >= SMP_HEADER_SIZE && |p| == SMP_HEADER_SIZE + FromBe16(p[2], p[3])
    && (max.Some? ==> |p| <= max.value)
  }

  predicate ArePackets(s: seq<Routed>, max: Option<nat>) { forall i :: 0 <= i < |s| ==> IsPacket(s[i].packet, max) }

  function Stream(s: seq<Routed>): Bytes {
    if |s| == 0 then [] else [s[0].route] + s[0].packet + Stream(s[1..])
  }

  lemma {:induction false} StreamDrains(s: seq<Routed>, max: Option<nat>)
    requires ArePackets(s, max)
    ensures Drain(Stream(s), max) == Drained(s, [], false)
  {
    hide Drain;
    if |s| == 0 {
      NothingDrains(max);
    } else {
      var p := s[0].packet;
      var b, rest := Stream(s), Stream(s[1..]);
      StreamDrains(s[1..], max);
      HeadPacket(s[0].route, p, rest, max);
      assert b == [s[0].route] + p + rest;
      DrainNext(b, max);
      assert [s[0]] + s[1..] == s;
    }
  }

  lemma NothingDrains(max: Option<nat>)
    ensures Drain([], max) == Drained([], [], false)
  {
  }

  lemma HeadPacket(route: byte, p: Bytes, rest: Bytes, max: Option<nat>)
    requires IsPacket(p, max)
    ensures var b := [route] + p + rest;
            HasPacket(b, max) && 1 + SizeOf(b) == 1 + |p| && b[0] == route && b[1..1 + |p|] == p && b[1 + |p|..] == rest
  {
    var b := [route] + p + rest;
    assert b[3] == p[2] && b[4] == p[3];
  }

  /** After the packets comes a header that announces more than a packet can have. */
  predicate IsImpossible(rest: Bytes, max: Option<nat>) {
    |rest| >= 1 + SMP_HEADER_SIZE && max.Some? && SMP_HEADER_SIZE + FromBe16(rest[3], rest[4]) > max.value
  }

  /** The beginning of a packet, which more bytes can complete. */
  predicate IsBegun(rest: Bytes, max: Option<nat>) {
    |rest| >= 1 + SMP_HEADER_SIZE ==>
      |rest| < 1 + SMP_HEADER_SIZE + FromBe16(rest[3], rest[4]) && !IsImpossible(rest, max)
  }

  /**
   * Whatever the bytes are: what is handed over are packets, one after the other as the bytes have them. What is left
   * is the beginning of one and waits, or it is impossible and is dropped.
   */
  lemma {:induction false} DrainExactly(buffer: Bytes, max: Option<nat>) returns (rest: Bytes)
    ensures var d := Drain(buffer, max);
            && ArePackets(d.packets, max) && buffer == Stream(d.packets) + rest
            && if d.isDropped then d.rest == [] && IsImpossible(rest, max) else d.rest == rest && IsBegun(rest, max)
    decreases |buffer|
  {
    if HasPacket(buffer, max) {
      var n := 1 + SizeOf(buffer);
      DrainNext(buffer, max);
      rest := DrainExactly(buffer[n..], max);
      PacketAtHead(buffer, max, Drain(buffer[n..], max).packets, rest);
    } else {
      rest := buffer;
      assert Stream([]) + rest == buffer;
    }
  }

  lemma PacketAtHead(buffer: Bytes, max: Option<nat>, others: seq<Routed>, rest: Bytes)
    requires HasPacket(buffer, max) && ArePackets(others, max)
    requires buffer[1 + SizeOf(buffer)..] == Stream(others) + rest
    ensures var n := 1 + SizeOf(buffer); var all := [Routed(buffer[0], buffer[1..n])] + others;
            ArePackets(all, max) && buffer == Stream(all) + rest
  {
    var n := 1 + SizeOf(buffer);
    var first := Routed(buffer[0], buffer[1..n]);
    assert ([first] + others)[1..] == others;
    assert buffer == [first.route] + first.packet + buffer[n..];
    assert first.packet[2] == buffer[3] && first.packet[3] == buffer[4];
  }

  datatype Notification = Notification(data: Bytes, now: int)

  function Data(s: seq<Notification>): Bytes {
    if |s| == 0 then [] else Data(s[..|s| - 1]) + s[|s| - 1].data
  }

  /** No gap is longer than the timeout. */
  predicate IsTimely(s: seq<Notification>) {
    forall i :: 0 <= i < |s| - 1 ==> s[i + 1].now - s[i].now <= BLE_REASSEMBLY_TIMEOUT
  }

  class BleReassembler {
    const maxPacket: Option<nat>
    var buffer: Bytes
    var last: int
    var dropped: nat

    constructor (maxPacket: Option<nat>)
      ensures this.maxPacket == maxPacket && buffer == [] && dropped == 0 && last == 0
    {
      this.maxPacket := maxPacket;
      buffer := [];
      last := 0;
      dropped := 0;
    }

    /** Takes a notification. What waits longer than the timeout for its rest is dropped first. */
    method Accept(data: Bytes, now: int) returns (packets: seq<Routed>)
      modifies this
      ensures last == now
      ensures var isLate := old(buffer) != [] && now - old(last) > BLE_REASSEMBLY_TIMEOUT;
              var d := Drain((if isLate then [] else old(buffer)) + data, maxPacket);
              && packets == d.packets && buffer == d.rest
              && dropped == old(dropped) + (if isLate then 1 else 0) + if d.isDropped then 1 else 0
    {
      if buffer != [] && now - last > BLE_REASSEMBLY_TIMEOUT {
        Drop();
      }
      last := now;
      buffer := buffer + data;
      packets := [];
      ghost var all := Drain(buffer, maxPacket);
      ghost var before := dropped;
      assert [] + all.packets == all.packets;
      while |buffer| >= 1 + SMP_HEADER_SIZE
        invariant dropped == before && last == now
        invariant all == Drain(buffer, maxPacket).(packets := packets + Drain(buffer, maxPacket).packets)
        decreases |buffer|
      {
        var size := SizeOf(buffer);
        if maxPacket.Some? && size > maxPacket.value {
          Drop();
          assert packets + [] == packets;
          return;
        }
        if |buffer| < 1 + size {
          break;
        }
        var packet := Routed(buffer[0], buffer[1..1 + size]);
        ghost var rest := Drain(buffer[1 + size..], maxPacket).packets;
        assert packets + ([packet] + rest) == packets + [packet] + rest;
        packets := packets + [packet];
        buffer := buffer[1 + size..];
      }
      assert packets + [] == packets;
    }

    method Drop()
      modifies `buffer, `dropped
      ensures buffer == [] && dropped == old(dropped) + 1
    {
      dropped := dropped + 1;
      buffer := [];
    }

    /**
     * Packets that come whole and in time, cut into notifications anywhere, are handed over as they are. What is held
     * from before is dropped, if they come late after it.
     */
    method AcceptAll(s: seq<Notification>, ghost sent: seq<Routed>) returns (packets: seq<Routed>)
      requires IsTimely(s) && (buffer == [] || (|s| > 0 && s[0].now - last > BLE_REASSEMBLY_TIMEOUT))
      requires ArePackets(sent, maxPacket) && Data(s) == Stream(sent)
      modifies this
      ensures packets == sent && buffer == [] && dropped == old(dropped) + if old(buffer) == [] then 0 else 1
    {
      packets := [];
      var i := 0;
      assert s[..0] == [] && Drain([], maxPacket) == Drained([], [], false);
      while i < |s|
        invariant i <= |s| && last == if i == 0 then old(last) else s[i - 1].now
        invariant dropped == old(dropped) + if i == 0 || old(buffer) == [] then 0 else 1
        invariant i == 0 ==> packets == [] && buffer == old(buffer)
        invariant Drain(Data(s[..i]), maxPacket) == Drained(packets, if i == 0 then [] else buffer, false)
      {
        assert s[..i + 1][..i] == s[..i];
        PrefixIsKept(s, i + 1, sent, maxPacket);
        DrainSplit(Data(s[..i]), s[i].data, maxPacket);
        var more := Accept(s[i].data, s[i].now);
        packets := packets + more;
        i := i + 1;
      }
      assert s[..i] == s;
      StreamDrains(sent, maxPacket);
    }
  }

  /** No prefix of the stream is dropped, as the whole of it is not. */
  lemma PrefixIsKept(s: seq<Notification>, n: nat, sent: seq<Routed>, max: Option<nat>)
    requires n <= |s| && ArePackets(sent, max) && Data(s) == Stream(sent)
    ensures !Drain(Data(s[..n]), max).isDropped
  {
    var rest := DataRest(s, n);
    StreamDrains(sent, max);
    if Drain(Data(s[..n]), max).isDropped {
      DropStays(Data(s[..n]), rest, max);
    }
  }

  lemma {:induction false} DataRest(s: seq<Notification>, n: nat) returns (rest: Bytes)
    requires n <= |s|
    ensures Data(s) == Data(s[..n]) + rest
    decreases |s| - n
  {
    if n == |s| {
      rest := [];
      assert s[..n] == s;
    } else {
      var more := DataRest(s, n + 1);
      assert s[..n + 1][..n] == s[..n];
      rest := s[n].data + more;
      assert Data(s[..n]) + s[n].data + more == Data(s[..n]) + rest;
    }
  }
}
