/**
 * SMP over a unit's console: the decoder that separates frames from console text and rebuilds packets, and its
 * independence of how the bytes of the stream were cut into reads.
 */
module Console {
  import opened Common
  import Base64
  import Crc16

  const NEWLINE: byte := 10
  const RETURN: byte := 13
  const MAX_LINE := 127

  datatype Marker = PacketStart | Fragment

  function MarkerBytes(m: Marker): Bytes {
    if m == PacketStart then [6, 9] else [4, 20]
  }

  predicate IsMarkerAt(s: Bytes, i: nat) {
    i + 1 < |s| && ((s[i] == 6 && s[i + 1] == 9) || (s[i] == 4 && s[i + 1] == 20))
  }

  function MarkerAt(s: Bytes, i: nat): Marker
    requires IsMarkerAt(s, i)
  {
    if s[i] == 6 then PacketStart else Fragment
  }

  /** The first marker from `i` on, or -1. */
  function FindMarker(s: Bytes, i: nat := 0): (p: int)
    ensures p == -1 || (i <= p < |s| - 1 && IsMarkerAt(s, p))
    ensures forall j :: i <= j && (p == -1 || j < p) ==> !IsMarkerAt(s, j)
    decreases |s| - i
  {
    if i + 1 >= |s| then -1 else if IsMarkerAt(s, i) then i else FindMarker(s, i + 1)
  }

  function FindNewline(s: Bytes, i: nat := 0): (p: int)
    ensures p == -1 || (i <= p < |s| && s[p] == NEWLINE)
    ensures forall j :: i <= j < |s| && (p == -1 || j < p) ==> s[j] != NEWLINE
    decreases |s| - i
  {
    if i >= |s| then -1 else if s[i] == NEWLINE then i else FindNewline(s, i + 1)
  }

  function StripReturns(s: Bytes): Bytes {
    if s != [] && s[|s| - 1] == RETURN then StripReturns(s[..|s| - 1]) else s
  }

  /** How many bytes at the start are base64 characters. */
  function SymbolPrefix(s: Bytes): (n: nat)
    ensures n <= |s|
    ensures forall i :: 0 <= i < n ==> Base64.IsSymbol(s[i])
    ensures n < |s| ==> !Base64.IsSymbol(s[n])
  {
    if s == [] || !Base64.IsSymbol(s[0]) then 0 else 1 + SymbolPrefix(s[1..])
  }

  /** The console line being assembled, and the lines handed over. */
  datatype Text = Text(pending: Bytes, lines: seq<Bytes>)

  /** The packet being assembled, the counters, and the packets handed over. */
  datatype Frames = Frames(packet: Option<Bytes>, expected: nat, corrupt: nat, dropped: nat, packets: seq<Bytes>)

  datatype Decoder = Decoder(buffer: Bytes, marker: Option<Marker>, text: Text, frames: Frames)

  // ---- What each operation does ----

  function Delivered(t: Text, line: Bytes): Text { t.(lines := t.lines + [StripReturns(line)]) }

  /** Console text: its lines are delivered as they end. */
  function Emitted(t: Text, more: Bytes): Text { Lines(t.(pending := t.pending + more)) }

  function Lines(t: Text): Text
    decreases |t.pending|
  {
    var newline := FindNewline(t.pending);
    if newline < 0 then t else Lines(Delivered(t, t.pending[..newline]).(pending := t.pending[newline + 1..]))
  }

  function Dropped(f: Frames): Frames {
    f.(dropped := if f.packet.Some? then f.dropped + 1 else f.dropped, packet := None)
  }

  function Corrupted(f: Frames): Frames { Dropped(f.(corrupt := f.corrupt + 1)) }

  function Collected(f: Frames): Frames
    requires f.packet.Some?
  {
    var packet := f.packet.value;
    if |packet| < f.expected then f
    else
      var f := f.(packet := None);
      if |packet| != f.expected || f.expected <= 2 || Crc16.Checksum(packet) != Crc16.Zeros(16) then
        f.(corrupt := f.corrupt + 1, dropped := f.dropped + 1)
      else f.(packets := f.packets + [packet[..|packet| - 2]])
  }

  /** The bytes of a line that is base64 throughout. */
  function RawAccepted(f: Frames, marker: Marker, raw: Bytes): Frames {
    if marker == PacketStart then
      var f := Dropped(f);
      if |raw| < 2 then f.(corrupt := f.corrupt + 1)
      else Collected(f.(expected := FromBe16(raw[0], raw[1]), packet := Some(raw[2..])))
    else if f.packet.None? then f
    else Collected(f.(packet := Some(f.packet.value + raw)))
  }

  function LineAccepted(t: Text, f: Frames, marker: Marker, body: Bytes): (Text, Frames) {
    var n := SymbolPrefix(body);
    var raw := Base64.Decode(body);
    if n < |body| then (Delivered(t, body[n..]), Corrupted(f))
    else if raw.None? then (t, Corrupted(f))
    else (t, RawAccepted(f, marker, raw.value))
  }

  /** A marker can straddle two reads; its first byte is held back. */
  function Kept(s: Bytes): (n: nat)
    ensures n <= |s|
  {
    if s != [] && s[|s| - 1] in {6, 4} then 1 else 0
  }

  /** One turn of the loop of `feed`: the decoder after it, and whether the loop goes on. */
  function Turn(d: Decoder): (Decoder, bool) {
    var b := d.buffer;
    var next := FindMarker(b);
    if d.marker.None? then
      var end := if next < 0 then |b| - Kept(b) else next;
      var d := d.(text := Emitted(d.text, b[..end]));
      if next < 0 then (d.(buffer := b[end..]), false)
      else (d.(buffer := b[next + 2..], marker := Some(MarkerAt(b, next))), true)
    else
      var newline := FindNewline(b);
      if next >= 0 && (newline < 0 || next < newline) then
        (d.(buffer := b[next..], marker := None, frames := Corrupted(d.frames)), true)
      else if newline < 0 then
        (if |b| > 4 * MAX_LINE then d.(buffer := [], marker := None, frames := Corrupted(d.frames)) else d, false)
      else
        var (text, frames) := LineAccepted(d.text, d.frames, d.marker.value, StripReturns(b[..newline]));
        (Decoder(b[newline + 1..], None, text, frames), true)
  }

  function Weight(d: Decoder): nat { 2 * |d.buffer| + (if d.marker.Some? then 1 else 0) }

  function Run(d: Decoder): Decoder
    decreases Weight(d)
  {
    var (next, isMore) := Turn(d);
    if isMore then Run(next) else next
  }

  /** In console text: up to the next marker, or all but what may begin one. */
  lemma TextTurn(d: Decoder)
    requires d.marker.None?
    ensures var p := FindMarker(d.buffer);
            var k := |d.buffer| - Kept(d.buffer);
            Turn(d) ==
            if p < 0 then (d.(buffer := d.buffer[k..], text := Emitted(d.text, d.buffer[..k])), false)
            else
              (Decoder(d.buffer[p + 2..], Some(MarkerAt(d.buffer, p)), Emitted(d.text, d.buffer[..p]), d.frames), true)
  {
    hide Emitted, FindMarker, Kept, MarkerAt;
  }

  /** A marker ends the line before a newline does. */
  predicate IsCut(b: Bytes) {
    FindMarker(b) >= 0 && (FindNewline(b) < 0 || FindMarker(b) < FindNewline(b))
  }

  predicate IsOpen(b: Bytes) { FindMarker(b) < 0 && FindNewline(b) < 0 }

  /** In a line: it is cut by another frame, or goes on, or ends. */
  lemma LineTurn(d: Decoder)
    requires d.marker.Some?
    ensures var b := d.buffer;
            Turn(d) ==
            if IsCut(b) then (Decoder(b[FindMarker(b)..], None, d.text, Corrupted(d.frames)), true)
            else if IsOpen(b) then
              (if |b| > 4 * MAX_LINE then Decoder([], None, d.text, Corrupted(d.frames)) else d, false)
            else
              var newline := FindNewline(b);
              var accepted := LineAccepted(d.text, d.frames, d.marker.value, StripReturns(b[..newline]));
              (Decoder(b[newline + 1..], None, accepted.0, accepted.1), true)
  {
    hide FindMarker, FindNewline, LineAccepted, StripReturns, Corrupted;
  }

  lemma RunTurns(d: Decoder)
    ensures Run(d) == if Turn(d).1 then Run(Turn(d).0) else Turn(d).0
    ensures Turn(d).1 ==> Weight(Turn(d).0) < Weight(d)
  {
  }

  function Add(d: Decoder, data: Bytes): Decoder { d.(buffer := d.buffer + data) }

  function Fed(d: Decoder, data: Bytes): Decoder { Run(Add(d, data)) }

  // ---- The decoder ----

  class SerialFrameDecoder {
    var buffer: Bytes
    var marker: Option<Marker>
    var text: Bytes
    var packet: Option<Bytes>
    var expected: nat
    var corruptLines: nat
    var droppedPackets: nat
    // What was handed to the console callback.
    var console: seq<Bytes>

    ghost function TextState(): Text
      reads this
    {
      Text(text, console)
    }

    ghost function FrameState(packets: seq<Bytes>): Frames
      reads this
    {
      Frames(packet, expected, corruptLines, droppedPackets, packets)
    }

    ghost function Contents(packets: seq<Bytes>): Decoder
      reads this
    {
      Decoder(buffer, marker, TextState(), FrameState(packets))
    }

    constructor ()
      ensures Contents([]) == Decoder([], None, Text([], []), Frames(None, 0, 0, 0, []))
    {
      buffer, marker, text, packet, expected := [], None, [], None, 0;
      corruptLines, droppedPackets, console := 0, 0, [];
    }

    method Deliver(line: Bytes)
      modifies this`console
      ensures TextState() == Delivered(old(TextState()), line)
    {
      console := console + [StripReturns(line)];
    }

    method EmitText(more: Bytes)
      modifies this`text, this`console
      ensures TextState() == Emitted(old(TextState()), more)
    {
      hide FindNewline, StripReturns;
      text := text + more;
      var newline := FindNewline(text);
      while newline >= 0
        invariant newline == FindNewline(text)
        invariant Lines(TextState()) == Emitted(old(TextState()), more)
        decreases |text|
      {
        Deliver(text[..newline]);
        text := text[newline + 1..];
        newline := FindNewline(text);
      }
    }

    /** What is pending counts as a line, though no newline ended it. */
    method FlushText()
      modifies this`text, this`console
      ensures text == []
      ensures console == if old(text) == [] then old(console) else old(console) + [StripReturns(old(text))]
    {
      if text != [] {
        Deliver(text);
        text := [];
      }
    }

    method DropPacket()
      modifies this`droppedPackets, this`packet
      ensures FrameState([]) == Dropped(old(FrameState([])))
    {
      if packet.Some? {
        droppedPackets := droppedPackets + 1;
      }
      packet := None;
    }

    method Corrupt()
      modifies this`corruptLines, this`droppedPackets, this`packet
      ensures FrameState([]) == Corrupted(old(FrameState([])))
    {
      corruptLines := corruptLines + 1;
      DropPacket();
    }

    method AcceptLine(start: Marker, body: Bytes, ghost packets: seq<Bytes>) returns (completed: Option<Bytes>)
      modifies this`console, this`corruptLines, this`droppedPackets, this`packet, this`expected
      ensures (TextState(), FrameState(packets + if completed.Some? then [completed.value] else []))
              == LineAccepted(old(TextState()), old(FrameState(packets)), start, body)
    {
      assert packets + [] == packets;
      var n := SymbolPrefix(body);
      if n < |body| {
        Corrupt();
        // The rest of the line was no part of the frame.
        Deliver(body[n..]);
        return None;
      }
      var decoded := Base64.Decode(body);
      if decoded.None? {
        Corrupt();
        return None;
      }
      var raw := decoded.value;

      if start == PacketStart {
        DropPacket();
        if |raw| < 2 {
          corruptLines := corruptLines + 1;
          return None;
        }
        expected := FromBe16(raw[0], raw[1]);
        packet := Some(raw[2..]);
      } else if packet.None? {
        // A fragment of nothing is ignored.
        return None;
      } else {
        packet := Some(packet.value + raw);
      }

      completed := Collect(packets);
    }

    /** The packet, once all of it is there. */
    method Collect(ghost packets: seq<Bytes>) returns (completed: Option<Bytes>)
      requires packet.Some?
      modifies this`corruptLines, this`droppedPackets, this`packet
      ensures FrameState(packets + if completed.Some? then [completed.value] else []) ==
              Collected(old(FrameState(packets)))
    {
      assert packets + [] == packets;
      var whole := packet.value;
      if |whole| < expected {
        return None;
      }
      packet := None;
      if |whole| != expected || expected <= 2 || Crc16.Checksum(whole) != Crc16.Zeros(16) {
        corruptLines := corruptLines + 1;
        droppedPackets := droppedPackets + 1;
        return None;
      }
      return Some(whole[..|whole| - 2]);
    }

    /** The turn of the loop in console text, up to the next marker. */
    method ReadText(ghost packets: seq<Bytes>) returns (isMore: bool)
      requires marker.None?
      modifies this`buffer, this`marker, this`text, this`console
      ensures (Contents(packets), isMore) == Turn(old(Contents(packets)))
    {
      hide Emitted;
      var start := FindMarker(buffer);
      if start < 0 {
        var keep := Kept(buffer);
        EmitText(buffer[..|buffer| - keep]);
        buffer := buffer[|buffer| - keep..];
        return false;
      }
      EmitText(buffer[..start]);
      marker := Some(MarkerAt(buffer, start));
      buffer := buffer[start + 2..];
      return true;
    }

    /** The turn of the loop in a frame's line. */
    method ReadLine(ghost packets: seq<Bytes>) returns (isMore: bool, completed: Option<Bytes>)
      requires marker.Some?
      modifies this
      ensures (Contents(packets + if completed.Some? then [completed.value] else []), isMore) ==
              Turn(old(Contents(packets)))
    {
      hide LineAccepted, StripReturns;
      assert packets + [] == packets;
      completed := None;
      var newline := FindNewline(buffer);
      var nextMarker := FindMarker(buffer);
      if nextMarker >= 0 && (newline < 0 || nextMarker < newline) {
        // The marker is looked at again, as the start of a line.
        Corrupt();
        buffer := buffer[nextMarker..];
        marker := None;
        return true, None;
      }
      if newline < 0 {
        if |buffer| > 4 * MAX_LINE {
          Corrupt();
          buffer := [];
          marker := None;
        }
        return false, None;
      }

      var body := StripReturns(buffer[..newline]);
      var start := marker.value;
      buffer := buffer[newline + 1..];
      marker := None;
      completed := AcceptLine(start, body, packets);
      return true, completed;
    }

    /** The packets completed by `data`; `before` are those of earlier reads. */
    method Feed(data: Bytes, ghost before: seq<Bytes>) returns (packets: seq<Bytes>)
      modifies this
      ensures Contents(before + packets) == Fed(old(Contents(before)), data)
    {
      hide Run, Turn;
      packets := [];
      assert before + packets == before;
      buffer := buffer + data;
      var isMore := true;
      while isMore
        invariant Fed(old(Contents(before)), data) ==
                  if isMore then Run(Contents(before + packets)) else Contents(before + packets)
        decreases isMore, Weight(Contents(before + packets))
      {
        RunTurns(Contents(before + packets));
        if marker.None? {
          isMore := ReadText(before + packets);
        } else {
          var completed;
          isMore, completed := ReadLine(before + packets);
          var more := if completed.Some? then [completed.value] else [];
          assert before + packets + more == before + (packets + more);
          packets := packets + more;
        }
      }
    }

    /** The reads of a stream, one after the other. */
    method FeedAll(cuts: seq<Bytes>) returns (packets: seq<Bytes>)
      modifies this
      ensures Contents(packets) == FedAll(old(Contents([])), cuts)
    {
      hide Fed;
      packets := [];
      for i := 0 to |cuts|
        invariant FedAll(Contents(packets), cuts[i..]) == FedAll(old(Contents([])), cuts)
      {
        assert cuts[i..][0] == cuts[i] && cuts[i..][1..] == cuts[i + 1..];
        var more := Feed(cuts[i], packets);
        packets := packets + more;
      }
    }
  }

  // ---- The cuts between reads do not matter ----

  /** The decoder before the turn that ends the loop. */
  function Last(d: Decoder): Decoder
    decreases Weight(d)
  {
    var (next, isMore) := Turn(d);
    if isMore then Last(next) else d
  }

  /** The loop ends by dropping a line that has grown too long without a newline. */
  predicate Overflows(d: Decoder) {
    var last := Last(d);
    last.marker.Some? && FindNewline(last.buffer) < 0 && |last.buffer| > 4 * MAX_LINE
  }

  lemma OverflowsTurns(d: Decoder)
    ensures Overflows(d) <==>
            if Turn(d).1 then Overflows(Turn(d).0)
            else d.marker.Some? && FindNewline(d.buffer) < 0 && |d.buffer| > 4 * MAX_LINE
  {
    hide Turn;
  }

  lemma FindNewlineIs(s: Bytes, p: int)
    requires p == -1 || (0 <= p < |s| && s[p] == NEWLINE)
    requires forall j :: 0 <= j < |s| && (p == -1 || j < p) ==> s[j] != NEWLINE
    ensures FindNewline(s) == p
  {
  }

  lemma MarkerInPrefix(s: Bytes, t: Bytes, i: nat)
    ensures i + 1 < |s| ==> IsMarkerAt(s + t, i) == IsMarkerAt(s, i)
    ensures IsMarkerAt(s + t, |s| + i) == IsMarkerAt(t, i)
  {
  }

  lemma {:induction false} LinesAppend(t: Text, more: Bytes)
    ensures Lines(t.(pending := t.pending + more)) == Emitted(Lines(t), more)
    decreases |t.pending|
  {
    var newline := FindNewline(t.pending);
    if newline < 0 {
    } else {
      FindNewlineIs(t.pending + more, newline);
      var next := Delivered(t, t.pending[..newline]).(pending := t.pending[newline + 1..]);
      assert (t.pending + more)[..newline] == t.pending[..newline];
      assert (t.pending + more)[newline + 1..] == t.pending[newline + 1..] + more;
      LinesAppend(next, more);
    }
  }

  lemma EmitTwice(t: Text, a: Bytes, b: Bytes)
    ensures Emitted(Emitted(t, a), b) == Emitted(t, a + b)
  {
    LinesAppend(t.(pending := t.pending + a), b);
    assert t.pending + a + b == t.pending + (a + b);
  }

  lemma Split(x: Bytes, b: Bytes, n: nat)
    requires n <= |x|
    ensures (x + b)[..n] == x[..n] && (x + b)[n..] == x[n..] + b
  {
  }

  /** What was found is found again when there is more. */
  lemma FoundAgain(x: Bytes, b: Bytes)
    ensures FindMarker(x) >= 0 ==> FindMarker(x + b) == FindMarker(x)
    ensures FindNewline(x) >= 0 ==> FindNewline(x + b) == FindNewline(x)
    ensures FindNewline(x) >= 0 && FindMarker(x) < 0 ==> FindMarker(x + b) < 0 || FindMarker(x + b) > FindNewline(x)
    ensures FindMarker(x) >= 0 && FindNewline(x) < 0 ==> FindNewline(x + b) < 0 || FindNewline(x + b) > FindMarker(x)
  {
    var next, newline := FindMarker(x), FindNewline(x);
    forall i: nat | i + 1 < |x| ensures IsMarkerAt(x + b, i) == IsMarkerAt(x, i) { MarkerInPrefix(x, b, i); }
    if newline >= 0 { FindNewlineIs(x + b, newline); }
  }

  lemma CutAgain(x: Bytes, b: Bytes)
    ensures FindMarker(x) >= 0 ==> MarkerAt(x + b, FindMarker(x)) == MarkerAt(x, FindMarker(x))
    ensures IsCut(x) ==> IsCut(x + b)
    ensures FindNewline(x) >= 0 && !IsCut(x) ==> !IsCut(x + b)
  {
    hide FindMarker, FindNewline;
    FoundAgain(x, b);
  }

  lemma TextTurnAppend(d: Decoder, b: Bytes)
    requires d.marker.None? && FindMarker(d.buffer) >= 0
    ensures Turn(Add(d, b)) == (Add(Turn(d).0, b), true)
  {
    hide Turn, Emitted, FindMarker, FindNewline, MarkerAt, IsMarkerAt;
    var x := d.buffer;
    var next := FindMarker(x);
    FoundAgain(x, b);
    CutAgain(x, b);
    TextTurn(d);
    TextTurn(Add(d, b));
    Split(x, b, next);
    Split(x, b, next + 2);
  }

  lemma LineTurnAppend(d: Decoder, b: Bytes)
    requires d.marker.Some? && !IsOpen(d.buffer)
    ensures Turn(Add(d, b)) == (Add(Turn(d).0, b), true)
  {
    hide Turn, LineAccepted, FindMarker, FindNewline, StripReturns, Corrupted, IsMarkerAt;
    var x := d.buffer;
    FoundAgain(x, b);
    CutAgain(x, b);
    LineTurn(d);
    LineTurn(Add(d, b));
    if IsCut(x) {
      Split(x, b, FindMarker(x));
    } else {
      Split(x, b, FindNewline(x));
      Split(x, b, FindNewline(x) + 1);
    }
  }

  /** A turn that goes on does not look past what it has. */
  lemma TurnAppend(d: Decoder, b: Bytes)
    requires Turn(d).1
    ensures Turn(Add(d, b)) == (Add(Turn(d).0, b), true)
  {
    hide Turn, FindMarker, FindNewline;
    if d.marker.None? {
      TextTurn(d);
      TextTurnAppend(d, b);
    } else {
      LineTurn(d);
      LineTurnAppend(d, b);
    }
  }

  lemma FindMarkerAfter(head: Bytes, tail: Bytes)
    requires forall i: nat :: i < |head| ==> !IsMarkerAt(head + tail, i)
    ensures FindMarker(head + tail) == if FindMarker(tail) < 0 then -1 else |head| + FindMarker(tail)
  {
    forall i: nat ensures IsMarkerAt(head + tail, |head| + i) == IsMarkerAt(tail, i) { MarkerInPrefix(head, tail, i); }
    var p := FindMarker(tail);
    forall i: nat | p < 0 || i < |head| + p ensures !IsMarkerAt(head + tail, i) {
      if i >= |head| { assert !IsMarkerAt(tail, i - |head|); }
    }
  }

  /** Emitting the text before a marker in two goes. */
  lemma JoinText(d: Decoder, head: Bytes, tail: Bytes)
    requires d.marker.None? && d.buffer == head + tail
    requires FindMarker(head + tail) == if FindMarker(tail) < 0 then -1 else |head| + FindMarker(tail)
    requires FindMarker(tail) < 0 ==> Kept(head + tail) == Kept(tail)
    ensures Turn(d) == Turn(d.(buffer := tail, text := Emitted(d.text, head)))
  {
    hide Emitted, FindMarker, Turn, Kept, IsMarkerAt;
    var p := FindMarker(tail);
    var n := if p < 0 then |tail| - Kept(tail) else p;
    TextTurn(d);
    TextTurn(d.(buffer := tail, text := Emitted(d.text, head)));
    EmitTwice(d.text, head, tail[..n]);
    Behind(head, tail, n);
    if p >= 0 {
      Behind(head, tail, p + 2);
      SameMarker(head, tail, p);
    }
  }

  lemma Behind(head: Bytes, tail: Bytes, n: nat)
    requires n <= |tail|
    ensures (head + tail)[..|head| + n] == head + tail[..n] && (head + tail)[|head| + n..] == tail[n..]
  {
  }

  lemma SameMarker(head: Bytes, tail: Bytes, p: nat)
    requires IsMarkerAt(tail, p)
    ensures IsMarkerAt(head + tail, |head| + p) && MarkerAt(head + tail, |head| + p) == MarkerAt(tail, p)
  {
  }

  /** Text that ends without a marker: what was held back joins what comes next. */
  lemma TextAppend(d: Decoder, b: Bytes)
    requires d.marker.None? && FindMarker(d.buffer) < 0
    ensures Turn(Add(Turn(d).0, b)) == Turn(Add(d, b))
  {
    hide Turn, Emitted, FindMarker;
    var x := d.buffer;
    var k := |x| - Kept(x);
    var head, tail := x[..k], x[k..] + b;
    assert x + b == head + tail;
    forall i: nat | i < k ensures !IsMarkerAt(head + tail, i) {
      if i + 1 < |x| { MarkerInPrefix(x, b, i); }
    }
    FindMarkerAfter(head, tail);
    JoinText(Add(d, b), head, tail);
    assert Add(d.(buffer := x[k..], text := Emitted(d.text, head)), b) ==
           Add(d, b).(buffer := tail, text := Emitted(d.text, head));
    TextTurn(d);
  }

  lemma {:induction false} RunAppend(d: Decoder, b: Bytes)
    requires !Overflows(d)
    ensures Run(Add(Run(d), b)) == Run(Add(d, b))
    ensures Overflows(Add(Run(d), b)) <==> Overflows(Add(d, b))
    decreases Weight(d)
  {
    hide Turn, Run, Overflows, FindNewline, FindMarker;
    RunTurns(d);
    OverflowsTurns(d);
    if Turn(d).1 {
      TurnAppend(d, b);
      RunTurns(Add(d, b));
      OverflowsTurns(Add(d, b));
      RunAppend(Turn(d).0, b);
    } else if d.marker.None? {
      TextTurn(d);
      TextAppend(d, b);
      var e := Add(Turn(d).0, b);
      RunTurns(e);
      OverflowsTurns(e);
      RunTurns(Add(d, b));
      OverflowsTurns(Add(d, b));
    } else {
      LineTurn(d);
    }
  }

  /**
   * Chunking: unless the first read ends in dropping an overlong line, two reads give what one read of both gives:
   * the same packets, console lines, counters and state, whatever the decoder was doing.
   */
  lemma FeedSplit(d: Decoder, a: Bytes, b: Bytes)
    requires !Overflows(Add(d, a))
    ensures Fed(Fed(d, a), b) == Fed(d, a + b)
  {
    hide Run, Overflows;
    RunAppend(Add(d, a), b);
    assert Add(Add(d, a), b) == Add(d, a + b) by { assert d.buffer + a + b == d.buffer + (a + b); }
  }

  function FedAll(d: Decoder, cuts: seq<Bytes>): Decoder
    decreases |cuts|
  {
    if |cuts| == 0 then d else FedAll(Fed(d, cuts[0]), cuts[1..])
  }

  /** No read but the last ends in dropping an overlong line. */
  predicate Fits(d: Decoder, cuts: seq<Bytes>)
    decreases |cuts|
  {
    |cuts| > 1 ==> !Overflows(Add(d, cuts[0])) && Fits(Fed(d, cuts[0]), cuts[1..])
  }

  lemma {:induction false} PartitionFeeds(d: Decoder, cuts: seq<Bytes>)
    requires |cuts| > 0 && Fits(d, cuts)
    ensures FedAll(d, cuts) == Fed(d, Concat(cuts))
    decreases |cuts|
  {
    if |cuts| == 1 {
      assert cuts[1..] == [] && Concat(cuts[1..]) == [];
      assert Concat(cuts) == cuts[0];
    } else {
      PartitionFeeds(Fed(d, cuts[0]), cuts[1..]);
      FeedSplit(d, cuts[0], Concat(cuts[1..]));
    }
  }

  /** Any two partitions of a stream decode to the same. */
  lemma PartitionsAgree(d: Decoder, cuts: seq<Bytes>, otherCuts: seq<Bytes>)
    requires |cuts| > 0 && |otherCuts| > 0 && Concat(cuts) == Concat(otherCuts)
    requires Fits(d, cuts) && Fits(d, otherCuts)
    ensures FedAll(d, cuts) == FedAll(d, otherCuts)
  {
    PartitionFeeds(d, cuts);
    PartitionFeeds(d, otherCuts);
  }

  // ---- A stream whose lines are short never overflows, however it is cut ----

  /** The line goes on to the end of the bytes, or ends within the bound: at a newline, or at a marker that cuts it. */
  predicate IsShortFrom(s: Bytes, i: nat) {
    |s| <= i + 4 * MAX_LINE || EndsWithin(s, i, i + 4 * MAX_LINE)
  }

  predicate EndsWithin(s: Bytes, i: nat, last: nat)
    requires last < |s|
  {
    exists j :: i <= j <= last && EndsLine(s, j, last)
  }

  /** At `j` there is a newline, or a marker that is complete with the byte `last`. */
  predicate EndsLine(s: Bytes, j: nat, last: nat)
    requires j < |s|
  {
    s[j] == NEWLINE || (j < last && IsMarkerAt(s, j))
  }

  /** Every line that starts with a marker ends within the decoder's bound. */
  ghost predicate HasShortLines(d: Decoder) {
    && (d.marker.Some? ==> IsShortFrom(d.buffer, 0))
    && forall i: nat :: IsMarkerAt(d.buffer, i) ==> IsShortFrom(d.buffer, i + 2)
  }

  lemma ShortAfterDrop(s: Bytes, n: nat)
    requires n <= |s|
    ensures forall i: nat :: IsShortFrom(s, n + i) ==> IsShortFrom(s[n..], i)
    ensures forall i: nat :: IsMarkerAt(s[n..], i) == IsMarkerAt(s, n + i)
  {
    forall i: nat | IsShortFrom(s, n + i) ensures IsShortFrom(s[n..], i) {
      if |s| > n + i + 4 * MAX_LINE {
        var j :| n + i <= j <= n + i + 4 * MAX_LINE && EndsLine(s, j, n + i + 4 * MAX_LINE);
        assert EndsLine(s[n..], j - n, i + 4 * MAX_LINE);
      }
    }
  }

  lemma {:induction false} ShortLinesFit(d: Decoder)
    requires HasShortLines(d)
    ensures !Overflows(d)
    decreases Weight(d)
  {
    RunTurns(d);
    if !Turn(d).1 {
    } else {
      ShortLinesTurn(d);
      ShortLinesFit(Turn(d).0);
    }
  }

  /** A turn that goes on drops bytes from the front, up to a marker or a newline. */
  lemma TurnDrops(d: Decoder)
    requires Turn(d).1
    ensures var t, n := Turn(d).0, |d.buffer| - |Turn(d).0.buffer|;
            && 0 <= n && t.buffer == d.buffer[n..]
            && (t.marker.Some? ==> n >= 2 && IsMarkerAt(d.buffer, n - 2))
  {
    hide Emitted, LineAccepted, StripReturns, Kept;
  }

  lemma ShortLinesTurn(d: Decoder)
    requires HasShortLines(d) && Turn(d).1
    ensures HasShortLines(Turn(d).0)
  {
    hide Turn, IsShortFrom, IsMarkerAt;
    TurnDrops(d);
    var b, t := d.buffer, Turn(d).0;
    var n := |b| - |t.buffer|;
    ShortAfterDrop(b, n);
    if t.marker.Some? { assert IsShortFrom(b, n + 0); }
    forall i: nat | IsMarkerAt(t.buffer, i) ensures IsShortFrom(t.buffer, i + 2) {
      assert IsMarkerAt(b, n + i) && IsShortFrom(b, n + (i + 2));
    }
  }

  lemma ShortLinesOfPrefix(d: Decoder, a: Bytes, b: Bytes)
    requires HasShortLines(Add(d, a + b))
    ensures HasShortLines(Add(d, a))
  {
    var s, t := d.buffer + a, d.buffer + (a + b);
    assert t == s + b;
    forall i: nat | IsShortFrom(t, i) ensures IsShortFrom(s, i) {
      if |s| > i + 4 * MAX_LINE {
        var j :| i <= j <= i + 4 * MAX_LINE && EndsLine(t, j, i + 4 * MAX_LINE);
        assert EndsLine(s, j, i + 4 * MAX_LINE);
      }
    }
    forall i: nat | IsMarkerAt(s, i) ensures IsShortFrom(s, i + 2) {
      MarkerInPrefix(s, b, i);
      assert IsMarkerAt(t, i);
    }
  }

  lemma {:induction false} CutsFit(d: Decoder, fed: Bytes, cuts: seq<Bytes>)
    requires HasShortLines(Add(d, fed + Concat(cuts)))
    ensures Fits(Fed(d, fed), cuts)
    decreases |cuts|
  {
    if |cuts| <= 1 {
    } else {
      var rest := Concat(cuts[1..]);
      assert fed + Concat(cuts) == (fed + cuts[0]) + rest == fed + (cuts[0] + rest);
      ShortLinesOfPrefix(d, fed, cuts[0] + rest);
      ShortLinesFit(Add(d, fed));
      ShortLinesOfPrefix(d, fed + cuts[0], rest);
      ShortLinesFit(Add(d, fed + cuts[0]));
      RunAppend(Add(d, fed), cuts[0]);
      assert Add(Add(d, fed), cuts[0]) == Add(d, fed + cuts[0]) by {
        assert d.buffer + fed + cuts[0] == d.buffer + (fed + cuts[0]);
      }
      CutsFit(d, fed + cuts[0], cuts[1..]);
    }
  }

  /** Whatever the cuts, a stream with short lines decodes as if it were read at once. */
  lemma AnyCuts(d: Decoder, cuts: seq<Bytes>)
    requires |cuts| > 0
    requires HasShortLines(Add(d, Concat(cuts)))
    ensures FedAll(d, cuts) == Fed(d, Concat(cuts))
  {
    if |cuts| > 1 {
      ShortLinesOfPrefix(d, cuts[0], Concat(cuts[1..]));
      ShortLinesFit(Add(d, cuts[0]));
      CutsFit(d, cuts[0], cuts[1..]);
    }
    PartitionFeeds(d, cuts);
  }
}
