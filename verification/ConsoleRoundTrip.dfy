/** The console encoder, and what its lines decode to among console text and however the stream is cut. */
module ConsoleRoundTrip {
  import opened Common
  import Base64
  import Crc16
  import opened Console

  const LINE_DATA := (MAX_LINE - 3) / 4 * 3

  datatype Framed = Framed(marker: Marker, data: Bytes)

  function Line(x: Framed): Bytes { MarkerBytes(x.marker) + Base64.Encode(x.data) + [NEWLINE] }

  /** The body cut into lines; only the first carries the packet marker. */
  function Cut(body: Bytes, isFirst: bool): seq<Framed>
    decreases |body|
  {
    if body == [] then []
    else
      var n := Min(|body|, LINE_DATA);
      [Framed(if isFirst then PacketStart else Fragment, body[..n])] + Cut(body[n..], false)
  }

  /** The length of the packet and the CRC, the packet, and the CRC. */
  function Body(packet: Bytes): (body: Bytes)
    requires |packet| + 2 < 0x1_0000
    ensures |body| == |packet| + 4
  {
    ToBe16(|packet| + 2) + packet + Crc16.Packed(Crc16.Checksum(packet))
  }

  function ToLines(xs: seq<Framed>): (lines: seq<Bytes>)
    ensures |lines| == |xs|
  {
    seq(|xs|, i requires 0 <= i < |xs| => Line(xs[i]))
  }

  lemma NoMoreLines()
    ensures forall isFirst :: ToLines(Cut([], isFirst)) == []
  {
  }

  lemma NextLine(body: Bytes, offset: nat)
    requires offset < |body|
    ensures var n := Min(|body| - offset, LINE_DATA);
            var x := Framed(if offset == 0 then PacketStart else Fragment, body[offset..offset + n]);
            ToLines(Cut(body[offset..], offset == 0)) == [Line(x)] + ToLines(Cut(body[offset + n..], false))
  {
    var rest, n := body[offset..], Min(|body| - offset, LINE_DATA);
    assert rest[..n] == body[offset..offset + n] && rest[n..] == body[offset + n..];
  }

  /** The lines of a packet, or nothing where its length does not fit the two bytes before it. */
  method EncodeSerialLines(packet: Bytes) returns (lines: Option<seq<Bytes>>)
    ensures lines == if |packet| + 2 < 0x1_0000 then Some(ToLines(Cut(Body(packet), true))) else None
  {
    if |packet| + 2 >= 0x1_0000 {
      return None;
    }
    var result := CutLines(Body(packet));
    return Some(result);
  }

  method CutLines(body: Bytes) returns (lines: seq<Bytes>)
    ensures lines == ToLines(Cut(body, true))
  {
    hide ToLines, Cut, Base64.Encode, MarkerBytes;
    lines := [];
    var offset := 0;
    assert body[0..] == body;
    while offset < |body|
      invariant offset <= |body|
      invariant lines + ToLines(Cut(body[offset..], offset == 0)) == ToLines(Cut(body, true))
    {
      var n := Min(|body| - offset, LINE_DATA);
      var marker := if offset == 0 then PacketStart else Fragment;
      NextLine(body, offset);
      var line := MarkerBytes(marker) + Base64.Encode(body[offset..offset + n]) + [NEWLINE];
      ghost var rest := ToLines(Cut(body[offset + n..], false));
      assert lines + ([line] + rest) == (lines + [line]) + rest;
      lines := lines + [line];
      offset := offset + n;
    }
    NoMoreLines();
    assert body[offset..] == [];
  }

  // ---- A stream of lines among console text ----

  predicate IsPlain(text: Bytes) { FindMarker(text) < 0 }

  predicate ArePlain(texts: seq<Bytes>) { forall i :: 0 <= i < |texts| ==> IsPlain(texts[i]) }

  function Stream(xs: seq<Framed>, texts: seq<Bytes>): Bytes
    requires |texts| == |xs| + 1
  {
    texts[0] + if |xs| == 0 then [] else Line(xs[0]) + Stream(xs[1..], texts[1..])
  }

  function AllAccepted(f: Frames, xs: seq<Framed>): Frames
    decreases |xs|
  {
    if |xs| == 0 then f else AllAccepted(RawAccepted(f, xs[0].marker, xs[0].data), xs[1..])
  }

  lemma PlainThen(text: Bytes, m: Marker, rest: Bytes)
    requires IsPlain(text)
    ensures FindMarker(text + (MarkerBytes(m) + rest)) == |text|
    ensures MarkerAt(text + (MarkerBytes(m) + rest), |text|) == m
  {
    var tail := MarkerBytes(m) + rest;
    forall i: nat | i < |text| ensures !IsMarkerAt(text + tail, i) {
      MarkerInPrefix(text, tail, i);
    }
    assert IsMarkerAt(text + tail, |text|);
  }

  /** No byte of a line's base64, and no position in it, looks like a marker or a newline. */
  lemma EncodedIsPlain(data: Bytes, rest: Bytes)
    ensures var e := Base64.Encode(data);
            && FindNewline(e + ([NEWLINE] + rest)) == |e|
            && (FindMarker(e + ([NEWLINE] + rest)) < 0 || FindMarker(e + ([NEWLINE] + rest)) > |e|)
            && SymbolPrefix(e) == |e|
            && StripReturns(e) == e
  {
    var e := Base64.Encode(data);
    var s := e + ([NEWLINE] + rest);
    forall i | 0 <= i < |e| ensures Base64.IsSymbol(e[i]) && s[i] == e[i] {
      Base64.EncodeIsSymbols(data, i);
    }
    FindNewlineIs(s, |e|);
    assert forall i :: 0 <= i <= |e| ==> !IsMarkerAt(s, i);
  }

  /** One line among text: the text is console output, the line's bytes go to the packet. */
  lemma LineRuns(t: Text, f: Frames, text: Bytes, x: Framed, rest: Bytes)
    requires IsPlain(text)
    ensures Run(Decoder(text + (Line(x) + rest), None, t, f))
            == Run(Decoder(rest, None, Emitted(t, text), RawAccepted(f, x.marker, x.data)))
  {
    hide Emitted, RawAccepted, Run, Turn, FindMarker, FindNewline, Base64.Encode;
    var tail := Base64.Encode(x.data) + ([NEWLINE] + rest);
    LineBytes(x, rest);
    var d1 := Decoder(tail, Some(x.marker), Emitted(t, text), f);
    TextThenMarker(t, f, text, x.marker, tail);
    LineTurns(d1, x.data, rest);
    RunTurns(d1);
  }

  lemma LineBytes(x: Framed, rest: Bytes)
    ensures Line(x) + rest == MarkerBytes(x.marker) + (Base64.Encode(x.data) + ([NEWLINE] + rest))
  {
    var m, e := MarkerBytes(x.marker), Base64.Encode(x.data);
    assert m + e + [NEWLINE] + rest == m + (e + ([NEWLINE] + rest));
  }

  lemma TextThenMarker(t: Text, f: Frames, text: Bytes, marker: Marker, tail: Bytes)
    requires IsPlain(text)
    ensures Run(Decoder(text + (MarkerBytes(marker) + tail), None, t, f)) ==
            Run(Decoder(tail, Some(marker), Emitted(t, text), f))
  {
    hide Emitted, Run, Turn, FindMarker;
    var d := Decoder(text + (MarkerBytes(marker) + tail), None, t, f);
    PlainThen(text, marker, tail);
    TextTurn(d);
    RunTurns(d);
    assert d.buffer[..|text|] == text && d.buffer[|text| + 2..] == tail;
  }

  lemma LineTurns(d: Decoder, data: Bytes, rest: Bytes)
    requires d.marker.Some? && d.buffer == Base64.Encode(data) + ([NEWLINE] + rest)
    ensures Turn(d) == (Decoder(rest, None, d.text, RawAccepted(d.frames, d.marker.value, data)), true)
  {
    hide RawAccepted, FindMarker, FindNewline, StripReturns, Base64.Decode, Base64.Encode;
    var e := Base64.Encode(data);
    EncodedIsPlain(data, rest);
    Base64.DecodeEncode(data);
    assert d.buffer[..|e|] == e && d.buffer[|e| + 1..] == rest;
  }

  lemma {:induction false} StreamRuns(t: Text, f: Frames, xs: seq<Framed>, texts: seq<Bytes>)
    requires |texts| == |xs| + 1 && ArePlain(texts)
    ensures var all := Concat(texts);
            var end := |all| - Kept(texts[|xs|]);
            && 0 <= end
            && Run(Decoder(Stream(xs, texts), None, t, f)) ==
               Decoder(all[end..], None, Emitted(t, all[..end]), AllAccepted(f, xs))
    decreases |xs|
  {
    hide Emitted, RawAccepted, Run, FindMarker;
    var all, rest := Concat(texts), Concat(texts[1..]);
    assert IsPlain(texts[0]);
    if |xs| == 0 {
      assert texts[1..] == [] && all == texts[0] + [] == texts[0];
      var d := Decoder(texts[0] + [], None, t, f);
      assert texts[0] + [] == texts[0];
      TextTurn(d);
      RunTurns(d);
    } else {
      LineRuns(t, f, texts[0], xs[0], Stream(xs[1..], texts[1..]));
      assert ArePlain(texts[1..]);
      StreamRuns(Emitted(t, texts[0]), RawAccepted(f, xs[0].marker, xs[0].data), xs[1..], texts[1..]);
      var end := |rest| - Kept(texts[|xs|]);
      EmitTwice(t, texts[0], rest[..end]);
      assert all[..|texts[0]| + end] == texts[0] + rest[..end];
      assert all[|texts[0]| + end..] == rest[end..];
    }
  }

  lemma FedStream(d: Decoder, xs: seq<Framed>, texts: seq<Bytes>)
    requires d.marker.None? && d.buffer == []
    requires |texts| == |xs| + 1 && ArePlain(texts)
    ensures Fed(d, Stream(xs, texts)).frames == AllAccepted(d.frames, xs)
  {
    hide Run, Emitted, FindMarker, AllAccepted;
    var stream := Stream(xs, texts);
    assert Add(d, stream) == d.(buffer := stream) by { assert [] + stream == stream; }
    StreamRuns(d.text, d.frames, xs, texts);
  }

  // ---- The lines of a packet give the packet back ----

  ghost predicate Assembling(f: Frames, body: Bytes, n: nat) {
    2 <= n < |body| && f.packet == Some(body[2..n]) && f.expected == |body| - 2
  }

  function Completed(f: Frames, body: Bytes): Frames
    requires |body| >= 4
  {
    f.(packet := None, packets := f.packets + [body[2..|body| - 2]])
  }

  lemma {:induction false} FragmentsAssemble(f: Frames, body: Bytes, n: nat, j: nat)
    requires |body| > 4 && Crc16.Checksum(body[2..]) == Crc16.Zeros(16)
    requires Assembling(f, body, n)
    requires j <= |Cut(body[n..], false)|
    ensures var c := Cut(body[n..], false);
            if j == |c| then AllAccepted(f, c[..j]) == Completed(f, body)
            else AllAccepted(f, c[..j]).packets == f.packets
    decreases |body| - n
  {
    hide Crc16.Checksum, RawAccepted;
    var rest := body[n..];
    var m := Min(|rest|, LINE_DATA);
    var c := Cut(rest, false);
    if j == 0 {
    } else {
      TailOfPrefix(c, j);
      Slices(body, 2, n, m);
      var g := RawAccepted(f, Fragment, rest[..m]);
      if n + m < |body| {
        FragmentTaken(f, rest[..m]);
        FragmentsAssemble(g, body, n + m, j - 1);
      } else {
        assert body[2..n + m] == body[2..];
        FragmentCompletes(f, rest[..m], body);
        assert rest[m..] == [] && c[1..] == [];
      }
    }
  }

  lemma TailOfPrefix<T>(c: seq<T>, j: nat)
    requires 0 < j <= |c|
    ensures c[..j][1..] == c[1..][..j - 1] && c[..j][0] == c[0]
  {
  }

  lemma Slices(body: Bytes, k: nat, n: nat, m: nat)
    requires k <= n && n + m <= |body|
    ensures body[n..][m..] == body[n + m..] && body[k..n] + body[n..][..m] == body[k..n + m]
  {
    assert body[n..][..m] == body[n..n + m];
  }

  lemma FragmentTaken(f: Frames, raw: Bytes)
    requires f.packet.Some? && |f.packet.value + raw| < f.expected
    ensures RawAccepted(f, Fragment, raw) == f.(packet := Some(f.packet.value + raw))
  {
  }

  lemma FragmentCompletes(f: Frames, raw: Bytes, body: Bytes)
    requires |body| > 4 && Crc16.Checksum(body[2..]) == Crc16.Zeros(16)
    requires f.packet.Some? && f.packet.value + raw == body[2..] && f.expected == |body| - 2
    ensures RawAccepted(f, Fragment, raw) == Completed(f, body)
  {
    hide Crc16.Checksum;
    assert body[2..][..|body| - 4] == body[2..|body| - 2];
  }

  /** The packet is completed by its last line, and by no earlier one. */
  lemma PacketAssembles(f: Frames, packet: Bytes, j: nat)
    requires 1 <= |packet| && |packet| + 2 < 0x1_0000
    requires j <= |Cut(Body(packet), true)|
    ensures var c := Cut(Body(packet), true);
            if j == |c| then
              AllAccepted(f, c[..j]) == Dropped(f).(expected := |packet| + 2, packets := f.packets + [packet])
            else AllAccepted(f, c[..j]).packets == f.packets
  {
    var body := Body(packet);
    var n := Min(|body|, LINE_DATA);
    var c := Cut(body, true);
    Crc16.Residue(packet);
    assert body[2..] == packet + Crc16.Packed(Crc16.Checksum(packet)) && body[2..|body| - 2] == packet;
    if j > 0 {
      TailOfPrefix(c, j);
      var g := RawAccepted(f, PacketStart, body[..n]);
      assert body[..n][2..] == body[2..n];
      var h := Dropped(f).(expected := |packet| + 2, packet := Some(body[2..n]));
      if n < |body| {
        assert g == h;
        FragmentsAssemble(h, body, n, j - 1);
      } else {
        assert body[2..n] == body[2..];
        assert g == Completed(h, body);
        assert body[n..] == [] && c[1..] == [];
      }
    }
  }

  // ---- The stream has short lines, so it may be cut anywhere ----

  /** Where a marker stands in text, a line and what follows: at the start of the line, or in what follows. */
  lemma MarkersOfLine(text: Bytes, x: Framed, rest: Bytes, i: nat)
    requires IsPlain(text)
    requires IsMarkerAt(text + (Line(x) + rest), i)
    ensures i == |text| || (i >= |text| + |Line(x)| && IsMarkerAt(rest, i - |text| - |Line(x)|))
  {
    hide FindMarker, FindNewline, StripReturns, Base64.Encode;
    var e := Base64.Encode(x.data);
    var tail := e + ([NEWLINE] + rest);
    var s := text + (Line(x) + rest);
    assert s == text + (MarkerBytes(x.marker) + tail);
    PlainThen(text, x.marker, tail);
    EncodedIsPlain(x.data, rest);
    var before, line := text + MarkerBytes(x.marker), text + Line(x);
    assert s == before + tail && s == line + rest;
    if i > |text| {
      assert i != |text| + 1;
      MarkerInPrefix(before, tail, i - |text| - 2);
      MarkerInPrefix(line, rest, i - |line|);
    }
  }

  lemma {:induction false} StreamIsShort(xs: seq<Framed>, texts: seq<Bytes>, i: nat)
    requires |texts| == |xs| + 1 && ArePlain(texts)
    requires forall k :: 0 <= k < |xs| ==> |xs[k].data| <= LINE_DATA
    requires IsMarkerAt(Stream(xs, texts), i)
    ensures IsShortFrom(Stream(xs, texts), i + 2)
    decreases |xs|
  {
    hide FindMarker;
    var s := Stream(xs, texts);
    assert IsPlain(texts[0]);
    if |xs| == 0 {
      assert s == texts[0];
      PlainHasNone(texts[0], i);
    } else {
      var line, rest := texts[0] + Line(xs[0]), Stream(xs[1..], texts[1..]);
      assert s == texts[0] + (Line(xs[0]) + rest) == line + rest;
      MarkersOfLine(texts[0], xs[0], rest, i);
      if i == |texts[0]| {
        LineIsShort(line, rest, i + 2);
      } else {
        StreamIsShort(xs[1..], texts[1..], i - |line|);
        ShortFurther(line, rest, i - |line| + 2);
      }
    }
  }

  lemma LineIsShort(line: Bytes, rest: Bytes, i: nat)
    requires i < |line| <= i + 4 * MAX_LINE && line[|line| - 1] == NEWLINE
    ensures IsShortFrom(line + rest, i)
  {
    if |line + rest| > i + 4 * MAX_LINE {
      assert EndsLine(line + rest, |line| - 1, i + 4 * MAX_LINE);
    }
  }

  lemma PlainHasNone(text: Bytes, i: nat)
    requires IsPlain(text)
    ensures !IsMarkerAt(text, i)
  {
  }

  lemma ShortFurther(head: Bytes, tail: Bytes, i: nat)
    requires IsShortFrom(tail, i)
    ensures IsShortFrom(head + tail, |head| + i)
  {
    if |tail| > i + 4 * MAX_LINE {
      var j :| i <= j <= i + 4 * MAX_LINE && EndsLine(tail, j, i + 4 * MAX_LINE);
      assert EndsLine(head + tail, |head| + j, |head| + i + 4 * MAX_LINE);
    }
  }

  lemma {:induction false} CutIsShort(body: Bytes, isFirst: bool, k: nat)
    requires k < |Cut(body, isFirst)|
    ensures |Cut(body, isFirst)[k].data| <= LINE_DATA
    decreases |body|
  {
    if k == 0 {
    } else {
      CutIsShort(body[Min(|body|, LINE_DATA)..], false, k - 1);
    }
  }

  predicate AreSendable(packets: seq<Bytes>) {
    forall i :: 0 <= i < |packets| ==> 1 <= |packets[i]| && |packets[i]| + 2 < 0x1_0000
  }

  /** The lines of the packets, one after the other. */
  function LinesOf(packets: seq<Bytes>): seq<Framed>
    requires AreSendable(packets)
  {
    if |packets| == 0 then [] else Cut(Body(packets[0]), true) + LinesOf(packets[1..])
  }

  lemma {:induction false} LinesAreShort(packets: seq<Bytes>, k: nat)
    requires AreSendable(packets) && k < |LinesOf(packets)|
    ensures |LinesOf(packets)[k].data| <= LINE_DATA
    decreases |packets|
  {
    hide Cut, Body;
    var first := Cut(Body(packets[0]), true);
    if k < |first| {
      CutIsShort(Body(packets[0]), true, k);
    } else {
      LinesAreShort(packets[1..], k - |first|);
    }
  }

  lemma {:induction false} AcceptedAppend(f: Frames, a: seq<Framed>, b: seq<Framed>)
    ensures AllAccepted(f, a + b) == AllAccepted(AllAccepted(f, a), b)
    decreases |a|
  {
    hide RawAccepted;
    if |a| == 0 {
      assert a + b == b;
    } else {
      assert (a + b)[1..] == a[1..] + b;
      AcceptedAppend(RawAccepted(f, a[0].marker, a[0].data), a[1..], b);
    }
  }

  /** What the packets add: themselves. One that was being assembled before the first is dropped. */
  function WithPackets(f: Frames, packets: seq<Bytes>): Frames {
    if |packets| == 0 then f
    else Dropped(f).(expected := |packets[|packets| - 1]| + 2, packets := f.packets + packets)
  }

  lemma {:induction false} PacketsAssemble(f: Frames, packets: seq<Bytes>)
    requires AreSendable(packets)
    ensures AllAccepted(f, LinesOf(packets)) == WithPackets(f, packets)
    decreases |packets|
  {
    hide Cut, Body, RawAccepted;
    if |packets| == 0 {
      NothingAccepted(f);
    } else {
      var first, rest := Cut(Body(packets[0]), true), packets[1..];
      AcceptedAppend(f, first, LinesOf(rest));
      PacketAssembles(f, packets[0], |first|);
      assert first[..|first|] == first;
      var g := AllAccepted(f, first);
      hide AllAccepted;
      PacketsAssemble(g, rest);
      assert f.packets + [packets[0]] + rest == f.packets + packets;
      assert |rest| == 0 ==> packets == [packets[0]];
    }
  }

  lemma NothingAccepted(f: Frames)
    ensures AllAccepted(f, []) == f
  {
  }

  /** What was held back when the last read ended belongs to the first text. */
  lemma JoinedStream(held: Bytes, xs: seq<Framed>, texts: seq<Bytes>)
    requires |texts| == |xs| + 1
    ensures var joined := [held + texts[0]] + texts[1..];
            Stream(xs, joined) == held + Stream(xs, texts) && Concat(joined) == held + Concat(texts)
  {
    hide Stream, Concat;
    var joined := [held + texts[0]] + texts[1..];
    assert joined[1..] == texts[1..];
    StreamStarts(xs, texts);
    StreamStarts(xs, joined);
    Regrouped(held, texts[0], AfterText(xs, texts[1..]));
    ConcatStarts(texts);
    ConcatStarts(joined);
    Regrouped(held, texts[0], Concat(texts[1..]));
  }

  /** What follows the first text of a stream. */
  function AfterText(xs: seq<Framed>, texts: seq<Bytes>): Bytes
    requires |texts| == |xs|
  {
    if |xs| == 0 then [] else Line(xs[0]) + Stream(xs[1..], texts)
  }

  lemma StreamStarts(xs: seq<Framed>, texts: seq<Bytes>)
    requires |texts| == |xs| + 1
    ensures Stream(xs, texts) == texts[0] + AfterText(xs, texts[1..])
  {
  }

  lemma ConcatStarts(texts: seq<Bytes>)
    requires |texts| > 0
    ensures Concat(texts) == texts[0] + Concat(texts[1..])
  {
  }

  lemma Regrouped(a: Bytes, b: Bytes, c: Bytes)
    ensures a + b + c == a + (b + c)
  {
  }

  /**
   * Round trip: the lines of any packets of 1 to 65533 bytes, with any marker-free console text before, between and
   * after them, and read in any pieces, decode to exactly those packets, in order; the text is the console's, whole and
   * in order, and no line counts as corrupt. It leaves the decoder as it may be before.
   */
  lemma RoundTrip(d: Decoder, packets: seq<Bytes>, texts: seq<Bytes>, cuts: seq<Bytes>)
    requires d.marker.None? && AreSendable(packets)
    requires |texts| == |LinesOf(packets)| + 1 && IsPlain(d.buffer + texts[0]) && ArePlain(texts[1..])
    requires |cuts| > 0 && Concat(cuts) == Stream(LinesOf(packets), texts)
    ensures var end := FedAll(d, cuts);
            var all := d.buffer + Concat(texts);
            && end.frames == WithPackets(d.frames, packets)
            && end.marker.None? && |end.buffer| <= Min(1, |all|)
            && end.buffer == all[|all| - |end.buffer|..]
            && end.text == Emitted(d.text, all[..|all| - |end.buffer|])
  {
    hide Run, Emitted, FindMarker, LinesOf, AllAccepted, FedAll, IsShortFrom, WithPackets, Stream;
    var xs := LinesOf(packets);
    var joined := [d.buffer + texts[0]] + texts[1..];
    JoinedStream(d.buffer, xs, texts);
    var stream := Stream(xs, joined);
    assert ArePlain(joined) by {
      assert forall i :: 0 < i < |joined| ==> joined[i] == texts[1..][i - 1];
    }
    forall k | 0 <= k < |xs| ensures |xs[k].data| <= LINE_DATA { LinesAreShort(packets, k); }
    assert Add(d, Concat(cuts)) == Decoder(stream, None, d.text, d.frames);
    forall i: nat | IsMarkerAt(stream, i) ensures IsShortFrom(stream, i + 2) { StreamIsShort(xs, joined, i); }
    AnyCuts(d, cuts);
    StreamRuns(d.text, d.frames, xs, joined);
    PacketsAssemble(d.frames, packets);
  }

  /** Until its last line is there, nothing is completed. */
  lemma NothingBeforeLastLine(d: Decoder, packet: Bytes, j: nat, texts: seq<Bytes>)
    requires d.marker.None? && d.buffer == []
    requires 1 <= |packet| && |packet| + 2 < 0x1_0000
    requires j < |Cut(Body(packet), true)| && |texts| == j + 1 && ArePlain(texts)
    ensures Fed(d, Stream(Cut(Body(packet), true)[..j], texts)).frames.packets == d.frames.packets
  {
    FedStream(d, Cut(Body(packet), true)[..j], texts);
    PacketAssembles(d.frames, packet, j);
  }

  /** The empty packet is the only one that encodes and does not come back: its line is refused as corrupt. */
  lemma EmptyPacketIsRefused(d: Decoder)
    requires d.marker.None? && d.buffer == []
    ensures var f := Dropped(d.frames);
            Fed(d, Stream(Cut(Body([]), true), [[], []])).frames ==
            f.(expected := 2, corrupt := f.corrupt + 1, dropped := f.dropped + 1)
  {
    var body := Body([]);
    EmptyIsOneLine(d.frames, body);
    hide Run, Emitted, IsPlain, Body, Cut, AllAccepted, RawAccepted;
    PlainIsEmpty();
    FedStream(d, Cut(body, true), [[], []]);
  }

  lemma EmptyIsOneLine(f: Frames, body: Bytes)
    requires |body| == 4
    ensures Cut(body, true) == [Framed(PacketStart, body)]
    ensures AllAccepted(f, Cut(body, true)) == RawAccepted(f, PacketStart, body)
  {
    hide RawAccepted;
    assert body[..4] == body && body[4..] == [];
    var xs := [Framed(PacketStart, body)];
    assert Cut(body, true) == xs && xs[1..] == [];
  }

  /**
   * The bound on overlong lines is what makes the cuts visible: a line longer than it, cut before its newline, is
   * dropped there, and its newline is console text.
   */
  lemma OverlongLineShowsCuts(d: Decoder, data: Bytes)
    requires d.marker.None? && d.buffer == []
    requires |Base64.Encode(data)| > 4 * MAX_LINE
    ensures var head := MarkerBytes(Fragment) + Base64.Encode(data);
            && Overflows(Add(d, head))
            && Fed(Fed(d, head), [NEWLINE]).frames == Corrupted(d.frames)
            && Fed(d, head + [NEWLINE]).frames == RawAccepted(d.frames, Fragment, data)
  {
    hide Emitted, RawAccepted, Run, Overflows, FindMarker, FindNewline, Base64.Encode;
    var e := Base64.Encode(data);
    var head := MarkerBytes(Fragment) + e;
    var d1 := Decoder(e, Some(Fragment), Emitted(d.text, []), d.frames);
    OverlongHead(d, e);
    EncodedIsPlain(data, []);
    FoundAgain(e, [NEWLINE] + []);
    OverlongDrops(d1);
    var d2 := d1.(buffer := [], marker := None, frames := Corrupted(d.frames));
    assert Fed(d, head) == d2;
    NewlineIsText(d2);
    LineRuns(d.text, d.frames, [], Framed(Fragment, data), []);
    assert [] + (Line(Framed(Fragment, data)) + []) == head + [NEWLINE];
    assert Add(d, head + [NEWLINE]) == d.(buffer := head + [NEWLINE]);
    NothingIsText(Decoder([], None, Emitted(d.text, []), RawAccepted(d.frames, Fragment, data)));
  }

  lemma OverlongHead(d: Decoder, e: Bytes)
    requires d.marker.None? && d.buffer == []
    ensures var d0, d1 := Add(d, MarkerBytes(Fragment) + e), Decoder(e, Some(Fragment), Emitted(d.text, []), d.frames);
            Run(d0) == Run(d1) && Overflows(d0) == Overflows(d1)
  {
    hide Run, FindMarker;
    var head := MarkerBytes(Fragment) + e;
    PlainIsEmpty();
    PlainThen([], Fragment, e);
    assert [] + head == head && head[2..] == e && head[..0] == [];
    TextTurn(Add(d, head));
    RunTurns(Add(d, head));
  }

  lemma PlainIsEmpty()
    ensures IsPlain([]) && IsPlain([NEWLINE])
  {
  }

  lemma OverlongDrops(d: Decoder)
    requires d.marker.Some? && |d.buffer| > 4 * MAX_LINE && FindMarker(d.buffer) < 0 && FindNewline(d.buffer) < 0
    ensures Overflows(d) && Run(d) == d.(buffer := [], marker := None, frames := Corrupted(d.frames))
  {
  }

  lemma NewlineIsText(d: Decoder)
    requires d.marker.None? && d.buffer == []
    ensures Fed(d, [NEWLINE]).frames == d.frames
  {
    hide Run, FindMarker;
    PlainIsEmpty();
    assert Add(d, [NEWLINE]).buffer == [NEWLINE];
    TextTurn(Add(d, [NEWLINE]));
    RunTurns(Add(d, [NEWLINE]));
  }

  lemma NothingIsText(d: Decoder)
    requires d.marker.None? && d.buffer == []
    ensures Run(d).frames == d.frames
  {
    hide Run, FindMarker;
    PlainIsEmpty();
    TextTurn(d);
    RunTurns(d);
  }
}
