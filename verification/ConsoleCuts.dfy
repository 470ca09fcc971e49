/**
 * The one thing that can make the cuts of a console stream visible is the drop of an overlong line: for which streams
 * some cut lets it happen, and what has to follow for it not to be seen.
 */
module ConsoleCuts {
  import opened Common
  import Base64
  import opened Console

  // ---- When no cut lets a line be dropped ----

  /** As a read leaves it: nothing to do, and a line within the bound. */
  predicate IsSettled(d: Decoder) {
    && !Turn(d).1
    && |d.buffer| <= if d.marker.Some? then 4 * MAX_LINE else 1
  }

  /** Every read leaves it so, and no whole line of text pending. */
  lemma FeedSettles(d: Decoder, data: Bytes)
    ensures IsSettled(Fed(d, data))
    ensures !HasNewline(d.text.pending) ==> !HasNewline(Fed(d, data).text.pending)
  {
    hide Run, IsSettled, HasNewline, Turn, Last;
    RunSettles(Add(d, data));
    if !HasNewline(d.text.pending) {
      RunsToLast(Add(d, data));
      TurnText(Last(Add(d, data)));
    }
  }

  lemma {:induction false} RunSettles(d: Decoder)
    ensures IsSettled(Run(d))
    decreases Weight(d)
  {
    hide Turn, Run, FindMarker, FindNewline;
    RunTurns(d);
    if Turn(d).1 {
      RunSettles(Turn(d).0);
    } else if d.marker.None? {
      TextTurn(d);
      KeptSettles(Turn(d).0, d.buffer);
    } else {
      LineTurn(d);
      LineSettles(Turn(d).0);
    }
  }

  lemma KeptSettles(d: Decoder, b: Bytes)
    requires d.marker.None? && d.buffer == b[|b| - Kept(b)..]
    ensures IsSettled(d)
  {
    hide Turn, Emitted;
    TextTurn(d);
  }

  lemma LineSettles(d: Decoder)
    requires if d.marker.Some? then IsOpen(d.buffer) && |d.buffer| <= 4 * MAX_LINE else d.buffer == []
    ensures IsSettled(d)
  {
    hide Turn, Emitted;
    if d.marker.Some? {
      LineTurn(d);
    } else {
      TextTurn(d);
    }
  }

  /** A turn goes on before a marker, up to it or past it into its line. */
  lemma TurnNearMarker(d: Decoder, i: nat)
    requires IsMarkerAt(d.buffer, i)
    ensures Turn(d).1
    ensures var t, n := Turn(d).0, |d.buffer| - |Turn(d).0.buffer|;
            0 <= n && t.buffer == d.buffer[n..] && (n <= i || (n == i + 2 && t.marker.Some?))
  {
    hide Turn, Emitted, LineAccepted, StripReturns, Corrupted;
    var next := FindMarker(d.buffer);
    assert 0 <= next <= i && next + 1 != i;
    if d.marker.None? {
      TextTurn(d);
    } else {
      LineTurn(d);
    }
  }

  /** Where a marker starts a line and nothing ends it, that line is the last. */
  lemma {:induction false} LastLine(d: Decoder, i: nat)
    requires IsMarkerAt(d.buffer, i)
    requires forall j: nat :: j > i ==> !IsMarkerAt(d.buffer, j)
    requires forall j :: i + 2 <= j < |d.buffer| ==> d.buffer[j] != NEWLINE
    ensures Last(d).marker.Some? && Last(d).buffer == d.buffer[i + 2..]
    ensures FindMarker(Last(d).buffer) < 0 && FindNewline(Last(d).buffer) < 0
    decreases Weight(d)
  {
    hide Turn, FindMarker, FindNewline;
    var b, t := d.buffer, Turn(d).0;
    var n := |b| - |t.buffer|;
    TurnNearMarker(d, i);
    RunTurns(d);
    MarkersBehind(b, n);
    if n <= i {
      LastLine(t, i - n);
      assert b[n..][i - n + 2..] == b[i + 2..];
    } else {
      FindsNothing(b, n);
      OpenIsLast(t);
    }
  }

  lemma OpenIsLast(d: Decoder)
    requires d.marker.Some? && IsOpen(d.buffer)
    ensures !Turn(d).1 && Last(d) == d
  {
    hide Turn, FindMarker, FindNewline;
    LineTurn(d);
  }

  lemma FindsNothing(s: Bytes, n: nat)
    requires n <= |s|
    requires forall j: nat :: j >= n ==> !IsMarkerAt(s, j)
    requires forall j :: n <= j < |s| ==> s[j] != NEWLINE
    ensures FindMarker(s[n..]) < 0 && FindNewline(s[n..]) < 0
  {
    MarkersBehind(s, n);
  }

  lemma MarkersBehind(s: Bytes, n: nat)
    requires n <= |s|
    ensures forall i: nat :: IsMarkerAt(s[n..], i) == IsMarkerAt(s, n + i)
  {
  }

  lemma ShortOrOverlong(s: Bytes, i: nat, n: nat)
    requires i <= n && !IsShortFrom(s, i) && n == i + 4 * MAX_LINE + 1
    ensures n <= |s|
    ensures forall j: nat :: j >= i ==> !IsMarkerAt(s[..n], j)
    ensures forall j :: i <= j < n ==> s[..n][j] != NEWLINE
  {
    assert !EndsWithin(s, i, i + 4 * MAX_LINE);
    forall j | i <= j < n ensures s[j] != NEWLINE && !IsMarkerAt(s[..n], j) {
      assert !EndsLine(s, j, i + 4 * MAX_LINE);
    }
  }

  /** The prefix of the bytes that ends with the byte too many of a line is dropped at its end. */
  lemma LongLineOverflows(d: Decoder, data: Bytes, i: nat) returns (n: nat)
    requires IsSettled(d) && !IsShortFrom(d.buffer + data, i)
    requires if i < 2 then i == 0 && d.marker.Some? else IsMarkerAt(d.buffer + data, i - 2)
    ensures n <= |data| && Overflows(Add(d, data[..n]))
  {
    hide Turn, FindMarker, FindNewline, IsMarkerAt;
    var s := d.buffer + data;
    var size := i + 4 * MAX_LINE + 1;
    ShortOrOverlong(s, i, size);
    n := size - |d.buffer|;
    var e := Add(d, data[..n]);
    assert e.buffer == s[..size];
    if i < 2 {
      FindsNothing(e.buffer, 0);
      assert e.buffer[0..] == e.buffer;
      OpenIsLast(e);
    } else {
      MarkerInPrefix(s[..size], s[size..], i - 2);
      assert s[..size] + s[size..] == s;
      NoOverlap(e.buffer, i - 2);
      LastLine(e, i - 2);
    }
  }

  lemma NoOverlap(s: Bytes, i: nat)
    requires IsMarkerAt(s, i)
    ensures !IsMarkerAt(s, i + 1)
  {
  }

  /** After any reads, some way of cutting what comes lets a line be dropped exactly if a line of it is too long. */
  lemma ShortLinesExactly(d: Decoder, data: Bytes)
    requires IsSettled(d)
    ensures HasShortLines(Add(d, data)) <==> forall n :: 0 <= n <= |data| ==> !Overflows(Add(d, data[..n]))
  {
    hide Overflows, IsShortFrom, IsMarkerAt, Turn;
    var s := d.buffer + data;
    if HasShortLines(Add(d, data)) {
      forall n | 0 <= n <= |data| ensures !Overflows(Add(d, data[..n])) {
        assert data[..n] + data[n..] == data;
        ShortLinesOfPrefix(d, data[..n], data[n..]);
        ShortLinesFit(Add(d, data[..n]));
      }
    } else if d.marker.Some? && !IsShortFrom(s, 0) {
      var n := LongLineOverflows(d, data, 0);
    } else {
      var i: nat :| IsMarkerAt(s, i) && !IsShortFrom(s, i + 2);
      var n := LongLineOverflows(d, data, i + 2);
    }
  }

  // ---- When a drop is not seen ----

  predicate HasNewline(s: Bytes) { FindNewline(s) >= 0 }

  /** What goes to the console text of the bytes, in a line or not; lines that are no frames apart. */
  function Spoken(b: Bytes, inLine: bool): Bytes
    decreases |b|, inLine
  {
    var next, newline := FindMarker(b), FindNewline(b);
    if !inLine then
      if next < 0 then b[..|b| - Kept(b)] else b[..next] + Spoken(b[next + 2..], true)
    else if IsCut(b) then Spoken(b[next..], false)
    else if IsOpen(b) then []
    else Spoken(b[newline + 1..], false)
  }

  /** Two pending texts make no difference: they are the same, or the line that is said ends them the same. */
  predicate Meet(p: Bytes, q: Bytes, spoken: Bytes) {
    p == q ||
    (HasNewline(spoken) &&
     var rest := spoken[..FindNewline(spoken)]; StripReturns(p + rest) == StripReturns(q + rest))
  }

  /**
   * The line dropped was in vain: nothing follows, or a marker that would have cut it, after text that leaves no trace;
   * or its newline, where it was no frame and what is delivered of it is the same.
   */
  predicate Hides(dropped: Bytes, pending: Bytes, b: Bytes) {
    var s := dropped + b;
    var next, newline := FindMarker(s), FindNewline(s);
    if b == [] then true
    else if IsCut(s) then
      next >= |dropped| &&
      var p := next - |dropped|;
      Meet(pending, pending + b[..p], Spoken(b[p..], false))
    else if newline >= |dropped| then
      var body := StripReturns(s[..newline]);
      var n, p := SymbolPrefix(body), newline - |dropped|;
      && n < |body| && StripReturns(body[n..]) == StripReturns(pending + b[..p])
      && Meet(pending, [], Spoken(b[p + 1..], false))
    else false
  }

  /** After nothing, or right before a marker, a drop is never seen. */
  lemma MarkersHide(dropped: Bytes, pending: Bytes, b: Bytes)
    requires FindMarker(dropped) < 0 && FindNewline(dropped) < 0
    requires b == [] || IsMarkerAt(b, 0)
    ensures Hides(dropped, pending, b)
  {
    hide Spoken, StripReturns;
    if b != [] {
      forall i: nat | i < |dropped| ensures !IsMarkerAt(dropped + b, i) { MarkerInPrefix(dropped, b, i); }
      FindMarkerAfter(dropped, b);
      assert pending + b[..0] == pending;
      var newline := FindNewline(dropped + b);
      assert newline >= 0 ==> newline > |dropped|;
    }
  }

  // ---- What a turn does to text and counters ----

  /** The lines of what is said, and what is left, when nothing was pending. */
  function Ended(said: Bytes): Text { Lines(Text(said, [])) }

  function Prefixed(lines: seq<Bytes>, t: Text): Text { Text(t.pending, lines + t.lines) }

  lemma PrefixedTwice(a: seq<Bytes>, b: seq<Bytes>, t: Text)
    ensures Prefixed(a + b, t) == Prefixed(a, Prefixed(b, t))
    ensures Prefixed(a, Text(t.pending, [])) == Text(t.pending, a)
  {
    assert a + b + t.lines == a + (b + t.lines) && a + [] == a;
  }

  lemma {:induction false} LinesPrefix(t: Text)
    ensures Lines(t) == Prefixed(t.lines, Ended(t.pending))
    ensures !HasNewline(Lines(t).pending)
    decreases |t.pending|
  {
    hide StripReturns, FindNewline, Lines, Prefixed;
    var newline := FindNewline(t.pending);
    LinesStep(t);
    LinesStep(Text(t.pending, []));
    if newline < 0 {
      PrefixedTwice(t.lines, [], t);
    } else {
      var line, rest := StripReturns(t.pending[..newline]), t.pending[newline + 1..];
      LinesPrefix(Text(rest, t.lines + [line]));
      LinesPrefix(Text(rest, [line]));
      assert [] + [line] == [line];
      PrefixedTwice(t.lines, [line], Ended(rest));
    }
  }

  /** The line ends what was pending; `rest` is what comes after it. */
  function LineSaid(t: Text, line: Bytes, rest: Text): Text { Prefixed(t.lines + [StripReturns(line)], rest) }

  /** Where there is a newline in what is said, what was pending ends there; else it grows. */
  lemma EmittedIs(t: Text, said: Bytes)
    requires !HasNewline(t.pending)
    ensures !HasNewline(Emitted(t, said).pending)
    ensures var k := FindNewline(said);
            Emitted(t, said) ==
            if k < 0 then t.(pending := t.pending + said)
            else LineSaid(t, t.pending + said[..k], Ended(said[k + 1..]))
  {
    hide StripReturns, FindNewline, Ended, Lines, HasNewline;
    var k := FindNewline(said);
    var all := t.(pending := t.pending + said);
    NewlineBehind(t.pending, said);
    LinesPrefix(all);
    LinesStep(all);
    if k >= 0 {
      LinesPrefix(Text(said[k + 1..], t.lines + [StripReturns(t.pending + said[..k])]));
    }
  }

  lemma NewlineBehind(pending: Bytes, said: Bytes)
    requires !HasNewline(pending)
    ensures var k, all := FindNewline(said), pending + said;
            if k < 0 then FindNewline(all) < 0
            else
              && FindNewline(all) == |pending| + k
              && all[..|pending| + k] == pending + said[..k] && all[|pending| + k + 1..] == said[k + 1..]
  {
    hide FindNewline;
    var k := FindNewline(said);
    FindNewlineIs(pending + said, if k < 0 then -1 else |pending| + k);
  }

  lemma LinesStep(t: Text)
    ensures var k := FindNewline(t.pending);
            Lines(t) ==
            if k < 0 then t else Lines(Text(t.pending[k + 1..], t.lines + [StripReturns(t.pending[..k])]))
  {
    hide StripReturns, FindNewline;
  }

  /** The decoders are at the same place in the stream, with nothing but their texts and frames different. */
  predicate AreAtSame(d: Decoder, e: Decoder) {
    d.buffer == e.buffer && d.marker == e.marker && !HasNewline(d.text.pending) && !HasNewline(e.text.pending)
  }

  /** What the turn says, if it is one of text. */
  function Said(d: Decoder): Bytes {
    var next := FindMarker(d.buffer);
    if d.marker.Some? then [] else d.buffer[..if next < 0 then |d.buffer| - Kept(d.buffer) else next]
  }

  /** The lines that a frame's line delivers, when it is none. */
  function Returned(d: Decoder): seq<Bytes> {
    if d.marker.None? || IsCut(d.buffer) || IsOpen(d.buffer) then []
    else
      var body := StripReturns(d.buffer[..FindNewline(d.buffer)]);
      var n := SymbolPrefix(body);
      if n < |body| then [StripReturns(body[n..])] else []
  }

  lemma TurnText(d: Decoder)
    requires !HasNewline(d.text.pending)
    ensures Turn(d).0.text ==
            if d.marker.None? then Emitted(d.text, Said(d)) else d.text.(lines := d.text.lines + Returned(d))
    ensures !HasNewline(Turn(d).0.text.pending)
  {
    hide Turn, FindMarker, FindNewline, Emitted, HasNewline, LineSaid, Kept, LineAccepted, StripReturns;
    if d.marker.None? {
      EmittedIs(d.text, Said(d));
      TextTurn(d);
    } else {
      LineTurn(d);
      LineText(d);
    }
  }

  lemma LineText(d: Decoder)
    requires d.marker.Some?
    ensures Returned(d) == [] && (IsCut(d.buffer) || IsOpen(d.buffer)) ==> d.text.lines + Returned(d) == d.text.lines
    ensures !IsCut(d.buffer) && !IsOpen(d.buffer) ==>
              var body := StripReturns(d.buffer[..FindNewline(d.buffer)]);
              LineAccepted(d.text, d.frames, d.marker.value, body).0 == d.text.(lines := d.text.lines + Returned(d))
  {
    hide FindMarker, FindNewline, SymbolPrefix, StripReturns;
    assert d.text.lines + [] == d.text.lines;
  }

  /** One more corrupt line. */
  function More(f: Frames): Frames { f.(corrupt := f.corrupt + 1) }

  /** What a line does to the packet does not depend on the text, nor on how many lines were corrupt. */
  lemma SameFrames(t: Text, u: Text, f: Frames, marker: Marker, body: Bytes)
    ensures LineAccepted(t, f, marker, body).1 == LineAccepted(u, f, marker, body).1
    ensures LineAccepted(u, More(f), marker, body).1 == More(LineAccepted(t, f, marker, body).1)
  {
    hide SymbolPrefix, Base64.Decode, StripReturns;
  }

  lemma SameTurn(d: Decoder, e: Decoder)
    requires AreAtSame(d, e)
    ensures Turn(d).1 == Turn(e).1 && AreAtSame(Turn(d).0, Turn(e).0)
    ensures Said(d) == Said(e) && Returned(d) == Returned(e)
    ensures d.frames == e.frames ==> Turn(d).0.frames == Turn(e).0.frames
    ensures e.frames == More(d.frames) ==> Turn(e).0.frames == More(Turn(d).0.frames)
  {
    hide Turn, HasNewline, Returned, Said, More;
    TurnText(d);
    TurnText(e);
    SameSaid(d, e);
    SamePlace(d, e);
    SameFrameTurn(d, e);
  }

  lemma SamePlace(d: Decoder, e: Decoder)
    requires d.buffer == e.buffer && d.marker == e.marker
    ensures Turn(d).1 == Turn(e).1
    ensures Turn(d).0.buffer == Turn(e).0.buffer && Turn(d).0.marker == Turn(e).0.marker
  {
    hide Turn, StripReturns, FindMarker, FindNewline, Emitted, LineAccepted, IsCut, IsOpen;
    if d.marker.None? {
      TextTurn(d);
      TextTurn(e);
    } else {
      LineTurn(d);
      LineTurn(e);
    }
  }

  lemma SameFrameTurn(d: Decoder, e: Decoder)
    requires d.buffer == e.buffer && d.marker == e.marker
    ensures d.frames == e.frames ==> Turn(d).0.frames == Turn(e).0.frames
    ensures e.frames == More(d.frames) ==> Turn(e).0.frames == More(Turn(d).0.frames)
  {
    hide Turn, StripReturns, FindMarker, FindNewline, Emitted, LineAccepted;
    if d.marker.None? {
      TextTurn(d);
      TextTurn(e);
    } else {
      LineTurn(d);
      LineTurn(e);
      if !IsCut(d.buffer) && !IsOpen(d.buffer) {
        SameFrames(d.text, e.text, d.frames, d.marker.value, StripReturns(d.buffer[..FindNewline(d.buffer)]));
      }
    }
  }

  lemma SameSaid(d: Decoder, e: Decoder)
    requires d.buffer == e.buffer && d.marker == e.marker
    ensures Said(d) == Said(e) && Returned(d) == Returned(e)
  {
    hide StripReturns, FindMarker, FindNewline, SymbolPrefix;
  }

  lemma {:induction false} MoreStays(d: Decoder, e: Decoder)
    requires AreAtSame(d, e) && e.frames == More(d.frames)
    ensures Run(e).frames == More(Run(d).frames)
    decreases Weight(d)
  {
    hide Turn, HasNewline;
    SameTurn(d, e);
    RunTurns(d);
    RunTurns(e);
    if !Turn(d).1 {
    } else {
      MoreStays(Turn(d).0, Turn(e).0);
    }
  }

  /** How many lines come does not depend on what is pending. */
  lemma {:induction false} SameCount(d: Decoder, e: Decoder)
    requires AreAtSame(d, e)
    ensures |Run(d).text.lines| - |d.text.lines| == |Run(e).text.lines| - |e.text.lines|
    decreases Weight(d)
  {
    hide Turn, HasNewline, Emitted, Said, Returned;
    SameTurn(d, e);
    TurnText(d);
    TurnText(e);
    EmittedIs(d.text, Said(d));
    EmittedIs(e.text, Said(d));
    RunTurns(d);
    RunTurns(e);
    if !Turn(d).1 {
    } else {
      SameCount(Turn(d).0, Turn(e).0);
    }
  }

  lemma SpokenTurn(d: Decoder)
    ensures Spoken(d.buffer, d.marker.Some?) ==
            Said(d) + if Turn(d).1 then Spoken(Turn(d).0.buffer, Turn(d).0.marker.Some?) else []
  {
    hide Turn, FindMarker, FindNewline, Emitted, LineAccepted, Kept, StripReturns, Corrupted;
    if d.marker.None? {
      TextTurn(d);
    } else {
      LineTurn(d);
    }
  }

  lemma MeetLater(p: Bytes, q: Bytes, said: Bytes, rest: Bytes)
    ensures !HasNewline(said) ==> (Meet(p, q, said + rest) <==> Meet(p + said, q + said, rest))
    ensures HasNewline(said) ==>
              var line := said[..FindNewline(said)];
              Meet(p, q, said + rest) <==> StripReturns(p + line) == StripReturns(q + line)
  {
    hide StripReturns;
    var k, l := FindNewline(said), FindNewline(rest);
    if k >= 0 {
      FindNewlineIs(said + rest, k);
      assert (said + rest)[..k] == said[..k];
    } else {
      FindNewlineIs(said + rest, if l < 0 then -1 else |said| + l);
      assert (p + said == q + said) == (p == q) by {
        assert (p + said)[|p + said| - |said|..] == said;
        if p + said == q + said {
          assert p == (p + said)[..|p|] && q == (q + said)[..|q|];
        }
      }
      if l >= 0 {
        assert (said + rest)[..|said| + l] == said + rest[..l];
        assert p + (said + rest[..l]) == p + said + rest[..l];
        assert q + (said + rest[..l]) == q + said + rest[..l];
      }
    }
  }

  lemma SameBehind<T>(a: seq<T>, b: seq<T>, x: seq<T>, y: seq<T>)
    requires |a| == |b| && |x| == |y|
    ensures a + x == b + y <==> a == b && x == y
  {
    if a + x == b + y {
      assert a == (a + x)[..|a|] && b == (b + y)[..|b|];
      assert x == (a + x)[|a|..] && y == (b + y)[|b|..];
    }
  }

  /** Two texts come to the same exactly if their lines are the same, and the next line ends what is pending alike. */
  lemma {:induction false} TextsMeet(d: Decoder, e: Decoder)
    requires AreAtSame(d, e) && d.frames == e.frames && |d.text.lines| == |e.text.lines|
    ensures Run(d) == Run(e) <==>
            d.text.lines == e.text.lines && Meet(d.text.pending, e.text.pending, Spoken(d.buffer, d.marker.Some?))
    decreases Weight(d)
  {
    hide Turn, Emitted, Said, Returned, Spoken, Meet, HasNewline;
    var said := Said(d);
    var next, other := Turn(d).0, Turn(e).0;
    SameTurn(d, e);
    TurnText(d);
    TurnText(e);
    RunTurns(d);
    RunTurns(e);
    SpokenTurn(d);
    var rest := if Turn(d).1 then Spoken(next.buffer, next.marker.Some?) else [];
    TextsAfter(d, e);
    MeetLater(d.text.pending, e.text.pending, said, rest);
    if Turn(d).1 {
      TextsMeet(next, other);
    } else {
      MeetNever(next.text.pending, other.text.pending);
    }
  }

  lemma MeetNever(p: Bytes, q: Bytes)
    ensures Meet(p, q, []) <==> p == q
  {
  }

  lemma MeetAlways(p: Bytes, spoken: Bytes)
    ensures Meet(p, p, spoken)
  {
  }

  /** One turn later the texts are as far apart as they were, or the line that was said made them one. */
  lemma TextsAfter(d: Decoder, e: Decoder)
    requires AreAtSame(d, e) && |d.text.lines| == |e.text.lines|
    ensures var t, u, said := Turn(d).0.text, Turn(e).0.text, Said(d);
            && |t.lines| == |u.lines|
            && (!HasNewline(said) ==>
                  && t.pending == d.text.pending + said && u.pending == e.text.pending + said
                  && (t.lines == u.lines <==> d.text.lines == e.text.lines))
            && (HasNewline(said) ==>
                  var line := said[..FindNewline(said)];
                  && t.pending == u.pending
                  && (t.lines == u.lines <==>
                      && d.text.lines == e.text.lines
                      && StripReturns(d.text.pending + line) == StripReturns(e.text.pending + line)))
  {
    hide StripReturns, Turn, Emitted, Ended, FindNewline, LineSaid, Said, Returned;
    var said := Said(d);
    SameTurn(d, e);
    TurnText(d);
    TurnText(e);
    if d.marker.Some? {
      SameBehind(d.text.lines, e.text.lines, Returned(d), Returned(d));
      SaidInLine(d);
    } else {
      EmittedIs(d.text, said);
      EmittedIs(e.text, said);
      if HasNewline(said) {
        var k := FindNewline(said);
        SameLineSaid(d.text, e.text, d.text.pending + said[..k], e.text.pending + said[..k], Ended(said[k + 1..]));
      }
    }
  }

  lemma SaidInLine(d: Decoder)
    requires d.marker.Some?
    ensures Said(d) == [] && !HasNewline([]) && d.text.pending + [] == d.text.pending
  {
  }

  lemma SameLineSaid(t: Text, u: Text, a: Bytes, b: Bytes, rest: Text)
    requires |t.lines| == |u.lines|
    ensures var v, w := LineSaid(t, a, rest), LineSaid(u, b, rest);
            && v.pending == w.pending && |v.lines| == |w.lines|
            && (v.lines == w.lines <==> t.lines == u.lines && StripReturns(a) == StripReturns(b))
  {
    hide StripReturns;
    SameBehind(t.lines + [StripReturns(a)], u.lines + [StripReturns(b)], rest.lines, rest.lines);
    SameBehind(t.lines, u.lines, [StripReturns(a)], [StripReturns(b)]);
  }

  // ---- Exactly when a drop is not seen ----

  lemma {:induction false} RunsToLast(d: Decoder)
    requires !HasNewline(d.text.pending)
    ensures !Turn(Last(d)).1 && Run(d) == Turn(Last(d)).0
    ensures !HasNewline(Last(d).text.pending)
    decreases Weight(d)
  {
    hide HasNewline, Turn;
    RunTurns(d);
    TurnText(d);
    if !Turn(d).1 {
    } else {
      RunsToLast(Turn(d).0);
    }
  }

  lemma {:induction false} LastAppend(d: Decoder, b: Bytes)
    ensures Run(Add(d, b)) == Run(Add(Last(d), b))
    decreases Weight(d)
  {
    hide Turn;
    if !Turn(d).1 {
    } else {
      RunTurns(d);
      TurnAppend(d, b);
      RunTurns(Add(d, b));
      LastAppend(Turn(d).0, b);
    }
  }

  /** A line of text, and nothing of it is pending. */
  lemma SaidLine(t: Text, line: Bytes)
    requires !HasNewline(t.pending) && !HasNewline(line)
    ensures Emitted(t, line + [NEWLINE]) == Text([], t.lines + [StripReturns(t.pending + line)])
    ensures Emitted(t, line) == t.(pending := t.pending + line)
  {
    hide StripReturns, Emitted;
    var said := line + [NEWLINE];
    FindNewlineIs(said, |line|);
    EmittedIs(t, said);
    EmittedIs(t, line);
    assert said[..|line|] == line && said[|line| + 1..] == [];
    assert Ended([]) == Text([], []);
    assert t.lines + [StripReturns(t.pending + line)] + [] == t.lines + [StripReturns(t.pending + line)];
  }

  /** Text up to where no marker can begin, and the rest as if that had been said before. */
  lemma JoinedText(d: Decoder, head: Bytes, tail: Bytes)
    requires d.marker.None? && d.buffer == head + tail
    requires forall i: nat :: i < |head| ==> !IsMarkerAt(head + tail, i)
    requires (|head| > 0 && head[|head| - 1] == NEWLINE) || FindMarker(tail) >= 0
    ensures Run(d) == Run(Decoder(tail, None, Emitted(d.text, head), d.frames))
  {
    hide Turn, Emitted;
    FindMarkerAfter(head, tail);
    JoinText(d, head, tail);
    RunTurns(d);
    RunTurns(Decoder(tail, None, Emitted(d.text, head), d.frames));
  }

  /** A line of text that ends at a newline, before any marker. */
  lemma JoinedLine(d: Decoder, q: nat)
    requires d.marker.None? && q == FindNewline(d.buffer) && !HasNewline(d.text.pending)
    requires FindMarker(d.buffer) < 0 || FindMarker(d.buffer) > q
    ensures var line := StripReturns(d.text.pending + d.buffer[..q]);
            Run(d) == Run(Decoder(d.buffer[q + 1..], None, Text([], d.text.lines + [line]), d.frames))
  {
    hide Emitted, StripReturns;
    var b := d.buffer;
    var head, tail := b[..q] + [NEWLINE], b[q + 1..];
    assert b == head + tail;
    FindNewlineIs(b[..q], -1);
    SaidLine(d.text, b[..q]);
    JoinedText(d, head, tail);
  }

  lemma CutTurn(d: Decoder)
    requires d.marker.Some? && IsCut(d.buffer)
    ensures Run(d) == Run(Decoder(d.buffer[FindMarker(d.buffer)..], None, d.text, Corrupted(d.frames)))
  {
    hide Turn, FindMarker, FindNewline;
    LineTurn(d);
    RunTurns(d);
  }

  lemma NewlineTurn(d: Decoder)
    requires d.marker.Some? && !IsCut(d.buffer) && !IsOpen(d.buffer)
    ensures var newline := FindNewline(d.buffer);
            var accepted := LineAccepted(d.text, d.frames, d.marker.value, StripReturns(d.buffer[..newline]));
            Run(d) == Run(Decoder(d.buffer[newline + 1..], None, accepted.0, accepted.1))
  {
    hide Turn, FindMarker, FindNewline, LineAccepted, StripReturns;
    LineTurn(d);
    RunTurns(d);
  }

  lemma OpenTurn(d: Decoder)
    requires d.marker.Some? && IsOpen(d.buffer)
    ensures Run(d) == if |d.buffer| > 4 * MAX_LINE then Decoder([], None, d.text, Corrupted(d.frames)) else d
  {
    hide Turn, FindMarker, FindNewline;
    LineTurn(d);
    RunTurns(d);
  }

  /** The line is accepted as a frame, or counts as corrupt and is returned to the text. */
  lemma AcceptedOrReturned(t: Text, f: Frames, marker: Marker, body: Bytes)
    ensures var n := SymbolPrefix(body);
            var accepted := LineAccepted(t, f, marker, body);
            if n < |body| then accepted == (t.(lines := t.lines + [StripReturns(body[n..])]), Corrupted(f))
            else accepted.0 == t
  {
    hide SymbolPrefix, StripReturns;
  }

  /** As a line of a frame, after a marker that straddled the reads, or as text: the two are never the same. */
  lemma StraddleShows(t: Text, f: Frames, marker: Marker, first: byte, c: Bytes)
    requires !HasNewline(t.pending) && f.packet.None? && first !in {6, 4, NEWLINE}
    ensures Run(Decoder(c, Some(marker), t, f)) != Run(Decoder([first] + c, None, t, f))
  {
    hide FindMarker, FindNewline, HasNewline, Emitted, Run, Turn;
    var d, e := Decoder(c, Some(marker), t, f), Decoder([first] + c, None, t, f);
    if IsCut(c) {
      CutTurn(d);
      StraddleCut(t, f, first, c);
    } else if IsOpen(c) {
      OpenTurn(d);
      BehindFirst(first, c);
      TextTurn(e);
      RunTurns(e);
    } else {
      StraddleLine(t, f, marker, first, c);
    }
  }

  lemma BehindFirst(first: byte, c: Bytes)
    requires first !in {6, 4, NEWLINE}
    ensures FindMarker([first] + c) == if FindMarker(c) < 0 then -1 else FindMarker(c) + 1
    ensures FindNewline([first] + c) == if FindNewline(c) < 0 then -1 else FindNewline(c) + 1
  {
    hide FindMarker, FindNewline;
    assert !IsMarkerAt([first] + c, 0);
    FindMarkerAfter([first], c);
    FindNewlineIs([first] + c, if FindNewline(c) < 0 then -1 else FindNewline(c) + 1);
  }

  lemma StraddleLine(t: Text, f: Frames, marker: Marker, first: byte, c: Bytes)
    requires !HasNewline(t.pending) && f.packet.None? && first !in {6, 4, NEWLINE} && !IsCut(c) && !IsOpen(c)
    ensures Run(Decoder(c, Some(marker), t, f)) != Run(Decoder([first] + c, None, t, f))
  {
    hide FindMarker, FindNewline, LineAccepted, StripReturns, HasNewline, Emitted, Run, SymbolPrefix;
    var d, e := Decoder(c, Some(marker), t, f), Decoder([first] + c, None, t, f);
    var newline := FindNewline(c);
    NewlineTurn(d);
    BehindFirst(first, c);
    JoinedLine(e, newline + 1);
    assert ([first] + c)[newline + 2..] == c[newline + 1..];
    var body := StripReturns(c[..newline]);
    AcceptedOrReturned(t, f, marker, body);
    var accepted := LineAccepted(t, f, marker, body);
    var line := StripReturns(t.pending + ([first] + c)[..newline + 1]);
    var d1 := Decoder(c[newline + 1..], None, accepted.0, accepted.1);
    var e1 := Decoder(c[newline + 1..], None, Text([], t.lines + [line]), f);
    NothingHasNewline();
    if SymbolPrefix(body) < |body| {
      MoreStays(e1, d1);
    } else {
      SameCount(d1, e1);
    }
  }

  lemma NothingHasNewline()
    ensures !HasNewline([])
  {
  }

  lemma StraddleCut(t: Text, f: Frames, first: byte, c: Bytes)
    requires !HasNewline(t.pending) && f.packet.None? && first !in {6, 4, NEWLINE}
    requires IsCut(c)
    ensures Run(Decoder(c[FindMarker(c)..], None, t, Corrupted(f))) != Run(Decoder([first] + c, None, t, f))
  {
    hide FindMarker, FindNewline, Emitted, Run;
    var next := FindMarker(c);
    var head, tail := [first] + c[..next], c[next..];
    assert [first] + c == head + tail;
    forall i: nat | i < |head| ensures !IsMarkerAt(head + tail, i) {
      if i > 0 {
        MarkerInPrefix([first], c, i - 1);
      }
    }
    assert IsMarkerAt(tail, 0);
    JoinedText(Decoder([first] + c, None, t, f), head, tail);
    FindNewlineIs(head, -1);
    SaidLine(t, head);
    EmittedIs(t, head);
    var d := Decoder(tail, None, t, Corrupted(f));
    var e := Decoder(tail, None, Emitted(t, head), f);
    assert d.frames == More(e.frames);
    MoreStays(e, d);
  }

  /** The decoder when a line is dropped. */
  predicate IsDropping(d: Decoder) {
    && d.marker.Some? && IsOpen(d.buffer) && |d.buffer| > 4 * MAX_LINE
    && !HasNewline(d.text.pending)
  }

  function AfterDrop(d: Decoder): Decoder { Decoder([], None, d.text, Corrupted(d.frames)) }

  lemma NoEndBefore(x: Bytes, b: Bytes)
    requires FindMarker(x) < 0 && FindNewline(x) < 0
    ensures var next, newline := FindMarker(x + b), FindNewline(x + b);
            && (next < 0 || next >= |x| - 1) && (newline < 0 || newline >= |x|)
            && FindNewline(b) == (if newline < 0 then -1 else newline - |x|)
            && (next < 0 || next >= |x| ==> FindMarker(b) == if next < 0 then -1 else next - |x|)
            && (next == |x| - 1 && next >= 0 ==> b != [] && b[0] in {9, 20})
  {
    var s := x + b;
    var next, newline := FindMarker(s), FindNewline(s);
    forall i: nat | i + 1 < |x| ensures !IsMarkerAt(s, i) { MarkerInPrefix(x, b, i); }
    assert forall j :: 0 <= j < |b| ==> b[j] == s[|x| + j];
    FindNewlineIs(b, if newline < 0 then -1 else newline - |x|);
    if next < 0 || next >= |x| {
      forall i: nat | i < |x| ensures !IsMarkerAt(s, i) {
      }
      FindMarkerAfter(x, b);
    }
  }

  /** The text before a marker is pending at the marker. */
  lemma JoinedPending(t: Text, f: Frames, b: Bytes, p: nat)
    requires IsCut(b) && FindMarker(b) == p && !HasNewline(t.pending)
    ensures !HasNewline(t.pending + b[..p])
    ensures Run(Decoder(b, None, t, f)) == Run(Decoder(b[p..], None, t.(pending := t.pending + b[..p]), f))
  {
    hide Run, FindMarker, FindNewline, Emitted;
    var head, tail := b[..p], b[p..];
    assert b == head + tail;
    FindNewlineIs(head, -1);
    SaidLine(t, head);
    EmittedIs(t, head);
    assert IsMarkerAt(tail, 0);
    FirstIs(tail);
    JoinedText(Decoder(b, None, t, f), head, tail);
  }

  lemma HidesAtMarker(x: Bytes, pending: Bytes, b: Bytes)
    requires IsCut(x + b) && FindMarker(x + b) >= |x|
    ensures var p := FindMarker(x + b) - |x|;
            Hides(x, pending, b) <==> Meet(pending, pending + b[..p], Spoken(b[p..], false))
  {
    hide FindMarker, FindNewline, Meet, Spoken, StripReturns, SymbolPrefix;
    assert b != [];
  }

  /** A marker comes next: the text before it is the only difference. */
  lemma MarkerHides(d: Decoder, b: Bytes)
    requires IsDropping(d)
    requires IsCut(d.buffer + b) && FindMarker(d.buffer + b) >= |d.buffer|
    ensures Run(Add(AfterDrop(d), b)) == Run(Add(d, b)) <==> Hides(d.buffer, d.text.pending, b)
  {
    hide Run, IsMarkerAt, FindMarker, FindNewline, Meet, Spoken, Corrupted, HasNewline, Hides;
    var x, t, f := d.buffer, d.text, Corrupted(d.frames);
    NoEndBefore(x, b);
    var p := FindMarker(x + b) - |x|;
    HidesAtMarker(x, t.pending, b);
    assert (x + b)[|x| + p..] == b[p..] && [] + b == b;
    var framed, spoken := Decoder(b[p..], None, t, f), Decoder(b[p..], None, t.(pending := t.pending + b[..p]), f);
    CutTurn(Add(d, b));
    assert Run(Add(d, b)) == Run(framed);
    JoinedPending(t, f, b, p);
    assert Add(AfterDrop(d), b) == Decoder(b, None, t, f);
    TextsMeet(framed, spoken);
  }

  /** A newline comes next: it ends a line of a frame, or of text. */
  lemma NewlineHides(d: Decoder, b: Bytes)
    requires IsDropping(d)
    requires !IsCut(d.buffer + b) && !IsOpen(d.buffer + b)
    ensures Run(Add(AfterDrop(d), b)) == Run(Add(d, b)) <==> Hides(d.buffer, d.text.pending, b)
  {
    hide Run, FindMarker, FindNewline, Meet, Spoken, Corrupted, HasNewline, StripReturns, LineAccepted, SymbolPrefix,
      Hides;
    var x, t, f := d.buffer, d.text, d.frames;
    HidesAtNewline(x, t.pending, b);
    var q := FindNewline(b);
    ReadAsFrame(d, b, q);
    ReadAsText(d, b, q);
    var body, line := StripReturns((x + b)[..|x| + q]), StripReturns(t.pending + b[..q]);
    AcceptedOrReturned(t, f, d.marker.value, body);
    var accepted := LineAccepted(t, f, d.marker.value, body);
    var framed := Decoder(b[q + 1..], None, accepted.0, accepted.1);
    var spoken := Decoder(b[q + 1..], None, Text([], t.lines + [line]), Corrupted(f));
    NothingHasNewline();
    var n := SymbolPrefix(body);
    if n < |body| {
      TextsMeet(framed, spoken);
      SameBehind(t.lines, t.lines, [StripReturns(body[n..])], [line]);
    } else {
      SameCount(framed, spoken);
    }
  }

  /** The line in a frame. */
  lemma ReadAsFrame(d: Decoder, b: Bytes, q: nat)
    requires d.marker.Some? && !IsCut(d.buffer + b) && !IsOpen(d.buffer + b)
    requires q < |b| && FindNewline(d.buffer + b) == |d.buffer| + q
    ensures var body := StripReturns((d.buffer + b)[..|d.buffer| + q]);
            var accepted := LineAccepted(d.text, d.frames, d.marker.value, body);
            Run(Add(d, b)) == Run(Decoder(b[q + 1..], None, accepted.0, accepted.1))
  {
    hide Run, FindMarker, FindNewline, StripReturns, LineAccepted, IsCut, IsOpen;
    NewlineTurn(Add(d, b));
    assert (d.buffer + b)[|d.buffer| + q + 1..] == b[q + 1..];
  }

  /** The line as text. */
  lemma ReadAsText(d: Decoder, b: Bytes, q: nat)
    requires !HasNewline(d.text.pending) && q == FindNewline(b) && (FindMarker(b) < 0 || FindMarker(b) > q)
    ensures var line := StripReturns(d.text.pending + b[..q]);
            Run(Add(AfterDrop(d), b)) ==
            Run(Decoder(b[q + 1..], None, Text([], d.text.lines + [line]), Corrupted(d.frames)))
  {
    hide Run, FindMarker, FindNewline, Corrupted, HasNewline, StripReturns;
    assert [] + b == b;
    JoinedLine(Add(AfterDrop(d), b), q);
  }

  lemma HidesAtNewline(x: Bytes, pending: Bytes, b: Bytes)
    requires IsOpen(x) && !IsCut(x + b) && !IsOpen(x + b)
    ensures FindNewline(x + b) >= |x| && FindNewline(b) == FindNewline(x + b) - |x|
    ensures FindMarker(b) < 0 || FindMarker(b) > FindNewline(b)
    ensures var p := FindNewline(x + b) - |x|;
            var body := StripReturns((x + b)[..|x| + p]);
            var n := SymbolPrefix(body);
            Hides(x, pending, b) <==>
            && n < |body| && StripReturns(body[n..]) == StripReturns(pending + b[..p])
            && Meet(pending, [], Spoken(b[p + 1..], false))
  {
    hide FindMarker, FindNewline, Meet, Spoken, StripReturns, SymbolPrefix;
    NoEndBefore(x, b);
    assert b == [] ==> x + b == x;
  }

  /** Nothing ends the line: it is dropped later, or was in vain only if nothing follows. */
  lemma NothingHides(d: Decoder, b: Bytes)
    requires IsDropping(d) && IsOpen(d.buffer + b)
    ensures Run(Add(AfterDrop(d), b)) == Run(Add(d, b)) <==> b == []
  {
    hide Run, Turn, FindMarker, FindNewline, Emitted;
    NoEndBefore(d.buffer, b);
    OpenTurn(Add(d, b));
    var e := Add(AfterDrop(d), b);
    var said := b[..|b| - Kept(b)];
    assert [] + b == b;
    TextTurn(e);
    RunTurns(e);
    FindNewlineIs(said, -1);
    EmittedIs(d.text, said);
    assert b == [] ==> d.text.pending + said == d.text.pending;
  }

  /** The two readings are the same exactly if the drop is hidden by what follows. */
  lemma DropHidden(d: Decoder, b: Bytes)
    requires IsDropping(d)
    ensures Run(Add(AfterDrop(d), b)) == Run(Add(d, b)) <==> Hides(d.buffer, d.text.pending, b)
  {
    hide Run, FindMarker, FindNewline, Emitted, Meet, Spoken, StripReturns, SymbolPrefix;
    var x := d.buffer;
    NoEndBefore(x, b);
    if IsOpen(x + b) {
      NothingHides(d, b);
    } else if !IsCut(x + b) {
      NewlineHides(d, b);
    } else if FindMarker(x + b) >= |x| {
      MarkerHides(d, b);
    } else {
      MarkersBehind(x + b, |x| - 1);
      StraddledMarker(d, b);
    }
  }

  /** A marker whose first byte was dropped is seen to be missing. */
  lemma StraddledMarker(d: Decoder, b: Bytes)
    requires IsDropping(d)
    requires var s := d.buffer + b;
             IsCut(s) && FindMarker(s) == |d.buffer| - 1 && IsMarkerAt(s[|d.buffer| - 1..], 0)
    ensures Run(Add(AfterDrop(d), b)) != Run(Add(d, b))
  {
    hide Run, FindMarker, FindNewline, HasNewline, LineAccepted, IsMarkerAt;
    var x, s, t, f := d.buffer, d.buffer + b, d.text, Corrupted(d.frames);
    NoEndBefore(x, b);
    CutTurn(Add(d, b));
    var rest := b[1..];
    StraddledBytes(x, b);
    var marker := StraddledTurn(t, f, x[|x| - 1], b);
    StraddleShows(t, f, marker, b[0], rest);
  }

  lemma StraddledBytes(x: Bytes, b: Bytes)
    requires |x| > 0 && |b| > 0
    ensures (x + b)[|x| - 1..] == [x[|x| - 1]] + b && [] + b == b && b == [b[0]] + b[1..]
  {
  }

  lemma StraddledTurn(t: Text, f: Frames, first: byte, b: Bytes) returns (marker: Marker)
    requires IsMarkerAt([first] + b, 0) && !HasNewline(t.pending)
    ensures Run(Decoder([first] + b, None, t, f)) == Run(Decoder(b[1..], Some(marker), t, f))
  {
    hide Run, Emitted;
    var s := [first] + b;
    var d := Decoder(s, None, t, f);
    marker := MarkerAt(s, 0);
    FirstIs(s);
    TextTurn(d);
    RunTurns(d);
    FindNewlineIs([], -1);
    EmittedIs(t, []);
    assert t.pending + [] == t.pending && s[..0] == [] && s[2..] == b[1..];
  }

  lemma FirstIs(s: Bytes)
    requires IsMarkerAt(s, 0)
    ensures FindMarker(s) == 0
  {
    assert !(FindMarker(s) > 0);
  }

  /**
   * Exactly when two reads give what one read of both gives: if the first does not end in dropping an overlong line, or
   * if what follows hides that it does.
   */
  lemma FeedSplitExactly(d: Decoder, a: Bytes, b: Bytes)
    requires !HasNewline(d.text.pending)
    ensures var last := Last(Add(d, a));
            Fed(Fed(d, a), b) == Fed(d, a + b) <==>
            !Overflows(Add(d, a)) || Hides(last.buffer, last.text.pending, b)
  {
    hide Run, Hides, HasNewline, Last;
    var e := Add(d, a);
    var last := Last(e);
    assert Add(e, b) == Add(d, a + b) by { assert d.buffer + a + b == d.buffer + (a + b); }
    if Overflows(e) {
      RunsToLast(e);
      LastAppend(e, b);
      LastIsDropping(e);
      DropHidden(last, b);
    } else {
      FeedSplit(d, a, b);
    }
  }

  lemma LastIsDropping(d: Decoder)
    requires Overflows(d) && !HasNewline(d.text.pending)
    ensures IsDropping(Last(d)) && Turn(Last(d)).0 == AfterDrop(Last(d))
  {
    hide Last, HasNewline;
    RunsToLast(d);
  }
}
