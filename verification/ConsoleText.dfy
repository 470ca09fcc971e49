/** The console text that the decoder hands over: the lines that its bytes are cut into at the newlines. */
module ConsoleText {
  import opened Common
  import opened Console

  /** Only what is at the end goes, and all of it that is a carriage return. */
  lemma {:induction false} StripReturnsExactly(s: Bytes)
    ensures var n := |StripReturns(s)|;
            && n <= |s| && StripReturns(s) == s[..n]
            && (forall i :: n <= i < |s| ==> s[i] == RETURN)
            && (n > 0 ==> s[n - 1] != RETURN)
    decreases |s|
  {
    if s == [] || s[|s| - 1] != RETURN {
      assert s[..|s|] == s;
    } else {
      StripReturnsExactly(s[..|s| - 1]);
    }
  }

  predicate HasNewline(s: Bytes) { exists i :: 0 <= i < |s| && s[i] == NEWLINE }

  /** The pieces, each with the newline that ends it. */
  function Ended(pieces: seq<Bytes>): Bytes
    decreases |pieces|
  {
    if |pieces| == 0 then [] else pieces[0] + [NEWLINE] + Ended(pieces[1..])
  }

  /** What waits is cut into the pieces and a rest without a newline; each piece is handed over as a line. */
  ghost predicate IsCutInto(t: Text, next: Text, pieces: seq<Bytes>) {
    && Ended(pieces) + next.pending == t.pending && !HasNewline(next.pending)
    && (forall k :: 0 <= k < |pieces| ==> !HasNewline(pieces[k]))
    && |next.lines| == |t.lines| + |pieces| && t.lines <= next.lines
    && forall k :: 0 <= k < |pieces| ==> next.lines[|t.lines| + k] == StripReturns(pieces[k])
  }

  /**
   * Text that comes in is cut at its newlines and nowhere else: the pieces that end in one are handed over, without
   * the carriage returns at their end, and the rest waits. Nothing is lost and nothing is added.
   */
  lemma EmittedExactly(t: Text, more: Bytes) returns (pieces: seq<Bytes>)
    ensures IsCutInto(t.(pending := t.pending + more), Emitted(t, more), pieces)
  {
    pieces := LinesExactly(t.(pending := t.pending + more));
  }

  lemma {:induction false} LinesExactly(t: Text) returns (pieces: seq<Bytes>)
    ensures IsCutInto(t, Lines(t), pieces)
    decreases |t.pending|
  {
    hide StripReturns, IsCutInto, HasNewline, FindNewline;
    var newline := FindNewline(t.pending);
    CutAt(t.pending);
    if newline < 0 {
      pieces := [];
      NoPieces(t);
    } else {
      var first, rest := t.pending[..newline], t.pending[newline + 1..];
      var others := LinesExactly(Delivered(t, first).(pending := rest));
      pieces := [first] + others;
      FirstPiece(t, Lines(t), first, rest, others);
    }
  }

  lemma CutAt(s: Bytes)
    ensures var n := FindNewline(s);
            if n < 0 then !HasNewline(s) else s == s[..n] + [NEWLINE] + s[n + 1..] && !HasNewline(s[..n])
  {
  }

  lemma NoPieces(t: Text)
    requires !HasNewline(t.pending)
    ensures IsCutInto(t, t, [])
  {
    assert [] + t.pending == t.pending;
  }

  lemma FirstPiece(t: Text, next: Text, first: Bytes, rest: Bytes, others: seq<Bytes>)
    requires t.pending == first + [NEWLINE] + rest && !HasNewline(first)
    requires IsCutInto(Delivered(t, first).(pending := rest), next, others)
    ensures IsCutInto(t, next, [first] + others)
  {
    hide StripReturns, HasNewline;
    var pieces := [first] + others;
    assert pieces[1..] == others;
    assert first + [NEWLINE] + Ended(others) + next.pending == first + [NEWLINE] + (Ended(others) + next.pending);
    var lines := t.lines + [StripReturns(first)];
    forall k | 0 <= k < |pieces|
      ensures next.lines[|t.lines| + k] == StripReturns(pieces[k]) && !HasNewline(pieces[k])
    {
      if k > 0 {
        assert next.lines[|lines| + (k - 1)] == StripReturns(others[k - 1]);
      } else {
        assert next.lines[|t.lines|] == lines[|t.lines|];
      }
    }
  }

  // Bytes that hold neither a marker nor anything that may begin one are all text.

  /** Outside a frame, text that no marker is in goes to the console, but for a byte that may begin one. */
  lemma TextPasses(d: Decoder, data: Bytes)
    requires d.marker.None? && FindMarker(d.buffer + data) < 0
    ensures var text, kept := d.buffer + data, Kept(d.buffer + data);
            Fed(d, data) == d.(buffer := text[|text| - kept..], text := Emitted(d.text, text[..|text| - kept]))
  {
    hide Emitted, FindMarker, Kept, Turn, Run;
    TextTurn(Add(d, data));
    RunTurns(Add(d, data));
  }
}
