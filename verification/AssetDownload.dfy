/**
 * The pipelined download of an asset: what is asked for, and what is handed over of the answers. The unit
 * and the network are nondeterministic: any outstanding request may be answered next, by a slice of any length, by
 * the answer to another request, or by an error.
 */
module AssetDownload {
  import opened Common

  const MAX_STRAY_RESPONSES := 16
  const MAX_ASSET_RESTARTS := 16

  datatype Response = Response(off: nat, data: Bytes, len: Option<nat>, crc: Option<nat>)

  datatype Failure = TooManyStrays | EmptyChunk | AssetChanged | WrongOffset | Stuck | RequestFailed | CrcMismatch

  datatype State = State(
    written: nat, length: Option<nat>, crc: Option<nat>, chunkSize: nat, next: nat,
    chunks: map<nat, Bytes>, again: seq<nat>, stray: nat)
  {
    predicate IsComplete() { length.Some? && crc.Some? && written >= length.value }
  }

  // ---- What each operation does to the state ----

  function Lengthened(s: State, length: nat): (State, Option<Failure>) {
    if s.length.Some? && s.length.value != length then (s, Some(AssetChanged))
    else (s.(length := Some(length)), None)
  }

  function Accepted(s: State, offset: nat, r: Response): (State, Option<Failure>) {
    if r.off != offset then
      var s := s.(stray := s.stray + 1);
      if s.stray > MAX_STRAY_RESPONSES then (s, Some(TooManyStrays)) else (s.(again := s.again + [offset]), None)
    else
      var (s, failure) := if r.len.Some? then Lengthened(s, r.len.value) else (s, None);
      if failure.Some? then (s, failure) else
      var (s, failure) :=
        if r.crc.Some? then Lengthened(s.(crc := r.crc), offset + |r.data|)
        else if r.data == [] then (s, Some(EmptyChunk))
        else (s, None);
      if failure.Some? then (s, failure) else (Stored(s, offset, r), None)
  }

  /** A chunk that is taken: the first sets the chunk size, and a short one that is not the last leaves a gap. */
  function Stored(s: State, offset: nat, r: Response): State {
    var s :=
      if s.chunkSize == 0 && r.data != [] then s.(chunkSize := |r.data|, next := offset + |r.data|)
      else if r.crc.None? && |r.data| < s.chunkSize then s.(again := s.again + [offset + |r.data|])
      else s;
    if r.data != [] then s.(chunks := s.chunks[offset := r.data]) else s
  }

  function NextAsked(s: State): (State, Option<nat>)
    decreases |s.again|
  {
    if s.again != [] then
      var offset := Max(s.again[0], s.written);
      var s := s.(again := s.again[1..]);
      if s.length.None? || offset < s.length.value then (s, Some(offset)) else NextAsked(s)
    else if s.length.Some? && s.next >= s.length.value then (s, None)
    else (s.(next := s.next + s.chunkSize), Some(s.next))
  }

  ghost predicate IsLowest(o: nat, keys: set<nat>) { o in keys && forall p :: p in keys ==> o <= p }

  lemma LowestExists(keys: set<nat>) returns (o: nat)
    requires keys != {}
    ensures IsLowest(o, keys)
  {
    o :| o in keys;
    var rest := keys - {o};
    assert forall p :: p in keys ==> p == o || p in rest;
    if rest != {} {
      var q := LowestExists(rest);
      if q < o { o := q; }
    }
  }

  ghost function Lowest(keys: set<nat>): (o: nat)
    requires keys != {}
    ensures IsLowest(o, keys)
  {
    assert exists o :: IsLowest(o, keys) by { var o := LowestExists(keys); }
    var o: nat :| IsLowest(o, keys);
    o
  }

  datatype Taking = Taking(ready: seq<Bytes>, written: nat, chunks: map<nat, Bytes>)

  /** One chunk handed over, as far as it is new. */
  function TakeOne(t: Taking, o: nat): Taking
    requires o in t.chunks && o <= t.written
  {
    var data := t.chunks[o];
    if o + |data| > t.written then Taking(t.ready + [data[t.written - o..]], o + |data|, t.chunks - {o})
    else t.(chunks := t.chunks - {o})
  }

  /** The chunks that now follow what was written, taken lowest offset first. */
  ghost function Taken(t: Taking): Taking
    decreases |t.chunks|
  {
    if t.chunks.Keys == {} || Lowest(t.chunks.Keys) > t.written then t
    else
      Taken(TakeOne(t, Lowest(t.chunks.Keys)))
  }

  lemma TakenUnfolds(t: Taking, o: nat)
    requires IsLowest(o, t.chunks.Keys)
    ensures Taken(t) == if o > t.written then t else Taken(TakeOne(t, o))
    ensures |t.chunks - {o}| < |t.chunks|
  {
    var lowest: nat := Lowest(t.chunks.Keys);
    assert lowest <= o <= lowest;
  }

  lemma TakenOfNone(t: Taking)
    requires t.chunks.Keys == {}
    ensures Taken(t) == t
  {
  }

  class AssetDownload {
    var written: nat
    var length: Option<nat>
    var crc: Option<nat>
    var chunkSize: nat
    var next: nat
    var chunks: map<nat, Bytes>
    var again: seq<nat>
    var stray: nat

    ghost function Contents(): State
      reads this
    {
      State(written, length, crc, chunkSize, next, chunks, again, stray)
    }

    constructor (start: nat)
      ensures Contents() == State(start, None, None, 0, start, map[], [], 0)
    {
      written, length, crc, chunkSize, next := start, None, None, 0, start;
      chunks, again, stray := map[], [], 0;
    }

    predicate IsComplete()
      reads this
      ensures IsComplete() == Contents().IsComplete()
    {
      length.Some? && crc.Some? && written >= length.value
    }

    method SetLength(value: nat) returns (failure: Option<Failure>)
      modifies this
      ensures (Contents(), failure) == Lengthened(old(Contents()), value)
    {
      if length.Some? && length.value != value {
        return Some(AssetChanged);
      }
      length := Some(value);
      return None;
    }

    method Accept(offset: nat, response: Response) returns (failure: Option<Failure>)
      modifies this
      ensures (Contents(), failure) == Accepted(old(Contents()), offset, response)
    {
      if response.off != offset {
        // A stray: only so many are put up with.
        stray := stray + 1;
        if stray > MAX_STRAY_RESPONSES {
          return Some(TooManyStrays);
        }
        again := again + [offset];
        return None;
      }

      var data := response.data;
      var isLast := response.crc.Some?;
      if response.len.Some? {
        failure := SetLength(response.len.value);
        if failure.Some? { return; }
      }
      if isLast {
        crc := response.crc;
        failure := SetLength(offset + |data|);
        if failure.Some? { return; }
      } else if data == [] {
        return Some(EmptyChunk);
      }

      if chunkSize == 0 && data != [] {
        chunkSize := |data|;
        next := offset + |data|;
      } else if !isLast && |data| < chunkSize {
        again := again + [offset + |data|];
      }
      if data != [] {
        chunks := chunks[offset := data];
      }
      return None;
    }

    method NextOffset() returns (offset: Option<nat>)
      modifies this
      ensures (Contents(), offset) == NextAsked(old(Contents()))
    {
      while again != []
        invariant NextAsked(Contents()) == NextAsked(old(Contents()))
        decreases |again|
      {
        // Below `written` nothing is missing any more.
        var o := Max(again[0], written);
        again := again[1..];
        if length.None? || o < length.value {
          return Some(o);
        }
      }
      if length.Some? && next >= length.value {
        return None;
      }
      offset := Some(next);
      next := next + chunkSize;
    }

    method TakeReady() returns (ready: seq<Bytes>, failure: Option<Failure>)
      modifies this
      ensures var t := Taken(Taking([], old(written), old(chunks)));
              ready == t.ready && Contents() == old(Contents()).(written := t.written, chunks := t.chunks)
      ensures failure == if length.Some? && written > length.value then Some(AssetChanged) else None
    {
      hide Taken;
      ready := [];
      while chunks.Keys != {}
        invariant Taken(Taking(ready, written, chunks)) == Taken(Taking([], old(written), old(chunks)))
        invariant Contents() == old(Contents()).(written := written, chunks := chunks)
        decreases |chunks|
      {
        ghost var lowest := LowestExists(chunks.Keys);
        var offset: nat :| offset in chunks.Keys && forall p :: p in chunks.Keys ==> offset <= p;
        ghost var before := Taking(ready, written, chunks);
        TakenUnfolds(before, offset);
        if offset > written {
          break;
        }
        var data := chunks[offset];
        chunks := chunks - {offset};
        if offset + |data| > written {
          ready := ready + [data[written - offset..]];
          written := offset + |data|;
        }
        assert Taking(ready, written, chunks) == TakeOne(before, offset);
      }
      if chunks.Keys == {} { TakenOfNone(Taking(ready, written, chunks)); }
      failure := if length.Some? && written > length.value then Some(AssetChanged) else None;
    }
  }

  // ---- Safety: what arrives in any order is handed over as the asset's bytes, in order ----

  predicate IsSlice(asset: Bytes, off: nat, data: Bytes) {
    off + |data| <= |asset| && data == asset[off..off + |data|]
  }

  ghost predicate Sliced(written: nat, chunks: map<nat, Bytes>, asset: Bytes) {
    written <= |asset| && forall o :: o in chunks ==> chunks[o] != [] && IsSlice(asset, o, chunks[o])
  }

  lemma TakeOneIsSlice(t: Taking, o: nat, asset: Bytes)
    requires Sliced(t.written, t.chunks, asset)
    requires o in t.chunks && o <= t.written
    ensures var u := TakeOne(t, o);
            && Sliced(u.written, u.chunks, asset)
            && u.written == Max(t.written, o + |t.chunks[o]|)
            && Concat(u.ready) == Concat(t.ready) + asset[t.written..u.written]
  {
    var u := TakeOne(t, o);
    if o + |t.chunks[o]| > t.written {
      var piece := t.chunks[o][t.written - o..];
      assert piece == asset[t.written..u.written];
      ConcatSnoc(t.ready, piece);
    } else {
      assert asset[t.written..t.written] == [];
    }
  }

  lemma SliceJoin(s: Bytes, a: nat, b: nat, c: nat, before: Bytes)
    requires a <= b <= c <= |s|
    ensures (before + s[a..b]) + s[b..c] == before + s[a..c]
  {
  }

  lemma {:induction false} TakenIsSlice(t: Taking, asset: Bytes)
    requires Sliced(t.written, t.chunks, asset)
    ensures var r := Taken(t);
            && Sliced(r.written, r.chunks, asset)
            && t.written <= r.written
            && Concat(r.ready) == Concat(t.ready) + asset[t.written..r.written]
    decreases |t.chunks|
  {
    if t.chunks.Keys == {} || Lowest(t.chunks.Keys) > t.written {
      assert asset[t.written..t.written] == [];
    } else {
      var o: nat := Lowest(t.chunks.Keys);
      var u := TakeOne(t, o);
      TakeOneIsSlice(t, o, asset);
      TakenIsSlice(u, asset);
      SliceJoin(asset, t.written, u.written, Taken(t).written, Concat(t.ready));
    }
  }

  /** What stays lies past what was written, and what went was written. */
  lemma {:induction false} TakenLeaves(t: Taking)
    ensures var r := Taken(t);
            && t.written <= r.written
            && (forall o :: o in r.chunks ==> o > r.written && o in t.chunks && r.chunks[o] == t.chunks[o])
            && (forall o :: o in t.chunks && o !in r.chunks ==> o + |t.chunks[o]| <= r.written)
    decreases |t.chunks|
  {
    if t.chunks.Keys == {} || Lowest(t.chunks.Keys) > t.written {
    } else {
      TakenLeaves(TakeOne(t, Lowest(t.chunks.Keys)));
    }
  }

  // ---- Progress: with an honest unit, every byte not handed over is held, in flight, or to be asked for ----

  /** Who answers for byte b: a chunk that holds it, a request in flight, or an offset to ask for again. */
  ghost predicate Answers(s: State, asked: set<nat>, b: nat, o: nat) {
    && o <= b < o + s.chunkSize
    && ((o in s.chunks && b < o + |s.chunks[o]|) || o in asked || o in s.again)
  }

  ghost predicate Covered(s: State, asked: set<nat>, b: nat) {
    b >= s.next || exists o :: Answers(s, asked, b, o)
  }

  /** An honest unit's answer to a request for `off`. */
  predicate Honest(asset: Bytes, crc: nat, off: nat, r: Response) {
    && IsSlice(asset, off, r.data)
    && (r.data != [] || off == |asset|)
    && (r.crc.Some? <==> off + |r.data| == |asset|)
    && (r.crc.Some? ==> r.crc.value == crc)
    && (r.len.Some? ==> r.len.value == |asset|)
    && (off == 0 ==> r.len.Some?)
  }

  ghost predicate Progressing(s: State, asked: set<nat>, asset: Bytes, crc: nat) {
    && Sliced(s.written, s.chunks, asset)
    && (s.length.Some? ==> s.length.value == |asset|)
    && (s.crc.Some? ==> s.crc.value == crc && s.length.Some?)
    && (s.crc.None? ==> s.written < |asset| && forall o :: o in s.chunks ==> o + |s.chunks[o]| < |asset|)
    && (s.chunkSize == 0 ==> s.IsComplete())
    && (forall b :: s.written <= b < |asset| ==> Covered(s, asked, b))
  }

  lemma FirstAnswerProgresses(start: nat, r: Response, asset: Bytes, crc: nat)
    requires start <= |asset|
    requires r.off == start && Honest(asset, crc, start, r)
    ensures var (s, failure) := Accepted(State(start, None, None, 0, start, map[], [], 0), start, r);
            failure.None? && Progressing(s, {}, asset, crc)
  {
    var (s, failure) := Accepted(State(start, None, None, 0, start, map[], [], 0), start, r);
    forall b | s.written <= b < |asset| ensures Covered(s, {}, b) {
      if b < s.next { assert Answers(s, {}, b, start); }
    }
  }

  lemma AnswerProgresses(s: State, asked: set<nat>, offset: nat, r: Response, asset: Bytes, crc: nat)
    requires Progressing(s, asked, asset, crc) && s.chunkSize > 0
    requires offset in asked
    requires r.off == offset ==> Honest(asset, crc, offset, r)
    requires r.off != offset ==> s.stray < MAX_STRAY_RESPONSES
    ensures var (t, failure) := Accepted(s, offset, r);
            failure.None? && Progressing(t, asked - {offset}, asset, crc)
  {
    var (t, failure) := Accepted(s, offset, r);
    var rest := asked - {offset};
    forall b | t.written <= b < |asset| ensures Covered(t, rest, b) {
      assert Covered(s, asked, b);
      if b < s.next {
        var o :| Answers(s, asked, b, o);
        AnswerKeepsCover(s, asked, offset, r, asset, crc, b, o);
      }
    }
  }

  lemma AnswerKeepsCover(s: State, asked: set<nat>, offset: nat, r: Response, asset: Bytes, crc: nat, b: nat, o: nat)
    requires Progressing(s, asked, asset, crc) && s.chunkSize > 0
    requires offset in asked
    requires r.off == offset ==> Honest(asset, crc, offset, r)
    requires r.off != offset ==> s.stray < MAX_STRAY_RESPONSES
    requires b < |asset| && Answers(s, asked, b, o)
    ensures exists p :: Answers(Accepted(s, offset, r).0, asked - {offset}, b, p)
  {
    var t := Accepted(s, offset, r).0;
    var rest := asked - {offset};
    if r.off != offset {
      assert offset in t.again;
      assert Answers(t, rest, b, o);
    } else if o != offset {
      assert o in s.again ==> o in t.again;
      assert Answers(t, rest, b, o);
    } else if b < o + |r.data| {
      assert Answers(t, rest, b, o);
    } else {
      assert r.crc.None?;
      assert |r.data| < s.chunkSize;
      assert offset + |r.data| in t.again;
      assert Answers(t, rest, b, offset + |r.data|);
    }
  }

  lemma TakeProgresses(s: State, asked: set<nat>, asset: Bytes, crc: nat)
    requires Progressing(s, asked, asset, crc)
    ensures var t := Taken(Taking([], s.written, s.chunks));
            Progressing(s.(written := t.written, chunks := t.chunks), asked, asset, crc)
  {
    var t := Taken(Taking([], s.written, s.chunks));
    var u := s.(written := t.written, chunks := t.chunks);
    TakenIsSlice(Taking([], s.written, s.chunks), asset);
    TakenLeaves(Taking([], s.written, s.chunks));
    TakenShort(Taking([], s.written, s.chunks), |asset|);
    forall b | u.written <= b < |asset| ensures Covered(u, asked, b) {
      assert Covered(s, asked, b);
      if b < s.next {
        var o :| Answers(s, asked, b, o);
        assert Answers(u, asked, b, o);
      }
    }
  }

  /** Where no chunk reaches `end`, what is handed over does not either. */
  lemma {:induction false} TakenShort(t: Taking, end: nat)
    ensures t.written < end && (forall o :: o in t.chunks ==> o + |t.chunks[o]| < end) ==> Taken(t).written < end
    decreases |t.chunks|
  {
    if t.chunks.Keys == {} || Lowest(t.chunks.Keys) > t.written {
    } else {
      TakenShort(TakeOne(t, Lowest(t.chunks.Keys)), end);
    }
  }

  lemma LengthProgresses(s: State, asked: set<nat>, offset: nat, asset: Bytes, crc: nat)
    requires Progressing(s, asked, asset, crc)
    requires offset >= |asset|
    ensures var (t, failure) := Lengthened(s, |asset|); failure.None? && Progressing(t, asked - {offset}, asset, crc)
  {
    var t := Lengthened(s, |asset|).0;
    forall b | t.written <= b < |asset| ensures Covered(t, asked - {offset}, b) {
      assert Covered(s, asked, b);
      if b < s.next {
        var o :| Answers(s, asked, b, o);
        assert Answers(t, asked - {offset}, b, o);
      }
    }
  }

  lemma {:induction false} AskProgresses(s: State, asked: set<nat>, asset: Bytes, crc: nat)
    requires Progressing(s, asked, asset, crc) && s.chunkSize > 0
    ensures var (t, offset) := NextAsked(s);
            Progressing(t, if offset.Some? then asked + {offset.value} else asked, asset, crc)
    decreases |s.again|
  {
    var (t, offset) := NextAsked(s);
    if s.again != [] {
      var o := Max(s.again[0], s.written);
      var u := s.(again := s.again[1..]);
      var more := asked + {o};
      forall b | u.written <= b < |asset| ensures Covered(u, more, b) {
        assert Covered(s, asked, b);
        if b < s.next {
          var p :| Answers(s, asked, b, p);
          if p == s.again[0] { assert Answers(u, more, b, o); } else { assert Answers(u, more, b, p); }
        }
      }
      if s.length.Some? && o >= s.length.value {
        forall b | u.written <= b < |asset| ensures Covered(u, asked, b) {
          assert Covered(u, more, b);
          if b < u.next {
            var p :| Answers(u, more, b, p);
            assert Answers(u, asked, b, p);
          }
        }
        AskProgresses(u, asked, asset, crc);
      }
    } else if offset.Some? {
      var more := asked + {s.next};
      forall b | t.written <= b < |asset| ensures Covered(t, more, b) {
        assert Covered(s, asked, b);
        if b < s.next {
          var p :| Answers(s, asked, b, p);
          assert Answers(t, more, b, p);
        } else if b < t.next {
          assert Answers(t, more, b, s.next);
        }
      }
    }
  }

  /**
   * No stall: once what is ready was taken, an incomplete download with nothing in flight always has an offset to
   * ask for.
   */
  lemma {:induction false} NeverStuck(s: State, asset: Bytes, crc: nat)
    requires Progressing(s, {}, asset, crc)
    requires forall o :: o in s.chunks ==> o > s.written
    requires !s.IsComplete()
    ensures NextAsked(s).1.Some?
    decreases |s.again|
  {
    assert Covered(s, {}, s.written);
    if s.written < s.next {
      var p :| Answers(s, {}, s.written, p);
      assert p in s.again;
    }
    if s.again == [] {
    } else {
      var o := Max(s.again[0], s.written);
      if s.length.Some? && o >= s.length.value {
        AskProgresses(s, {}, asset, crc);
        var u := s.(again := s.again[1..]);
        forall b | u.written <= b < |asset| ensures Covered(u, {}, b) {
          assert Covered(s, {}, b);
          if b < s.next {
            var p :| Answers(s, {}, b, p);
            assert Answers(u, {}, b, p);
          }
        }
        NeverStuck(u, asset, crc);
      }
    }
  }

  // ---- What is refused, and what is asked for ----

  /** All the lengths that are known are the same. */
  predicate Agree(known: Option<nat>, said: Option<nat>, ends: Option<nat>) {
    && (known.Some? && said.Some? ==> known == said)
    && (known.Some? && ends.Some? ==> known == ends)
    && (said.Some? && ends.Some? ==> said == ends)
  }

  /** Exactly which responses end the download, and what the others tell of the asset's length and CRC. */
  lemma RefusedExactly(s: State, offset: nat, r: Response)
    ensures var (t, failure) := Accepted(s, offset, r);
            var ends := if r.crc.Some? then Some(offset + |r.data|) else None;
            && (failure == Some(TooManyStrays) <==> r.off != offset && s.stray >= MAX_STRAY_RESPONSES)
            && (failure == Some(AssetChanged) <==> r.off == offset && !Agree(s.length, r.len, ends))
            && (failure == Some(EmptyChunk) <==>
                r.off == offset && Agree(s.length, r.len, ends) && r.data == [] && r.crc.None?)
            && (failure.None? && r.off != offset ==> t == s.(stray := s.stray + 1, again := s.again + [offset]))
            && (failure.None? && r.off == offset ==>
                && t.length == (if s.length.Some? then s.length else if r.len.Some? then r.len else ends)
                && t.crc == (if r.crc.Some? then r.crc else s.crc)
                && t.chunks == (if r.data == [] then s.chunks else s.chunks[offset := r.data])
                && t.written == s.written && t.stray == s.stray)
  {
  }

  /** Asking for the offset again is of use: the asset does not end before what is missing. */
  predicate IsUseful(s: State, offset: nat) { s.length.None? || Max(offset, s.written) < s.length.value }

  /** The first offset to ask again that is of use is asked for, from what was handed over on; else the next new one. */
  lemma {:induction false} NextAskedIs(s: State, k: nat)
    requires k <= |s.again| && forall i :: 0 <= i < k ==> !IsUseful(s, s.again[i])
    ensures k < |s.again| && IsUseful(s, s.again[k]) ==>
              NextAsked(s) == (s.(again := s.again[k + 1..]), Some(Max(s.again[k], s.written)))
    ensures k == |s.again| ==>
              NextAsked(s) ==
              if s.length.Some? && s.next >= s.length.value then (s.(again := []), None)
              else (s.(again := [], next := s.next + s.chunkSize), Some(s.next))
    decreases k
  {
    if k == 0 {
      assert s.again == [] ==> s == s.(again := []);
    } else {
      var u := s.(again := s.again[1..]);
      assert forall i :: 0 <= i < k - 1 ==> u.again[i] == s.again[i + 1];
      NextAskedIs(u, k - 1);
      assert u.again[k - 1..] == s.again[k..];
      assert k < |s.again| ==> u.again[k..] == s.again[k + 1..];
    }
  }

  /**
   * Bytes that were handed over are asked for in one case only: nothing is of use to ask again, and a chunk that
   * reached past the next new offset was handed over.
   */
  lemma {:induction false} AskedBehindExactly(s: State)
    ensures var offset := NextAsked(s).1;
            offset.Some? && offset.value < s.written <==>
            && (forall i :: 0 <= i < |s.again| ==> !IsUseful(s, s.again[i]))
            && s.next < s.written && (s.length.None? || s.next < s.length.value)
    decreases |s.again|
  {
    if forall i :: 0 <= i < |s.again| ==> !IsUseful(s, s.again[i]) {
      NextAskedIs(s, |s.again|);
    } else {
      var k := FirstUseful(s, 0);
      NextAskedIs(s, k);
    }
  }

  lemma {:induction false} FirstUseful(s: State, i: nat) returns (k: nat)
    requires exists j :: i <= j < |s.again| && IsUseful(s, s.again[j])
    ensures i <= k < |s.again| && IsUseful(s, s.again[k])
    ensures forall j :: i <= j < k ==> !IsUseful(s, s.again[j])
    decreases |s.again| - i
  {
    if IsUseful(s, s.again[i]) {
      k := i;
    } else {
      k := FirstUseful(s, i + 1);
    }
  }

  /** After one answer that was asked for was handed over. */
  ghost function AfterTaken(s: State, offset: nat, r: Response): State {
    var t := Accepted(s, offset, r).0;
    var u := Taken(Taking([], t.written, t.chunks));
    t.(written := u.written, chunks := u.chunks)
  }

  /**
   * An honest unit can bring that about, by a short chunk and then a full one from where it ended: of chunks of 2, 1
   * and 2 bytes the last ends at 5, and 4 is asked for.
   */
  lemma ShortChunkLeavesNextBehind(asset: Bytes, crc: nat)
    requires |asset| > 5
    ensures var a := Response(0, asset[0..2], Some(|asset|), None);
            var b := Response(2, asset[2..3], Some(|asset|), None);
            var c := Response(3, asset[3..5], Some(|asset|), None);
            var s1 := AfterTaken(State(0, None, None, 0, 0, map[], [], 0), 0, a);
            var (t1, o1) := NextAsked(s1);
            var s2 := AfterTaken(t1, 2, b);
            var (t2, o2) := NextAsked(s2);
            var s3 := AfterTaken(t2, 3, c);
            && Honest(asset, crc, 0, a) && Honest(asset, crc, 2, b) && Honest(asset, crc, 3, c)
            && o1 == Some(2) && o2 == Some(3)
            && s3.written == 5 && NextAsked(s3).1 == Some(4)
  {
    hide AfterTaken, NextAsked;
    var n := Some(|asset|);
    var s1 := State(2, n, None, 2, 2, map[], [], 0);
    TakenAtOnce(State(0, None, None, 0, 0, map[], [], 0), Response(0, asset[0..2], n, None));
    NextAskedIs(s1, 0);
    var t1 := s1.(again := [], next := 4);
    TakenAtOnce(t1, Response(2, asset[2..3], n, None));
    var s2 := State(3, n, None, 2, 4, map[], [3], 0);
    assert [] + [3] == [3];
    NextAskedIs(s2, 0);
    var t2 := s2.(again := []);
    assert s2.again[1..] == [];
    TakenAtOnce(t2, Response(3, asset[3..5], n, None));
    NextAskedIs(State(5, n, None, 2, 4, map[], [], 0), 0);
  }

  /** The answer to what is missing next is handed over whole. */
  lemma TakenAtOnce(s: State, r: Response)
    requires s.chunks == map[] && s.written == r.off && r.data != [] && r.crc.None?
    requires r.len.Some? && (s.length.None? || s.length == r.len)
    ensures var t := s.(length := r.len, written := r.off + |r.data|);
            AfterTaken(s, r.off, r) ==
            if s.chunkSize == 0 then t.(chunkSize := |r.data|, next := r.off + |r.data|)
            else if |r.data| < s.chunkSize then t.(again := s.again + [r.off + |r.data|])
            else t
  {
    hide Taken, TakeOne, Lowest;
    var t := Accepted(s, r.off, r).0;
    assert t.chunks == map[r.off := r.data];
    TakeTheOne(t, r.off);
  }

  lemma TakeTheOne(s: State, o: nat)
    requires s.chunks.Keys == {o} && s.written == o && |s.chunks[o]| > 0
    ensures var t := Taken(Taking([], s.written, s.chunks));
            t.written == o + |s.chunks[o]| && t.chunks == map[]
  {
    var t := Taking([], s.written, s.chunks);
    TakenUnfolds(t, o);
    assert TakeOne(t, o).chunks.Keys == {};
    TakenOfNone(TakeOne(t, o));
  }

  // ---- Termination: a measure over what is outstanding and what is still to be asked for ----

  function Gap(o: nat, end: nat): nat { if o < end then end - o else 0 }

  ghost function GapSet(asked: set<nat>, end: nat): nat
    decreases |asked|
  {
    if asked == {} then 0
    else
      var o :| o in asked;
      Gap(o, end) + GapSet(asked - {o}, end)
  }

  lemma {:induction false} GapRemove(asked: set<nat>, end: nat, o: nat)
    requires o in asked
    ensures GapSet(asked, end) == Gap(o, end) + GapSet(asked - {o}, end)
    decreases |asked|
  {
    var p :| p in asked && GapSet(asked, end) == Gap(p, end) + GapSet(asked - {p}, end);
    if p == o {
    } else {
      GapRemove(asked - {p}, end, o);
      GapRemove(asked - {o}, end, p);
      assert asked - {p} - {o} == asked - {o} - {p};
    }
  }

  lemma GapAdd(asked: set<nat>, end: nat, o: nat)
    ensures GapSet(asked + {o}, end) <= GapSet(asked, end) + Gap(o, end)
  {
    if o in asked {
      assert asked + {o} == asked;
    } else {
      GapRemove(asked + {o}, end, o);
      assert asked + {o} - {o} == asked;
    }
  }

  function GapSeq(again: seq<nat>, end: nat): nat {
    if again == [] then 0 else Gap(again[0], end) + GapSeq(again[1..], end)
  }

  lemma {:induction false} GapSnoc(again: seq<nat>, end: nat, o: nat)
    ensures GapSeq(again + [o], end) == GapSeq(again, end) + Gap(o, end)
  {
    if again == [] {
      assert again + [o] == [o];
    } else {
      assert (again + [o])[1..] == again[1..] + [o];
      GapSnoc(again[1..], end, o);
    }
  }

  /** The offsets that were never asked for yet. */
  function Ahead(next: nat, step: nat, end: nat): nat
    decreases Gap(next, end)
  {
    if next >= end || step == 0 then 0 else Gap(next, end) + Ahead(next + step, step, end)
  }

  function PastEnd(asked: set<nat>, end: nat): set<nat> { set o | o in asked && o >= end }

  ghost function Work(s: State, asked: set<nat>, end: nat): nat
    requires s.stray <= MAX_STRAY_RESPONSES
  {
    GapSet(asked, end) + GapSeq(s.again, end) + Ahead(s.next, s.chunkSize, end)
    + (if s.length.None? then 1 else 0) + (MAX_STRAY_RESPONSES - s.stray)
  }

  /** No more answers than this are still to come. */
  ghost function Left(s: State, asked: set<nat>, end: nat, inFlight: nat): nat
    requires s.stray <= MAX_STRAY_RESPONSES
  {
    Work(s, asked, end) * (inFlight + 1) + (if s.length.None? then inFlight else |PastEnd(asked, end)|)
  }

  lemma {:induction false} AskingIsFree(s: State, asked: set<nat>, end: nat, inFlight: nat)
    requires s.stray <= MAX_STRAY_RESPONSES
    requires s.length.Some? ==> s.length.value == end
    requires s.chunkSize > 0
    ensures var (t, offset) := NextAsked(s);
            && t.stray == s.stray && t.length == s.length && t.crc == s.crc && t.chunkSize == s.chunkSize
            && t.written == s.written && t.chunks == s.chunks
            && Left(t, if offset.Some? then asked + {offset.value} else asked, end, inFlight) <=
               Left(s, asked, end, inFlight)
    decreases |s.again|
  {
    if s.again != [] {
      var o := Max(s.again[0], s.written);
      var u := s.(again := s.again[1..]);
      if s.length.Some? && o >= s.length.value {
        AskingIsFree(u, asked, end, inFlight);
        WorkBounds(u, asked, s, asked, end, inFlight);
      } else {
        GapAdd(asked, end, o);
        WorkBounds(u, asked + {o}, s, asked, end, inFlight);
      }
    } else if s.length.None? || s.next < s.length.value {
      GapAdd(asked, end, s.next);
      WorkBounds(s.(next := s.next + s.chunkSize), asked + {s.next}, s, asked, end, inFlight);
    }
  }

  lemma WorkBounds(t: State, more: set<nat>, s: State, asked: set<nat>, end: nat, inFlight: nat)
    requires t.stray == s.stray <= MAX_STRAY_RESPONSES && t.length == s.length
    requires Work(t, more, end) <= Work(s, asked, end)
    requires s.length.Some? ==> PastEnd(more, end) == PastEnd(asked, end)
    ensures Left(t, more, end, inFlight) <= Left(s, asked, end, inFlight)
  {
    LessTimes(Work(t, more, end), Work(s, asked, end), inFlight + 1);
  }

  lemma LessWork(t: State, rest: set<nat>, s: State, asked: set<nat>, end: nat, inFlight: nat)
    requires t.stray <= MAX_STRAY_RESPONSES && s.stray <= MAX_STRAY_RESPONSES
    requires s.length.Some? ==> t.length.Some?
    requires rest <= asked && |asked| <= inFlight
    requires
      || Work(t, rest, end) < Work(s, asked, end)
      || (Work(t, rest, end) <= Work(s, asked, end) && s.length.Some? && PastEnd(rest, end) < PastEnd(asked, end))
    ensures Left(t, rest, end, inFlight) < Left(s, asked, end, inFlight)
  {
    SubsetCardinality(PastEnd(rest, end), asked);
    SubsetCardinality(PastEnd(rest, end), PastEnd(asked, end));
    LessTimes(Work(t, rest, end), Work(s, asked, end), inFlight + 1);
  }

  lemma {:induction false} SubsetCardinality(a: set<nat>, b: set<nat>)
    requires a <= b
    ensures |a| <= |b| && (a < b ==> |a| < |b|)
  {
    assert b == a + (b - a);
    assert |b| == |a| + |b - a|;
  }

  datatype Answer = Reply(response: Response) | BadOffset(len: Option<nat>) | Failed

  /** Whatever the unit and the network do, a reply that carries the offset asked for carries the asset's bytes. */
  predicate Plausible(asset: Bytes, tag: nat, a: Answer) {
    a.Reply? && a.response.off == tag ==> IsSlice(asset, tag, a.response.data)
  }

  /** The answers of an honest unit, and as many answers to other requests as the client puts up with. */
  predicate HonestAnswer(asset: Bytes, crc: nat, strays: nat, tag: nat, a: Answer) {
    match a
    case Reply(r) => if r.off == tag then Honest(asset, crc, tag, r) else strays < MAX_STRAY_RESPONSES
    case BadOffset(len) => tag >= |asset| && len == Some(|asset|)
    case Failed => false
  }

  function AfterAnswer(s: State, tag: nat, a: Answer): (State, Option<Failure>) {
    match a
    case Reply(r) => Accepted(s, tag, r)
    case BadOffset(len) => if len.Some? then Lengthened(s, len.value) else (s, Some(RequestFailed))
    case Failed => (s, Some(RequestFailed))
  }

  lemma AnswerCosts(s: State, asked: set<nat>, tag: nat, a: Answer, asset: Bytes, crc: nat, inFlight: nat)
    requires Progressing(s, asked, asset, crc) && s.chunkSize > 0 && s.stray <= MAX_STRAY_RESPONSES
    requires tag in asked && |asked| <= inFlight
    requires HonestAnswer(asset, crc, s.stray, tag, a)
    ensures var (t, failure) := AfterAnswer(s, tag, a);
            && failure.None? && t.stray <= MAX_STRAY_RESPONSES && t.chunkSize == s.chunkSize
            && Progressing(t, asked - {tag}, asset, crc)
            && Left(t, asked - {tag}, |asset|, inFlight) < Left(s, asked, |asset|, inFlight)
  {
    hide Covered, Sliced, Ahead;
    var end := |asset|;
    var t := AfterAnswer(s, tag, a).0;
    var rest := asked - {tag};
    GapRemove(asked, end, tag);
    if tag >= end { assert tag in PastEnd(asked, end) && tag !in PastEnd(rest, end); }
    assert PastEnd(rest, end) <= PastEnd(asked, end);
    match a {
      case Reply(r) =>
        AnswerProgresses(s, asked, tag, r, asset, crc);
        GapSnoc(s.again, end, tag);
        GapSnoc(s.again, end, tag + |r.data|);
      case BadOffset(_) =>
        LengthProgresses(s, asked, tag, asset, crc);
    }
    LessWork(t, rest, s, asked, end, inFlight);
  }

  // ---- The download itself ----

  datatype Outcome = Done(length: nat, crc: nat) | Aborted(failure: Failure) | Running

  /** An answer, and the offset that was asked for. */
  datatype Told = Told(tag: nat, answer: Answer)

  predicate IsStray(t: Told) { t.answer.Reply? && t.answer.response.off != t.tag }

  function Strays(record: seq<Told>): nat
    decreases |record|
  {
    if |record| == 0 then 0 else Strays(record[..|record| - 1]) + if IsStray(record[|record| - 1]) then 1 else 0
  }

  /** How often an answer was one to a request for the offset. */
  function Asked(record: seq<Told>, offset: nat): nat
    decreases |record|
  {
    if |record| == 0 then 0
    else Asked(record[..|record| - 1], offset) + if record[|record| - 1].tag == offset then 1 else 0
  }

  /** The answer says that the asset has `n` bytes. */
  predicate Says(t: Told, n: nat) {
    match t.answer
    case Reply(r) => !IsStray(t) && (r.len == Some(n) || (r.crc.Some? && t.tag + |r.data| == n))
    case BadOffset(len) => len == Some(n)
    case Failed => false
  }

  predicate SaysCrc(t: Told, crc: nat) { t.answer.Reply? && !IsStray(t) && t.answer.response.crc == Some(crc) }

  predicate IsSaid(record: seq<Told>, n: nat) { exists i :: 0 <= i < |record| && Says(record[i], n) }

  predicate IsCrcSaid(record: seq<Told>, crc: nat) { exists i :: 0 <= i < |record| && SaysCrc(record[i], crc) }

  predicate IsEmptyChunk(t: Told) {
    t.answer.Reply? && !IsStray(t) && t.answer.response.data == [] && t.answer.response.crc.None?
  }

  predicate HasNoAnswer(t: Told) { t.answer.Failed? || (t.answer.BadOffset? && t.answer.len.None?) }

  /** Nothing that was told ends the download. */
  ghost predicate GoesOn(record: seq<Told>) {
    && Strays(record) <= MAX_STRAY_RESPONSES
    && (forall i :: 0 <= i < |record| ==> !IsEmptyChunk(record[i]) && !HasNoAnswer(record[i]))
    && (forall m, n :: IsSaid(record, m) && IsSaid(record, n) ==> m == n)
  }

  /** The last answer is why the download failed. */
  ghost predicate IsFailure(failure: Failure, record: seq<Told>) {
    && |record| > 0 && GoesOn(record[..|record| - 1])
    && var last := record[|record| - 1];
    match failure
    case TooManyStrays => IsStray(last) && Strays(record) == MAX_STRAY_RESPONSES + 1
    case EmptyChunk => IsEmptyChunk(last)
    case AssetChanged => exists m, n :: m != n && Says(last, m) && IsSaid(record, n)
    case RequestFailed => HasNoAnswer(last)
    case _ => false
  }

  /** How the download ended is what the answers come to. */
  ghost predicate IsEarned(outcome: Outcome, record: seq<Told>, file: Bytes, crc32: Bytes -> nat, patience: nat) {
    && |record| > 0
    && match outcome
       case Done(length, crc) =>
         && GoesOn(record) && IsSaid(record, length) && IsCrcSaid(record, crc)
         && |file| == length && crc32(file) == crc
       case Running => GoesOn(record) && |record| > patience
       case Aborted(failure) =>
         match failure
         case WrongOffset => |record| == 1 && IsStray(record[0])
         case Stuck => GoesOn(record) && Asked(record, |file|) >= MAX_ASSET_RESTARTS
         case CrcMismatch => GoesOn(record) && exists crc :: IsCrcSaid(record, crc) && crc32(file) != crc
         case AssetChanged =>
           IsFailure(failure, record) || (GoesOn(record) && exists n :: IsSaid(record, n) && |file| > n)
         case _ => IsFailure(failure, record)
  }

  /** Where the stall branch was taken: never so often in a row without a byte handed over that it had to stop. */
  predicate HasNotStuck(stalls: seq<nat>) {
    forall i :: 0 <= i < |stalls| - MAX_ASSET_RESTARTS ==> stalls[i] < stalls[i + MAX_ASSET_RESTARTS]
  }

  predicate HasStuck(stalls: seq<nat>, written: nat) {
    && |stalls| > MAX_ASSET_RESTARTS
    && forall i :: |stalls| - MAX_ASSET_RESTARTS - 1 <= i < |stalls| ==> stalls[i] == written
  }

  /** The last of them were `restarts` in a row at the same byte. */
  ghost predicate AreStalls(stalls: seq<nat>, stuckAt: int, restarts: nat, written: nat) {
    && HasNotStuck(stalls) && restarts <= |stalls| && restarts <= MAX_ASSET_RESTARTS
    && (stalls == [] <==> stuckAt == -1) && (stalls != [] ==> restarts > 0)
    && stuckAt <= written && (forall i :: 0 <= i < |stalls| ==> stalls[i] <= stuckAt)
    && (forall i :: 0 <= i < |stalls| ==> (stalls[i] == stuckAt <==> i >= |stalls| - restarts))
  }

  lemma StallsNext(stalls: seq<nat>, stuckAt: int, restarts: nat, written: nat)
    requires AreStalls(stalls, stuckAt, restarts, written)
    ensures var next, again := stalls + [written], if stuckAt == written then restarts + 1 else 1;
            if again > MAX_ASSET_RESTARTS then HasStuck(next, written) else AreStalls(next, written, again, written)
  {
  }

  lemma NoStalls(written: nat, record: seq<Told>)
    ensures CountsStalls([], -1, 0, written, record, {})
  {
  }

  lemma CountsStay(stalls: seq<nat>, stuckAt: int, restarts: nat, written: nat, later: nat, record: seq<Told>,
                   asked: set<nat>)
    requires CountsStalls(stalls, stuckAt, restarts, written, record, asked) && written <= later
    ensures CountsStalls(stalls, stuckAt, restarts, later, record, asked) && HasNotStuck(stalls)
  {
    hide AreStalls, Asked, HasNotStuck;
    StallsStay(stalls, stuckAt, restarts, written, later);
  }

  /** An answer to the request for the byte is one more such answer. */
  lemma CountsNext(stalls: seq<nat>, stuckAt: int, restarts: nat, written: nat, told: seq<Told>, record: seq<Told>,
                   asked: set<nat>, tag: nat)
    requires CountsStalls(stalls, stuckAt, restarts, written, told, asked)
    requires |record| == |told| + 1 && told <= record && record[|told|].tag == tag
    ensures CountsStalls(stalls, stuckAt, restarts, written, record, asked - {tag})
  {
    hide AreStalls, Asked;
    assert record == told + [record[|told|]];
    if stuckAt >= 0 { AskedNext(told, record[|told|], stuckAt); }
  }

  lemma StallsStay(stalls: seq<nat>, stuckAt: int, restarts: nat, written: nat, later: nat)
    requires AreStalls(stalls, stuckAt, restarts, written) && written <= later
    ensures AreStalls(stalls, stuckAt, restarts, later) && HasNotStuck(stalls)
  {
  }

  /** The download knows what it was told. */
  ghost predicate Knows(s: State, record: seq<Told>) {
    && GoesOn(record) && s.stray == Strays(record)
    && (s.length.None? ==> forall n :: !IsSaid(record, n))
    && (s.length.Some? ==> IsSaid(record, s.length.value))
    && (s.crc.Some? ==> IsCrcSaid(record, s.crc.value))
  }

  lemma NothingKnown(start: nat)
    ensures Knows(State(start, None, None, 0, start, map[], [], 0), [])
  {
  }

  lemma SaidNext(record: seq<Told>, t: Told, n: nat)
    ensures IsSaid(record + [t], n) <==> IsSaid(record, n) || Says(t, n)
    ensures IsCrcSaid(record + [t], n) <==> IsCrcSaid(record, n) || SaysCrc(t, n)
  {
    var next := record + [t];
    assert next[|record|] == t;
    forall i | 0 <= i < |record| ensures next[i] == record[i] {
    }
  }

  /** What is known after an answer, or why it ends the download. */
  lemma KnowsNext(s: State, record: seq<Told>, tag: nat, a: Answer)
    requires Knows(s, record)
    ensures var (t, failure) := AfterAnswer(s, tag, a);
            var next := record + [Told(tag, a)];
            if failure.None? then Knows(t, next) else IsFailure(failure.value, next)
  {
    hide IsSaid, IsCrcSaid;
    var told := Told(tag, a);
    var next := record + [told];
    assert next[..|record|] == record && next[|record|] == told;
    forall n ensures IsSaid(next, n) <==> IsSaid(record, n) || Says(told, n) {
      SaidNext(record, told, n);
    }
    forall n ensures IsCrcSaid(next, n) <==> IsCrcSaid(record, n) || SaysCrc(told, n) {
      SaidNext(record, told, n);
    }
    match a {
      case Reply(r) =>
        RefusedExactly(s, tag, r);
        if r.off == tag {
          assert r.len.Some? ==> Says(told, r.len.value) && IsSaid(next, r.len.value);
          assert r.crc.Some? ==> Says(told, tag + |r.data|) && IsSaid(next, tag + |r.data|);
        }
        assert s.length.Some? ==> IsSaid(next, s.length.value);
      case BadOffset(len) =>
        if len.Some? && s.length.Some? {
          assert Says(told, len.value) && IsSaid(next, s.length.value);
        }
      case Failed =>
    }
  }

  /** The answers a download of `size` bytes takes at most, once the first one brought `n` bytes. */
  function Bound(size: nat, start: nat, n: nat, inFlight: nat): nat {
    (Ahead(start + n, n, size) + 1 + MAX_STRAY_RESPONSES) * (inFlight + 1) + inFlight
  }

  lemma AcceptKeepsSlices(s: State, tag: nat, r: Response, asset: Bytes)
    requires Sliced(s.written, s.chunks, asset)
    requires r.off == tag ==> IsSlice(asset, tag, r.data)
    requires s.chunkSize > 0 || s.chunks == map[]
    ensures var (t, failure) := Accepted(s, tag, r);
            && Sliced(t.written, t.chunks, asset)
            && t.written == s.written
            && (failure.None? ==> t.stray <= Max(s.stray, MAX_STRAY_RESPONSES))
            && (failure.None? && s.chunkSize > 0 ==> t.chunkSize == s.chunkSize)
            && (failure.None? && s.chunkSize == 0 && tag == s.written == r.off ==> t.chunkSize > 0 || t.IsComplete())
  {
  }

  /** The requests that fill the window: `asked` are the offsets in flight. */
  method Fill(download: AssetDownload, ghost asset: Bytes, ghost crc: nat, ghost honest: bool, asked0: set<nat>,
              inFlight: nat)
    returns (asked: set<nat>)
    requires |asked0| <= inFlight
    requires download.chunkSize > 0 && download.stray <= MAX_STRAY_RESPONSES
    requires honest ==> Progressing(download.Contents(), asked0, asset, crc)
    modifies download
    ensures asked0 <= asked && |asked| <= inFlight
    ensures |asked| == inFlight || NextAsked(download.Contents()).1.None?
    ensures inFlight > 0 && (asked0 != {} || NextAsked(old(download.Contents())).1.Some?) ==> asked != {}
    ensures download.Contents() == old(download.Contents()).(next := download.next, again := download.again)
    ensures honest ==> Progressing(download.Contents(), asked, asset, crc)
    ensures honest ==>
              Left(download.Contents(), asked, |asset|, inFlight) <=
              old(Left(download.Contents(), asked0, |asset|, inFlight))
  {
    asked := asked0;
    while |asked| < inFlight
      invariant asked0 <= asked && |asked| <= inFlight
      invariant asked == {} ==> download.Contents() == old(download.Contents())
      invariant download.Contents() == old(download.Contents()).(next := download.next, again := download.again)
      invariant honest ==> Progressing(download.Contents(), asked, asset, crc)
      invariant honest ==>
                  Left(download.Contents(), asked, |asset|, inFlight) <=
                  old(Left(download.Contents(), asked0, |asset|, inFlight))
      decreases inFlight - |asked| + |download.again| + |PastEnd(asked, download.next)|
    {
      ghost var before := download.Contents();
      if honest {
        AskProgresses(before, asked, asset, crc);
        AskingIsFree(before, asked, |asset|, inFlight);
      }
      AskingShrinks(before, asked);
      var offset := download.NextOffset();
      if offset.None? {
        NothingLeft(before);
        break;
      }
      if offset.value !in asked {
        asked := asked + {offset.value};
      } else {
        assert asked + {offset.value} == asked;
      }
    }
  }

  /** An offset that is in flight already is passed over, and there are fewer such ones each time. */
  lemma {:induction false} AskingShrinks(s: State, asked: set<nat>)
    requires s.chunkSize > 0
    ensures var (t, offset) := NextAsked(s);
            && t == s.(next := t.next, again := t.again)
            && (offset.Some? ==>
                  var more := asked + {offset.value};
                  |t.again| + |PastEnd(more, t.next)| - |more| < |s.again| + |PastEnd(asked, s.next)| - |asked|)
    decreases |s.again|
  {
    var (t, offset) := NextAsked(s);
    if s.again != [] {
      var o := Max(s.again[0], s.written);
      var u := s.(again := s.again[1..]);
      if s.length.Some? && o >= s.length.value {
        AskingShrinks(u, asked);
      } else {
        PastEndGrows(asked, o, s.next);
      }
    } else if offset.Some? {
      PastEndMoves(asked, s.next, t.next);
    }
  }

  lemma PastEndGrows(asked: set<nat>, o: nat, end: nat)
    ensures |PastEnd(asked + {o}, end)| - |asked + {o}| <= |PastEnd(asked, end)| - |asked|
  {
    if o in asked {
      assert asked + {o} == asked;
    } else {
      SubsetCardinality(PastEnd(asked + {o}, end), PastEnd(asked, end) + {o});
    }
  }

  lemma PastEndMoves(asked: set<nat>, o: nat, end: nat)
    requires o < end
    ensures |PastEnd(asked + {o}, end)| - |asked + {o}| < |PastEnd(asked, o)| - |asked|
  {
    assert PastEnd(asked + {o}, end) == PastEnd(asked, end);
    SubsetCardinality(PastEnd(asked, end), PastEnd(asked, o));
    if o in asked {
      assert asked + {o} == asked;
      assert o in PastEnd(asked, o) && o !in PastEnd(asked, end);
    }
  }

  /** When there is nothing to ask for, asking has dropped every gap. */
  lemma {:induction false} NothingLeft(s: State)
    requires NextAsked(s).1.None?
    ensures NextAsked(NextAsked(s).0).1.None?
    decreases |s.again|
  {
    if s.again == [] {
    } else {
      NothingLeft(s.(again := s.again[1..]));
    }
  }

  method NextCompletion(asset: Bytes, crc: nat, honest: bool, strays: nat, asked: set<nat>)
    returns (tag: nat, answer: Answer)
    requires asked != {}
    ensures tag in asked
    ensures Plausible(asset, tag, answer)
    ensures honest ==> HonestAnswer(asset, crc, strays, tag, answer)
  {
    tag :| tag in asked;
    var length := |asset|;
    ghost var whole :=
      if tag >= length then BadOffset(Some(length)) else Reply(Response(tag, asset[tag..], Some(length), Some(crc)));
    assert Plausible(asset, tag, whole) && HonestAnswer(asset, crc, strays, tag, whole);
    answer :| Plausible(asset, tag, answer) && (honest ==> HonestAnswer(asset, crc, strays, tag, answer));
  }

  /** What every run keeps, whatever the unit answers. */
  ghost predicate Running0(s: State, asked: set<nat>, asset: Bytes, inFlight: nat) {
    && Sliced(s.written, s.chunks, asset)
    && |asked| <= inFlight
    && (s.chunkSize > 0 || s.IsComplete())
    && s.stray <= MAX_STRAY_RESPONSES
  }

  /** The file holds what it held and the asset's bytes from there to `end`. */
  ghost predicate IsWritten(file: Bytes, file0: Bytes, asset: Bytes, end: nat) {
    |file0| <= end <= |asset| && file == file0 + asset[|file0|..end]
  }

  method WriteReady(
    download: AssetDownload, before: Bytes, ghost file0: Bytes, ghost asset: Bytes, ghost asked: set<nat>,
    ghost crc: nat, ghost honest: bool, ghost inFlight: nat
  ) returns (file: Bytes, failure: Option<Failure>)
    requires Running0(download.Contents(), asked, asset, inFlight)
    requires IsWritten(before, file0, asset, download.written)
    requires honest ==> Progressing(download.Contents(), asked, asset, crc)
    modifies download
    ensures Running0(download.Contents(), asked, asset, inFlight)
    ensures download.Contents() == old(download.Contents()).(written := download.written, chunks := download.chunks)
    ensures IsWritten(file, file0, asset, download.written) && download.written >= old(download.written)
    ensures forall o :: o in download.chunks ==> o > download.written
    ensures failure ==
            if download.length.Some? && download.written > download.length.value then Some(AssetChanged) else None
    ensures honest ==> failure.None? && Progressing(download.Contents(), asked, asset, crc)
    ensures honest && download.IsComplete() ==> download.length == Some(|asset|) && download.crc == Some(crc)
    ensures honest ==>
              Left(download.Contents(), asked, |asset|, inFlight) ==
              old(Left(download.Contents(), asked, |asset|, inFlight))
  {
    hide Taken, Covered, GapSet, GapSeq, Ahead;
    var taking := Taking([], download.written, download.chunks);
    if honest { TakeProgresses(download.Contents(), asked, asset, crc); }
    TakenIsSlice(taking, asset);
    TakenLeaves(taking);
    var ready;
    ready, failure := download.TakeReady();
    file := before + Concat(ready);
    SliceJoin(asset, |file0|, old(download.written), download.written, file0);
  }

  method TakeAnswer(download: AssetDownload, ghost asset: Bytes, tag: nat, answer: Answer)
    returns (failure: Option<Failure>)
    requires Sliced(download.written, download.chunks, asset) && download.chunkSize > 0
             && download.stray <= MAX_STRAY_RESPONSES
    requires Plausible(asset, tag, answer)
    modifies download
    ensures (download.Contents(), failure) == AfterAnswer(old(download.Contents()), tag, answer)
    ensures download.written == old(download.written)
    ensures failure.None? ==>
              && Sliced(download.written, download.chunks, asset) && download.chunkSize > 0
              && download.stray <= MAX_STRAY_RESPONSES
  {
    match answer {
      case Reply(response) =>
        AcceptKeepsSlices(download.Contents(), tag, response, asset);
        failure := download.Accept(tag, response);
      case BadOffset(Some(length)) => failure := download.SetLength(length);
      case _ => failure := Some(RequestFailed);
    }
  }

  /** One answer to the requests in flight, and what is known after it, or why it ends the download. */
  method Await(
    download: AssetDownload, asset: Bytes, crc: nat, honest: bool, asked: set<nat>, ghost inFlight: nat,
    ghost record0: seq<Told>
  ) returns (tag: nat, failure: Option<Failure>, ghost record: seq<Told>)
    requires Running0(download.Contents(), asked, asset, inFlight) && download.chunkSize > 0 && asked != {}
    requires Knows(download.Contents(), record0)
    requires honest ==> Progressing(download.Contents(), asked, asset, crc)
    modifies download
    ensures tag in asked && download.written == old(download.written)
    ensures |record| == |record0| + 1 && record0 <= record && record[|record0|].tag == tag
    ensures if failure.None? then
              Running0(download.Contents(), asked - {tag}, asset, inFlight) && Knows(download.Contents(), record)
            else
              IsFailure(failure.value, record)
    ensures honest ==>
              && failure.None? && Progressing(download.Contents(), asked - {tag}, asset, crc)
              && Left(download.Contents(), asked - {tag}, |asset|, inFlight) <
                 old(Left(download.Contents(), asked, |asset|, inFlight))
  {
    hide Progressing, Left, AfterAnswer, Knows, IsFailure, HonestAnswer, Plausible, Sliced;
    var answer;
    tag, answer := NextCompletion(asset, crc, honest, download.stray, asked);
    if honest { AnswerCosts(download.Contents(), asked, tag, answer, asset, crc, inFlight); }
    KnowsNext(download.Contents(), record0, tag, answer);
    failure := TakeAnswer(download, asset, tag, answer);
    record := record0 + [Told(tag, answer)];
  }

  lemma KnowsStill(s: State, t: State, record: seq<Told>)
    requires Knows(s, record) && t.length == s.length && t.crc == s.crc && t.stray == s.stray
    ensures Knows(t, record)
  {
  }

  lemma AskedNext(record: seq<Told>, t: Told, offset: nat)
    ensures Asked(record + [t], offset) == Asked(record, offset) + if t.tag == offset then 1 else 0
  {
    assert (record + [t])[..|record|] == record;
  }

  lemma LongFileIsEarned(s: State, record: seq<Told>, file: Bytes, crc32: Bytes -> nat, patience: nat)
    requires Knows(s, record) && |record| > 0 && s.length.Some? && |file| > s.length.value
    ensures IsEarned(Aborted(AssetChanged), record, file, crc32, patience)
  {
    hide GoesOn, IsSaid, IsFailure;
  }

  lemma StuckIsEarned(s: State, record: seq<Told>, file: Bytes, crc32: Bytes -> nat, patience: nat)
    requires Knows(s, record) && |record| > 0 && Asked(record, |file|) >= MAX_ASSET_RESTARTS
    ensures IsEarned(Aborted(Stuck), record, file, crc32, patience)
  {
  }

  lemma RunningIsEarned(s: State, record: seq<Told>, file: Bytes, crc32: Bytes -> nat, patience: nat)
    requires Knows(s, record) && |record| > patience
    ensures IsEarned(Running, record, file, crc32, patience)
  {
  }

  lemma FailureIsEarned(failure: Failure, record: seq<Told>, file: Bytes, crc32: Bytes -> nat, patience: nat)
    requires IsFailure(failure, record)
    ensures IsEarned(Aborted(failure), record, file, crc32, patience) && failure != Stuck
  {
  }

  lemma WrongOffsetIsEarned(record: seq<Told>, file: Bytes, crc32: Bytes -> nat, patience: nat)
    requires |record| == 1 && IsStray(record[0])
    ensures IsEarned(Aborted(WrongOffset), record, file, crc32, patience)
  {
  }

  /** All of the file is there: its CRC decides. */
  lemma CrcDecides(s: State, record: seq<Told>, file: Bytes, crc32: Bytes -> nat, patience: nat)
    requires Knows(s, record) && |record| > 0 && s.length == Some(|file|) && s.crc.Some?
    ensures var outcome := if crc32(file) == s.crc.value then Done(|file|, crc32(file)) else Aborted(CrcMismatch);
            IsEarned(outcome, record, file, crc32, patience)
  {
    hide GoesOn, IsSaid, IsCrcSaid, IsFailure;
  }

  /** The stalls so far, each in a row but the last of them answered. */
  ghost predicate CountsStalls(stalls: seq<nat>, stuckAt: int, restarts: nat, written: nat, record: seq<Told>,
                               asked: set<nat>)
  {
    && AreStalls(stalls, stuckAt, restarts, written)
    && (stuckAt >= 0 ==> restarts <= Asked(record, stuckAt) + if stuckAt in asked then 1 else 0)
  }

  /** Fills the window. Where that asks for nothing the first missing byte is asked for, a limited number of times. */
  method Ask(
    download: AssetDownload, ghost asset: Bytes, ghost crc: nat, ghost honest: bool, asked0: set<nat>, inFlight: nat,
    stuckAt0: int, restarts0: nat, ghost record: seq<Told>, ghost stalls0: seq<nat>
  ) returns (asked: set<nat>, stuckAt: int, restarts: nat, isStalled: bool, ghost stalls: seq<nat>)
    requires inFlight >= 1 && Running0(download.Contents(), asked0, asset, inFlight)
    requires !download.IsComplete() && forall o :: o in download.chunks ==> o > download.written
    requires Knows(download.Contents(), record)
    requires CountsStalls(stalls0, stuckAt0, restarts0, download.written, record, asked0)
    requires honest ==> Progressing(download.Contents(), asked0, asset, crc)
    modifies download
    ensures download.written == old(download.written) && Knows(download.Contents(), record)
    ensures asked != {} && Running0(download.Contents(), asked, asset, inFlight) && download.chunkSize > 0
    ensures stalls == if isStalled then stalls0 + [download.written] else stalls0
    ensures if restarts > MAX_ASSET_RESTARTS then
              isStalled && HasStuck(stalls, download.written) && Asked(record, download.written) >= MAX_ASSET_RESTARTS
            else
              CountsStalls(stalls, stuckAt, restarts, download.written, record, asked)
    ensures honest ==>
              && !isStalled && restarts <= MAX_ASSET_RESTARTS && Progressing(download.Contents(), asked, asset, crc)
              && Left(download.Contents(), asked, |asset|, inFlight) <=
                 old(Left(download.Contents(), asked0, |asset|, inFlight))
  {
    hide Progressing, Left, NextAsked, Knows, Asked, AreStalls, HasStuck, Sliced;
    ghost var known := download.Contents();
    if honest && asked0 == {} { NeverStuck(known, asset, crc); }
    asked := Fill(download, asset, crc, honest, asked0, inFlight);
    KnowsStill(known, download.Contents(), record);
    StallsStay(stalls0, stuckAt0, restarts0, download.written, download.written);
    stuckAt, restarts, isStalled, stalls := stuckAt0, restarts0, asked == {}, stalls0;
    if isStalled {
      StallsNext(stalls, stuckAt, restarts, download.written);
      stalls := stalls + [download.written];
      restarts := if stuckAt == download.written then restarts + 1 else 1;
      stuckAt := download.written;
      asked := {download.written};
    }
  }

  /** The loop of `download_asset`: it ends with every byte written (`None`), or with how it was cut short. */
  method Transfer(
    download: AssetDownload, asset: Bytes, crc: nat, crc32: Bytes -> nat, honest: bool, file0: Bytes, inFlight: nat,
    patience: nat, ghost record0: seq<Told>
  ) returns (ended: Option<Outcome>, file: Bytes, restarted: nat, ghost record: seq<Told>, ghost stalls: seq<nat>)
    requires inFlight >= 1 && download.written == |file0|
    requires Knows(download.Contents(), record0) && |record0| > 0
    requires Running0(download.Contents(), {}, asset, inFlight)
    requires honest ==> Progressing(download.Contents(), {}, asset, crc)
    modifies download
    ensures IsWritten(file, file0, asset, download.written)
    ensures ended.None? ==> download.Contents().IsComplete() && download.written <= download.length.value
    ensures ended.Some? ==> !ended.value.Done? && IsEarned(ended.value, record, file, crc32, patience)
    ensures ended.None? ==> Knows(download.Contents(), record) && |record| > 0
    ensures record0 <= record
    ensures if ended == Some(Aborted(Stuck)) then HasStuck(stalls, |file|)
            else HasNotStuck(stalls) && |stalls| == restarted
    ensures honest ==> restarted == 0
    ensures honest && ended.None? ==> download.length == Some(|asset|) && download.crc == Some(crc)
    ensures honest && patience > Left(old(download.Contents()), {}, |asset|, inFlight) ==> ended.None?
  {
    hide Progressing, Left, AfterAnswer, Taken, Knows, IsEarned, CountsStalls, HasStuck, HasNotStuck;
    file, restarted, record, stalls := file0, 0, record0, [];
    assert asset[|file0|..|file0|] == [];
    ghost var bound := Left(download.Contents(), {}, |asset|, inFlight);
    var failure: Option<Failure>;
    var asked: set<nat> := {};
    var stuckAt: int, restarts: nat := -1, 0;
    var answers := patience;

    NoStalls(download.written, record);
    while true
      invariant Running0(download.Contents(), asked, asset, inFlight)
      invariant IsWritten(file, file0, asset, download.written)
      invariant record0 <= record && Knows(download.Contents(), record) && |record| > patience - answers
      invariant CountsStalls(stalls, stuckAt, restarts, download.written, record, asked) && |stalls| == restarted
      invariant honest ==> restarted == 0 && Progressing(download.Contents(), asked, asset, crc)
      invariant honest ==> Left(download.Contents(), asked, |asset|, inFlight) + (patience - answers) <= bound
      decreases answers
    {
      ghost var known := download.Contents();
      file, failure := WriteReady(download, file, file0, asset, asked, crc, honest, inFlight);
      KnowsStill(known, download.Contents(), record);
      CountsStay(stalls, stuckAt, restarts, known.written, download.written, record, asked);
      if failure.Some? {
        LongFileIsEarned(download.Contents(), record, file, crc32, patience);
        return Some(Aborted(failure.value)), file, restarted, record, stalls;
      }
      if download.IsComplete() {
        return None, file, restarted, record, stalls;
      }

      var isStalled;
      asked, stuckAt, restarts, isStalled, stalls := Ask(
        download, asset, crc, honest, asked, inFlight, stuckAt, restarts, record, stalls);
      if restarts > MAX_ASSET_RESTARTS {
        StuckIsEarned(download.Contents(), record, file, crc32, patience);
        return Some(Aborted(Stuck)), file, restarted, record, stalls;
      }
      if isStalled {
        restarted := restarted + 1;
      }
      CountsStay(stalls, stuckAt, restarts, download.written, download.written, record, asked);

      if answers == 0 {
        RunningIsEarned(download.Contents(), record, file, crc32, patience);
        return Some(Running), file, restarted, record, stalls;
      }
      answers := answers - 1;
      var tag;
      ghost var told, before := record, asked;
      tag, failure, record := Await(download, asset, crc, honest, asked, inFlight, record);
      asked := asked - {tag};
      CountsNext(stalls, stuckAt, restarts, download.written, told, record, before, tag);
      if failure.Some? {
        FailureIsEarned(failure.value, record, file, crc32, patience);
        return Some(Aborted(failure.value)), file, restarted, record, stalls;
      }
    }
  }

  /** After an honest first answer no more are to come than the bound says. */
  lemma FirstAnswerBounds(start: nat, r: Response, asset: Bytes, crc: nat, inFlight: nat)
    requires r.off == start <= |asset| && Honest(asset, crc, start, r)
    ensures var (s, failure) := Accepted(State(start, None, None, 0, start, map[], [], 0), start, r);
            && failure.None? && Progressing(s, {}, asset, crc) && s.stray <= MAX_STRAY_RESPONSES
            && Left(s, {}, |asset|, inFlight) <= Bound(|asset|, start, |r.data|, inFlight)
  {
    hide Progressing, Ahead;
    FirstAnswerProgresses(start, r, asset, crc);
    var s := Accepted(State(start, None, None, 0, start, map[], [], 0), start, r).0;
    assert GapSet({}, |asset|) == 0 && GapSeq([], |asset|) == 0;
    LessTimes(Work(s, {}, |asset|), Ahead(start + |r.data|, |r.data|, |asset|) + 1 + MAX_STRAY_RESPONSES, inFlight + 1);
  }

  /**
   * `download_asset`, from the answer to the first request on; `file0` is the part of the file that is there,
   * `patience` the number of answers the run lasts. `restarts` counts how often the stall branch was taken.
   */
  method DownloadAsset(
    asset: Bytes, crc32: Bytes -> nat, honest: bool, file0: Bytes, inFlight: nat, first: Response, patience: nat
  ) returns (outcome: Outcome, file: Bytes, restarted: nat, ghost record: seq<Told>, ghost stalls: seq<nat>)
    requires inFlight >= 1
    requires first.off == |file0| ==> IsSlice(asset, |file0|, first.data)
    requires honest ==> first.off == |file0| <= |asset| && Honest(asset, crc32(asset), |file0|, first)
    // In every run, what was written is the asset's bytes from the start.
    ensures |file0| <= |file| && (|file| > |file0| ==> |file| <= |asset|)
    ensures first.off == |file0| ==> file == file0 + asset[|file0|..|file|]
    // How it ends is what the answers come to.
    ensures [Told(|file0|, Reply(first))] <= record && IsEarned(outcome, record, file, crc32, patience)
    // It stops as soon as the stall branch was taken too often in a row at the same byte, and only then.
    ensures if outcome == Aborted(Stuck) then HasStuck(stalls, |file|)
            else HasNotStuck(stalls) && |stalls| == restarted
    // With an honest unit nothing stalls, and the download ends within its bound with all of the asset.
    ensures honest ==> restarted == 0
    ensures honest && patience > Bound(|asset|, |file0|, |first.data|, inFlight) ==>
              && file == file0 + asset[|file0|..]
              && outcome == if crc32(file) == crc32(asset) then Done(|asset|, crc32(asset)) else Aborted(CrcMismatch)
    ensures honest && patience > Bound(|asset|, |file0|, |first.data|, inFlight) && file0 == asset[..|file0|] ==>
              file == asset && outcome == Done(|asset|, crc32(asset))
  {
    hide Progressing, Left, Bound, Accepted, Honest, Taken, NextAsked, Knows, IsFailure, IsEarned;
    var start := |file0|;
    file, restarted, record, stalls := file0, 0, [Told(start, Reply(first))], [];
    if first.off != start {
      WrongOffsetIsEarned(record, file, crc32, patience);
      return Aborted(WrongOffset), file, restarted, record, stalls;
    }
    assert asset[start..start] == [];
    var crc := crc32(asset);
    var download := new AssetDownload(start);
    AcceptKeepsSlices(State(start, None, None, 0, start, map[], [], 0), start, first, asset);
    if honest { FirstAnswerBounds(start, first, asset, crc, inFlight); }
    NothingKnown(start);
    KnowsNext(download.Contents(), [], start, Reply(first));
    assert [] + record == record;
    var failure := download.Accept(start, first);
    if failure.Some? {
      FailureIsEarned(failure.value, record, file, crc32, patience);
      return Aborted(failure.value), file, restarted, record, stalls;
    }
    var ended;
    ended, file, restarted, record, stalls := Transfer(
      download, asset, crc, crc32, honest, file0, inFlight, patience, record);
    if ended.Some? {
      return ended.value, file, restarted, record, stalls;
    }
    CrcDecides(download.Contents(), record, file, crc32, patience);
    if |file| != download.length.value || crc32(file) != download.crc.value {
      return Aborted(CrcMismatch), file, restarted, record, stalls;
    }
    return Done(|file|, crc32(file)), file, restarted, record, stalls;
  }
}
