/**
 * The run-length compressor for image data. Its runs and literals tile the data; decoding gives the data back exactly
 * if no literal has more than 127 blocks, which only the branch that ends the data can exceed, or if the last 128
 * blocks happen to decode to themselves.
 */
module Rle {
  import opened Common

  /** The most blocks that a control byte can count. */
  const MAX_COUNT := 127

  type Block = Bytes

  /** The data in steps of `blksize`; the last block is what is left. */
  function Blocks(data: Bytes, blksize: nat): (b: seq<Block>)
    requires blksize > 0
    ensures |data| == 0 <==> |b| == 0
    decreases |data|
  {
    if |data| == 0 then []
    else if |data| <= blksize then [data]
    else [data[..blksize]] + Blocks(data[blksize..], blksize)
  }

  lemma {:induction false} BlocksJoin(data: Bytes, blksize: nat)
    requires blksize > 0
    ensures Concat(Blocks(data, blksize)) == data
    decreases |data|
  {
    if 0 < |data| <= blksize {
      assert Concat([data]) == data + Concat([]) == data;
    } else if |data| > 0 {
      BlocksJoin(data[blksize..], blksize);
      assert Blocks(data, blksize)[1..] == Blocks(data[blksize..], blksize);
    }
  }

  /** How many blocks at the front are `x`. */
  function RunFrom(b: seq<Block>, x: Block): (n: nat)
    ensures n <= |b|
    ensures forall i :: 0 <= i < n ==> b[i] == x
    ensures n < |b| ==> b[n] != x
  {
    if |b| == 0 || b[0] != x then 0 else 1 + RunFrom(b[1..], x)
  }

  /** The blocks that one run takes; 0 if there is no whole block. */
  function RepeatCount(b: seq<Block>, blksize: nat): (n: nat)
    ensures n <= |b| && n <= MAX_COUNT
  {
    if |b| == 0 || |b[0]| < blksize then 0 else Min(MAX_COUNT, RunFrom(b, b[0]))
  }

  /** A run worth ending a literal for starts at `s`; the literal keeps its first block, unless it begins there too. */
  predicate IsLongRun(b: seq<Block>, threshold: nat, s: nat) {
    && s < |b|
    && (s > 0 ==> b[s] != b[s - 1])
    && var n := if s > 0 then threshold + 2 else threshold + 1;
    && s + n <= |b| && forall i :: s <= i < s + n ==> b[i] == b[s]
  }

  predicate HasLongRun(b: seq<Block>, threshold: nat, end: nat) {
    exists s :: 0 <= s < end && IsLongRun(b, threshold, s)
  }

  /** The blocks differ somewhere from `start` on. */
  predicate HasChange(b: seq<Block>, start: nat) {
    exists i :: start <= i < |b| && 0 < i && b[i] != b[i - 1]
  }

  /**
   * The blocks that one literal takes: up to the first long run, if it starts within the first 126; else 127, if the
   * blocks still change there; else all.
   */
  ghost predicate IsLiteralCount(b: seq<Block>, threshold: nat, count: nat) {
    if HasLongRun(b, threshold, MAX_COUNT - 1) then
      exists s :: 0 <= s < MAX_COUNT - 1 && IsLongRun(b, threshold, s) && !HasLongRun(b, threshold, s)
                  && count == if s == 0 then 0 else s + 1
    else if HasChange(b, MAX_COUNT - 1) then count == MAX_COUNT
    else count == |b|
  }

  /** The first long run among those before 126, or 126. */
  function FirstLongRun(b: seq<Block>, threshold: nat, s: nat): (first: nat)
    requires s <= MAX_COUNT - 1 && !HasLongRun(b, threshold, s)
    ensures s <= first <= MAX_COUNT - 1 && !HasLongRun(b, threshold, first)
    ensures first < MAX_COUNT - 1 ==> IsLongRun(b, threshold, first)
    decreases MAX_COUNT - 1 - s
  {
    if s == MAX_COUNT - 1 || IsLongRun(b, threshold, s) then s else FirstLongRun(b, threshold, s + 1)
  }

  function LiteralCount(b: seq<Block>, threshold: nat): (count: nat)
    ensures count <= |b|
  {
    var s := FirstLongRun(b, threshold, 0);
    if s < MAX_COUNT - 1 then if s == 0 then 0 else s + 1
    else if HasChange(b, MAX_COUNT - 1) then MAX_COUNT
    else |b|
  }

  lemma LiteralCountMeans(b: seq<Block>, threshold: nat, count: nat)
    ensures IsLiteralCount(b, threshold, count) <==> count == LiteralCount(b, threshold)
  {
    var s := FirstLongRun(b, threshold, 0);
    if s < MAX_COUNT - 1 {
      assert IsLongRun(b, threshold, s) && !HasLongRun(b, threshold, s);
      assert HasLongRun(b, threshold, MAX_COUNT - 1);
    }
  }

  /**
   * A literal is too long for its control byte exactly when the data ends with one run, which starts within the first
   * 126 blocks and is no long one, as no run before it is, and there are more than 127 blocks.
   */
  lemma OverlongLiterals(b: seq<Block>, threshold: nat)
    ensures LiteralCount(b, threshold) > MAX_COUNT <==>
            |b| > MAX_COUNT && !HasChange(b, MAX_COUNT - 1) && !HasLongRun(b, threshold, MAX_COUNT - 1)
    ensures LiteralCount(b, threshold) > MAX_COUNT ==>
              LiteralCount(b, threshold) == |b| <= MAX_COUNT - 1 + threshold
  {
    if LiteralCount(b, threshold) > MAX_COUNT {
      var s := LastRun(b, |b| - 1);
      assert !IsLongRun(b, threshold, s);
    }
  }

  /** The start of the run that block `i` is in. */
  lemma {:induction false} LastRun(b: seq<Block>, i: nat) returns (s: nat)
    requires i < |b|
    ensures s <= i && (s > 0 ==> b[s] != b[s - 1]) && forall k :: s <= k <= i ==> b[k] == b[s]
  {
    s := i;
    if i == 0 || b[i] != b[i - 1] {
    } else {
      s := LastRun(b, i - 1);
    }
  }

  // What the compressor writes.

  datatype Op = Run(count: nat, block: Block) | Literal(blocks: seq<Block>)

  function Repeat(block: Block, n: nat): (b: seq<Block>)
    ensures |b| == n && forall i :: 0 <= i < n ==> b[i] == block
  {
    seq(n, _ => block)
  }

  function Expand(op: Op): seq<Block> {
    match op
    case Run(count, block) => Repeat(block, count)
    case Literal(blocks) => blocks
  }

  function ExpandAll(ops: seq<Op>): seq<Block> {
    if |ops| == 0 then [] else Expand(ops[0]) + ExpandAll(ops[1..])
  }

  /** The run is too short to be coded as one, and so long that the literal before it is empty. */
  predicate IsStuck(b: seq<Block>, blksize: nat, threshold: nat) {
    0 < RepeatCount(b, blksize) < threshold && LiteralCount(b, threshold) == 0
  }

  /** Only a threshold above 127 can be so, and then the first run that is longer. */
  lemma HighThresholdIsStuck(b: seq<Block>, blksize: nat, threshold: nat)
    requires RepeatCount(b, blksize) > 0
    ensures IsStuck(b, blksize, threshold) <==> threshold > MAX_COUNT && RunFrom(b, b[0]) > threshold
  {
    var n := RunFrom(b, b[0]);
    assert n < |b| ==> b[n] != b[0];
    if n > threshold {
      assert IsLongRun(b, threshold, 0);
    }
  }

  function FirstOp(b: seq<Block>, blksize: nat, threshold: nat): (op: Op)
    requires RepeatCount(b, blksize) > 0 && !IsStuck(b, blksize, threshold)
    ensures 0 < |Expand(op)| <= |b| && Expand(op) == b[..|Expand(op)|]
    ensures op.Run? ==> threshold <= op.count <= MAX_COUNT
    ensures op.Literal? ==> |op.blocks| == LiteralCount(b, threshold)
  {
    var r := RepeatCount(b, blksize);
    if r < threshold then Literal(b[..LiteralCount(b, threshold)]) else Run(r, b[0])
  }

  /** The runs and literals, until no whole block is left, or for ever. */
  function Ops(b: seq<Block>, blksize: nat, threshold: nat): (ops: seq<Op>)
    decreases |b|
  {
    if RepeatCount(b, blksize) == 0 || IsStuck(b, blksize, threshold) then []
    else
      var op := FirstOp(b, blksize, threshold);
      [op] + Ops(b[|Expand(op)|..], blksize, threshold)
  }

  /** `uint8_t(count | 0x80)`; a count above 127 has that bit already, and one above 255 does not fit. */
  function ControlByte(op: Op): byte
    requires IsWritable(op)
  {
    match op
    case Run(count, _) => count
    case Literal(blocks) => if |blocks| < 128 then |blocks| + 128 else |blocks|
  }

  predicate IsWritable(op: Op) {
    match op
    case Run(count, _) => count <= MAX_COUNT
    case Literal(blocks) => |blocks| < 256
  }

  function Render(op: Op): Bytes
    requires IsWritable(op)
  {
    [ControlByte(op)] + (if op.Run? then op.block else Concat(op.blocks))
  }

  /** The loop ends with the bytes written, or with an `OverflowError`, or not at all. */
  datatype Compression = Done(bytes: Bytes) | Overflow | Endless

  function Prefixed(front: Bytes, c: Compression): Compression {
    if c.Done? then Done(front + c.bytes) else c
  }

  function Compressed(b: seq<Block>, blksize: nat, threshold: nat): Compression
    decreases |b|
  {
    if RepeatCount(b, blksize) == 0 then Done([])
    else if IsStuck(b, blksize, threshold) then Endless
    else
      var op := FirstOp(b, blksize, threshold);
      if !IsWritable(op) then Overflow
      else Prefixed(Render(op), Compressed(b[|Expand(op)|..], blksize, threshold))
  }

  /** With a threshold that a control byte can count the loop ends. */
  lemma {:induction false} ModestThresholdEnds(b: seq<Block>, blksize: nat, threshold: nat)
    requires threshold <= MAX_COUNT
    ensures Compressed(b, blksize, threshold).Done?
    decreases |b|
  {
    hide LiteralCount, RepeatCount, RunFrom;
    if RepeatCount(b, blksize) == 0 {
    } else {
      HighThresholdIsStuck(b, blksize, threshold);
      OverlongLiterals(b, threshold);
      var op := FirstOp(b, blksize, threshold);
      ModestThresholdEnds(b[|Expand(op)|..], blksize, threshold);
    }
  }

  predicate AreWhole(b: seq<Block>, blksize: nat) { forall i :: 0 <= i < |b| ==> |b[i]| == blksize }

  lemma {:induction false} BlocksAreWhole(data: Bytes, blksize: nat, n: nat)
    requires blksize > 0 && |data| == n * blksize
    ensures AreWhole(Blocks(data, blksize), blksize)
    decreases n
  {
    if n == 0 {
    } else {
      assert |data| >= blksize && |data| - blksize == (n - 1) * blksize by {
        LessTimes(1, n, blksize);
      }
      if |data| > blksize {
        BlocksAreWhole(data[blksize..], blksize, n - 1);
      }
    }
  }

  lemma SomeRepeat(b: seq<Block>, blksize: nat)
    requires AreWhole(b, blksize) && |b| > 0
    ensures RepeatCount(b, blksize) > 0
  {
  }

  /** The operations tile the blocks, exactly if the loop comes to an end. */
  lemma {:induction false} OpsTile(b: seq<Block>, blksize: nat, threshold: nat)
    requires AreWhole(b, blksize)
    ensures ExpandAll(Ops(b, blksize, threshold)) == b <==> !Compressed(b, blksize, threshold).Endless?
    decreases |b|
  {
    hide FirstOp, RepeatCount, RunFrom, LiteralCount, Render;
    var ops := Ops(b, blksize, threshold);
    if |b| == 0 {
    } else {
      SomeRepeat(b, blksize);
      if !IsStuck(b, blksize, threshold) {
        var op := FirstOp(b, blksize, threshold);
        var n := |Expand(op)|;
        assert ops[1..] == Ops(b[n..], blksize, threshold);
        if IsWritable(op) {
          OpsTile(b[n..], blksize, threshold);
          assert ExpandAll(ops) == b[..n] + ExpandAll(ops[1..]);
          assert b[..n] + b[n..] == b;
          assert ExpandAll(ops)[n..] == ExpandAll(ops[1..]);
        } else {
          OverlongIsLast(b, blksize, threshold);
          assert ExpandAll(ops) == Expand(op) + [] == Expand(Literal(b)) == b;
        }
      }
    }
  }

  /** A literal that is too long for its control byte takes all that is left. */
  lemma OverlongIsLast(b: seq<Block>, blksize: nat, threshold: nat)
    requires RepeatCount(b, blksize) > 0 && !IsStuck(b, blksize, threshold)
    requires IsOverlong(FirstOp(b, blksize, threshold))
    ensures FirstOp(b, blksize, threshold) == Literal(b) && Ops(b, blksize, threshold) == [Literal(b)]
    ensures |b| < 256 ==> Compressed(b, blksize, threshold) == Done(Render(Literal(b)))
    ensures |b| >= 256 ==> Compressed(b, blksize, threshold) == Overflow
  {
    hide LiteralCount, RepeatCount, Render;
    OverlongLiterals(b, threshold);
    assert b[..|b|] == b && b[|b|..] == [];
    NothingIsWritten(blksize, threshold);
    assert |b| < 256 ==> Render(Literal(b)) + [] == Render(Literal(b));
  }

  lemma NothingIsWritten(blksize: nat, threshold: nat)
    ensures RepeatCount([], blksize) == 0
    ensures Ops([], blksize, threshold) == [] && Compressed([], blksize, threshold) == Done([])
  {
  }

  predicate IsOverlong(op: Op) { op.Literal? && |op.blocks| > MAX_COUNT }

  predicate NoneIsOverlong(ops: seq<Op>) { forall i :: 0 <= i < |ops| ==> !IsOverlong(ops[i]) }

  /** The blocks that are left after the first `k` operations. */
  function Left(b: seq<Block>, blksize: nat, threshold: nat, k: nat): (rest: seq<Block>)
    requires k <= |Ops(b, blksize, threshold)|
    ensures |rest| <= |b| && (k > 0 ==> |rest| < |b|)
    decreases k
  {
    if k == 0 then b
    else Left(b[|Expand(FirstOp(b, blksize, threshold))|..], blksize, threshold, k - 1)
  }

  /** What is left is the end of the blocks, and is what the operations from `k` on code. */
  lemma {:induction false} LeftIsSuffix(b: seq<Block>, blksize: nat, threshold: nat, k: nat)
    requires k <= |Ops(b, blksize, threshold)|
    ensures var rest := Left(b, blksize, threshold, k);
            && rest == b[|b| - |rest|..]
            && Ops(rest, blksize, threshold) == Ops(b, blksize, threshold)[k..]
    decreases k
  {
    hide FirstOp, RepeatCount, IsStuck, Expand;
    var ops := Ops(b, blksize, threshold);
    if k == 0 {
      assert b[0..] == b && ops[0..] == ops;
    } else {
      var n := |Expand(FirstOp(b, blksize, threshold))|;
      var rest := Left(b[n..], blksize, threshold, k - 1);
      assert ops[1..] == Ops(b[n..], blksize, threshold);
      LeftIsSuffix(b[n..], blksize, threshold, k - 1);
      SuffixOfSuffix(b, n, |rest|);
      SuffixOfSuffix(ops, 1, |ops| - k);
    }
  }

  lemma SuffixOfSuffix<T>(s: seq<T>, n: nat, size: nat)
    requires n + size <= |s|
    ensures s[n..][|s| - n - size..] == s[|s| - size..]
  {
  }

  /** Only the last literal can be too long, and is exactly where what is left is as `OverlongLiterals` says. */
  lemma OnlyTheLastIsOverlong(b: seq<Block>, blksize: nat, threshold: nat, k: nat)
    requires k < |Ops(b, blksize, threshold)|
    ensures var ops := Ops(b, blksize, threshold);
            var rest := Left(b, blksize, threshold, k);
            && (IsOverlong(ops[k]) <==>
                && RepeatCount(rest, blksize) < threshold
                && |rest| > MAX_COUNT && !HasChange(rest, MAX_COUNT - 1) && !HasLongRun(rest, threshold, MAX_COUNT - 1))
            && (IsOverlong(ops[k]) ==> k == |ops| - 1 && |rest| <= MAX_COUNT - 1 + threshold)
  {
    hide LiteralCount, HasChange, HasLongRun, RepeatCount, Left;
    var rest := Left(b, blksize, threshold, k);
    LeftIsSuffix(b, blksize, threshold, k);
    OverlongLiterals(rest, threshold);
    var op := FirstOp(rest, blksize, threshold);
    assert op == Ops(b, blksize, threshold)[k];
    if IsOverlong(op) {
      OverlongIsLast(rest, blksize, threshold);
    }
  }

  // The decoder.

  /** A control byte with the high bit counts blocks that follow; any other how often the one that follows repeats. */
  function Decode(s: Bytes, blksize: nat): Option<Bytes>
    requires blksize > 0
    decreases |s|
  {
    if |s| == 0 then Some([])
    else
      var literal, count := s[0] >= 128, s[0] % 128;
      var size := if literal then count * blksize else blksize;
      if |s| < 1 + size then None
      else
        var rest := Decode(s[1 + size..], blksize);
        if rest.None? then None
        else Some((if literal then s[1..1 + size] else Concat(Repeat(s[1..1 + size], count))) + rest.value)
  }

  lemma {:induction false} WholeSize(b: seq<Block>, blksize: nat)
    requires AreWhole(b, blksize)
    ensures |Concat(b)| == |b| * blksize
  {
    if |b| == 0 {
    } else {
      WholeSize(b[1..], blksize);
      assert |b| * blksize == blksize + (|b| - 1) * blksize;
    }
  }

  /** What can be decoded: whole blocks, and literals that fit their control byte. */
  predicate IsDecodable(op: Op, blksize: nat) {
    match op
    case Run(count, block) => count <= MAX_COUNT && |block| == blksize
    case Literal(blocks) => |blocks| <= MAX_COUNT && AreWhole(blocks, blksize)
  }

  /** What is decoded of the bytes that follow is put behind `front`. */
  function Behind(front: Bytes, rest: Option<Bytes>): Option<Bytes> {
    if rest.None? then None else Some(front + rest.value)
  }

  lemma DecodeFirst(control: Bytes, body: Bytes, rest: Bytes, blksize: nat)
    requires blksize > 0 && |control| == 1
    requires |body| == if control[0] >= 128 then control[0] % 128 * blksize else blksize
    ensures Decode(control + body + rest, blksize) ==
            Behind(if control[0] >= 128 then body else Concat(Repeat(body, control[0] % 128)), Decode(rest, blksize))
  {
    hide Concat, Repeat;
    var s := control + body + rest;
    assert s[1..1 + |body|] == body && s[1 + |body|..] == rest;
  }

  lemma DecodeRender(op: Op, rest: Bytes, blksize: nat)
    requires blksize > 0 && IsDecodable(op, blksize)
    ensures Decode(Render(op) + rest, blksize) == Behind(Concat(Expand(op)), Decode(rest, blksize))
  {
    hide Decode, Concat, Repeat;
    var body := if op.Run? then op.block else Concat(op.blocks);
    if op.Literal? {
      WholeSize(op.blocks, blksize);
    }
    DecodeFirst([ControlByte(op)], body, rest, blksize);
  }

  lemma DecodeNothing(blksize: nat)
    requires blksize > 0
    ensures Decode([], blksize) == Some([])
  {
  }

  /** The control byte of a literal that is too long says 128 blocks less: the last 128 are read as compressed data. */
  lemma DecodeOverlong(b: seq<Block>, blksize: nat)
    requires blksize > 0 && AreWhole(b, blksize) && MAX_COUNT < |b| < 256
    ensures Decode(Render(Literal(b)), blksize) == Behind(Concat(b[..|b| - 128]), Decode(End(b), blksize))
    ensures Concat(b[..|b| - 128]) + End(b) == Concat(b)
  {
    hide Decode, Concat;
    var front, back := b[..|b| - 128], b[|b| - 128..];
    WholeSize(front, blksize);
    ConcatAppend(front, back);
    assert front + back == b;
    DecodeFirst([ControlByte(Literal(b))], Concat(front), Concat(back), blksize);
    assert Render(Literal(b)) == [ControlByte(Literal(b))] + Concat(front) + Concat(back);
  }

  /** The last 128 blocks. */
  function End(b: seq<Block>): Bytes { Concat(b[Max(0, |b| - 128)..]) }

  /** Taken for compressed data, the last 128 blocks are what they decode to. */
  predicate EndDecodesToItself(b: seq<Block>, blksize: nat)
    requires blksize > 0
  {
    |b| > MAX_COUNT && Decode(End(b), blksize) == Some(End(b))
  }

  predicate Inverts(b: seq<Block>, blksize: nat, threshold: nat)
    requires blksize > 0
  {
    && Compressed(b, blksize, threshold).Done?
    && Decode(Compressed(b, blksize, threshold).bytes, blksize) == Some(Concat(b))
  }

  lemma OverlongRoundTrip(b: seq<Block>, blksize: nat, threshold: nat)
    requires blksize > 0 && AreWhole(b, blksize) && RepeatCount(b, blksize) > 0 && !IsStuck(b, blksize, threshold)
    requires IsOverlong(FirstOp(b, blksize, threshold)) && Compressed(b, blksize, threshold).Done?
    ensures Inverts(b, blksize, threshold) <==> EndDecodesToItself(b, blksize)
    ensures |b| > MAX_COUNT
  {
    hide Decode, Concat, Compressed, Render, LiteralCount, RepeatCount;
    OverlongIsLast(b, blksize, threshold);
    DecodeOverlong(b, blksize);
    var front := Concat(b[..|b| - 128]);
    assert (front + End(b))[|front|..] == End(b);
    if Decode(End(b), blksize).Some? {
      assert (front + Decode(End(b), blksize).value)[|front|..] == Decode(End(b), blksize).value;
    }
  }

  lemma FirstIsDecodable(b: seq<Block>, blksize: nat, threshold: nat)
    requires AreWhole(b, blksize) && RepeatCount(b, blksize) > 0 && !IsStuck(b, blksize, threshold)
    requires !IsOverlong(FirstOp(b, blksize, threshold))
    ensures IsDecodable(FirstOp(b, blksize, threshold), blksize)
  {
    hide LiteralCount, FirstOp, RepeatCount, RunFrom;
    var op := FirstOp(b, blksize, threshold);
    assert forall i :: 0 <= i < |Expand(op)| ==> Expand(op)[i] == b[i];
    assert op.Run? ==> Expand(op)[0] == op.block;
  }

  /** What the first operation codes comes back, so the rest decides. */
  lemma FirstRoundTrip(b: seq<Block>, blksize: nat, threshold: nat)
    requires blksize > 0 && AreWhole(b, blksize) && RepeatCount(b, blksize) > 0 && !IsStuck(b, blksize, threshold)
    requires !IsOverlong(FirstOp(b, blksize, threshold)) && Compressed(b, blksize, threshold).Done?
    ensures var rest := b[|Expand(FirstOp(b, blksize, threshold))|..];
            && Compressed(rest, blksize, threshold).Done?
            && (Inverts(b, blksize, threshold) <==> Inverts(rest, blksize, threshold))
  {
    hide Decode, Concat, Render, FirstOp, RepeatCount, IsStuck, Expand;
    var op := FirstOp(b, blksize, threshold);
    var n := |Expand(op)|;
    var written := Compressed(b[n..], blksize, threshold).bytes;
    FirstIsDecodable(b, blksize, threshold);
    DecodeRender(op, written, blksize);
    ConcatAppend(b[..n], b[n..]);
    assert b[..n] + b[n..] == b;
    var front, decoded := Concat(b[..n]), Decode(written, blksize);
    assert (front + Concat(b[n..]))[|front|..] == Concat(b[n..]);
    if decoded.Some? {
      assert (front + decoded.value)[|front|..] == decoded.value;
    }
  }

  lemma {:induction false} BlocksRoundTrip(b: seq<Block>, blksize: nat, threshold: nat)
    requires blksize > 0 && AreWhole(b, blksize) && Compressed(b, blksize, threshold).Done?
    ensures var ops := Ops(b, blksize, threshold);
            && (!NoneIsOverlong(ops) ==> |b| > MAX_COUNT)
            && (Inverts(b, blksize, threshold) <==> NoneIsOverlong(ops) || EndDecodesToItself(b, blksize))
    decreases |b|
  {
    hide Decode, Concat, FirstOp, RepeatCount, IsStuck, Render, Expand, Inverts, EndDecodesToItself, NoneIsOverlong,
      IsOverlong;
    var ops := Ops(b, blksize, threshold);
    if |b| == 0 {
      NothingInverts(blksize, threshold);
    } else {
      SomeRepeat(b, blksize);
      var op := FirstOp(b, blksize, threshold);
      if IsOverlong(op) {
        OverlongRoundTrip(b, blksize, threshold);
        OverlongIsLast(b, blksize, threshold);
        NoneBehind(op, []);
        assert [op] + [] == ops;
      } else {
        var rest := b[|Expand(op)|..];
        FirstRoundTrip(b, blksize, threshold);
        BlocksRoundTrip(rest, blksize, threshold);
        assert ops == [op] + Ops(rest, blksize, threshold);
        NoneBehind(op, Ops(rest, blksize, threshold));
        SameEnd(b, rest, blksize);
      }
    }
  }

  lemma SameEnd(b: seq<Block>, rest: seq<Block>, blksize: nat)
    requires blksize > 0 && |rest| <= |b| && rest == b[|b| - |rest|..]
    ensures |rest| > MAX_COUNT ==> (EndDecodesToItself(b, blksize) <==> EndDecodesToItself(rest, blksize))
  {
    if |rest| > MAX_COUNT {
      assert rest[|rest| - 128..] == b[|b| - 128..];
    }
  }

  lemma NothingInverts(blksize: nat, threshold: nat)
    requires blksize > 0
    ensures Inverts([], blksize, threshold) && NoneIsOverlong(Ops([], blksize, threshold))
  {
  }

  lemma NoneBehind(op: Op, ops: seq<Op>)
    ensures NoneIsOverlong([op] + ops) <==> !IsOverlong(op) && NoneIsOverlong(ops)
  {
    var all := [op] + ops;
    assert forall i :: 0 <= i < |ops| ==> ops[i] == all[i + 1];
    assert all[0] == op;
  }

  /**
   * Decoding gives the data back exactly if no literal is too long, or if the last 128 blocks, which the decoder takes
   * for compressed data where one is, decode to themselves.
   */
  lemma RoundTrip(data: Bytes, blksize: nat, threshold: nat)
    requires blksize > 0 && |data| % blksize == 0
    requires Compressed(Blocks(data, blksize), blksize, threshold).Done?
    ensures var b := Blocks(data, blksize);
            Decode(Compressed(b, blksize, threshold).bytes, blksize) == Some(data) <==>
            NoneIsOverlong(Ops(b, blksize, threshold)) || EndDecodesToItself(b, blksize)
  {
    hide Ops, Decode, NoneIsOverlong, Blocks, Concat, AreWhole, Compressed, EndDecodesToItself;
    BlocksAreWhole(data, blksize, |data| / blksize);
    BlocksJoin(data, blksize);
    BlocksRoundTrip(Blocks(data, blksize), blksize, threshold);
  }

  // The limit is real.

  /** 128 bytes, of which the first reads as the control byte of a literal of 127. */
  function Unlucky(): Bytes { seq(128, i requires 0 <= i < 128 => if i == 0 then 255 else if i < 126 then i else 125) }

  lemma {:induction false} UnitBlocks(data: Bytes)
    ensures |Blocks(data, 1)| == |data| && forall i :: 0 <= i < |data| ==> Blocks(data, 1)[i] == [data[i]]
    decreases |data|
  {
    if |data| <= 1 {
    } else {
      UnitBlocks(data[1..]);
    }
  }

  /** They are written as one literal of 128, whose control byte says 0; what is read is not what was written. */
  lemma OverlongLiteralIsMisread()
    ensures var c := Compressed(Blocks(Unlucky(), 1), 1, 16); c.Done? && Decode(c.bytes, 1) == Some(Unlucky()[1..])
  {
    var data := Unlucky();
    var b := Blocks(data, 1);
    UnitBlocks(data);
    BlocksJoin(data, 1);
    hide Blocks, Unlucky, LiteralCount, RepeatCount, HasChange, HasLongRun, Concat, Decode;
    UnluckyIsOverlong(b);
    OverlongLiterals(b, 16);
    OverlongIsLast(b, 1, 16);
    UnluckyIsMisread(data);
  }

  lemma UnluckyIsOverlong(b: seq<Block>)
    requires |b| == 128 && forall i :: 0 <= i < 128 ==> b[i] == [Unlucky()[i]]
    ensures !HasChange(b, MAX_COUNT - 1) && !HasLongRun(b, 16, MAX_COUNT - 1) && 0 < RepeatCount(b, 1) < 16
  {
    assert b[0] != b[1];
    forall s | 0 <= s < MAX_COUNT - 1 ensures !IsLongRun(b, 16, s) {
      if s < 125 {
        assert b[s] != b[s + 1];
      }
    }
  }

  lemma UnluckyIsMisread(data: Bytes)
    requires |data| == 128 && data[0] == 255
    ensures Decode([128] + data, 1) == Some(data[1..])
  {
    hide Decode, Repeat, Concat;
    var rest := data[1..];
    DecodeNothing(1);
    DecodeFirst([255], rest, [], 1);
    assert [255] + rest + [] == data;
    assert rest + [] == rest;
    assert Decode(data, 1) == Some(rest);
    DecodeFirst([128], [], data, 1);
    assert [128] + [] + data == [128] + data;
    assert [] + rest == rest;
  }

  // The compressor itself.

  lemma BlocksStep(data: Bytes, blksize: nat)
    requires blksize > 0 && |data| > 0
    ensures |Blocks(data, blksize)| > 0
    ensures Blocks(data, blksize)[0] == data[..Min(blksize, |data|)]
    ensures Blocks(data, blksize)[1..] == Blocks(data[Min(blksize, |data|)..], blksize)
  {
  }

  lemma RunStep(b: seq<Block>, x: Block)
    requires |b| > 0
    ensures RunFrom(b, x) == if b[0] == x then 1 + RunFrom(b[1..], x) else 0
  {
  }

  method GetRepeatCount(data: Bytes, blksize: nat) returns (count: nat)
    requires blksize > 0
    ensures count == RepeatCount(Blocks(data, blksize), blksize)
  {
    hide Blocks, RunFrom, Concat;
    if |data| > 0 {
      BlocksStep(data, blksize);
    }
    if |data| < blksize {
      return 0;
    }
    var start := data[..blksize];
    ghost var run := RunFrom(Blocks(data, blksize), start);
    var index := 0;
    count := 0;
    assert data[0..] == data;
    while index < |data|
      invariant index <= |data| && count < MAX_COUNT
      invariant run == count + RunFrom(Blocks(data[index..], blksize), start)
    {
      var rest := data[index..];
      BlocksStep(rest, blksize);
      RunStep(Blocks(rest, blksize), start);
      var value := rest[..Min(blksize, |rest|)];
      if value != start {
        break;
      }
      count := count + 1;
      if count == MAX_COUNT {
        break;
      }
      index := index + blksize;
      assert rest[blksize..] == data[index..];
    }
  }

  /** Before block `i`: the run that it may continue starts at `s`, and the blocks before it are counted. */
  ghost predicate IsScanned(b: seq<Block>, threshold: nat, i: nat, s: nat, count: nat, repeated: nat) {
    && s <= i < |b| && s < MAX_COUNT - 1 && (i == 0 || s < i)
    && (forall k :: s <= k < i ==> b[k] == b[s])
    && (s > 0 ==> b[s] != b[s - 1])
    && count == (if s == 0 then 0 else s + 1) && count + repeated == i
    && repeated <= threshold
    && !HasLongRun(b, threshold, s)
  }

  lemma ScanStarts(b: seq<Block>, threshold: nat)
    requires |b| > 0
    ensures IsScanned(b, threshold, 0, 0, 0, 0)
  {
  }

  /** The run goes on, or another begins, with the data not at its end. */
  lemma ScanContinues(b: seq<Block>, threshold: nat, i: nat, s: nat, count: nat, repeated: nat)
    requires IsScanned(b, threshold, i, s, count, repeated) && i + 1 < |b|
    ensures b[i] == b[s] && repeated < threshold ==> IsScanned(b, threshold, i + 1, s, count, repeated + 1)
    ensures b[i] != b[s] && count + 1 + repeated < MAX_COUNT ==>
              IsScanned(b, threshold, i + 1, i, count + 1 + repeated, 0)
  {
    if b[i] != b[s] {
      NoLongRunBefore(b, threshold, i, s, count, repeated);
    }
  }

  /** The run that ends before `i` was not a long one, and none starts inside it. */
  lemma NoLongRunBefore(b: seq<Block>, threshold: nat, i: nat, s: nat, count: nat, repeated: nat)
    requires IsScanned(b, threshold, i, s, count, repeated) && b[i] != b[s]
    ensures s < i && b[i] != b[i - 1] && !HasLongRun(b, threshold, i)
  {
    forall u | 0 <= u < i ensures !IsLongRun(b, threshold, u) {
      if u == s {
        assert b[i] != b[s];
      } else if u > s {
        assert b[u] == b[u - 1];
      }
    }
  }

  lemma ScanEndsAtLongRun(b: seq<Block>, threshold: nat, i: nat, s: nat, count: nat, repeated: nat)
    requires IsScanned(b, threshold, i, s, count, repeated) && b[i] == b[s] && repeated >= threshold
    ensures count == LiteralCount(b, threshold)
  {
    assert IsLongRun(b, threshold, s);
    assert HasLongRun(b, threshold, MAX_COUNT - 1);
    LiteralCountMeans(b, threshold, count);
  }

  lemma ScanEndsAtChange(b: seq<Block>, threshold: nat, i: nat, s: nat, count: nat, repeated: nat)
    requires IsScanned(b, threshold, i, s, count, repeated) && b[i] != b[s] && count + 1 + repeated >= MAX_COUNT
    ensures LiteralCount(b, threshold) == MAX_COUNT
  {
    NoLongRunBefore(b, threshold, i, s, count, repeated);
    assert HasChange(b, MAX_COUNT - 1);
    LiteralCountMeans(b, threshold, MAX_COUNT);
  }

  lemma ScanEndsWithData(b: seq<Block>, threshold: nat, i: nat, s: nat, count: nat, repeated: nat)
    requires IsScanned(b, threshold, i, s, count, repeated) && i + 1 == |b|
    requires if b[i] == b[s] then repeated < threshold else count + 1 + repeated < MAX_COUNT
    ensures LiteralCount(b, threshold) == |b|
  {
    forall u | 0 <= u < MAX_COUNT - 1 ensures !IsLongRun(b, threshold, u) {
      if s < u < i {
        assert b[u] == b[u - 1];
      }
    }
    LiteralCountMeans(b, threshold, |b|);
  }

  method GetNonrepeatCount(data: Bytes, blksize: nat, threshold: nat) returns (count: nat)
    requires blksize > 0
    ensures |data| < blksize ==> count == 0
    ensures |data| >= blksize ==> count == LiteralCount(Blocks(data, blksize), threshold)
  {
    hide Blocks, Concat, IsScanned, LiteralCount;
    if |data| < blksize {
      return 0;
    }
    BlocksStep(data, blksize);
    ghost var b := Blocks(data, blksize);
    var previous := data[..blksize];
    var index, repeated: nat := 0, 0;
    count := 0;
    ghost var i: nat, s: nat := 0, 0;
    assert data[0..] == data && b[0..] == b;
    ScanStarts(b, threshold);
    while true
      invariant index < |data| && IsScanned(b, threshold, i, s, count, repeated)
      invariant i < |b| && s < |b| && Blocks(data[index..], blksize) == b[i..] && previous == b[s]
      invariant count + repeated == i
      decreases |data| - index
    {
      var rest := data[index..];
      BlocksStep(rest, blksize);
      var value := rest[..Min(blksize, |rest|)];
      assert value == b[i] && b[i..][1..] == b[i + 1..];
      ghost var counted, again := count, repeated;
      if value == previous {
        repeated := repeated + 1;
        if repeated > threshold {
          ScanEndsAtLongRun(b, threshold, i, s, counted, again);
          break;
        }
      } else {
        previous := value;
        count := count + 1 + repeated;
        repeated := 0;
        if count >= MAX_COUNT {
          count := MAX_COUNT;
          ScanEndsAtChange(b, threshold, i, s, counted, again);
          break;
        }
      }
      index := index + blksize;
      if index >= |data| {
        count := count + repeated;
        assert rest[Min(blksize, |rest|)..] == [];
        ScanEndsWithData(b, threshold, i, s, counted, again);
        break;
      }
      assert rest[blksize..] == data[index..];
      ScanContinues(b, threshold, i, s, counted, again);
      s := if value == b[s] then s else i;
      i := i + 1;
    }
  }

  /** The first `n` blocks are the first `size` bytes, or all that there are. */
  lemma {:induction false} BlocksPrefix(data: Bytes, blksize: nat, n: nat, size: nat)
    requires blksize > 0 && n <= |Blocks(data, blksize)| && size == n * blksize
    ensures Concat(Blocks(data, blksize)[..n]) == data[..Min(size, |data|)]
    ensures Blocks(data, blksize)[n..] == Blocks(Tail(data, size), blksize)
    decreases n
  {
    var b := Blocks(data, blksize);
    if n == 0 {
      assert b[..0] == [] && b[0..] == b && Tail(data, 0) == data;
    } else {
      BlocksStep(data, blksize);
      assert size >= blksize && size - blksize == (n - 1) * blksize by {
        LessTimes(1, n, blksize);
      }
      hide Blocks;
      var rest := Tail(data, blksize);
      BlocksPrefix(rest, blksize, n - 1, size - blksize);
      assert b[..n][1..] == b[1..][..n - 1] && b[n..] == b[1..][n - 1..];
      TailOfTail(data, blksize, size - blksize);
      Halves(data, blksize, size - blksize);
      assert Concat(b[..n]) == b[0] + Concat(b[..n][1..]);
    }
  }

  lemma Halves(data: Bytes, k: nat, p: nat)
    ensures var rest := Tail(data, k); data[..Min(k, |data|)] + rest[..Min(p, |rest|)] == data[..Min(k + p, |data|)]
  {
  }

  lemma FirstTakes(b: seq<Block>, blksize: nat, threshold: nat, r: nat, n: nat)
    requires 0 < r == RepeatCount(b, blksize) && n == if r < threshold then LiteralCount(b, threshold) else r
    ensures 0 < |b| && n <= |b|
    ensures Compressed(b, blksize, threshold) ==
            if n == 0 then Endless
            else if r >= threshold then Prefixed([r] + b[0], Compressed(b[n..], blksize, threshold))
            else if n >= 256 then Overflow
            else Prefixed([if n < 128 then n + 128 else n] + Concat(b[..n]), Compressed(b[n..], blksize, threshold))
  {
    hide LiteralCount, RunFrom, Concat;
    if n > 0 {
      assert !IsStuck(b, blksize, threshold) && n == |Expand(FirstOp(b, blksize, threshold))|;
    }
  }

  /** What one turn of the loop writes for `n` blocks, and what it leaves. */
  lemma CompressedStep(rest: Bytes, blksize: nat, threshold: nat, r: nat, n: nat)
    requires blksize > 0 && 0 < r == RepeatCount(Blocks(rest, blksize), blksize)
    requires n == if r < threshold then LiteralCount(Blocks(rest, blksize), threshold) else r
    ensures blksize <= |rest| && (n > 0 ==> blksize <= n * blksize)
    ensures Remaining(rest, 0, blksize, threshold) ==
            if n == 0 then Endless
            else if r >= threshold then
              Prefixed([r] + rest[..blksize], Remaining(rest, n * blksize, blksize, threshold))
            else if n >= 256 then Overflow
            else
              Prefixed([if n < 128 then n + 128 else n] + rest[..Min(n * blksize, |rest|)],
                       Remaining(rest, n * blksize, blksize, threshold))
  {
    hide LiteralCount, RepeatCount, Concat, Compressed, Blocks;
    var b := Blocks(rest, blksize);
    BlockIsThere(rest, blksize);
    BlocksStep(rest, blksize);
    FirstTakes(b, blksize, threshold, r, n);
    assert Tail(rest, 0) == rest;
    if n > 0 {
      LessTimes(1, n, blksize);
      BlocksPrefix(rest, blksize, n, n * blksize);
    }
  }

  lemma BlockIsThere(rest: Bytes, blksize: nat)
    requires blksize > 0 && RepeatCount(Blocks(rest, blksize), blksize) > 0
    ensures blksize <= |rest|
  {
    hide RunFrom;
    BlocksStep(rest, blksize);
  }

  function Tail(data: Bytes, index: nat): Bytes { data[Min(index, |data|)..] }

  lemma TailOfTail(data: Bytes, index: nat, size: nat)
    ensures Tail(Tail(data, index), size) == Tail(data, index + size)
  {
    if index + size < |data| {
      assert data[index..][size..] == data[index + size..];
    } else {
      assert Tail(data, index + size) == [];
    }
  }

  /** What the data from `index` on is compressed to. */
  ghost function Remaining(data: Bytes, index: nat, blksize: nat, threshold: nat): Compression
    requires blksize > 0
  {
    Compressed(Blocks(Tail(data, index), blksize), blksize, threshold)
  }

  /** Ends with the bytes or the error, or finds that a turn of the loop would change nothing. */
  method RleCompress(data: Bytes, blksize: nat, threshold: nat) returns (result: Compression)
    requires blksize > 0
    ensures result == Compressed(Blocks(data, blksize), blksize, threshold)
  {
    hide Blocks, Concat, RepeatCount, LiteralCount, Compressed;
    ghost var target := Compressed(Blocks(data, blksize), blksize, threshold);
    var compressed: Bytes, index := [], 0;
    PrefixedNothing(target);
    assert Tail(data, 0) == data;
    while index < |data|
      invariant target == Prefixed(compressed, Remaining(data, index, blksize, threshold))
      decreases |data| - index
    {
      var rest := data[index..];
      var r := GetRepeatCount(rest, blksize);
      if r == 0 {
        break;
      }
      BlockIsThere(rest, blksize);
      var n, control, size := r, r, blksize;
      if r < threshold {
        n := GetNonrepeatCount(rest, blksize, threshold);
        CompressedStep(rest, blksize, threshold, r, n);
        if n == 0 {
          return Endless;
        }
        if n >= 256 {
          return Overflow;
        }
        control, size := if n < 128 then n + 128 else n, Min(n * blksize, |rest|);
      } else {
        CompressedStep(rest, blksize, threshold, r, n);
      }
      TailOfTail(data, index, 0);
      TailOfTail(data, index, n * blksize);
      PrefixedTwice(compressed, [control] + rest[..size], Remaining(data, index + n * blksize, blksize, threshold));
      compressed, index := compressed + ([control] + rest[..size]), index + n * blksize;
    }
    NothingRemains(data, index, blksize, threshold);
    assert compressed + [] == compressed;
    return Done(compressed);
  }

  lemma PrefixedNothing(c: Compression)
    ensures Prefixed([], c) == c
  {
    assert c.Done? ==> [] + c.bytes == c.bytes;
  }

  lemma PrefixedTwice(a: Bytes, b: Bytes, c: Compression)
    ensures Prefixed(a, Prefixed(b, c)) == Prefixed(a + b, c)
  {
    assert c.Done? ==> a + (b + c.bytes) == a + b + c.bytes;
  }

  /** Where no whole block is left, nothing more is written. */
  lemma NothingRemains(data: Bytes, index: nat, blksize: nat, threshold: nat)
    requires blksize > 0
    requires index >= |data| || RepeatCount(Blocks(data[index..], blksize), blksize) == 0
    ensures Remaining(data, index, blksize, threshold) == Done([])
  {
    assert Tail(data, index) == if index < |data| then data[index..] else [];
  }
}
