/** CBOR as the configuration tools write it, and a decoder written from section 3 of RFC 8949 that reads it back. */
module Cbor {
  import opened Common

  type Bits32 = s: Bytes | |s| == 4 witness [0, 0, 0, 0]
  type Bits64 = s: Bytes | |s| == 8 witness [0, 0, 0, 0, 0, 0, 0, 0]

  /**
   * What is encoded. A text is its UTF-8 bytes and a float its IEEE 754 bits; a value that no single-precision float
   * can hold has none.
   */
  datatype Item =
    | Null
    | Bool(flag: bool)
    | Int(n: int)
    | Single(single: Option<Bits32>)
    | Double(double: Bits64)
    | Text(utf8: Bytes)
    | Blob(bytes: Bytes)
    | Array(items: seq<Item>)
    | Map(pairs: seq<Pair>)

  datatype Pair = Pair(key: Item, value: Item)

  datatype ConfigError = TooLarge(n: nat) | NoSingle

  /** 2 to the power of 8 * size, for the sizes a head can have. */
  function Limit(size: nat): (limit: nat)
    ensures limit > 0
  {
    if size == 0 then 1 else 256 * Limit(size - 1)
  }

  /** `value.to_bytes(size, "big")`. */
  function ToBe(n: nat, size: nat): (s: Bytes)
    requires n < Limit(size)
    ensures |s| == size && FromBe(s) == n
  {
    if size == 0 then []
    else
      var s := ToBe(n / 256, size - 1) + [n % 256];
      assert s[..size - 1] == ToBe(n / 256, size - 1);
      s
  }

  function FromBe(s: Bytes): (n: nat)
    ensures n < Limit(|s|)
  {
    if |s| == 0 then 0 else 256 * FromBe(s[..|s| - 1]) + s[|s| - 1]
  }

  /** The additional information for the first of 1, 2, 4 and 8 bytes that the value fits; 28 if it fits none. */
  function Additional(value: nat): (additional: nat)
    ensures 24 <= additional <= 28
    ensures additional < 28 ==> value < Limit(ArgumentSize(additional))
  {
    if value < Limit(1) then 24
    else if value < Limit(2) then 25
    else if value < Limit(4) then 26
    else if value < Limit(8) then 27
    else 28
  }

  /** How many bytes of argument follow an initial byte with this additional information. */
  function ArgumentSize(additional: nat): nat {
    if additional == 24 then 1
    else if additional == 25 then 2
    else if additional == 26 then 4
    else if additional == 27 then 8
    else 0
  }

  function EncodeHead(major: nat, value: nat): Result<Bytes, ConfigError>
    requires major < 8
  {
    if value < 24 then Ok([32 * major + value])
    else
      var additional := Additional(value);
      if additional == 28 then Err(TooLarge(value))
      else Ok([32 * major + additional] + ToBe(value, ArgumentSize(additional)))
  }

  function Join(a: Result<Bytes, ConfigError>, b: Result<Bytes, ConfigError>): Result<Bytes, ConfigError> {
    if a.Err? then a else if b.Err? then b else Ok(a.value + b.value)
  }

  function Encode(x: Item): Result<Bytes, ConfigError> {
    match x
    case Null => Ok([0xf6])
    case Bool(flag) => Ok([if flag then 0xf5 else 0xf4])
    case Int(n) => if n >= 0 then EncodeHead(0, n) else EncodeHead(1, -1 - n)
    case Single(bits) => if bits.Some? then Ok([0xfa] + bits.value) else Err(NoSingle)
    case Double(bits) => Ok([0xfb] + bits)
    case Text(utf8) => Join(EncodeHead(3, |utf8|), Ok(utf8))
    case Blob(bytes) => Join(EncodeHead(2, |bytes|), Ok(bytes))
    case Array(items) => Join(EncodeHead(4, |items|), EncodeAll(items))
    case Map(pairs) => Join(EncodeHead(5, |pairs|), EncodePairs(pairs))
  }

  function EncodeAll(items: seq<Item>): Result<Bytes, ConfigError> {
    if |items| == 0 then Ok([]) else Join(Encode(items[0]), EncodeAll(items[1..]))
  }

  function EncodePairs(pairs: seq<Pair>): Result<Bytes, ConfigError> {
    if |pairs| == 0 then Ok([])
    else Join(EncodePair(pairs[0]), EncodePairs(pairs[1..]))
  }

  function EncodePair(p: Pair): Result<Bytes, ConfigError> { Join(Encode(p.key), Encode(p.value)) }

  // The decoder.

  datatype Head = Head(major: nat, additional: nat, value: nat, rest: Bytes)

  /** The initial byte and the argument that follows it; None if it is cut short, reserved or of indefinite length. */
  function DecodeHead(s: Bytes): (head: Option<Head>)
    ensures head.Some? ==> head.value.major < 8 && |head.value.rest| < |s|
  {
    if |s| == 0 then None
    else
      var major, additional := s[0] / 32, s[0] % 32;
      if additional < 24 then Some(Head(major, additional, additional, s[1..]))
      else
        var size := ArgumentSize(additional);
        if size == 0 || |s| < 1 + size then None
        else Some(Head(major, additional, FromBe(s[1..1 + size]), s[1 + size..]))
  }

  datatype Decoded<+T> = Decoded(item: T, rest: Bytes)

  /** The item that the bytes begin with, and the bytes after it. */
  function Decode(s: Bytes): (d: Option<Decoded<Item>>)
    ensures d.Some? ==> |d.value.rest| < |s|
    decreases |s|, 1
  {
    var head := DecodeHead(s);
    if head.None? then None
    else
      var Head(major, additional, n, rest) := head.value;
      if major == 0 then Some(Decoded(Int(n), rest))
      else if major == 1 then Some(Decoded(Int(-1 - n), rest))
      else if major == 2 then if n <= |rest| then Some(Decoded(Blob(rest[..n]), rest[n..])) else None
      else if major == 3 then if n <= |rest| then Some(Decoded(Text(rest[..n]), rest[n..])) else None
      else if major == 4 then
        var items := DecodeAll(n, rest);
        if items.None? then None else Some(Decoded(Array(items.value.item), items.value.rest))
      else if major == 5 then
        var pairs := DecodePairs(n, rest);
        if pairs.None? then None else Some(Decoded(Map(pairs.value.item), pairs.value.rest))
      else if major == 7 then DecodeSimple(s, additional, rest)
      else None
  }

  /** Major type 7: the simple values that have an item here, and the two floats. */
  function DecodeSimple(s: Bytes, additional: nat, rest: Bytes): (d: Option<Decoded<Item>>)
    ensures d.Some? ==> d.value.rest == rest
  {
    if additional == 20 then Some(Decoded(Bool(false), rest))
    else if additional == 21 then Some(Decoded(Bool(true), rest))
    else if additional == 22 then Some(Decoded(Null, rest))
    else if additional == 26 && |s| >= 5 then Some(Decoded(Single(Some(s[1..5])), rest))
    else if additional == 27 && |s| >= 9 then Some(Decoded(Double(s[1..9]), rest))
    else None
  }

  function DecodeAll(n: nat, s: Bytes): (d: Option<Decoded<seq<Item>>>)
    ensures d.Some? ==> |d.value.rest| <= |s| && |d.value.item| == n
    decreases |s|, 2
  {
    if n == 0 then Some(Decoded([], s))
    else
      var first := Decode(s);
      if first.None? then None
      else
        var others := DecodeAll(n - 1, first.value.rest);
        if others.None? then None else Some(Decoded([first.value.item] + others.value.item, others.value.rest))
  }

  function DecodePairs(n: nat, s: Bytes): (d: Option<Decoded<seq<Pair>>>)
    ensures d.Some? ==> |d.value.rest| <= |s| && |d.value.item| == n
    decreases |s|, 2
  {
    if n == 0 then Some(Decoded([], s))
    else
      var key := Decode(s);
      if key.None? then None
      else
        var value := Decode(key.value.rest);
        if value.None? then None
        else
          var others := DecodePairs(n - 1, value.value.rest);
          if others.None? then None
          else Some(Decoded([Pair(key.value.item, value.value.item)] + others.value.item, others.value.rest))
  }

  // What can be encoded.

  predicate Fits(x: Item) {
    match x
    case Int(n) => -1 - n < Limit(8) && n < Limit(8)
    case Single(bits) => bits.Some?
    case Text(utf8) => |utf8| < Limit(8)
    case Blob(bytes) => |bytes| < Limit(8)
    case Array(items) => |items| < Limit(8) && forall i :: 0 <= i < |items| ==> Fits(items[i])
    case Map(pairs) =>
      && |pairs| < Limit(8)
      && forall i :: 0 <= i < |pairs| ==> Fits(pairs[i].key) && Fits(pairs[i].value)
    case _ => true
  }

  lemma HeadFits(major: nat, value: nat)
    requires major < 8
    ensures EncodeHead(major, value).Ok? <==> value < Limit(8)
  {
  }

  /** An item is encoded exactly when its numbers and lengths fit 64 bits and its singles exist. */
  lemma {:induction false} EncodeFits(x: Item)
    ensures Encode(x).Ok? <==> Fits(x)
  {
    hide EncodeHead, Limit;
    match x
    case Int(n) => HeadFits(if n >= 0 then 0 else 1, if n >= 0 then n else -1 - n);
    case Text(utf8) => HeadFits(3, |utf8|);
    case Blob(bytes) => HeadFits(2, |bytes|);
    case Array(items) =>
      HeadFits(4, |items|);
      EncodeAllFits(items);
    case Map(pairs) =>
      HeadFits(5, |pairs|);
      EncodePairsFits(pairs);
    case _ =>
  }

  lemma {:induction false} EncodeAllFits(items: seq<Item>)
    ensures EncodeAll(items).Ok? <==> forall i :: 0 <= i < |items| ==> Fits(items[i])
  {
    if |items| == 0 {
    } else {
      EncodeFits(items[0]);
      EncodeAllFits(items[1..]);
      assert forall i :: 1 <= i < |items| ==> items[i] == items[1..][i - 1];
    }
  }

  lemma {:induction false} EncodePairsFits(pairs: seq<Pair>)
    ensures EncodePairs(pairs).Ok? <==> forall i :: 0 <= i < |pairs| ==> Fits(pairs[i].key) && Fits(pairs[i].value)
  {
    if |pairs| == 0 {
    } else {
      EncodePairFits(pairs[0]);
      EncodePairsFits(pairs[1..]);
      assert forall i :: 1 <= i < |pairs| ==> pairs[i] == pairs[1..][i - 1];
    }
  }

  lemma {:induction false} EncodePairFits(p: Pair)
    ensures EncodePair(p).Ok? <==> Fits(p.key) && Fits(p.value)
  {
    EncodeFits(p.key);
    EncodeFits(p.value);
  }

  // The decoder gives back what was encoded.

  lemma DecodeEncodeHead(major: nat, value: nat, rest: Bytes)
    requires major < 8 && EncodeHead(major, value).Ok?
    ensures var head := DecodeHead(EncodeHead(major, value).value + rest);
            head.Some? && head.value.major == major && head.value.value == value && head.value.rest == rest
  {
    hide Additional, ArgumentSize, ToBe, FromBe;
    if value < 24 {
      var e := EncodeHead(major, value).value;
      assert (e + rest)[1..] == rest;
    } else {
      var additional := Additional(value);
      assert ArgumentSize(additional) > 0;
    }
  }

  lemma {:induction false} DecodeEncode(x: Item, rest: Bytes)
    requires Encode(x).Ok?
    ensures Decode(Encode(x).value + rest) == Some(Decoded(x, rest))
    decreases x, 0
  {
    hide EncodeHead, DecodeHead;
    match x
    case Int(n) => DecodeEncodeHead(if n >= 0 then 0 else 1, if n >= 0 then n else -1 - n, rest);
    case Text(utf8) => DecodeEncodeString(3, utf8, rest);
    case Blob(bytes) => DecodeEncodeString(2, bytes, rest);
    case Array(items) =>
      hide DecodeAll, EncodeAll;
      var head, body := EncodeHead(4, |items|).value, EncodeAll(items).value;
      assert head + body + rest == head + (body + rest);
      DecodeEncodeHead(4, |items|, body + rest);
      DecodeEncodeAll(items, rest);
    case Map(pairs) =>
      hide DecodePairs, EncodePairs;
      var head, body := EncodeHead(5, |pairs|).value, EncodePairs(pairs).value;
      assert head + body + rest == head + (body + rest);
      DecodeEncodeHead(5, |pairs|, body + rest);
      DecodeEncodePairs(pairs, rest);
    case _ => DecodeEncodeSimple(x, rest);
  }

  /** Major type 7. */
  lemma DecodeEncodeSimple(x: Item, rest: Bytes)
    requires x.Null? || x.Bool? || x.Single? || x.Double?
    requires Encode(x).Ok?
    ensures Decode(Encode(x).value + rest) == Some(Decoded(x, rest))
  {
    hide DecodeHead, FromBe;
    var s := Encode(x).value + rest;
    if x.Null? || x.Bool? {
      SimpleHead(s);
      assert s[1..] == rest;
    } else if x.Single? {
      FloatHead(s);
      assert s[1..5] == x.single.value && s[5..] == rest;
    } else {
      FloatHead(s);
      assert s[1..9] == x.double && s[9..] == rest;
    }
  }

  /** A string's head is followed by its bytes. */
  lemma DecodeEncodeString(major: nat, bytes: Bytes, rest: Bytes)
    requires major < 8 && EncodeHead(major, |bytes|).Ok?
    ensures var s := EncodeHead(major, |bytes|).value + bytes + rest;
            var head := DecodeHead(s);
            && head.Some? && head.value.major == major && head.value.value == |bytes| <= |head.value.rest|
            && head.value.rest[..|bytes|] == bytes && head.value.rest[|bytes|..] == rest
  {
    hide EncodeHead, DecodeHead;
    var head := EncodeHead(major, |bytes|).value;
    assert head + bytes + rest == head + (bytes + rest);
    DecodeEncodeHead(major, |bytes|, bytes + rest);
  }

  lemma SimpleHead(s: Bytes)
    requires |s| > 0 && 0xf4 <= s[0] <= 0xf6
    ensures DecodeHead(s) == Some(Head(7, s[0] - 0xe0, s[0] - 0xe0, s[1..]))
  {
  }

  lemma FloatHead(s: Bytes)
    requires |s| >= 5 && (s[0] == 0xfa || (s[0] == 0xfb && |s| >= 9))
    ensures DecodeHead(s).Some?
    ensures var head := DecodeHead(s).value;
            head.major == 7 && head.additional == s[0] - 0xe0 && head.rest == s[if s[0] == 0xfa then 5 else 9..]
  {
  }

  lemma {:induction false} DecodeEncodeAll(items: seq<Item>, rest: Bytes)
    requires EncodeAll(items).Ok?
    ensures DecodeAll(|items|, EncodeAll(items).value + rest) == Some(Decoded(items, rest))
    decreases items, 0
  {
    hide Encode, Decode;
    if |items| == 0 {
      assert [] + rest == rest;
    } else {
      var first, others := Encode(items[0]).value, EncodeAll(items[1..]).value;
      DecodeEncode(items[0], others + rest);
      DecodeEncodeAll(items[1..], rest);
      assert first + others + rest == first + (others + rest);
      assert [items[0]] + items[1..] == items;
    }
  }

  lemma {:induction false} DecodeEncodePairs(pairs: seq<Pair>, rest: Bytes)
    requires EncodePairs(pairs).Ok?
    ensures DecodePairs(|pairs|, EncodePairs(pairs).value + rest) == Some(Decoded(pairs, rest))
    decreases pairs, 0
  {
    hide Encode, Decode;
    if |pairs| == 0 {
      assert [] + rest == rest;
    } else {
      var pair, others := EncodePair(pairs[0]).value, EncodePairs(pairs[1..]).value;
      assert pair + others + rest == pair + (others + rest);
      DecodeEncodePair(pairs[0], others + rest);
      DecodeEncodePairs(pairs[1..], rest);
      assert [pairs[0]] + pairs[1..] == pairs;
    }
  }

  /** A key and then its value. */
  lemma {:induction false} DecodeEncodePair(p: Pair, rest: Bytes)
    requires EncodePair(p).Ok?
    ensures var key := Decode(EncodePair(p).value + rest);
            && key.Some? && key.value.item == p.key
            && Decode(key.value.rest) == Some(Decoded(p.value, rest))
    decreases p, 0
  {
    hide Encode, Decode;
    var key, value := Encode(p.key).value, Encode(p.value).value;
    assert key + value + rest == key + (value + rest);
    DecodeEncode(p.key, value + rest);
    DecodeEncode(p.value, rest);
  }

  /** No encoding begins another: where two items and what follows them read the same, they are the same. */
  lemma PrefixFree(x: Item, y: Item, r: Bytes, s: Bytes)
    requires Encode(x).Ok? && Encode(y).Ok?
    requires Encode(x).value + r == Encode(y).value + s
    ensures x == y && r == s
  {
    DecodeEncode(x, r);
    DecodeEncode(y, s);
  }

  // The encoding is the shortest that decodes to the item.

  /** Whichever head says a value, the encoder's is no longer. */
  lemma ShortestHead(s: Bytes)
    requires DecodeHead(s).Some?
    ensures var Head(major, _, value, rest) := DecodeHead(s).value;
            EncodeHead(major, value).Ok? && |EncodeHead(major, value).value| + |rest| <= |s|
  {
    var additional := s[0] % 32;
    var value := DecodeHead(s).value.value;
    hide Limit, ToBe, FromBe, Additional, ArgumentSize;
    var size := ArgumentSize(additional);
    assert DecodeHead(s).value.rest == if additional < 24 then s[1..] else s[1 + size..];
  }

  lemma ShortestHeadOfSeven(s: Bytes)
    requires DecodeHead(s).Some?
    ensures var Head(_, additional, _, rest) := DecodeHead(s).value;
            |rest| + (if additional == 26 then 5 else if additional == 27 then 9 else 1) <= |s|
  {
  }

  lemma {:induction false} ShortestEncoding(s: Bytes)
    requires Decode(s).Some?
    ensures var Decoded(x, rest) := Decode(s).value; Encode(x).Ok? && |Encode(x).value| + |rest| <= |s|
    decreases |s|, 1
  {
    hide EncodeHead, DecodeHead;
    ShortestHead(s);
    var Head(major, additional, n, rest) := DecodeHead(s).value;
    if major == 4 {
      ShortestAll(n, rest);
    } else if major == 5 {
      ShortestPairs(n, rest);
    } else if major == 7 {
      assert |rest| + (if additional == 26 then 5 else if additional == 27 then 9 else 1) <= |s| by {
        ShortestHeadOfSeven(s);
      }
    }
  }

  lemma {:induction false} ShortestAll(n: nat, s: Bytes)
    requires DecodeAll(n, s).Some?
    ensures var Decoded(items, rest) := DecodeAll(n, s).value;
            EncodeAll(items).Ok? && |EncodeAll(items).value| + |rest| <= |s|
    decreases |s|, 2
  {
    hide Encode, Decode;
    if n == 0 {
    } else {
      var first := Decode(s).value;
      ShortestEncoding(s);
      ShortestAll(n - 1, first.rest);
      var items := DecodeAll(n, s).value.item;
      assert items[1..] == DecodeAll(n - 1, first.rest).value.item;
    }
  }

  lemma {:induction false} ShortestPairs(n: nat, s: Bytes)
    requires DecodePairs(n, s).Some?
    ensures var Decoded(pairs, rest) := DecodePairs(n, s).value;
            EncodePairs(pairs).Ok? && |EncodePairs(pairs).value| + |rest| <= |s|
    decreases |s|, 2
  {
    hide Encode, Decode;
    if n == 0 {
    } else {
      var key := Decode(s).value;
      var value := Decode(key.rest).value;
      ShortestEncoding(s);
      ShortestEncoding(key.rest);
      ShortestPairs(n - 1, value.rest);
      var pairs := DecodePairs(n, s).value.item;
      assert pairs[1..] == DecodePairs(n - 1, value.rest).value.item;
    }
  }
}
