/** Base64, section 4 of RFC 4648: the encoding with padding, and the strict decoder. */
module Base64 {
  import opened Common

  type sextet = x: int | 0 <= x < 64

  const PAD: byte := 61 // '='

  function Symbol(x: sextet): byte {
    if x < 26 then 65 + x           // A-Z
    else if x < 52 then 97 + x - 26 // a-z
    else if x < 62 then 48 + x - 52 // 0-9
    else if x == 62 then 43         // '+'
    else 47                         // '/'
  }

  function Value(c: byte): Option<sextet> {
    if 65 <= c <= 90 then Some(c - 65)
    else if 97 <= c <= 122 then Some(c - 97 + 26)
    else if 48 <= c <= 57 then Some(c - 48 + 52)
    else if c == 43 then Some(62)
    else if c == 47 then Some(63)
    else None
  }

  lemma SymbolValue(x: sextet)
    ensures Value(Symbol(x)) == Some(x)
  {
  }

  predicate IsSymbol(c: byte) { c == PAD || Value(c).Some? }

  function Encode(s: Bytes): (e: Bytes)
    ensures |e| == (|s| + 2) / 3 * 4
  {
    if |s| == 0 then []
    else if |s| == 1 then [Symbol(s[0] / 4), Symbol(s[0] % 4 * 16), PAD, PAD]
    else if |s| == 2 then [Symbol(s[0] / 4), Symbol(s[0] % 4 * 16 + s[1] / 16), Symbol(s[1] % 16 * 4), PAD]
    else
      [Symbol(s[0] / 4), Symbol(s[0] % 4 * 16 + s[1] / 16), Symbol(s[1] % 16 * 4 + s[2] / 64), Symbol(s[2] % 64)]
      + Encode(s[3..])
  }

  lemma {:induction false} EncodeIsSymbols(s: Bytes, i: nat)
    requires i < |Encode(s)|
    ensures IsSymbol(Encode(s)[i])
  {
    if |s| <= 2 || i < 4 {
    } else {
      EncodeIsSymbols(s[3..], i - 4);
    }
  }

  /** A group of four symbols that is followed by others, or fills its three bytes. */
  function DecodeGroup(a: byte, b: byte, c: byte, d: byte): Option<Bytes> {
    var a, b, c, d := Value(a), Value(b), Value(c), Value(d);
    if a.None? || b.None? || c.None? || d.None? then None
    else Some([a.value * 4 + b.value / 16, b.value % 16 * 16 + c.value / 4, c.value % 4 * 64 + d.value])
  }

  /** The last group, which may be padded; the bits the padding leaves over are not looked at. */
  function DecodeLast(a: byte, b: byte, c: byte, d: byte): Option<Bytes> {
    if d != PAD then DecodeGroup(a, b, c, d)
    else
      var a, b := Value(a), Value(b);
      if a.None? || b.None? then None
      else if c == PAD then Some([a.value * 4 + b.value / 16])
      else if Value(c).None? then None
      else Some([a.value * 4 + b.value / 16, b.value % 16 * 16 + Value(c).value / 4])
  }

  function Decode(e: Bytes): Option<Bytes> {
    if |e| == 0 then Some([])
    else if |e| < 4 then None
    else if |e| == 4 then DecodeLast(e[0], e[1], e[2], e[3])
    else
      var group, rest := DecodeGroup(e[0], e[1], e[2], e[3]), Decode(e[4..]);
      if group.None? || rest.None? then None else Some(group.value + rest.value)
  }

  lemma GroupRoundTrip(a: byte, b: byte, c: byte)
    ensures DecodeGroup(Symbol(a / 4), Symbol(a % 4 * 16 + b / 16), Symbol(b % 16 * 4 + c / 64), Symbol(c % 64)) ==
            Some([a, b, c])
  {
    hide Symbol, Value;
    SymbolValue(a / 4);
    SymbolValue(a % 4 * 16 + b / 16);
    SymbolValue(b % 16 * 4 + c / 64);
    SymbolValue(c % 64);
  }

  lemma PaddedRoundTrip(a: byte, b: byte)
    ensures DecodeLast(Symbol(a / 4), Symbol(a % 4 * 16), PAD, PAD) == Some([a])
    ensures DecodeLast(Symbol(a / 4), Symbol(a % 4 * 16 + b / 16), Symbol(b % 16 * 4), PAD) == Some([a, b])
  {
    SymbolValue(a / 4);
    SymbolValue(a % 4 * 16);
    SymbolValue(a % 4 * 16 + b / 16);
    SymbolValue(b % 16 * 4);
    assert Symbol(b % 16 * 4) != PAD;
  }

  lemma {:induction false} DecodeEncode(s: Bytes)
    ensures Decode(Encode(s)) == Some(s)
  {
    hide Symbol, Value, DecodeGroup, DecodeLast;
    var e := Encode(s);
    if |s| == 1 {
      PaddedRoundTrip(s[0], 0);
      assert s == [s[0]];
    } else if |s| == 2 {
      PaddedRoundTrip(s[0], s[1]);
      assert s == [s[0], s[1]];
    } else if |s| > 2 {
      GroupRoundTrip(s[0], s[1], s[2]);
      SymbolIsNotPad(s[2] % 64);
      DecodeEncode(s[3..]);
      assert e[4..] == Encode(s[3..]);
      assert s == [s[0], s[1], s[2]] + s[3..];
      if |s| == 3 {
        LastGroup(e[0], e[1], e[2], e[3]);
        assert s == [s[0], s[1], s[2]];
      }
    }
  }

  lemma SymbolIsNotPad(x: sextet)
    ensures Symbol(x) != PAD
  {
  }

  lemma LastGroup(a: byte, b: byte, c: byte, d: byte)
    requires d != PAD
    ensures DecodeLast(a, b, c, d) == DecodeGroup(a, b, c, d)
  {
  }

  // What the symbols stand for.

  /** The number that four symbols are the digits of, in base 64. */
  function Digits(a: byte, b: byte, c: byte, d: byte): Option<nat> {
    var a, b, c, d := Value(a), Value(b), Value(c), Value(d);
    if a.None? || b.None? || c.None? || d.None? then None
    else Some(((a.value * 64 + b.value) * 64 + c.value) * 64 + d.value)
  }

  function Big(a: byte, b: byte, c: byte): nat { (a as int * 256 + b) * 256 + c }

  lemma GroupIsNumber(a: byte, b: byte, c: byte)
    ensures Digits(Symbol(a / 4), Symbol(a % 4 * 16 + b / 16), Symbol(b % 16 * 4 + c / 64), Symbol(c % 64)) ==
            Some(Big(a, b, c))
  {
    hide Symbol, Value;
    SymbolValue(a / 4);
    SymbolValue(a % 4 * 16 + b / 16);
    SymbolValue(b % 16 * 4 + c / 64);
    SymbolValue(c % 64);
  }

  /** Each three bytes and their four symbols are the digits of one number, in base 256 and in base 64. */
  lemma {:induction false} GroupsAreNumbers(s: Bytes, k: nat)
    requires 3 * k + 2 < |s|
    ensures var e := Encode(s);
            Digits(e[4 * k], e[4 * k + 1], e[4 * k + 2], e[4 * k + 3]) ==
            Some(Big(s[3 * k], s[3 * k + 1], s[3 * k + 2]))
    decreases k
  {
    hide Digits, Symbol, Big;
    if k == 0 {
      GroupIsNumber(s[0], s[1], s[2]);
    } else {
      GroupsAreNumbers(s[3..], k - 1);
    }
  }
}
