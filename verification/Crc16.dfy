/**
 * `binascii.crc_hqx` from 0: the CRC with the polynomial 0x1021, as the shift register that takes the message bit by
 * bit, most significant bit first. A register is sixteen bits, the highest first.
 */
module Crc16 {
  import opened Common

  type Bits = seq<bool>

  type Register = r: Bits | |r| == 16 witness Zeros(16)

  function Zeros(n: nat): (z: Bits)
    ensures |z| == n
  {
    seq(n, _ => false)
  }

  function Pow2(n: nat): nat { if n == 0 then 1 else 2 * Pow2(n - 1) }

  function ToBits(v: nat, n: nat): (r: Bits)
    ensures |r| == n
  {
    if n == 0 then [] else ToBits(v / 2, n - 1) + [v % 2 == 1]
  }

  function FromBits(r: Bits): (v: nat)
    ensures v < Pow2(|r|)
    decreases |r|
  {
    if |r| == 0 then 0 else 2 * FromBits(r[..|r| - 1]) + (if r[|r| - 1] then 1 else 0)
  }

  lemma {:induction false} BitsRoundTrip(r: Bits)
    ensures ToBits(FromBits(r), |r|) == r
    decreases |r|
  {
    if r == [] {
    } else {
      BitsRoundTrip(r[..|r| - 1]);
      assert r == r[..|r| - 1] + [r[|r| - 1]];
    }
  }

  /** The register shifted by one bit; where the bit that leaves differs from the message bit, 0x1021 is fed back. */
  function Shift(r: Register, bit: bool): Register {
    var shifted := r[1..] + [false];
    if r[0] == bit then shifted else shifted[3 := !shifted[3]][10 := !shifted[10]][15 := true]
  }

  function ShiftAll(r: Register, bits: Bits): Register
    decreases |bits|
  {
    if bits == [] then r else Shift(ShiftAll(r, bits[..|bits| - 1]), bits[|bits| - 1])
  }

  function Message(data: Bytes): Bits
    decreases |data|
  {
    if |data| == 0 then [] else Message(data[..|data| - 1]) + ToBits(data[|data| - 1], 8)
  }

  function Checksum(data: Bytes): Register { ShiftAll(Zeros(16), Message(data)) }

  /** `struct.pack(">H", crc)`. */
  function Packed(r: Register): (s: Bytes)
    ensures |s| == 2
  {
    assert Pow2(8) == 256;
    [FromBits(r[..8]), FromBits(r[8..])]
  }

  lemma {:induction false} ShiftAppend(r: Register, a: Bits, b: Bits)
    ensures ShiftAll(r, a + b) == ShiftAll(ShiftAll(r, a), b)
    decreases |b|
  {
    if b == [] {
      assert a + b == a;
    } else {
      assert (a + b)[..|a + b| - 1] == a + b[..|b| - 1];
      ShiftAppend(r, a, b[..|b| - 1]);
    }
  }

  /** A register that takes its own bits, the highest first, is never fed back: it only shifts. */
  lemma {:induction false} OwnBits(r: Register, k: nat)
    requires k <= 16
    ensures ShiftAll(r, r[..k]) == r[k..] + Zeros(k)
  {
    if k > 0 {
      OwnBits(r, k - 1);
      assert r[..k][..k - 1] == r[..k - 1];
      var before := r[k - 1..] + Zeros(k - 1);
      assert before[0] == r[k - 1];
      assert before[1..] + [false] == r[k..] + Zeros(k);
    } else {
      assert r[..0] == [];
      assert r[0..] + Zeros(0) == r;
    }
  }

  /** The residue: whatever the register starts with, a packet and then its checksum, high byte first, checks to 0. */
  lemma ResidueFrom(start: Register, packet: Bytes)
    ensures var r := ShiftAll(start, Message(packet));
            ShiftAll(start, Message(packet + Packed(r))) == Zeros(16)
  {
    var r := ShiftAll(start, Message(packet));
    MessageOfPacked(packet, r);
    ShiftAppend(start, Message(packet), r);
    OwnBits(r, 16);
    assert r[..16] == r && r[16..] + Zeros(16) == Zeros(16);
  }

  lemma Residue(packet: Bytes)
    ensures Checksum(packet + Packed(Checksum(packet))) == Zeros(16)
  {
    ResidueFrom(Zeros(16), packet);
  }

  lemma MessageOfPacked(packet: Bytes, r: Register)
    ensures Message(packet + Packed(r)) == Message(packet) + r
  {
    hide Message, ToBits, FromBits;
    MessageOfTwo(packet, Packed(r));
    BitsRoundTrip(r[..8]);
    BitsRoundTrip(r[8..]);
    assert r == r[..8] + r[8..];
  }

  lemma MessageOfTwo(packet: Bytes, tail: Bytes)
    requires |tail| == 2
    ensures Message(packet + tail) == Message(packet) + (ToBits(tail[0], 8) + ToBits(tail[1], 8))
  {
    hide ToBits;
    var whole := packet + tail;
    assert whole[..|whole| - 1] == packet + [tail[0]];
    assert (packet + [tail[0]])[..|packet|] == packet;
  }

  // The checksum is the remainder of a division of polynomials over the field of two elements.

  /** The generator x^16 + x^12 + x^5 + 1, from the coefficient of the highest power down. */
  function Generator(): (g: Bits)
    ensures |g| == 17
    ensures forall k :: 0 <= k < 17 ==> g[k] == (16 - k in {16, 12, 5, 0})
  {
    seq(17, k => 16 - k in {16, 12, 5, 0})
  }

  function Plus(a: Bits, b: Bits): (sum: Bits)
    requires |a| == |b|
    ensures |sum| == |a|
  {
    seq(|a|, i requires 0 <= i < |a| => a[i] != b[i])
  }

  /** The product of a polynomial and the generator, by the coefficients from the highest on. */
  function Multiple(q: Bits): (product: Bits)
    ensures |product| == |q| + 16
    decreases |q|
  {
    if |q| == 0 then Zeros(16)
    else
      var n := |q| - 1;
      Plus(Multiple(q[..n]) + [false], Term(n, q[n]))
  }

  /** The generator or nothing, behind `n` zeros. */
  function Term(n: nat, bit: bool): (term: Bits)
    ensures |term| == n + 17
  {
    Zeros(n) + if bit then Generator() else Zeros(17)
  }

  /** The message times x^16 plus `r` is a multiple of the generator, so `r` is what the division leaves. */
  ghost predicate IsRemainder(message: Bits, r: Register) {
    exists q: Bits :: |q| == |message| && Multiple(q) == message + r
  }

  /** What is fed back is the generator below its highest power. */
  lemma ShiftAt(r: Register, bit: bool, k: nat)
    requires k < 16
    ensures Shift(r, bit)[k] == ((k < 15 && r[k + 1]) != (r[0] != bit && Generator()[k + 1]))
  {
  }

  lemma MultipleAt(q: Bits, bit: bool, i: nat)
    requires i < |q| + 17
    ensures Multiple(q + [bit])[i] ==
            ((i < |q| + 16 && Multiple(q)[i]) != (i >= |q| && bit && Generator()[i - |q|]))
  {
    hide Multiple, Generator;
    MultipleNext(q, bit);
  }

  lemma MultipleNext(q: Bits, bit: bool)
    ensures Multiple(q + [bit]) == Plus(Multiple(q) + [false], Term(|q|, bit))
  {
    hide Term, Plus, Zeros;
    var next := q + [bit];
    assert next[..|q|] == q && next[|q|] == bit && |next| == |q| + 1;
    MultipleUnfolds(next);
  }

  lemma MultipleUnfolds(q: Bits)
    requires |q| > 0
    ensures var n := |q| - 1; Multiple(q) == Plus(Multiple(q[..n]) + [false], Term(n, q[n]))
  {
    hide Term, Plus, Zeros;
  }

  /** One step of the long division. */
  lemma DividedOne(message: Bits, q: Bits, r: Register, bit: bool)
    requires |q| == |message| && Multiple(q) == message + r
    ensures Multiple(q + [r[0] != bit]) == message + [bit] + Shift(r, bit)
  {
    hide Multiple, Shift;
    var n := |q|;
    var product := Multiple(q + [r[0] != bit]);
    var expected := message + [bit] + Shift(r, bit);
    forall i | 0 <= i < n + 17 ensures product[i] == expected[i] {
      MultipleAt(q, r[0] != bit, i);
      if i > n {
        ShiftAt(r, bit, i - n - 1);
      }
    }
  }

  lemma {:induction false} ShiftingDivides(message: Bits)
    ensures IsRemainder(message, ShiftAll(Zeros(16), message))
    decreases |message|
  {
    hide Multiple, Shift;
    if |message| == 0 {
      MultipleOfNone();
      assert message + Zeros(16) == Zeros(16);
    } else {
      var n := |message| - 1;
      ShiftingDivides(message[..n]);
      var r := ShiftAll(Zeros(16), message[..n]);
      var q: Bits :| |q| == n && Multiple(q) == message[..n] + r;
      DividedOne(message[..n], q, r, message[n]);
      assert message == message[..n] + [message[n]];
    }
  }

  lemma MultipleOfNone()
    ensures Multiple([]) == Zeros(16)
  {
  }

  lemma {:induction false} QuotientIsUnique(p: Bits, q: Bits)
    requires |p| == |q| && Multiple(p)[..|p|] == Multiple(q)[..|q|]
    ensures p == q
    decreases |p|
  {
    hide Multiple;
    if |p| == 0 {
    } else {
      var n := |p| - 1;
      assert p == p[..n] + [p[n]] && q == q[..n] + [q[n]];
      forall i | 0 <= i < |p| ensures Multiple(p)[i] == Multiple(q)[i] {
        assert Multiple(p)[..|p|][i] == Multiple(q)[..|q|][i];
      }
      forall i | 0 <= i < n ensures Multiple(p[..n])[i] == Multiple(q[..n])[i] {
        MultipleAt(p[..n], p[n], i);
        MultipleAt(q[..n], q[n], i);
      }
      assert Multiple(p[..n])[..n] == Multiple(q[..n])[..n];
      QuotientIsUnique(p[..n], q[..n]);
      MultipleAt(p[..n], p[n], n);
      MultipleAt(q[..n], q[n], n);
    }
  }

  /** The checksum is the one remainder of the message's division by the generator. */
  lemma ChecksumIsRemainder(data: Bytes, r: Register)
    ensures IsRemainder(Message(data), r) <==> r == Checksum(data)
  {
    ShiftingDivides(Message(data));
    if IsRemainder(Message(data), r) {
      var m := Message(data);
      var p: Bits :| |p| == |m| && Multiple(p) == m + r;
      var q: Bits :| |q| == |m| && Multiple(q) == m + Checksum(data);
      assert (m + r)[..|m|] == m == (m + Checksum(data))[..|m|];
      QuotientIsUnique(p, q);
      assert (m + r)[|m|..] == r && (m + Checksum(data))[|m|..] == Checksum(data);
    }
  }

  // Nothing but the checksum checks.

  /** At most sixteen bits bring a register to zero only if they are its own highest and the others are zeros. */
  lemma {:induction false} OnlyOwnBits(r: Register, bits: Bits)
    requires |bits| <= 16 && ShiftAll(r, bits) == Zeros(16)
    ensures r == bits + Zeros(16 - |bits|)
    decreases |bits|
  {
    if |bits| == 0 {
    } else {
      var first, rest := bits[0], bits[1..];
      assert bits == [first] + rest && [first][..0] == [];
      ShiftAppend(r, [first], rest);
      var next := Shift(r, first);
      OnlyOwnBits(next, rest);
      assert !next[15] && r[0] == first;
      forall i | 0 < i < 16 ensures r[i] == (bits + Zeros(16 - |bits|))[i] {
        assert r[i] == next[i - 1] == (rest + Zeros(16 - |rest|))[i - 1];
      }
    }
  }

  lemma {:induction false} NumberRoundTrip(v: nat, n: nat)
    requires v < Pow2(n)
    ensures FromBits(ToBits(v, n)) == v
    decreases n
  {
    if n == 0 {
    } else {
      NumberRoundTrip(v / 2, n - 1);
      assert ToBits(v, n)[..n - 1] == ToBits(v / 2, n - 1);
    }
  }

  lemma ByteRoundTrip(b: byte)
    ensures FromBits(ToBits(b, 8)) == b
  {
    assert Pow2(8) == 256;
    NumberRoundTrip(b, 8);
  }

  /** Two bytes behind a packet check if and only if they are its checksum. */
  lemma ChecksOnly(packet: Bytes, tail: Bytes)
    requires |tail| == 2
    ensures Checksum(packet + tail) == Zeros(16) <==> tail == Packed(Checksum(packet))
  {
    hide ShiftAll, Message, ToBits, FromBits;
    Residue(packet);
    if Checksum(packet + tail) == Zeros(16) {
      var high, low := ToBits(tail[0], 8), ToBits(tail[1], 8);
      MessageOfTwo(packet, tail);
      ShiftAppend(Zeros(16), Message(packet), high + low);
      var r := Checksum(packet);
      OnlyOwnBits(r, high + low);
      assert r[..8] == high && r[8..] == low;
      ByteRoundTrip(tail[0]);
      ByteRoundTrip(tail[1]);
    }
  }
}
