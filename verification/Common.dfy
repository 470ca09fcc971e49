/** What every module shares: bytes, big-endian fields, optional values and the first index of an element. */
module Common {
  type byte = b: int | 0 <= b < 256

  type Bytes = seq<byte>

  datatype Option<+T> = None | Some(value: T)

  datatype Result<+T, +E> = Ok(value: T) | Err(error: E)

  /** `int.from_bytes(two bytes, "big")`. */
  function FromBe16(hi: byte, lo: byte): (n: nat)
    ensures n < 0x1_0000
  {
    256 * hi + lo
  }

  /** `struct.pack(">H", n)`. */
  function ToBe16(n: nat): (s: Bytes)
    requires n < 0x1_0000
    ensures |s| == 2 && FromBe16(s[0], s[1]) == n
  {
    [n / 256, n % 256]
  }

  function Max(a: int, b: int): int { if a < b then b else a }

  function Min(a: int, b: int): int { if a < b then a else b }

  /** The concatenation of the parts, in order. */
  function Concat<T>(parts: seq<seq<T>>): seq<T> {
    if |parts| == 0 then [] else parts[0] + Concat(parts[1..])
  }

  lemma ConcatAppend<T>(a: seq<seq<T>>, b: seq<seq<T>>)
    ensures Concat(a + b) == Concat(a) + Concat(b)
  {
    if |a| == 0 {
      assert a + b == b;
    } else {
      assert (a + b)[1..] == a[1..] + b;
    }
  }

  lemma ConcatSnoc<T>(a: seq<seq<T>>, x: seq<T>)
    ensures Concat(a + [x]) == Concat(a) + x
  {
    ConcatAppend(a, [x]);
    assert Concat([x]) == x + Concat([]);
  }

  lemma {:induction false} LessTimes(a: nat, b: nat, k: nat)
    requires a <= b
    ensures a * k <= b * k && (a < b ==> a * k + k <= b * k)
    decreases b - a
  {
    if a >= b {
    } else {
      LessTimes(a, b - 1, k);
      assert b * k == (b - 1) * k + k;
    }
  }

  /** What is in two places is there twice. */
  lemma TwiceIn<T>(s: seq<T>, i: nat, j: nat)
    requires i < j < |s| && s[i] == s[j]
    ensures multiset(s)[s[j]] >= 2
  {
    assert s == s[..j] + [s[j]] + s[j + 1..];
    assert s[j] == s[..j][i];
    assert s[j] in s[..j];
  }
}
