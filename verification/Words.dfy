/** Machine words, their wrap-around, and the little-endian layouts that both
    sides of the Host link and the packed firmware structures share. */
module Words {

  datatype Option<+T> = None | Some(value: T)

  const W16: int := 0x1_0000
  const W32: int := 0x1_0000_0000

  type byte = x: int | 0 <= x < 256
  type u16 = x: int | 0 <= x < 0x1_0000
  type u32 = x: int | 0 <= x < 0x1_0000_0000

  /** An unsigned 32-bit register after an increment: C's wrapping `+=`. */
  function Wrap32(n: int): u32 { n % W32 }

  lemma Wrap32Small(n: int)
    requires 0 <= n < W32
    ensures Wrap32(n) == n
  {
  }

  lemma Wrap32Add(n: int, m: int)
    ensures Wrap32(Wrap32(n) + m) == Wrap32(n + m)
  {
  }

  function Le16(n: u16): (s: seq<byte>)
    ensures |s| == 2
  {
    [n % 256, n / 256]
  }

  function Le32(n: u32): (s: seq<byte>)
    ensures |s| == 4
  {
    Le16(n % W16) + Le16(n / W16)
  }

  function Load16(s: seq<byte>, at: nat): u16
    requires at + 2 <= |s|
  {
    var low: int, high: int := s[at], s[at + 1];
    low + 256 * high
  }

  function Load32(s: seq<byte>, at: nat): u32
    requires at + 4 <= |s|
  {
    var low: int, high: int := Load16(s, at), Load16(s, at + 2);
    low + W16 * high
  }

  /** What one side packs at an offset, the other side loads from it. */
  lemma Load16OfLe16(s: seq<byte>, at: nat, n: u16)
    requires at + 2 <= |s| && s[at..at + 2] == Le16(n)
    ensures Load16(s, at) == n
  {
    assert s[at] == s[at..at + 2][0] && s[at + 1] == s[at..at + 2][1];
  }

  lemma Load32OfLe32(s: seq<byte>, at: nat, n: u32)
    requires at + 4 <= |s| && s[at..at + 4] == Le32(n)
    ensures Load32(s, at) == n
  {
    assert s[at..at + 2] == s[at..at + 4][..2] == Le16(n % W16);
    assert s[at + 2..at + 4] == s[at..at + 4][2..] == Le16(n / W16);
    Load16OfLe16(s, at, n % W16);
    Load16OfLe16(s, at + 2, n / W16);
  }

  function Repeat(value: byte, n: nat): (s: seq<byte>)
    ensures |s| == n
  {
    seq(n, _ => value)
  }

  /** At most `limit` bytes from an offset on: how every transfer is cut. */
  function ChunkFrom(data: seq<byte>, offset: nat, limit: nat): (c: seq<byte>)
    requires offset <= |data|
    ensures |c| <= limit && offset + |c| <= |data| && (offset < |data| && limit != 0 ==> c != [])
  {
    data[offset..if offset + limit < |data| then offset + limit else |data|]
  }

  /** The bytes of `s` with `patch` copied over them from offset `at`. */
  function Overlay(s: seq<byte>, at: nat, patch: seq<byte>): (r: seq<byte>)
    requires at + |patch| <= |s|
    ensures |r| == |s|
    ensures forall i :: 0 <= i < |s| ==>
              r[i] == if at <= i < at + |patch| then patch[i - at] else s[i]
  {
    s[..at] + patch + s[at + |patch|..]
  }

  /** Two adjacent copies are one copy of the concatenation. */
  lemma OverlayTwice(s: seq<byte>, at: nat, first: seq<byte>, second: seq<byte>)
    requires at + |first| + |second| <= |s|
    ensures Overlay(Overlay(s, at, first), at + |first|, second) == Overlay(s, at, first + second)
  {
  }

  // ---- bits ------------------------------------------------------------------

  function Pow2(n: nat): (p: nat)
    ensures p > 0
  {
    if n == 0 then 1 else 2 * Pow2(n - 1)
  }

  function Bit(n: nat, i: nat): bool
    decreases i
  {
    if i == 0 then n % 2 == 1 else Bit(n / 2, i - 1)
  }

  /** A string of bits, least significant first, as a number. */
  function Value(bits: seq<bool>): nat {
    if bits == [] then 0 else (if bits[0] then 1 else 0) + 2 * Value(bits[1..])
  }

  lemma {:induction false} ValueBound(bits: seq<bool>)
    ensures Value(bits) < Pow2(|bits|)
  {
    if bits != [] { ValueBound(bits[1..]); }
  }

  lemma Pow2Of32()
    ensures Pow2(8) == 256 && Pow2(32) == W32
  {
    assert Pow2(4) == 16;
    assert Pow2(8) == 256;
    assert Pow2(12) == 0x1000;
    assert Pow2(16) == 0x1_0000;
    assert Pow2(20) == 0x10_0000;
    assert Pow2(24) == 0x100_0000;
    assert Pow2(28) == 0x1000_0000;
  }

  lemma DoubleProduct(a: nat, b: nat)
    ensures 2 * (a * b) == (2 * a) * b
  {
  }

  lemma {:induction false} ValueSplit(bits: seq<bool>, k: nat)
    requires k <= |bits|
    ensures Value(bits) == Value(bits[..k]) + Pow2(k) * Value(bits[k..])
    decreases k
  {
    if k != 0 {
      ValueSplit(bits[1..], k - 1);
      assert bits[..k][1..] == bits[1..][..k - 1] && bits[k..] == bits[1..][k - 1..];
      DoubleProduct(Pow2(k - 1), Value(bits[k..]));
    }
  }

  /** The bits of a number below 2^|bits| are worth that number. */
  lemma {:induction false} ValueOfBits(n: nat, bits: seq<bool>)
    requires n < Pow2(|bits|)
    requires forall i :: 0 <= i < |bits| ==> bits[i] == Bit(n, i)
    ensures Value(bits) == n
    decreases bits
  {
    if bits != [] {
      forall i | 0 <= i < |bits| - 1
        ensures bits[1..][i] == Bit(n / 2, i)
      {
        assert bits[i + 1] == Bit(n, i + 1);
      }
      ValueOfBits(n / 2, bits[1..]);
    }
  }

  /** And the number has those bits. */
  lemma {:induction false} BitOfValue(bits: seq<bool>, i: nat)
    requires i < |bits|
    ensures Bit(Value(bits), i) == bits[i]
    decreases i
  {
    if i != 0 {
      assert Value(bits) / 2 == Value(bits[1..]);
      BitOfValue(bits[1..], i - 1);
    }
  }

  /** `memcpy` into a buffer. */
  method CopyInto(target: array<byte>, at: nat, source: seq<byte>)
    requires at + |source| <= target.Length
    modifies target
    ensures target[..] == Overlay(old(target[..]), at, source)
  {
    forall i | 0 <= i < |source| {
      target[at + i] := source[i];
    }
  }
}
