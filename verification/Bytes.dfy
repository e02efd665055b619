/**
 Bytes, pages and little-endian words, shared by the loader, the memory model,
 the signal frames and the boot archive.
 */
module Bytes {

  datatype Option<+T> = None | Some(value: T)

  type Byte = x: int | 0 <= x < 256

  const PAGE: nat := 4096

  type Page = p: seq<Byte> | |p| == PAGE witness seq(PAGE, _ => 0)

  /** What `zero_page` leaves behind. */
  function ZeroPage(): (p: Page) {
    seq(PAGE, _ => 0)
  }

  function Zeros(n: nat): (z: seq<Byte>)
    ensures |z| == n
  {
    seq(n, _ => 0)
  }

  /** `memory` with the bytes from `at` on overwritten by `data`. */
  function Patch(memory: seq<Byte>, at: nat, data: seq<Byte>): (r: seq<Byte>)
    requires at + |data| <= |memory|
    ensures |r| == |memory|
    ensures forall i :: 0 <= i < |r| ==> r[i] == if at <= i < at + |data| then data[i - at] else memory[i]
  {
    memory[..at] + data + memory[at + |data|..]
  }

  /** `n` bytes of a page. */
  function Part(p: Page, from: nat, n: nat): (r: seq<Byte>)
    requires from + n <= PAGE
    ensures |r| == n
  {
    p[from..from + n]
  }

  /** 256 to the power `width`: the number of values of a `width`-byte word. */
  function Modulus(width: nat): (m: nat)
    ensures m > 0
  {
    if width == 0 then 1 else 256 * Modulus(width - 1)
  }

  /** The little-endian encoding of `value`, truncated to `width` bytes. */
  function Encode(value: nat, width: nat): (e: seq<Byte>)
    ensures |e| == width
  {
    if width == 0 then [] else [value % 256] + Encode(value / 256, width - 1)
  }

  /** The number whose little-endian bytes are `bytes`. */
  function Decode(bytes: seq<Byte>): (value: nat) {
    if bytes == [] then 0 else bytes[0] + 256 * Decode(bytes[1..])
  }

  /** The byte at position `i` of a stored word counts 256 to the power `i`. */
  lemma {:induction false} EncodedByte(value: nat, width: nat, i: nat)
    requires i < width
    ensures Encode(value, width)[i] == value / Modulus(i) % 256
  {
    if i != 0 {
      EncodedByte(value / 256, width - 1, i - 1);
      DivideTwice(value, Modulus(i - 1));
    }
  }

  lemma DivideTwice(value: nat, m: nat)
    requires m > 0
    ensures value / 256 / m == value / (256 * m)
  {
    var q := value / 256 / m;
    var r := value / 256 % m;
    assert value == 256 * (m * q + r) + value % 256;
    assert value == (256 * m) * q + (256 * r + value % 256);
    assert 256 * r + value % 256 < 256 * m;
    Quotient(value, 256 * m, q, 256 * r + value % 256);
  }

  lemma Quotient(value: nat, m: nat, q: nat, rest: nat)
    requires value == m * q + rest && rest < m
    ensures value / m == q
  {
    OneQuotient(m, q, rest, value / m, value % m);
  }

  lemma OneQuotient(m: nat, q: int, rest: nat, d: int, left: nat)
    requires m * q + rest == m * d + left && rest < m && left < m
    ensures q == d
  {
    assert q > d ==> m * q >= m * (d + 1);
    assert q < d ==> m * d >= m * (q + 1);
  }

  lemma {:induction false} DecodeBounded(bytes: seq<Byte>)
    ensures Decode(bytes) < Modulus(|bytes|)
  {
    if bytes != [] {
      DecodeBounded(bytes[1..]);
    }
  }

  /** Reading back a stored word gives the value modulo the width of the word. */
  lemma {:induction false} DecodeEncode(value: nat, width: nat)
    requires value < Modulus(width)
    ensures Decode(Encode(value, width)) == value
  {
    if width != 0 {
      assert value / 256 < Modulus(width - 1);
      DecodeEncode(value / 256, width - 1);
      assert Encode(value, width)[1..] == Encode(value / 256, width - 1);
    }
  }

  /** Nearby bytes of one page. */
  lemma InSamePage(a: nat, i: nat)
    requires a % PAGE + i < PAGE
    ensures (a + i) / PAGE == a / PAGE && (a + i) % PAGE == a % PAGE + i
  {
  }
}
