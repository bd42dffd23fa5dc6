// Octets, fixed-width integers and packed structures: the vocabulary of `struct.pack`,
// `int.to_bytes` and `bytearray` that every encoder in this project is written in.
module Bytes {

  type byte = x: int | 0 <= x < 256

  type Octets = seq<byte>

  /** 256 to the power `width`: the first integer that does not fit `width` octets. */
  function Pow256(width: nat): (r: nat)
    ensures r >= 1
  {
    if width == 0 then 1 else 256 * Pow256(width - 1)
  }

  /** Little-endian encoding, least significant octet first. */
  function LittleEndian(n: nat, width: nat): (s: Octets)
    requires n < Pow256(width)
    ensures |s| == width
  {
    if width == 0 then [] else [n % 256] + LittleEndian(n / 256, width - 1)
  }

  function FromLittleEndian(s: Octets): (n: nat)
    ensures n < Pow256(|s|)
  {
    if s == [] then 0 else s[0] + 256 * FromLittleEndian(s[1..])
  }

  lemma {:induction false} LittleEndianRoundTrip(n: nat, width: nat)
    requires n < Pow256(width)
    ensures FromLittleEndian(LittleEndian(n, width)) == n
  {
    if width > 0 {
      LittleEndianRoundTrip(n / 256, width - 1);
      assert LittleEndian(n, width)[1..] == LittleEndian(n / 256, width - 1);
    }
  }

  lemma LowOctet(low: byte, rest: nat)
    ensures (low + 256 * rest) % 256 == low && (low + 256 * rest) / 256 == rest
  {
  }

  lemma {:induction false} FromLittleEndianRoundTrip(s: Octets)
    ensures LittleEndian(FromLittleEndian(s), |s|) == s
  {
    if s != [] {
      var rest := FromLittleEndian(s[1..]);
      FromLittleEndianRoundTrip(s[1..]);
      LowOctet(s[0], rest);
      assert FromLittleEndian(s) % 256 == s[0] && FromLittleEndian(s) / 256 == rest;
      assert s == [s[0]] + s[1..];
    }
  }

  /** Big-endian encoding, most significant octet first (`int.to_bytes(width, "big")`). */
  function BigEndian(n: nat, width: nat): (s: Octets)
    requires n < Pow256(width)
    ensures |s| == width
  {
    if width == 0 then [] else BigEndian(n / 256, width - 1) + [n % 256]
  }

  function FromBigEndian(s: Octets): (n: nat)
    ensures n < Pow256(|s|)
  {
    if s == [] then 0 else 256 * FromBigEndian(s[..|s| - 1]) + s[|s| - 1]
  }

  lemma {:induction false} BigEndianRoundTrip(n: nat, width: nat)
    requires n < Pow256(width)
    ensures FromBigEndian(BigEndian(n, width)) == n
  {
    if width > 0 {
      BigEndianRoundTrip(n / 256, width - 1);
      assert BigEndian(n, width)[..width - 1] == BigEndian(n / 256, width - 1);
    }
  }

  lemma {:induction false} BigEndianInjective(m: nat, n: nat, width: nat)
    requires m < Pow256(width) && n < Pow256(width)
    requires BigEndian(m, width) == BigEndian(n, width)
    ensures m == n
  {
    if width > 0 {
      var a, b := BigEndian(m, width), BigEndian(n, width);
      assert a[..width - 1] == BigEndian(m / 256, width - 1);
      assert b[..width - 1] == BigEndian(n / 256, width - 1);
      assert a[width - 1] == m % 256 && b[width - 1] == n % 256;
      BigEndianInjective(m / 256, n / 256, width - 1);
    }
  }

  lemma Pow256Values()
    ensures Pow256(1) == 0x100
    ensures Pow256(2) == 0x1_0000
    ensures Pow256(4) == 0x1_0000_0000
    ensures Pow256(8) == 0x1_0000_0000_0000_0000
  {
    assert Pow256(0) == 1;
    assert Pow256(1) == 256 * Pow256(0);
    assert Pow256(2) == 256 * Pow256(1);
    assert Pow256(3) == 256 * Pow256(2);
    assert Pow256(4) == 256 * Pow256(3);
    assert Pow256(5) == 256 * Pow256(4);
    assert Pow256(6) == 256 * Pow256(5);
    assert Pow256(7) == 256 * Pow256(6);
    assert Pow256(8) == 256 * Pow256(7);
  }

  lemma ConcatAssociative<T>(a: seq<T>, b: seq<T>, c: seq<T>)
    ensures (a + b) + c == a + (b + c)
  {
  }

  lemma SplitConcat<T>(a: seq<T>, b: seq<T>)
    ensures (a + b)[..|a|] == a && (a + b)[|a|..] == b
  {
  }

  function Zeros(n: nat): (s: Octets)
    ensures |s| == n
    ensures forall i :: 0 <= i < n ==> s[i] == 0
  {
    seq(n, _ => 0)
  }

  // ---- struct.pack / struct.unpack ---------------------------------------------------------

  /** One field width per value, in octets: "<HQI" is `[2, 8, 4]`. */
  type Format = seq<nat>

  /** The condition under which `struct.pack` raises no `struct.error`. */
  predicate Packable(format: Format, values: seq<int>)
  {
    && |format| == |values|
    && forall i :: 0 <= i < |format| ==> 0 <= values[i] < Pow256(format[i])
  }

  function FormatSize(format: Format): nat
  {
    if format == [] then 0 else format[0] + FormatSize(format[1..])
  }

  function Pack(format: Format, values: seq<int>): (s: Octets)
    requires Packable(format, values)
    ensures |s| == FormatSize(format)
  {
    if format == [] then [] else LittleEndian(values[0], format[0]) + Pack(format[1..], values[1..])
  }

  function Unpack(format: Format, s: Octets): (values: seq<int>)
    requires FormatSize(format) <= |s|
    ensures |values| == |format|
    ensures forall i :: 0 <= i < |values| ==> 0 <= values[i] < Pow256(format[i])
  {
    if format == [] then []
    else [FromLittleEndian(s[..format[0]])] + Unpack(format[1..], s[format[0]..])
  }

  /** Unpacking reads back exactly what was packed, whatever follows it. */
  lemma {:induction false} UnpackPack(format: Format, values: seq<int>, rest: Octets)
    requires Packable(format, values)
    ensures Unpack(format, Pack(format, values) + rest) == values
  {
    hide LittleEndian, FromLittleEndian, Pow256;
    if format == [] {
      assert values == [];
    } else {
      var head, others := LittleEndian(values[0], format[0]), Pack(format[1..], values[1..]);
      ConcatAssociative(head, others, rest);
      SplitConcat(head, others + rest);
      LittleEndianRoundTrip(values[0], format[0]);
      UnpackPack(format[1..], values[1..], rest);
      assert values == [values[0]] + values[1..];
    }
  }
}
