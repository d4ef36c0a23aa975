/** Byte strings and fixed-width big-endian integers (Python's struct ">I",
  * ">Q" and int.to_bytes). */
module Bytes {
  import opened Positional

  type Byte = b: int | 0 <= b < 256
  type Bytes = seq<Byte>

  function FromBytes(b: Bytes): (n: nat)
    ensures n < Pow(256, |b|)
  {
    ValueBound(b, 256);
    Value(b, 256)
  }

  function ToBytes(n: nat, len: nat): (b: Bytes)
    requires n < Pow(256, len)
    ensures |b| == len && FromBytes(b) == n
  {
    ValueOfDigits(n, 256, len);
    Digits(n, 256, len)
  }

  lemma ToFromBytes(b: Bytes)
    ensures ToBytes(FromBytes(b), |b|) == b
  {
    DigitsOfValue(b, 256);
  }

  lemma FromBytesInjective(a: Bytes, b: Bytes)
    requires |a| == |b| && FromBytes(a) == FromBytes(b)
    ensures a == b
  {
    ToFromBytes(a);
    ToFromBytes(b);
  }

  /** A Python bytes literal written as text. */
  function Ascii(s: string): (b: Bytes)
    requires forall i :: 0 <= i < |s| ==> s[i] as int < 128
    ensures |b| == |s|
  {
    seq(|s|, i requires 0 <= i < |s| => s[i] as int)
  }
}
