/** Positional notation in an arbitrary base, most significant digit first.
  * Base 256 is Python's int.to_bytes / int.from_bytes with byteorder="big"
  * and base 32 is the Crockford alphabet. */
module Positional {

  function Pow(b: nat, k: nat): (r: nat)
    ensures b > 0 ==> r > 0
  {
    if k == 0 then 1 else b * Pow(b, k - 1)
  }

  ghost predicate IsDigits(ds: seq<int>, base: nat) {
    forall i :: 0 <= i < |ds| ==> 0 <= ds[i] < base
  }

  function Value(ds: seq<int>, base: nat): int {
    if ds == [] then 0 else Value(ds[..|ds| - 1], base) * base + ds[|ds| - 1]
  }

  function Digits(n: nat, base: nat, len: nat): (r: seq<int>)
    requires base > 0
    ensures |r| == len && IsDigits(r, base)
    decreases len, n
  {
    if len == 0 then [] else
      NatDivMod(n, base);
      var q: nat, d := n / base, n % base;
      Digits(q, base, len - 1) + [d]
  }

  lemma MulAssoc(a: int, b: int, c: int)
    ensures a * (b * c) == (a * b) * c
  {}

  lemma {:induction false} PowAdd(b: nat, j: nat, k: nat)
    ensures Pow(b, j + k) == Pow(b, j) * Pow(b, k)
  {
    if j > 0 {
      PowAdd(b, j - 1, k);
      MulAssoc(b, Pow(b, j - 1), Pow(b, k));
    }
  }

  lemma {:induction false} PowMul(b: nat, j: nat, k: nat)
    ensures Pow(b, j * k) == Pow(Pow(b, j), k)
  {
    if k > 0 {
      PowMul(b, j, k - 1);
      PowAdd(b, j, j * (k - 1));
      assert j + j * (k - 1) == j * k;
    }
  }

  lemma MulMono(a: int, b: int, c: nat)
    requires a <= b
    ensures a * c <= b * c
  {}

  lemma NatDivMod(n: nat, base: nat)
    requires base > 0
    ensures n / base >= 0 && 0 <= n % base < base && n == (n / base) * base + n % base
  {}

  lemma DivModUnique(q: int, base: nat, d: int)
    requires 0 <= d < base
    ensures (q * base + d) / base == q && (q * base + d) % base == d
  {
    var n := q * base + d;
    var p, r := n / base, n % base;
    assert n == p * base + r;
    if p > q {
      MulMono(q + 1, p, base);
    } else if p < q {
      MulMono(p + 1, q, base);
    }
  }

  lemma DigitBound(v: int, p: int, base: nat, d: int)
    requires 0 <= v < p && 0 <= d < base
    ensures 0 <= v * base + d < base * p
  {
    MulMono(0, v, base);
    MulMono(v + 1, p, base);
    assert (v + 1) * base == v * base + base;
  }

  lemma {:induction false} ValueBound(ds: seq<int>, base: nat)
    requires IsDigits(ds, base)
    ensures 0 <= Value(ds, base) < Pow(base, |ds|)
  {
    if ds != [] {
      var front := ds[..|ds| - 1];
      ValueBound(front, base);
      DigitBound(Value(front, base), Pow(base, |front|), base, ds[|ds| - 1]);
    }
  }

  lemma QuotientBound(q: int, d: int, base: nat, p: int, n: int)
    requires n == q * base + d && d >= 0 && n < base * p
    ensures q < p
  {
    if q >= p { MulMono(p, q, base); }
  }

  lemma ValueOfLast(front: seq<int>, d: int, base: nat)
    ensures Value(front + [d], base) == Value(front, base) * base + d
  {
    assert (front + [d])[..|front|] == front;
  }

  lemma {:induction false} ValueOfDigits(n: nat, base: nat, len: nat)
    requires base > 0 && n < Pow(base, len)
    ensures Value(Digits(n, base, len), base) == n
    decreases len
  {
    if len > 0 {
      NatDivMod(n, base);
      var q: nat, d := n / base, n % base;
      QuotientBound(q, d, base, Pow(base, len - 1), n);
      ValueOfDigits(q, base, len - 1);
      ValueOfLast(Digits(q, base, len - 1), d, base);
    }
  }

  lemma {:induction false} DigitsOfValue(ds: seq<int>, base: nat)
    requires IsDigits(ds, base) && base > 0
    ensures Value(ds, base) >= 0
    ensures Digits(Value(ds, base), base, |ds|) == ds
  {
    ValueBound(ds, base);
    if ds != [] {
      var front, last := ds[..|ds| - 1], ds[|ds| - 1];
      ValueBound(front, base);
      DigitsOfValue(front, base);
      DivModUnique(Value(front, base), base, last);
      assert ds == front + [last];
    }
  }

  /** The shift-and-mask reading of one digit: n // base^k % base. */
  lemma {:induction false} DigitAt(n: nat, base: nat, len: nat, i: nat)
    requires base > 0 && i < len
    ensures Digits(n, base, len)[i] == n / Pow(base, len - 1 - i) % base
    decreases len
  {
    NatDivMod(n, base);
    if i < len - 1 {
      var q: nat := n / base;
      DigitAt(q, base, len - 1, i);
      DivDiv(n, base, Pow(base, len - 2 - i));
      assert Digits(n, base, len)[i] == Digits(q, base, len - 1)[i];
    }
  }

  lemma DivDiv(n: nat, a: nat, b: nat)
    requires a > 0 && b > 0
    ensures a * b > 0 && n / a / b == n / (a * b)
  {
    NatDivMod(n, a);
    var m: nat, s := n / a, n % a;
    NatDivMod(m, b);
    var q, r := m / b, m % b;
    MulMono(r + 1, b, a);
    MulMono(0, r, a);
    assert n == q * (a * b) + (r * a + s) by {
      calc { n; m * a + s; (q * b + r) * a + s; q * b * a + r * a + s; }
      assert q * b * a == q * (a * b);
    }
    DivModUnique(q, a * b, r * a + s);
  }

  lemma Distribute(v: int, p: int, w: int, base: int)
    ensures (v * p + w) * base == v * (base * p) + w * base
  {}

  lemma {:induction false} ValueOfSplit(a: seq<int>, b: seq<int>, base: nat)
    ensures Value(a + b, base) == Value(a, base) * Pow(base, |b|) + Value(b, base)
  {
    if b == [] {
      assert a + b == a;
    } else {
      var front, last := b[..|b| - 1], b[|b| - 1];
      ValueOfSplit(a, front, base);
      assert (a + b)[..|a + b| - 1] == a + front;
      var v, p, w := Value(a, base), Pow(base, |front|), Value(front, base);
      Distribute(v, p, w, base);
      assert Pow(base, |b|) == base * p;
    }
  }

  /** Changing one digit moves the value by the digit difference times the
    * weight of its place. */
  lemma ValueOfUpdate(ds: seq<int>, base: nat, i: nat, x: int)
    requires i < |ds|
    ensures Value(ds[i := x], base) == Value(ds, base) + (x - ds[i]) * Pow(base, |ds| - 1 - i)
  {
    var a, b := ds[..i], ds[i + 1..];
    assert ds == (a + [ds[i]]) + b;
    assert ds[i := x] == (a + [x]) + b;
    ValueOfSplit(a + [ds[i]], b, base);
    ValueOfSplit(a + [x], b, base);
    assert (a + [ds[i]])[..|a|] == a && (a + [x])[..|a|] == a;
    var w := Pow(base, |b|);
    assert (Value(a, base) * base + x) * w - (Value(a, base) * base + ds[i]) * w == (x - ds[i]) * w;
  }
}
