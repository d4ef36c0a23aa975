/** What the mod-37 check symbol of core/vault/recovery_code.py detects. */
module RecoveryErrors {
  import opened Wrappers
  import opened Positional
  import opened Bytes
  import opened RecoveryCode

  // ---- Arithmetic modulo 37 -------------------------------------------------

  lemma ModMul(a: int, b: int)
    ensures (a * b) % 37 == (a % 37 * b) % 37
  {
    var q, r := a / 37, a % 37;
    assert a * b == 37 * (q * b) + r * b by {
      assert (37 * q + r) * b == 37 * q * b + r * b;
      assert 37 * q * b == 37 * (q * b);
    }
    ModShift(q * b, r * b);
  }

  lemma ModShift(k: int, m: int)
    ensures (37 * k + m) % 37 == m % 37
  {}

  /** Inverses modulo 37, by residue. */
  const Inverses := [0, 1, 19, 25, 28, 15, 31, 16, 14, 33, 26, 27, 34, 20, 8, 5, 7, 24, 35,
                     2, 13, 30, 32, 29, 17, 3, 10, 11, 4, 23, 21, 6, 22, 9, 12, 18, 36]

  lemma InversesInvert()
    ensures |Inverses| == 37
    ensures forall a :: 1 <= a < 37 ==> (a * Inverses[a]) % 37 == 1
  {}

  lemma InverseOf(r: nat) returns (inv: int)
    requires 1 <= r < 37
    ensures (r * inv) % 37 == 1
  {
    InversesInvert();
    inv := Inverses[r];
  }

  lemma MultipleOf37(x: int, y: int)
    requires y % 37 == 0
    ensures (x * y) % 37 == 0
  {
    ModMul(y, x);
  }

  lemma Exchange(a: int, b: int, c: int)
    ensures c * (a * b) == (a * c) * b
  {}

  /** 37 is prime. */
  lemma NoZeroDivisors(a: int, b: int)
    requires (a * b) % 37 == 0
    ensures a % 37 == 0 || b % 37 == 0
  {
    var r := a % 37;
    if r != 0 {
      var inv := InverseOf(r);
      ModMul(a, b);
      MultipleOf37(inv, r * b);
      Exchange(r, b, inv);
      ModMul(r * inv, b);
    }
  }

  /** 32 has order 36 modulo 37; its first 33 powers, listed. */
  const Powers := [1, 32, 25, 23, 33, 20, 11, 19, 16, 31, 30, 35, 10, 24, 28, 8, 34, 15, 36,
                   5, 12, 14, 4, 17, 26, 18, 21, 6, 7, 2, 27, 13, 9]

  lemma PowersTable()
    ensures |Powers| == 33 && Powers[0] == 1
    ensures forall k :: 1 <= k <= 32 ==> Powers[k] == (Powers[k - 1] * 32) % 37
  {
    assert forall k :: 1 <= k <= 16 ==> Powers[k] == (Powers[k - 1] * 32) % 37;
    assert forall k :: 17 <= k <= 32 ==> Powers[k] == (Powers[k - 1] * 32) % 37;
  }

  lemma PowersDistinguished(k: nat)
    requires k <= 32
    ensures |Powers| == 33 && Powers[k] != 0
    ensures Powers[k] == 1 <==> k == 0
    ensures Powers[k] == 36 <==> k == 18
  {}

  lemma {:induction false} PowersOf32(k: nat)
    requires k <= 32
    ensures |Powers| == 33 && Pow(32, k) % 37 == Powers[k]
  {
    PowersTable();
    if k > 0 {
      PowersOf32(k - 1);
      var p := Pow(32, k - 1);
      ModMul(p, 32);
      assert Pow(32, k) == p * 32;
    }
  }

  lemma Weights(k: nat)
    requires k <= 32
    ensures Pow(32, k) % 37 != 0
    ensures Pow(32, k) % 37 == 1 <==> k == 0
    ensures Pow(32, k) % 37 == 36 <==> k == 18
  {
    PowersOf32(k);
    PowersDistinguished(k);
  }

  /** A digit off by d at weight 32^k changes the residue. */
  lemma DigitChangesResidue(v: int, d: int, k: nat)
    requires -32 < d < 32 && d != 0 && k <= 32
    ensures (v + d * Pow(32, k)) % 37 != v % 37
  {
    var w := Pow(32, k);
    Weights(k);
    if (v + d * w) % 37 == v % 37 {
      SameResidue(v, d * w);
      NoZeroDivisors(d, w);
    }
  }

  lemma SameResidue(v: int, t: int)
    requires (v + t) % 37 == v % 37
    ensures t % 37 == 0
  {}

  lemma MulSub(x: int, y: int, z: int)
    ensures x * (y - z) == x * y - x * z
  {}

  lemma SwapFactors(v: int, d: int, p: int, w: int)
    requires d % 37 != 0 && p % 37 != 1 && w % 37 != 0
    ensures (v + d * (p * w) + (0 - d) * w) % 37 != v % 37
  {
    var t := (p - 1) * w;
    MulSub(w, p, 1);
    MulSub(d, p * w, w);
    assert d * (p * w) + (0 - d) * w == d * t;
    if (v + d * t) % 37 == v % 37 {
      SameResidue(v, d * t);
      NoZeroDivisors(d, t);
      NoZeroDivisors(p - 1, w);
    }
  }

  /** Exchanging digits that differ by d, m places apart, changes the residue. */
  lemma SwapChangesResidue(v: int, d: int, m: nat, k: nat)
    requires -32 < d < 32 && d != 0 && 1 <= m && m + k <= 32
    ensures (v + d * Pow(32, m + k) + (0 - d) * Pow(32, k)) % 37 != v % 37
  {
    var p, w := Pow(32, m), Pow(32, k);
    Weights(m);
    Weights(k);
    SmallNonzero(d);
    SwapFactors(v, d, p, w);
    PowAdd(32, m, k);
    assert d * Pow(32, m + k) == d * (p * w);
  }

  lemma SmallNonzero(d: int)
    requires -32 < d < 32 && d != 0
    ensures d % 37 != 0
  {}

  // ---- Substitution -----------------------------------------------------------

  function Data(y: string): seq<int>
    requires |y| > 0 && IsData(y[..|y| - 1])
  {
    Indices(y[..|y| - 1])
  }

  lemma CheckSymbolUnique(a: nat, b: nat)
    requires a < 37 && b < 37 && CheckAlphabet[a] == CheckAlphabet[b]
    ensures a == b
  {
    AlphabetDistinct();
  }

  lemma DataOfUpdate(y: string, i: nat, x: char)
    requires i < |y| - 1 && IsData(y[..|y| - 1]) && DataIndex(x).Some?
    ensures IsData(y[i := x][..|y| - 1])
    ensures Data(y[i := x]) == Data(y)[i := DataIndex(x).value]
  {}

  /** Two accepted strings with the same check symbol agree modulo 37. */
  lemma SameCheckSameResidue(y: string, z: string)
    requires Sound(y) && Sound(z) && y[|y| - 1] == z[|z| - 1]
    ensures Value(Data(y), 32) % 37 == Value(Data(z), 32) % 37
  {
    CheckSymbolUnique(Value(Data(y), 32) % 37, Value(Data(z), 32) % 37);
  }

  /** Every single wrong symbol, in the data or in the check position and
    * whatever character replaces it, is rejected. */
  lemma SubstitutionRejected(y: string, i: nat, x: char)
    requires Parsed(y).Ok? && i < |y| && x != y[i]
    ensures Parsed(y[i := x]).Err?
  {
    ParsedIsSound(y);
    ParsedIsSound(y[i := x]);
    SubstitutionUnsound(y, i, x);
  }

  lemma SubstituteDigit(ds: seq<int>, i: nat, x: Symbol)
    requires IsDigits(ds, 32) && |ds| <= 33 && i < |ds| && ds[i] != x
    ensures Value(ds[i := x], 32) % 37 != Value(ds, 32) % 37
  {
    ValueOfUpdate(ds, 32, i, x);
    DigitChangesResidue(Value(ds, 32), x - ds[i], |ds| - 1 - i);
  }

  lemma SubstitutionUnsound(y: string, i: nat, x: char)
    requires Sound(y) && i < |y| && x != y[i]
    ensures !Sound(y[i := x])
  {
    var z, n := y[i := x], |y| - 1;
    if i == n {
      assert z[..n] == y[..n];
    } else if DataIndex(x).None? {
      assert z[..n][i] == x;
    } else {
      assert y[..n][i] == y[i];
      DataOfUpdate(y, i, x);
      SubstituteDigit(Data(y), i, DataIndex(x).value);
      if Sound(z) { SameCheckSameResidue(y, z); }
    }
  }

  // ---- Transposition ----------------------------------------------------------

  function Swapped(y: string, i: nat, j: nat): string
    requires i < |y| && j < |y|
  {
    y[i := y[j]][j := y[i]]
  }

  lemma DataOfSwap(y: string, i: nat, j: nat)
    requires |y| > 0 && IsData(y[..|y| - 1]) && i < j < |y| - 1
    ensures IsData(Swapped(y, i, j)[..|y| - 1])
    ensures Data(Swapped(y, i, j)) == Data(y)[i := Data(y)[j]][j := Data(y)[i]]
  {}

  lemma ValueOfSwap(ds: seq<int>, base: nat, i: nat, j: nat, d: int)
    requires i < j < |ds| && d == ds[j] - ds[i]
    ensures Value(ds[i := ds[j]][j := ds[i]], base)
         == Value(ds, base) + d * Pow(base, |ds| - 1 - i) + (0 - d) * Pow(base, |ds| - 1 - j)
  {
    ValueOfUpdate(ds, base, i, ds[j]);
    var es := ds[i := ds[j]];
    ValueOfUpdate(es, base, j, ds[i]);
    assert ds[i] - es[j] == 0 - d;
  }

  lemma SwapDigitsResidue(ds: seq<int>, i: nat, j: nat)
    requires IsDigits(ds, 32) && |ds| <= 33 && i < j < |ds| && ds[i] != ds[j]
    ensures Value(ds[i := ds[j]][j := ds[i]], 32) % 37 != Value(ds, 32) % 37
  {
    var d := ds[j] - ds[i];
    ValueOfSwap(ds, 32, i, j, d);
    SwapChangesResidue(Value(ds, 32), d, j - i, |ds| - 1 - j);
  }

  lemma DataSwapUnsound(y: string, i: nat, j: nat)
    requires Sound(y) && i < j < |y| - 1 && y[i] != y[j]
    ensures !Sound(Swapped(y, i, j))
  {
    var n := |y| - 1;
    assert y[..n][i] == y[i] && y[..n][j] == y[j];
    DataOfSwap(y, i, j);
    SwapDigitsResidue(Data(y), i, j);
    if Sound(Swapped(y, i, j)) { SameCheckSameResidue(y, Swapped(y, i, j)); }
  }

  lemma DataOfCheckSwap(y: string, i: nat)
    requires Sound(y) && i < |y| - 1 && DataIndex(y[|y| - 1]).Some?
    ensures var z := Swapped(y, i, |y| - 1); var c := DataIndex(y[|y| - 1]).value;
            && IsData(z[..|z| - 1]) && Data(z) == Data(y)[i := c]
            && c == Value(Data(y), 32) % 37
            && z[|z| - 1] == CheckAlphabet[Data(y)[i]]
  {
    var n := |y| - 1;
    var z, c := Swapped(y, i, n), DataIndex(y[n]).value;
    assert y[..n][i] == y[i];
    assert forall k :: 0 <= k < 32 ==> CheckAlphabet[k] == DataAlphabet[k];
    CheckSymbolUnique(c, Value(Data(y), 32) % 37);
    DataOfUpdate(y, i, y[n]);
    assert z[..n] == y[i := y[n]][..n];
  }

  /** Exchanging a digit of weight 32^k with the residue c of the whole gives
    * a value whose residue is that digit only when 32^k is -1 modulo 37. */
  lemma CheckSwapDigits(ds: seq<int>, i: nat, c: Symbol)
    requires IsDigits(ds, 32) && |ds| <= 33 && i < |ds| && ds[i] != c && Value(ds, 32) % 37 == c
    ensures Value(ds[i := c], 32) % 37 == ds[i] <==> |ds| - 1 - i == 18
  {
    ValueOfUpdate(ds, 32, i, c);
    Weights(|ds| - 1 - i);
    CheckSwapResidue(Value(ds, 32), c, ds[i], Pow(32, |ds| - 1 - i));
  }

  lemma CheckSwap(y: string, i: nat)
    requires Sound(y) && i < |y| - 1 && y[i] != y[|y| - 1] && DataIndex(y[|y| - 1]).Some?
    ensures Sound(Swapped(y, i, |y| - 1)) <==> i + 20 == |y|
  {
    var n := |y| - 1;
    var ds, c := Data(y), DataIndex(y[n]).value;
    assert y[..n][i] == y[i];
    DataOfCheckSwap(y, i);
    CheckSwapDigits(ds, i, c);
    if n - 1 - i == 18 {
      SymbolsForBytes(n);
      UpdateFits(ds, n * 5 / 8, i, c);
    } else {
      CheckSwapMismatch(Swapped(y, i, n), ds[i]);
    }
  }

  lemma CheckSwapMismatch(z: string, a: nat)
    requires |z| > 0 && IsData(z[..|z| - 1]) && a < 37
    requires z[|z| - 1] == CheckAlphabet[a] && Value(Data(z), 32) % 37 != a
    ensures !Sound(z)
  {
    if Sound(z) { CheckSymbolUnique(a, Value(Data(z), 32) % 37); }
  }

  lemma MulSucc(x: int, w: int)
    ensures x * (w + 1) == x * w + x
  {}

  lemma ResidueIs(v: int, t: int, a: int)
    requires 0 <= a < 37
    ensures (v + t) % 37 == a <==> (v % 37 + t - a) % 37 == 0
  {}

  lemma CheckSwapResidue(v: int, c: int, a: int, w: int)
    requires 0 <= c < 32 && 0 <= a < 32 && a != c && v % 37 == c
    ensures (v + (c - a) * w) % 37 == a <==> w % 37 == 36
  {
    var x := c - a;
    var t := x * w;
    ResidueIs(v, t, a);
    MulSucc(x, w);
    assert c + t - a == x * (w + 1);
    ZeroProduct(x, w + 1);
    SuccResidue(w);
  }

  lemma ZeroProduct(x: int, z: int)
    requires -37 < x < 37 && x != 0
    ensures (x * z) % 37 == 0 <==> z % 37 == 0
  {
    if (x * z) % 37 == 0 { NoZeroDivisors(x, z); }
    if z % 37 == 0 { MultipleOf37(x, z); }
  }

  lemma SuccResidue(w: int)
    ensures (w + 1) % 37 == 0 <==> w % 37 == 36
  {}

  /** 32 symbols hold 20 bytes exactly, 33 hold them with one to spare. */
  lemma SymbolsForBytes(n: nat)
    requires n in {32, 33}
    ensures 5 * n == 8 * (n * 5 / 8) || 5 * (n - 1) == 8 * (n * 5 / 8)
  {}

  /** Changing any digit but a spare leading one keeps the value in range. */
  lemma UpdateFits(ds: seq<int>, m: nat, i: nat, c: Symbol)
    requires IsDigits(ds, 32) && i < |ds|
    requires 5 * |ds| == 8 * m || (5 * (|ds| - 1) == 8 * m && i > 0)
    requires Value(ds, 32) < Pow(256, m)
    ensures 0 <= Value(ds[i := c], 32) < Pow(256, m)
  {
    var es := ds[i := c];
    ValueBound(es, 32);
    if 5 * |ds| == 8 * m {
      SameRange(|es|, m);
    } else {
      LeadingZero(ds, m);
      assert es == [0] + es[1..];
      PrependZero(es[1..]);
      ValueBound(es[1..], 32);
      SameRange(|es[1..]|, m);
    }
  }

  /** Exactly which swaps of two symbols survive: equal symbols, and the check
    * symbol with the data symbol nineteen places before it. */
  lemma TranspositionExactly(y: string, i: nat, j: nat)
    requires Parsed(y).Ok? && i < j < |y|
    ensures Parsed(Swapped(y, i, j)).Ok?
       <==> y[i] == y[j] || (j == |y| - 1 && j - i == 19 && DataIndex(y[j]).Some?)
  {
    ParsedIsSound(y);
    ParsedIsSound(Swapped(y, i, j));
    if y[i] == y[j] {
      assert Swapped(y, i, j) == y;
    } else if j < |y| - 1 {
      DataSwapUnsound(y, i, j);
    } else if DataIndex(y[j]).Some? {
      CheckSwap(y, i);
    } else {
      assert Swapped(y, i, j)[..j][i] == y[j];
    }
  }

  lemma OneFits(m: nat)
    requires m > 0
    ensures 1 < Pow(256, m)
  {
    MulMono(1, Pow(256, m - 1), 256);
  }

  lemma OneDigits(n: nat, i: nat)
    requires i < n - 1
    ensures Digits(1, 32, n)[i] == 0
  {
    DigitAt(1, 32, n, i);
    var w := Pow(32, n - 1 - i);
    MulMono(1, Pow(32, n - 2 - i), 32);
    assert 0 * w + 1 == 1 && w > 1;
    DivModUnique(0, w, 1);
  }

  lemma CodeOfOne(raw: Bytes)
    requires |raw| == RecoveryCodeBytes && FromBytes(raw) == 1
    ensures Code(raw)[13] == '0' && Code(raw)[32] == '1'
  {
    OneDigits((8 * |raw| + 4) / 5, 13);
    assert CheckAlphabet[1] == '1' && DataAlphabet[0] == '0';
  }

  lemma ChangedIsAnother(z: string, raw: Bytes, i: nat)
    requires |raw| == RecoveryCodeBytes && |z| == 33 && i < 33 && z[i] != Code(raw)[i]
    ensures Parsed(z) != Ok(raw)
  {
    AcceptedLanguage(z, raw);
  }

  lemma OneIsData()
    ensures DataIndex('1').Some?
  {
    assert DataAlphabet[1] == '1';
  }

  /** Such a swap: the code of the value one reads 0 in place 13 and has the
    * check symbol 1, and with the two exchanged it is accepted as another. */
  lemma SurvivingSwap() returns (raw: Bytes)
    ensures |raw| == RecoveryCodeBytes && FromBytes(raw) == 1
    ensures Code(raw)[13] == '0' && Code(raw)[32] == '1'
    ensures Parsed(Swapped(Code(raw), 13, 32)).Ok? && Parsed(Swapped(Code(raw), 13, 32)) != Ok(raw)
  {
    raw := OneBytes(RecoveryCodeBytes);
    var y := Code(raw);
    CodeOfOne(raw);
    AcceptedLanguage(y, raw);
    OneIsData();
    TranspositionExactly(y, 13, 32);
    ChangedIsAnother(Swapped(y, 13, 32), raw, 13);
  }

  lemma OneBytes(m: nat) returns (raw: Bytes)
    requires m > 0
    ensures |raw| == m && FromBytes(raw) == 1
  {
    OneFits(m);
    raw := ToBytes(1, m);
  }

  // ---- Insertion ------------------------------------------------------------------

  function Inserted<T>(y: seq<T>, i: nat, x: T): seq<T>
    requires i <= |y|
  {
    y[..i] + [x] + y[i..]
  }

  lemma InsertFactors(a: int, t: int, w: int, b: int)
    ensures (a + t) * w + b == (a * w + b) + t * w
  {}

  lemma ValueOfInserted(ds: seq<int>, i: nat, d: int, t: int, w: int)
    requires i <= |ds| && t == 31 * Value(ds[..i], 32) + d && w == Pow(32, |ds| - i)
    ensures Value(Inserted(ds, i, d), 32) == Value(ds, 32) + t * w
  {
    var a, b := ds[..i], ds[i..];
    assert a + b == ds;
    ValueOfSplit(a, b, 32);
    ValueOfLast(a, d, 32);
    ValueOfSplit(a + [d], b, 32);
    InsertFactors(Value(a, 32), t, w, Value(b, 32));
  }

  lemma SameAfter(v: int, t: int, w: int)
    requires w % 37 != 0
    ensures (v + t * w) % 37 == v % 37 <==> t % 37 == 0
  {
    var u := t * w;
    ResidueUnmoved(v, u);
    if u % 37 == 0 { NoZeroDivisors(t, w); }
    if t % 37 == 0 {
      ModMul(t, w);
      assert t % 37 * w == 0;
    }
  }

  lemma ResidueUnmoved(v: int, u: int)
    ensures (v + u) % 37 == v % 37 <==> u % 37 == 0
  {}

  /** -31 is 6 modulo 37. */
  lemma SixTimes(a: int, d: int)
    requires 0 <= d < 37
    ensures (31 * a + d) % 37 == 0 <==> d == (6 * a) % 37
  {}

  lemma ResidueKept(v: int, u: int, a: int, d: int, t: int, w: int)
    requires u == v + t * w && t == 31 * a + d && 0 <= d < 37 && w % 37 != 0
    ensures u % 37 == v % 37 <==> d == (6 * a) % 37
  {
    SameAfter(v, t, w);
    SixTimes(a, d);
  }

  lemma InsertedResidue(ds: seq<int>, i: nat, d: Symbol)
    requires i <= |ds| <= 32
    ensures Value(Inserted(ds, i, d), 32) % 37 == Value(ds, 32) % 37 <==> d == (6 * Value(ds[..i], 32)) % 37
  {
    var a, w := Value(ds[..i], 32), Pow(32, |ds| - i);
    var t := 31 * a + d;
    ValueOfInserted(ds, i, d, t, w);
    Weights(|ds| - i);
    ResidueKept(Value(ds, 32), Value(Inserted(ds, i, d), 32), a, d, t, w);
  }

  /** One symbol more than needed fits exactly when the first is zero. */
  lemma SpareFits(ds: seq<int>)
    requires IsDigits(ds, 32) && |ds| == 33
    ensures 0 <= Value(ds, 32) < Pow(256, |ds| * 5 / 8) <==> ds[0] == 0
  {
    SpareRange(ds, |ds| * 5 / 8);
  }

  lemma SpareRange(ds: seq<int>, m: nat)
    requires IsDigits(ds, 32) && |ds| > 0 && 5 * (|ds| - 1) == 8 * m
    ensures 0 <= Value(ds, 32) < Pow(256, m) <==> ds[0] == 0
  {
    ValueBound(ds, 32);
    if ds[0] == 0 {
      assert ds == [0] + ds[1..];
      PrependZero(ds[1..]);
      ValueBound(ds[1..], 32);
      SameRange(|ds[1..]|, m);
    } else if Value(ds, 32) < Pow(256, m) {
      LeadingZero(ds, m);
    }
  }

  lemma ZeroSymbol(c: char)
    requires DataIndex(c).Some?
    ensures DataIndex(c).value == 0 <==> c == '0'
  {
    assert DataAlphabet[0] == '0';
    IndexOfSymbol(0);
  }

  /** What makes 34 symbols acceptable, in terms of their digits. */
  lemma SoundWithSpare(z: string, ds: seq<int>)
    requires |z| == 34 && IsData(z[..33]) && ds == Indices(z[..33])
    ensures Sound(z) <==> z[0] == '0' && z[33] == CheckAlphabet[Value(ds, 32) % 37]
  {
    SpareFits(ds);
    assert z[..33][0] == z[0];
    ZeroSymbol(z[0]);
  }

  lemma IndexIs(x: char, v: nat)
    requires DataIndex(x).Some? && v < 37
    ensures DataIndex(x).value == v <==> x == CheckAlphabet[v]
  {
    assert forall k :: 0 <= k < 32 ==> CheckAlphabet[k] == DataAlphabet[k];
    if x == CheckAlphabet[v] { CheckSymbolUnique(DataIndex(x).value, v); }
  }

  lemma DataOfInserted(y: string, i: nat, x: char)
    requires |y| == 33 && IsData(y[..32]) && i <= 32
    ensures var z := Inserted(y, i, x);
            && (IsData(z[..33]) <==> DataIndex(x).Some?)
            && (DataIndex(x).Some? ==> Indices(z[..33]) == Inserted(Indices(y[..32]), i, DataIndex(x).value))
            && z[33] == y[32]
  {
    var z, p := Inserted(y, i, x), y[..32];
    assert z[..33] == Inserted(p, i, x);
    assert z[..33][i] == x;
    forall j | 0 <= j < 33 && j != i ensures z[..33][j] == p[if j < i then j else j - 1] {}
  }

  /** An inserted data symbol survives exactly if it is six times the number the
    * symbols before it spell, modulo 37. */
  lemma DataInsertion(y: string, i: nat, x: char)
    requires Sound(y) && |y| == 33 && i <= 32
    ensures Sound(Inserted(y, i, x))
       <==> Inserted(y, i, x)[0] == '0' && DataIndex(x).Some?
            && x == CheckAlphabet[(6 * Value(Indices(y[..32])[..i], 32)) % 37]
  {
    var z, ds := Inserted(y, i, x), Indices(y[..32]);
    DataOfInserted(y, i, x);
    if DataIndex(x).Some? {
      var d := DataIndex(x).value;
      SoundWithSpare(z, Inserted(ds, i, d));
      InsertedResidue(ds, i, d);
      IndexIs(x, (6 * Value(ds[..i], 32)) % 37);
      var v, v' := Value(ds, 32) % 37, Value(Inserted(ds, i, d), 32) % 37;
      if CheckAlphabet[v] == CheckAlphabet[v'] { CheckSymbolUnique(v, v'); }
    }
  }

  /** A symbol behind the check symbol turns that one into data. */
  lemma TrailingInsertion(y: string, x: char)
    requires Sound(y) && |y| == 33
    ensures Sound(Inserted(y, 33, x))
       <==> y[0] == '0' && DataIndex(y[32]).Some? && x == CheckAlphabet[(33 * Value(Indices(y[..32]), 32)) % 37]
  {
    var z, ds := Inserted(y, 33, x), Indices(y[..32]);
    assert z == y + [x] && z[..33] == y && y == y[..32] + [y[32]];
    if DataIndex(y[32]).Some? {
      var c := DataIndex(y[32]).value;
      assert Indices(y) == ds + [c];
      ValueOfLast(ds, c, 32);
      SoundWithSpare(z, ds + [c]);
      IndexIs(y[32], Value(ds, 32) % 37);
      TrailingResidue(Value(ds, 32), c);
    } else {
      assert z[..33][32] == y[32];
    }
  }

  lemma TrailingResidue(v: int, c: int)
    requires c == v % 37
    ensures (v * 32 + c) % 37 == (33 * v) % 37
  {
    var q := v / 37;
    assert v * 32 + c == 37 * (0 - q) + 33 * v;
    ModShift(0 - q, 33 * v);
  }

  /** Exactly which insertions of one symbol into a code survive. Into a code with
    * its extra leading zero, none does. */
  lemma InsertionExactly(y: string, i: nat, x: char)
    requires Parsed(y).Ok? && i <= |y|
    ensures IsData(y[..|y| - 1])
    ensures Parsed(Inserted(y, i, x)).Ok?
       <==> && |y| == 33 && Inserted(y, i, x)[0] == '0'
            && if i < 33 then DataIndex(x).Some? && x == CheckAlphabet[(6 * Value(Data(y)[..i], 32)) % 37]
               else DataIndex(y[32]).Some? && x == CheckAlphabet[(33 * Value(Data(y), 32)) % 37]
  {
    ParsedIsSound(y);
    ParsedIsSound(Inserted(y, i, x));
    if |y| == 33 {
      if i < 33 { DataInsertion(y, i, x); } else { TrailingInsertion(y, x); }
    }
  }

  lemma PlaceDigits(k: nat, n: nat)
    requires k + 2 == n
    ensures Digits(Pow(32, k), 32, n)[0] == 0 && Digits(Pow(32, k), 32, n)[1] == 1
  {
    var p := Pow(32, k);
    DigitAt(p, 32, n, 0);
    DigitAt(p, 32, n, 1);
    DivModUnique(1, p, 0);
    MulMono(1, p, 32);
    assert Pow(32, k + 1) == 32 * p > p;
    DivModUnique(0, 32 * p, p);
  }

  lemma PlaceBytes(k: nat, m: nat) returns (raw: Bytes)
    requires 5 * (k + 2) == 8 * m
    ensures |raw| == m && FromBytes(raw) == Pow(32, k)
  {
    SameRange(k + 2, m);
    var p := Pow(32, k);
    assert Pow(32, k + 1) == 32 * p && Pow(32, k + 2) == 32 * Pow(32, k + 1);
    raw := ToBytes(p, m);
  }

  /** Such an insertion: a 6 behind the 1 of the code of 32^k, with k = 30, is
    * accepted, and as another secret. */
  lemma SurvivingInsertion(k: nat) returns (raw: Bytes)
    requires k == 30
    ensures |raw| == RecoveryCodeBytes && FromBytes(raw) == Pow(32, k)
    ensures Code(raw)[0] == '0' && Code(raw)[1] == '1'
    ensures var z := Inserted(Code(raw), 2, '6'); Parsed(z).Ok? && Parsed(z) != Ok(raw)
  {
    raw := PlaceBytes(k, RecoveryCodeBytes);
    CodeOfPlace(raw, k);
    SixIsAccepted(raw);
  }

  lemma SixIsAccepted(raw: Bytes)
    requires |raw| == RecoveryCodeBytes && Code(raw)[0] == '0' && Code(raw)[1] == '1'
    ensures var z := Inserted(Code(raw), 2, '6'); Parsed(z).Ok? && Parsed(z) != Ok(raw)
  {
    var y := Code(raw);
    AcceptedLanguage(y, raw);
    InsertionExactly(y, 2, '6');
    SixBehindOne(y);
    AcceptedLanguage(Inserted(y, 2, '6'), raw);
    assert Inserted(y, 2, '6')[1] == '1' && ("0" + y)[1] == '0';
  }

  lemma CodeOfPlace(raw: Bytes, k: nat)
    requires |raw| == RecoveryCodeBytes && k == 30 && FromBytes(raw) == Pow(32, k)
    ensures Code(raw)[0] == '0' && Code(raw)[1] == '1'
  {
    PlaceDigits(k, (8 * |raw| + 4) / 5);
    assert DataAlphabet[0] == '0' && DataAlphabet[1] == '1';
  }

  lemma SixBehindOne(y: string)
    requires |y| == 33 && IsData(y[..32]) && y[0] == '0' && y[1] == '1'
    ensures DataIndex('6').Some? && '6' == CheckAlphabet[(6 * Value(Indices(y[..32])[..2], 32)) % 37]
  {
    var ds := Indices(y[..32]);
    assert y[..32][0] == '0' && y[..32][1] == '1' && DataAlphabet[0] == '0' && DataAlphabet[1] == '1';
    IndexOfSymbol(0);
    IndexOfSymbol(1);
    assert ds[..2] == [0] + [1];
    ValueOfLast([0], 1, 32);
    assert Value([0], 32) == 0 by { assert [0][..0] == []; }
    assert DataAlphabet[6] == '6' && CheckAlphabet[6] == '6';
    IndexOfSymbol(6);
  }

  // ---- Deletion and truncation --------------------------------------------------

  /** Losing any run of symbols of a printed code, one or more, in any place,
    * leaves the wrong number of bytes. */
  lemma DeletionRejected(raw: Bytes, i: nat, j: nat)
    requires |raw| == RecoveryCodeBytes && i < j <= 33
    ensures Parsed(Code(raw)[..i] + Code(raw)[j..]).Err?
  {}
}
