/** core/vault/recovery_code.py: a 160-bit secret printed in Crockford Base32
  * with a mod-37 check symbol, and the parser for what a person types back. */
module RecoveryCode {
  import opened Wrappers
  import opened Positional
  import opened Bytes
  import opened Strings

  const RecoveryCodeBytes := 20
  const GroupSize := 5
  const DataAlphabet := "0123456789ABCDEFGHJKMNPQRSTVWXYZ"
  const CheckAlphabet := DataAlphabet + "*~$=U"

  datatype Error = InvalidCharacter | Malformed | TooShort | WrongLength | ChecksumMismatch

  type Symbol = i: int | 0 <= i < 32

  // ---- Alphabet ----------------------------------------------------------

  /** The lookup table built from enumerate(_DATA_ALPHABET). */
  function DataIndex(ch: char): (r: Option<Symbol>)
    ensures r.Some? ==> DataAlphabet[r.value] == ch
    ensures r.None? ==> ch !in DataAlphabet
  {
    IndexFrom(ch, 0)
  }

  function IndexFrom(ch: char, k: nat): (r: Option<Symbol>)
    requires k <= 32
    ensures r.Some? ==> r.value >= k && DataAlphabet[r.value] == ch
    ensures r.None? ==> forall i :: k <= i < 32 ==> DataAlphabet[i] != ch
    decreases 32 - k
  {
    if k == 32 then None
    else if DataAlphabet[k] == ch then Some(k)
    else IndexFrom(ch, k + 1)
  }

  /** The place of a symbol in the check alphabet, by character ranges. */
  function Rank(c: char): int {
    var n := c as int;
    if '0' <= c <= '9' then n - 48
    else if 'A' <= c <= 'H' then n - 55
    else if c == 'J' || c == 'K' then n - 56
    else if c == 'M' || c == 'N' then n - 57
    else if 'P' <= c <= 'T' then n - 58
    else if 'V' <= c <= 'Z' then n - 59
    else if c == '*' then 32 else if c == '~' then 33 else if c == '$' then 34 else if c == '=' then 35
    else 36
  }

  lemma AlphabetRanked()
    ensures forall i :: 0 <= i < 37 ==> Rank(CheckAlphabet[i]) == i
  {}

  lemma AlphabetDistinct()
    ensures forall i, j :: 0 <= i < j < 37 ==> CheckAlphabet[i] != CheckAlphabet[j]
  {
    AlphabetRanked();
  }

  lemma IndexOfSymbol(i: Symbol)
    ensures DataIndex(DataAlphabet[i]) == Some(i)
  {
    AlphabetDistinct();
    assert forall k :: 0 <= k < 32 ==> CheckAlphabet[k] == DataAlphabet[k];
  }

  function Symbols(ds: seq<int>): (s: string)
    requires IsDigits(ds, 32)
    ensures |s| == |ds|
  {
    seq(|ds|, i requires 0 <= i < |ds| => DataAlphabet[ds[i]])
  }

  predicate IsData(s: string) {
    forall i :: 0 <= i < |s| ==> DataIndex(s[i]).Some?
  }

  function Indices(s: string): (ds: seq<int>)
    requires IsData(s)
    ensures |ds| == |s| && IsDigits(ds, 32)
  {
    seq(|s|, i requires 0 <= i < |s| => DataIndex(s[i]).value)
  }

  lemma SymbolsOfIndices(s: string)
    requires IsData(s)
    ensures Symbols(Indices(s)) == s
  {}

  lemma IndicesOfSymbols(ds: seq<int>)
    requires IsDigits(ds, 32)
    ensures IsData(Symbols(ds)) && Indices(Symbols(ds)) == ds
  {
    forall i | 0 <= i < |ds| ensures DataIndex(Symbols(ds)[i]) == Some(ds[i]) {
      IndexOfSymbol(ds[i]);
    }
  }

  // ---- Encoding and decoding --------------------------------------------

  method EncodeCrockford(data: Bytes) returns (text: string)
    ensures text == Symbols(Digits(FromBytes(data), 32, (8 * |data| + 4) / 5))
  {
    var value := FromBytes(data);
    var n := (|data| * 8 + 4) / 5;
    text := "";
    for i := 0 to n
      invariant text == Symbols(Digits(value, 32, n)[..i])
    {
      DigitAt(value, 32, n, i);
      ShiftMask(n - 1 - i);
      text := text + [DataAlphabet[value / Pow(2, 5 * (n - 1 - i)) % 32]];
    }
    assert Digits(value, 32, n)[..n] == Digits(value, 32, n);
  }

  /** Shifting right by 5k bits divides by 32^k. */
  lemma ShiftMask(k: nat)
    ensures Pow(2, 5 * k) == Pow(32, k)
  {
    assert Pow(2, 5) == 32;
    PowMul(2, 5, k);
  }

  function Decoded(text: string): Result<Bytes, Error> {
    if !IsData(text) then Err(InvalidCharacter) else
    var v := Value(Indices(text), 32);
    var n := |text| * 5 / 8;
    ValueBound(Indices(text), 32);
    if v < Pow(256, n) then Ok(ToBytes(v, n)) else Err(Malformed)
  }

  method DecodeCrockford(text: string) returns (r: Result<Bytes, Error>)
    ensures r == Decoded(text)
  {
    var value: nat := 0;
    for i := 0 to |text|
      invariant IsData(text[..i])
      invariant value == Value(Indices(text[..i]), 32)
    {
      var idx := DataIndex(text[i]);
      if idx.None? {
        return Err(InvalidCharacter);
      }
      value := value * 32 + idx.value;
      assert Indices(text[..i + 1])[..i] == Indices(text[..i]);
    }
    assert text[..|text|] == text;
    var n := |text| * 5 / 8;
    if value < Pow(256, n) {
      return Ok(ToBytes(value, n));
    }
    return Err(Malformed);
  }

  function ChecksumChar(data: Bytes): char {
    CheckAlphabet[FromBytes(data) % 37]
  }

  /** Two byte strings have one check symbol exactly when they agree modulo 37. */
  lemma ChecksumExactly(a: Bytes, b: Bytes)
    ensures ChecksumChar(a) == ChecksumChar(b) <==> FromBytes(a) % 37 == FromBytes(b) % 37
  {
    AlphabetRanked();
  }

  /** The 33 symbols of a code, before grouping. */
  function Code(raw: Bytes): (s: string)
    requires |raw| == RecoveryCodeBytes
    ensures |s| == 33
  {
    Symbols(Digits(FromBytes(raw), 32, (8 * |raw| + 4) / 5)) + [ChecksumChar(raw)]
  }

  function Grouped(s: string): string {
    if |s| <= GroupSize then s else s[..GroupSize] + "-" + Grouped(s[GroupSize..])
  }

  // ---- Cleaning what was typed -------------------------------------------

  /** str.upper, one character at a time. */
  type Uppercase = char -> string

  /** The characters outside ASCII whose upper case is ASCII (SpecialCasing.txt and
    * UnicodeData.txt of the Unicode character database): dotless i, long s,
    * sharp s and the Latin ligatures. */
  function SpecialUpper(c: char): string {
    if c == '\U{131}' then "I" else if c == '\U{17F}' then "S"
    else if c == '\U{DF}' then "SS"
    else if c == '\U{FB00}' then "FF" else if c == '\U{FB01}' then "FI" else if c == '\U{FB02}' then "FL"
    else if c == '\U{FB03}' then "FFI" else if c == '\U{FB04}' then "FFL"
    else if c == '\U{FB05}' || c == '\U{FB06}' then "ST"
    else ""
  }

  function AsciiUpper(c: char): char {
    if 'a' <= c <= 'z' then (c as int - 32) as char else c
  }

  predicate IsAscii(c: char) { c as int < 128 }

  /** What is used of str.upper: its table on ASCII and on the characters above.
    * The upper case of any other has a character outside ASCII in it. */
  ghost predicate Uppers(upper: Uppercase) {
    && (forall c :: IsAscii(c) ==> upper(c) == [AsciiUpper(c)])
    && (forall c :: SpecialUpper(c) != "" ==> upper(c) == SpecialUpper(c))
    && (forall c :: !IsAscii(c) && SpecialUpper(c) == "" ==> exists i :: 0 <= i < |upper(c)| && !IsAscii(upper(c)[i]))
  }

  function UpperAll(upper: Uppercase, s: string): string {
    if s == [] then [] else upper(s[0]) + UpperAll(upper, s[1..])
  }

  function NormalizeChar(c: char): char {
    if c in "Oo" then '0' else if c in "IiLl" then '1' else c
  }

  function MapChars(f: char -> char, s: string): (r: string)
    ensures |r| == |s| && forall i :: 0 <= i < |s| ==> r[i] == f(s[i])
  {
    seq(|s|, i requires 0 <= i < |s| => f(s[i]))
  }

  function Remove(c: char, s: string): string {
    if s == [] then [] else if s[0] == c then Remove(c, s[1..]) else [s[0]] + Remove(c, s[1..])
  }

  /** Dropping dashes and spaces and replacing O, I and L. */
  function Bare(s: string): string { MapChars(NormalizeChar, Remove(' ', Remove('-', s))) }

  function Clean(upper: Uppercase, code: string): string { Bare(UpperAll(upper, Strip(code))) }

  function Parsed(cleaned: string): Result<Bytes, Error> {
    if |cleaned| < 2 then Err(TooShort) else
    var data, check := cleaned[..|cleaned| - 1], cleaned[|cleaned| - 1];
    match Decoded(data)
    case Err(e) => Err(e)
    case Ok(raw) =>
      if |raw| != RecoveryCodeBytes then Err(WrongLength)
      else if check != ChecksumChar(raw) then Err(ChecksumMismatch)
      else Ok(raw)
  }

  /** The random bytes are the caller's: os.urandom(20) in the source. */
  method GenerateRecoveryCode(raw: Bytes) returns (code: string)
    requires |raw| == RecoveryCodeBytes
    ensures code == Grouped(Code(raw)) && |code| == 39
    ensures forall k :: 0 <= k < 39 ==> code[k] == if k % 6 == 5 then '-' else Code(raw)[k - k / 6]
    ensures forall upper :: Uppers(upper) ==> Parsed(Clean(upper, code)) == Ok(raw)
  {
    var encoded := EncodeCrockford(raw);
    code := Grouped(encoded + [ChecksumChar(raw)]);
    GroupedTranscribes(Code(raw));
    GroupedLength(Code(raw));
    forall k | 0 <= k < 39 ensures code[k] == if k % 6 == 5 then '-' else Code(raw)[k - k / 6] {
      GroupedAt(Code(raw), k);
    }
    assert code[0..|code|] == code;
    assert Enters(code, Code(raw)) by { assert AllSpace(code[..0]) && AllSpace(code[|code|..]); }
    forall upper | Uppers(upper) ensures Parsed(Clean(upper, code)) == Ok(raw) {
      NormalizeExactly(upper, code, raw);
    }
  }

  method NormalizeRecoveryCode(upper: Uppercase, code: string) returns (r: Result<Bytes, Error>)
    ensures r == Parsed(Clean(upper, code))
  {
    var cleaned := Clean(upper, code);
    if |cleaned| < 2 {
      return Err(TooShort);
    }
    var decoded := DecodeCrockford(cleaned[..|cleaned| - 1]);
    if decoded.Err? {
      return Err(decoded.error);
    }
    if |decoded.value| != RecoveryCodeBytes {
      return Err(WrongLength);
    }
    if cleaned[|cleaned| - 1] != ChecksumChar(decoded.value) {
      return Err(ChecksumMismatch);
    }
    return decoded;
  }

  // ---- The accepted cleaned strings ----------------------------------------

  /** Acceptance as arithmetic: 32 or 33 data symbols whose value fits in 160
    * bits, followed by the symbol of that value modulo 37. */
  ghost predicate Sound(y: string) {
    && |y| in {33, 34}
    && IsData(y[..|y| - 1])
    && 0 <= Value(Indices(y[..|y| - 1]), 32) < Pow(256, (|y| - 1) * 5 / 8)
    && y[|y| - 1] == CheckAlphabet[Value(Indices(y[..|y| - 1]), 32) % 37]
  }

  lemma ParsedIsSound(y: string)
    ensures Parsed(y).Ok? <==> Sound(y)
    ensures Parsed(y).Ok? ==> |Parsed(y).value| == 20
                              && FromBytes(Parsed(y).value) == Value(Indices(y[..|y| - 1]), 32)
  {}

  /** Symbols and bytes of the same number of bits have the same range. */
  lemma SameRange(n: nat, m: nat)
    requires 5 * n == 8 * m
    ensures Pow(32, n) == Pow(256, m)
  {
    ShiftMask(n);
    assert Pow(2, 8) == 256;
    PowMul(2, 8, m);
  }

  lemma DigitsAreSound(ds: seq<int>, y: string)
    requires IsDigits(ds, 32) && |ds| in {32, 33}
    requires 0 <= Value(ds, 32) < Pow(256, |ds| * 5 / 8)
    requires y == Symbols(ds) + [CheckAlphabet[Value(ds, 32) % 37]]
    ensures Sound(y) && Indices(y[..|y| - 1]) == ds
  {
    assert y[..|y| - 1] == Symbols(ds);
    IndicesOfSymbols(ds);
  }

  lemma PrependZero(ds: seq<int>)
    requires IsDigits(ds, 32)
    ensures Value([0] + ds, 32) == Value(ds, 32)
    ensures IsDigits([0] + ds, 32) && Symbols([0] + ds) == "0" + Symbols(ds)
  {
    ValueOfSplit([0], ds, 32);
    assert Value([0], 32) == 0;
    assert DataAlphabet[0] == '0';
  }

  lemma DigitsOfRaw(raw: Bytes, n: nat)
    requires 5 * n == 8 * |raw|
    ensures Value(Digits(FromBytes(raw), 32, n), 32) == FromBytes(raw)
  {
    SameRange(n, |raw|);
    ValueOfDigits(FromBytes(raw), 32, n);
  }

  lemma CodeIsSound(raw: Bytes, y: string)
    requires |raw| == RecoveryCodeBytes && (y == Code(raw) || y == "0" + Code(raw))
    ensures Sound(y) && Value(Indices(y[..|y| - 1]), 32) == FromBytes(raw)
  {
    var n := (8 * |raw| + 4) / 5;
    var ds := Digits(FromBytes(raw), 32, n);
    DigitsOfRaw(raw, n);
    PrependZero(ds);
    var ext := if y == Code(raw) then ds else [0] + ds;
    assert y == Symbols(ext) + [ChecksumChar(raw)];
    assert |ext| * 5 / 8 == |raw|;
    DigitsAreSound(ext, y);
  }

  lemma CodeOfDigits(ds: seq<int>, raw: Bytes)
    requires |raw| == RecoveryCodeBytes && IsDigits(ds, 32) && |ds| == 32 && Value(ds, 32) == FromBytes(raw)
    ensures Symbols(ds) + [ChecksumChar(raw)] == Code(raw)
  {
    DigitsOfValue(ds, 32);
  }

  lemma SoundIsCode(y: string, raw: Bytes)
    requires |raw| == RecoveryCodeBytes && Sound(y)
    requires FromBytes(raw) == Value(Indices(y[..|y| - 1]), 32)
    ensures y == Code(raw) || y == "0" + Code(raw)
  {
    var n := |y| - 1;
    var ds := Indices(y[..n]);
    SymbolsOfIndices(y[..n]);
    assert y == Symbols(ds) + [ChecksumChar(raw)];
    if n == 32 {
      CodeOfDigits(ds, raw);
    } else {
      LeadingZero(ds, |raw|);
      CodeOfDigits(ds[1..], raw);
      PrependZero(ds[1..]);
      assert ds == [0] + ds[1..];
      assert "0" + (Symbols(ds[1..]) + [ChecksumChar(raw)]) == y;
    }
  }

  /** With one symbol more than the bits need, the first must be zero. */
  lemma LeadingZero(ds: seq<int>, m: nat)
    requires IsDigits(ds, 32) && |ds| > 0 && 5 * (|ds| - 1) == 8 * m
    requires Value(ds, 32) < Pow(256, m)
    ensures ds[0] == 0 && Value(ds, 32) == Value(ds[1..], 32)
  {
    var rest := ds[1..];
    assert ds == [ds[0]] + rest;
    ValueOfSplit([ds[0]], rest, 32);
    ValueBound(rest, 32);
    SameRange(|rest|, m);
    assert Value([ds[0]], 32) == ds[0] by { assert [ds[0]][..0] == []; }
    if ds[0] > 0 { MulMono(1, ds[0], Pow(32, |rest|)); }
  }

  /** The accepted cleaned strings are exactly the canonical 33 symbols and
    * the same with one extra leading 0. */
  lemma AcceptedLanguage(y: string, raw: Bytes)
    ensures Parsed(y) == Ok(raw)
       <==> |raw| == RecoveryCodeBytes && (y == Code(raw) || y == "0" + Code(raw))
  {
    ParsedIsSound(y);
    if Parsed(y) == Ok(raw) {
      SoundIsCode(y, raw);
    }
    if |raw| == RecoveryCodeBytes && (y == Code(raw) || y == "0" + Code(raw)) {
      CodeIsSound(raw, y);
      FromBytesInjective(raw, Parsed(y).value);
    }
  }

  /** What is wrong with a cleaned string that is refused: fewer than two symbols; a
    * symbol that is no data symbol; a value too large for its bytes; the wrong
    * number of bytes; the wrong check symbol. The first of these counts. */
  lemma RefusedExactly(y: string)
    ensures Parsed(y) == Err(TooShort) <==> |y| < 2
    ensures Parsed(y) == Err(InvalidCharacter) <==> |y| >= 2 && !IsData(y[..|y| - 1])
    ensures |y| >= 2 && IsData(y[..|y| - 1]) ==>
              var n, value := (|y| - 1) * 5 / 8, Value(Indices(y[..|y| - 1]), 32);
              && (Parsed(y) == Err(Malformed) <==> value >= Pow(256, n))
              && (Parsed(y) == Err(WrongLength) <==> value < Pow(256, n) && n != 20)
  {
    if |y| >= 2 { DecodedExactly(y[..|y| - 1]); }
  }

  lemma DecodedExactly(data: string)
    ensures var r := Decoded(data);
            && (r == Err(InvalidCharacter) <==> !IsData(data))
            && (IsData(data) ==>
                  var n, value := |data| * 5 / 8, Value(Indices(data), 32);
                  (r == Err(Malformed) <==> value >= Pow(256, n)) && (r.Ok? <==> value < Pow(256, n)))
            && (r.Ok? ==> |r.value| == |data| * 5 / 8)
            && (r.Err? ==> r.error in {InvalidCharacter, Malformed})
  {
    if IsData(data) { ValueBound(Indices(data), 32); }
  }

  // ---- Every way of typing a code -----------------------------------------

  /** The symbols one character may stand for: itself in either case, O for zero,
    * I or L for one, and the letters that become ASCII in upper case. */
  predicate Reads(c: char, w: string) {
    || (|w| == 1 && ReadsOne(c, w[0]))
    || (c == '\U{DF}' && w == "SS")
    || (c == '\U{FB00}' && w == "FF")
    || ((c == '\U{FB01}' || c == '\U{FB02}') && w == "F1")
    || ((c == '\U{FB03}' || c == '\U{FB04}') && w == "FF1")
    || ((c == '\U{FB05}' || c == '\U{FB06}') && w == "ST")
  }

  predicate ReadsOne(c: char, symbol: char) {
    || c == symbol
    || ('A' <= symbol <= 'Z' && c as int == symbol as int + 32)
    || (symbol == '0' && c in "Oo")
    || (symbol == '1' && (c in "IiLl" || c == '\U{131}'))
    || (symbol == 'S' && c == '\U{17F}')
  }

  /** typed is the symbols in order, each in any spelling, with dashes and
    * spaces inserted anywhere. */
  ghost predicate Transcribes(typed: string, symbols: string) {
    if typed == [] then symbols == [] else
      || (typed[0] in "- " && Transcribes(typed[1..], symbols))
      || (exists n :: 1 <= n <= |symbols| && Reads(typed[0], symbols[..n]) && Transcribes(typed[1..], symbols[n..]))
  }

  /** The check alphabet as character ranges. */
  predicate IsSymbol(c: char) {
    || '0' <= c <= '9'
    || ('A' <= c <= 'Z' && c != 'I' && c != 'L' && c != 'O')
    || c == '*' || c == '~' || c == '$' || c == '='
  }

  predicate InCheckAlphabet(s: string) {
    forall i :: 0 <= i < |s| ==> IsSymbol(s[i])
  }

  lemma AlphabetIsSymbols()
    ensures forall i :: 0 <= i < 37 ==> IsSymbol(CheckAlphabet[i])
  {}

  function Folded(upper: Uppercase, s: string): string {
    if s == [] then [] else Bare(upper(s[0])) + Folded(upper, s[1..])
  }

  lemma {:induction false} RemoveConcat(c: char, a: string, b: string)
    ensures Remove(c, a + b) == Remove(c, a) + Remove(c, b)
  {
    if a == [] {
      assert a + b == b;
    } else {
      assert (a + b)[1..] == a[1..] + b;
      RemoveConcat(c, a[1..], b);
    }
  }

  lemma BareConcat(a: string, b: string)
    ensures Bare(a + b) == Bare(a) + Bare(b)
  {
    RemoveConcat('-', a, b);
    RemoveConcat(' ', Remove('-', a), Remove('-', b));
  }

  lemma {:induction false} CleanIsFolded(upper: Uppercase, s: string)
    ensures Bare(UpperAll(upper, s)) == Folded(upper, s)
  {
    if s != [] {
      CleanIsFolded(upper, s[1..]);
      BareConcat(upper(s[0]), UpperAll(upper, s[1..]));
    }
  }

  lemma BareOne(c: char)
    ensures Bare([c]) == if c in "- " then [] else [NormalizeChar(c)]
  {
    assert [c][1..] == [];
    assert Remove('-', [c]) == if c == '-' then [] else [c];
    assert Remove(' ', [c]) == if c == ' ' then [] else [c];
  }

  lemma {:induction false} RemoveKeeps(c: char, s: string, x: char)
    requires x in s && x != c
    ensures x in Remove(c, s)
  {
    if s[0] != x {
      assert x in s[1..];
      RemoveKeeps(c, s[1..], x);
    }
  }

  /** Anything outside ASCII stays. */
  lemma BareKeeps(s: string, i: nat)
    requires i < |s| && !IsAscii(s[i])
    ensures exists j :: 0 <= j < |Bare(s)| && !IsAscii(Bare(s)[j])
  {
    RemoveKeeps('-', s, s[i]);
    RemoveKeeps(' ', Remove('-', s), s[i]);
    var t := Remove(' ', Remove('-', s));
    var j :| 0 <= j < |t| && t[j] == s[i];
    assert Bare(s)[j] == s[i];
  }

  lemma BareWord(w: string)
    requires forall i :: 0 <= i < |w| ==> w[i] !in "- "
    ensures Bare(w) == MapChars(NormalizeChar, w)
  {
    RemoveNothing('-', w);
    RemoveNothing(' ', w);
  }

  lemma {:induction false} RemoveNothing(c: char, w: string)
    requires forall i :: 0 <= i < |w| ==> w[i] != c
    ensures Remove(c, w) == w
  {
    if w != [] { RemoveNothing(c, w[1..]); }
  }

  lemma SpecialReads(c: char, w: string)
    requires SpecialUpper(c) != ""
    ensures Reads(c, w) && (|w| == 1 ==> IsSymbol(w[0])) <==> MapChars(NormalizeChar, SpecialUpper(c)) == w
  {
    var m := MapChars(NormalizeChar, SpecialUpper(c));
    assert |SpecialUpper(c)| == 1 ==> m == [NormalizeChar(SpecialUpper(c)[0])];
    assert |SpecialUpper(c)| == 2 ==> m == [NormalizeChar(SpecialUpper(c)[0]), NormalizeChar(SpecialUpper(c)[1])];
    assert |SpecialUpper(c)| == 3 ==>
      m == [NormalizeChar(SpecialUpper(c)[0]), NormalizeChar(SpecialUpper(c)[1]), NormalizeChar(SpecialUpper(c)[2])];
  }

  /** A character cleans to given symbols exactly when it may be read as them, and
    * to nothing exactly when it is a dash or a space. */
  lemma ReadsIsFold(upper: Uppercase, c: char, w: string)
    requires Uppers(upper) && InCheckAlphabet(w)
    ensures Bare(upper(c)) == w <==> if w == [] then c in "- " else Reads(c, w)
  {
    if IsAscii(c) {
      BareOne(AsciiUpper(c));
      AsciiReads(c, w);
    } else if SpecialUpper(c) != "" {
      BareWord(SpecialUpper(c));
      SpecialReads(c, w);
    } else {
      var i :| 0 <= i < |upper(c)| && !IsAscii(upper(c)[i]);
      BareKeeps(upper(c), i);
      ForeignReads(c, w);
    }
  }

  lemma AsciiReads(c: char, w: string)
    requires IsAscii(c) && InCheckAlphabet(w)
    ensures Reads(c, w) <==> c !in "- " && [NormalizeChar(AsciiUpper(c))] == w
  {}

  lemma ForeignReads(c: char, w: string)
    requires !IsAscii(c) && SpecialUpper(c) == "" && InCheckAlphabet(w)
    ensures !Reads(c, w)
  {}

  /** The first character of a transcription takes n symbols, none for a dash or
    * a space. */
  lemma FirstTaken(typed: string, symbols: string) returns (n: nat)
    requires typed != [] && Transcribes(typed, symbols)
    ensures n <= |symbols| && Transcribes(typed[1..], symbols[n..])
    ensures if n == 0 then typed[0] in "- " else Reads(typed[0], symbols[..n])
  {
    if typed[0] in "- " && Transcribes(typed[1..], symbols) {
      n := 0;
      assert symbols[0..] == symbols;
    } else {
      n :| 1 <= n <= |symbols| && Reads(typed[0], symbols[..n]) && Transcribes(typed[1..], symbols[n..]);
    }
  }

  lemma FirstCleaned(upper: Uppercase, typed: string, symbols: string) returns (n: nat)
    requires Uppers(upper) && InCheckAlphabet(symbols) && typed != [] && Transcribes(typed, symbols)
    ensures n <= |symbols| && Transcribes(typed[1..], symbols[n..]) && Bare(upper(typed[0])) == symbols[..n]
  {
    n := FirstTaken(typed, symbols);
    ReadsIsFold(upper, typed[0], symbols[..n]);
  }

  lemma {:induction false} TranscribedIsFolded(upper: Uppercase, typed: string, symbols: string)
    requires Uppers(upper) && InCheckAlphabet(symbols) && Transcribes(typed, symbols)
    ensures Folded(upper, typed) == symbols
  {
    if typed != [] {
      var n := FirstCleaned(upper, typed, symbols);
      TranscribedIsFolded(upper, typed[1..], symbols[n..]);
      assert symbols == symbols[..n] + symbols[n..];
    }
  }

  lemma {:induction false} FoldedIsTranscribed(upper: Uppercase, typed: string)
    requires Uppers(upper) && InCheckAlphabet(Folded(upper, typed))
    ensures Transcribes(typed, Folded(upper, typed))
  {
    if typed != [] {
      var symbols, w, rest := Folded(upper, typed), Bare(upper(typed[0])), Folded(upper, typed[1..]);
      assert w == symbols[..|w|] && rest == symbols[|w|..];
      FoldedIsTranscribed(upper, typed[1..]);
      ReadsIsFold(upper, typed[0], w);
      if w == [] { assert symbols == rest; }
    }
  }

  lemma {:induction false} FoldedConcat(upper: Uppercase, a: string, b: string)
    ensures Folded(upper, a + b) == Folded(upper, a) + Folded(upper, b)
  {
    if a == [] {
      assert a + b == b;
    } else {
      assert (a + b)[1..] == a[1..] + b;
      FoldedConcat(upper, a[1..], b);
    }
  }

  lemma {:induction false} TranscribedSpacesAreBlank(typed: string, symbols: string)
    requires InCheckAlphabet(symbols) && Transcribes(typed, symbols)
    ensures OnlyBlanks(typed)
  {
    if typed != [] {
      var n := FirstTaken(typed, symbols);
      if n > 0 { ReadIsNotSpace(typed[0], symbols[..n]); }
      TranscribedSpacesAreBlank(typed[1..], symbols[n..]);
      forall i | 0 <= i < |typed| && IsSpace(typed[i]) ensures typed[i] == ' ' {
        if i > 0 { assert typed[1..][i - 1] == typed[i]; }
      }
    }
  }

  lemma ReadIsNotSpace(c: char, w: string)
    requires InCheckAlphabet(w) && Reads(c, w)
    ensures !IsSpace(c)
  {}

  predicate OnlyBlanks(s: string) { forall i :: 0 <= i < |s| && IsSpace(s[i]) ==> s[i] == ' ' }

  /** What stripping takes from such a text is plain spaces, which cleaning
    * drops anyway. */
  lemma {:induction false} FoldedStripLeft(upper: Uppercase, s: string)
    requires Uppers(upper) && OnlyBlanks(s)
    ensures Folded(upper, StripLeft(s)) == Folded(upper, s) && OnlyBlanks(StripLeft(s))
  {
    if s != [] && IsSpace(s[0]) {
      ReadsIsFold(upper, ' ', []);
      FoldedStripLeft(upper, s[1..]);
    }
  }

  lemma {:induction false} FoldedStripRight(upper: Uppercase, s: string)
    requires Uppers(upper) && OnlyBlanks(s)
    ensures Folded(upper, StripRight(s)) == Folded(upper, s)
  {
    if s != [] && IsSpace(s[|s| - 1]) {
      var front := s[..|s| - 1];
      FoldedStripRight(upper, front);
      assert s == front + [' '];
      FoldedConcat(upper, front, [' ']);
      ReadsIsFold(upper, ' ', []);
      assert Folded(upper, [' ']) == [] by { assert [' '][1..] == []; }
    }
  }

  lemma CleanOfTranscription(upper: Uppercase, pre: string, typed: string, post: string, symbols: string)
    requires Uppers(upper) && AllSpace(pre) && AllSpace(post)
    requires InCheckAlphabet(symbols) && Transcribes(typed, symbols)
    ensures Clean(upper, pre + typed + post) == symbols
  {
    StripPadded(pre, typed, post);
    CleanIsFolded(upper, Strip(typed));
    TranscribedSpacesAreBlank(typed, symbols);
    FoldedStripLeft(upper, typed);
    FoldedStripRight(upper, StripLeft(typed));
    TranscribedIsFolded(upper, typed, symbols);
  }

  lemma CodeInAlphabet(raw: Bytes)
    requires |raw| == RecoveryCodeBytes
    ensures InCheckAlphabet(Code(raw)) && InCheckAlphabet("0" + Code(raw))
  {
    var ds := Digits(FromBytes(raw), 32, (8 * |raw| + 4) / 5);
    AlphabetIsSymbols();
    forall i | 0 <= i < 33 ensures IsSymbol(Code(raw)[i]) {
      if i < 32 { assert CheckAlphabet[ds[i]] == Code(raw)[i]; }
    }
  }

  /** typed is some transcription of the symbols, white space around it allowed. */
  ghost predicate Enters(code: string, symbols: string) {
    exists i, j :: 0 <= i <= j <= |code| && AllSpace(code[..i]) && AllSpace(code[j..])
                   && Transcribes(code[i..j], symbols)
  }

  lemma NormalizedWasEntered(upper: Uppercase, code: string)
    requires Uppers(upper) && InCheckAlphabet(Clean(upper, code))
    ensures Enters(code, Clean(upper, code))
  {
    var i := StripLeftSlice(code);
    var j := StripRightSlice(code[i..]);
    var typed := code[i..i + j];
    assert code[i..][..j] == typed && code[i..][j..] == code[i + j..];
    CleanIsFolded(upper, typed);
    FoldedIsTranscribed(upper, typed);
  }

  lemma EnteredIsNormalized(upper: Uppercase, code: string, symbols: string)
    requires Uppers(upper) && Enters(code, symbols) && InCheckAlphabet(symbols)
    ensures Clean(upper, code) == symbols
  {
    var i, j :| 0 <= i <= j <= |code| && AllSpace(code[..i]) && AllSpace(code[j..])
                && Transcribes(code[i..j], symbols);
    CleanOfTranscription(upper, code[..i], code[i..j], code[j..], symbols);
    assert code[..i] + code[i..j] + code[j..] == code;
  }

  /** What a person may type for a given secret, exactly: any transcription of
    * its code, or of its code behind one extra leading zero. */
  lemma NormalizeExactly(upper: Uppercase, code: string, raw: Bytes)
    requires Uppers(upper)
    ensures Parsed(Clean(upper, code)) == Ok(raw)
       <==> |raw| == RecoveryCodeBytes && (Enters(code, Code(raw)) || Enters(code, "0" + Code(raw)))
  {
    AcceptedLanguage(Clean(upper, code), raw);
    if |raw| == RecoveryCodeBytes {
      CodeInAlphabet(raw);
      forall symbols | symbols == Code(raw) || symbols == "0" + Code(raw)
        ensures Enters(code, symbols) <==> Clean(upper, code) == symbols
      {
        if Enters(code, symbols) { EnteredIsNormalized(upper, code, symbols); }
        if Clean(upper, code) == symbols { NormalizedWasEntered(upper, code); }
      }
    }
  }

  lemma {:induction false} TranscribesItself(s: string)
    ensures Transcribes(s, s)
  {
    if s != [] {
      TranscribesItself(s[1..]);
      assert Reads(s[0], s[..1]) && Transcribes(s[1..], s[1..]);
    }
  }

  lemma {:induction false} TranscribesPrefix(a: string, b: string, symbols: string)
    requires Transcribes(b, symbols)
    ensures Transcribes(a + b, a + symbols)
  {
    if a == [] {
      assert a + b == b && a + symbols == symbols;
    } else {
      assert (a + b)[1..] == a[1..] + b && (a + symbols)[1..] == a[1..] + symbols;
      TranscribesPrefix(a[1..], b, symbols);
      assert Reads((a + b)[0], (a + symbols)[..1]) && Transcribes((a + b)[1..], (a + symbols)[1..]);
    }
  }

  lemma {:induction false} GroupedLength(s: string)
    requires s != []
    ensures |Grouped(s)| == |s| + (|s| - 1) / 5
  {
    if |s| > GroupSize { GroupedLength(s[GroupSize..]); }
  }

  /** A dash stands behind every five symbols, and only there. */
  lemma {:induction false} GroupedAt(s: string, k: nat)
    requires k < |Grouped(s)|
    ensures if k % 6 == 5 then Grouped(s)[k] == '-' else k - k / 6 < |s| && Grouped(s)[k] == s[k - k / 6]
  {
    if |s| > GroupSize && k > GroupSize {
      GroupedAt(s[GroupSize..], k - GroupSize - 1);
      assert Grouped(s)[k] == Grouped(s[GroupSize..])[k - GroupSize - 1];
    }
  }

  lemma {:induction false} GroupedTranscribes(s: string)
    ensures Transcribes(Grouped(s), s)
  {
    if |s| <= GroupSize {
      TranscribesItself(s);
    } else {
      var rest := Grouped(s[GroupSize..]);
      GroupedTranscribes(s[GroupSize..]);
      assert ("-" + rest)[1..] == rest;
      TranscribesPrefix(s[..GroupSize], "-" + rest, s[GroupSize..]);
      assert s == s[..GroupSize] + s[GroupSize..];
      assert Grouped(s) == s[..GroupSize] + ("-" + rest);
    }
  }
}
