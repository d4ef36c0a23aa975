/** Python text and the two ways the program turns it into bytes: UTF-8, and
  * JSON string escapes as json.dumps writes them (section 7 of RFC 8259). */
module TextCodes {
  import opened Bytes

  type CodePoint = c: int | 0 <= c <= 0x10FFFF
  /** A Python str. Lone surrogates are possible: json.loads produces them. */
  type Text = seq<CodePoint>
  /** One UTF-16 code unit. */
  type Unit = u: int | 0 <= u <= 0xFFFF

  // ---- Codes that can be read back without looking ahead --------------------------

  /** The two differ at some place both have, so neither begins the other. */
  ghost predicate Clash(a: Bytes, b: Bytes) {
    exists i :: 0 <= i < |a| && i < |b| && a[i] != b[i]
  }

  function Flat(code: int -> Bytes, s: seq<int>): Bytes {
    if s == [] then [] else code(s[0]) + Flat(code, s[1..])
  }

  ghost predicate InRange(s: seq<int>, lo: int, hi: int) {
    forall i :: 0 <= i < |s| ==> lo <= s[i] <= hi
  }

  /** On lo..hi, distinct symbols have clashing codes, none starting with stop. */
  ghost predicate PrefixFree(code: int -> Bytes, lo: int, hi: int, stop: Byte) {
    && (forall x :: lo <= x <= hi ==> |code(x)| > 0 && code(x)[0] != stop)
    && (forall x, y :: lo <= x <= hi && lo <= y <= hi && x != y ==> Clash(code(x), code(y)))
  }

  lemma ClashSeparates(a: Bytes, b: Bytes, ra: Bytes, rb: Bytes)
    requires Clash(a, b)
    ensures a + ra != b + rb
  {
    var i :| 0 <= i < |a| && i < |b| && a[i] != b[i];
    assert (a + ra)[i] == a[i] && (b + rb)[i] == b[i];
  }

  lemma CancelPrefix(p: Bytes, a: Bytes, b: Bytes)
    requires p + a == p + b
    ensures a == b
  {
    assert (p + a)[|p|..] == a && (p + b)[|p|..] == b;
  }

  lemma StopIsNoSymbol(code: int -> Bytes, lo: int, hi: int, stop: Byte, s: seq<int>, r: Bytes, rs: Bytes)
    requires PrefixFree(code, lo, hi, stop) && InRange(s, lo, hi) && s != []
    ensures [stop] + r != Flat(code, s) + rs
  {
    assert ([stop] + r)[0] == stop;
    assert (Flat(code, s) + rs)[0] == code(s[0])[0];
  }

  /** Text written in such a code and then stop can be read off the front of
    * any byte string in only one way. */
  lemma {:induction false} TerminatedUnique(code: int -> Bytes, lo: int, hi: int, stop: Byte,
                                            a: seq<int>, b: seq<int>, ra: Bytes, rb: Bytes)
    requires PrefixFree(code, lo, hi, stop) && InRange(a, lo, hi) && InRange(b, lo, hi)
    requires Flat(code, a) + ([stop] + ra) == Flat(code, b) + ([stop] + rb)
    ensures a == b && ra == rb
    decreases |a|
  {
    var left, right := Flat(code, a) + ([stop] + ra), Flat(code, b) + ([stop] + rb);
    if a == [] && b == [] {
      assert left == [stop] + ra && right == [stop] + rb;
      CancelPrefix([stop], ra, rb);
    } else if a == [] {
      assert left == [stop] + ra;
      StopIsNoSymbol(code, lo, hi, stop, b, ra, [stop] + rb);
    } else if b == [] {
      assert right == [stop] + rb;
      StopIsNoSymbol(code, lo, hi, stop, a, rb, [stop] + ra);
    } else {
      var ta, tb := Flat(code, a[1..]) + ([stop] + ra), Flat(code, b[1..]) + ([stop] + rb);
      assert left == code(a[0]) + ta && right == code(b[0]) + tb;
      if a[0] != b[0] {
        ClashSeparates(code(a[0]), code(b[0]), ta, tb);
      }
      CancelPrefix(code(a[0]), ta, tb);
      TerminatedUnique(code, lo, hi, stop, a[1..], b[1..], ra, rb);
      assert a == [a[0]] + a[1..] && b == [b[0]] + b[1..];
    }
  }

  // ---- JSON escapes ----------------------------------------------------------------

  function HexDigit(d: int): Byte
    requires 0 <= d < 16
  {
    if d < 10 then 48 + d else 87 + d
  }

  function Hex4(u: Unit): Bytes {
    [HexDigit(u / 16 / 16 / 16), HexDigit(u / 16 / 16 % 16), HexDigit(u / 16 % 16), HexDigit(u % 16)]
  }

  /** The letter after the backslash for the units that have a short escape. */
  function ShortEscape(u: int): Byte {
    if u == 34 then 34 else if u == 92 then 92 else if u == 10 then 110
    else if u == 13 then 114 else if u == 9 then 116 else if u == 12 then 102
    else if u == 8 then 98 else 0
  }

  function EscapeUnit(u: int): Bytes {
    if !(0 <= u <= 0xFFFF) then []
    else if ShortEscape(u) != 0 then [92, ShortEscape(u)]
    else if 32 <= u <= 126 then [u]
    else [92, 117] + Hex4(u)
  }

  const Quote: Byte := 34

  lemma Hex4Differs(x: Unit, y: Unit)
    requires x != y
    ensures exists i :: 0 <= i < 4 && Hex4(x)[i] != Hex4(y)[i]
  {
    if x % 16 != y % 16 {
      assert Hex4(x)[3] != Hex4(y)[3];
    } else if x / 16 % 16 != y / 16 % 16 {
      assert Hex4(x)[2] != Hex4(y)[2];
    } else if x / 16 / 16 % 16 != y / 16 / 16 % 16 {
      assert Hex4(x)[1] != Hex4(y)[1];
    } else {
      assert Hex4(x)[0] != Hex4(y)[0];
    }
  }

  lemma EscapesClash(x: Unit, y: Unit)
    requires x != y
    ensures Clash(EscapeUnit(x), EscapeUnit(y))
  {
    var a, b := EscapeUnit(x), EscapeUnit(y);
    if a[0] != b[0] {
    } else if a[1] != b[1] {
    } else {
      Hex4Differs(x, y);
      var i :| 0 <= i < 4 && Hex4(x)[i] != Hex4(y)[i];
      assert a[2 + i] != b[2 + i];
    }
  }

  lemma EscapesPrefixFree()
    ensures PrefixFree(EscapeUnit, 0, 0xFFFF, Quote)
  {
    forall x, y | 0 <= x <= 0xFFFF && 0 <= y <= 0xFFFF && x != y
      ensures Clash(EscapeUnit(x), EscapeUnit(y))
    {
      EscapesClash(x, y);
    }
  }

  function Utf16(s: Text): (r: seq<int>)
    ensures InRange(r, 0, 0xFFFF)
  {
    if s == [] then []
    else if s[0] <= 0xFFFF then [s[0]] + Utf16(s[1..])
    else [0xD800 + (s[0] - 0x10000) / 0x400, 0xDC00 + (s[0] - 0x10000) % 0x400] + Utf16(s[1..])
  }

  /** json.dumps of a string, without the quotes. */
  function Escaped(s: Text): Bytes {
    Flat(EscapeUnit, Utf16(s))
  }

  /** No high surrogate directly before a low one. json.loads joins such pairs,
    * so every parsed string is joined. */
  ghost predicate Joined(s: Text) {
    forall i :: 0 <= i < |s| - 1 ==> !(0xD800 <= s[i] <= 0xDBFF && 0xDC00 <= s[i + 1] <= 0xDFFF)
  }

  lemma {:induction false} Utf16Injective(a: Text, b: Text)
    requires Joined(a) && Joined(b) && Utf16(a) == Utf16(b)
    ensures a == b
    decreases |a|
  {
    if a == [] || b == [] {
    } else {
      if a[0] > 0xFFFF && b[0] <= 0xFFFF { NoFalsePair(a, b); }
      if b[0] > 0xFFFF && a[0] <= 0xFFFF { NoFalsePair(b, a); }
      var k := if a[0] > 0xFFFF then 2 else 1;
      assert Utf16(a)[k..] == Utf16(a[1..]) && Utf16(b)[k..] == Utf16(b[1..]);
      assert Utf16(a)[0] == Utf16(b)[0] && (k == 2 ==> Utf16(a)[1] == Utf16(b)[1]);
      assert a[0] == b[0];
      Utf16Injective(a[1..], b[1..]);
      assert a == [a[0]] + a[1..] && b == [b[0]] + b[1..];
    }
  }

  lemma NoFalsePair(a: Text, b: Text)
    requires a != [] && b != [] && a[0] > 0xFFFF && b[0] <= 0xFFFF && Joined(b)
    ensures Utf16(a) != Utf16(b)
  {
    if |b| > 1 {
      assert Utf16(b)[1] == Utf16(b[1..])[0] && b[1..][0] == b[1];
    } else {
      assert b[1..] == [];
    }
  }

  /** Two strings have the same escapes exactly when they agree in UTF-16. */
  lemma EscapedUnique(a: Text, b: Text, ra: Bytes, rb: Bytes)
    ensures Escaped(a) + ([Quote] + ra) == Escaped(b) + ([Quote] + rb) <==> Utf16(a) == Utf16(b) && ra == rb
  {
    if Escaped(a) + ([Quote] + ra) == Escaped(b) + ([Quote] + rb) {
      EscapesPrefixFree();
      TerminatedUnique(EscapeUnit, 0, 0xFFFF, Quote, Utf16(a), Utf16(b), ra, rb);
    }
  }

  // ---- UTF-8 -----------------------------------------------------------------------

  function Utf8Code(c: int): Bytes {
    if !(0 <= c <= 0x10FFFF) then []
    else if c < 0x80 then [c]
    else if c < 0x800 then [0xC0 + c / 64, 0x80 + c % 64]
    else if c < 0x10000 then [0xE0 + c / 64 / 64, 0x80 + c / 64 % 64, 0x80 + c % 64]
    else [0xF0 + c / 64 / 64 / 64, 0x80 + c / 64 / 64 % 64, 0x80 + c / 64 % 64, 0x80 + c % 64]
  }

  function Utf8(s: Text): Bytes { Flat(Utf8Code, s) }

  predicate NulFree(s: Text) { forall i :: 0 <= i < |s| ==> s[i] != 0 }

  lemma Utf8CodesClash(x: CodePoint, y: CodePoint)
    requires x != y
    ensures Clash(Utf8Code(x), Utf8Code(y))
  {
    var a, b := Utf8Code(x), Utf8Code(y);
    if a[0] != b[0] {
    } else {
      assert |a| == |b|;
      if |a| == 2 {
        assert a[1] != b[1];
      } else if |a| == 3 {
        assert a[1] != b[1] || a[2] != b[2];
      } else {
        assert a[1] != b[1] || a[2] != b[2] || a[3] != b[3];
      }
    }
  }

  /** 0 begins no code of a non-NUL character, 255 begins no code at all. */
  lemma Utf8PrefixFree(lo: int, stop: Byte)
    requires (lo == 1 && stop == 0) || (lo == 0 && stop == 255)
    ensures PrefixFree(Utf8Code, lo, 0x10FFFF, stop)
  {
    forall x, y | lo <= x <= 0x10FFFF && lo <= y <= 0x10FFFF && x != y
      ensures Clash(Utf8Code(x), Utf8Code(y))
    {
      Utf8CodesClash(x, y);
    }
  }

  lemma Utf8Terminated(a: Text, b: Text, ra: Bytes, rb: Bytes)
    requires NulFree(a) && NulFree(b)
    ensures Utf8(a) + ([0] + ra) == Utf8(b) + ([0] + rb) <==> a == b && ra == rb
  {
    if Utf8(a) + ([0] + ra) == Utf8(b) + ([0] + rb) {
      Utf8PrefixFree(1, 0);
      TerminatedUnique(Utf8Code, 1, 0x10FFFF, 0, a, b, ra, rb);
    }
  }

  lemma Utf8Injective(a: Text, b: Text)
    requires Utf8(a) == Utf8(b)
    ensures a == b
  {
    Utf8PrefixFree(0, 255);
    TerminatedUnique(Utf8Code, 0, 0x10FFFF, 255, a, b, [], []);
  }
}
