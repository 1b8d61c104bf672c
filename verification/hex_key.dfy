/**
 * Key derivation: WebScraper.toHex. Every UTF-16 code unit of the input is
 * written in base 16 without padding and the pieces are concatenated; the
 * final trim() has nothing to remove.
 */
module HexKey {
  import opened JsText

  /** A lower-case hexadecimal digit, '0'..'9' or 'a'..'f'. */
  predicate IsHexDigit(c: CodeUnit)
  {
    0x30 <= c <= 0x39 || 0x61 <= c <= 0x66
  }

  /** charCodeAt(i).toString(16) for one code unit: one to four digits that read back as the unit. */
  function UnitHex(c: CodeUnit): (r: JsString)
    ensures 1 <= |r| <= 4
    ensures forall k :: 0 <= k < |r| ==> IsHexDigit(r[k])
    ensures DigitsValue(r, 16) == c
    ensures |r| == 2 <==> 0x10 <= c < 0x100
  {
    NumberToStringValue(c, 16);
    HexLength(c);
    NumberToString(c, 16)
  }

  /** toString(16) writes no padding: a unit's hex starts with '0' only when it is the single digit of zero. */
  lemma UnitHexUnpadded(c: CodeUnit)
    ensures |UnitHex(c)| == 1 || UnitHex(c)[0] != 0x30
  {
    HexLength(c);
  }

  /** A code unit below 0x10000 has at most four hex digits, exactly two when it lies in 0x10..0xFF, and none of them is a leading zero. */
  lemma HexLength(c: CodeUnit)
    ensures |NumberToString(c, 16)| <= 4
    ensures |NumberToString(c, 16)| == 2 <==> 0x10 <= c < 0x100
    ensures |NumberToString(c, 16)| == 1 || NumberToString(c, 16)[0] != 0x30
  {
    var c1 := c / 16;
    var c2 := c1 / 16;
    var c3 := c2 / 16;
    if c >= 16 {
      assert NumberToString(c, 16) == NumberToString(c1, 16) + [DigitChar(c % 16)];
      if c1 >= 16 {
        assert NumberToString(c1, 16) == NumberToString(c2, 16) + [DigitChar(c1 % 16)];
        if c2 >= 16 {
          assert NumberToString(c2, 16) == NumberToString(c3, 16) + [DigitChar(c2 % 16)];
        }
      }
    }
  }

  /** The key text of a string: the unpadded hex of every code unit, in order. */
  function Encode(s: JsString): (r: JsString)
    ensures |s| <= |r| <= 4 * |s|
    ensures r == [] <==> s == []
    ensures forall k :: 0 <= k < |r| ==> IsHexDigit(r[k])
  {
    if s == [] then [] else Encode(s[..|s| - 1]) + UnitHex(s[|s| - 1])
  }

  /** toHex as the source writes it: a loop appending each unit's hex, then trim(). */
  method ToHex(str: JsString) returns (hex: JsString)
    ensures hex == Encode(str)
  {
    hex := [];
    for i := 0 to |str|
      invariant hex == Encode(str[..i])
    {
      assert str[..i + 1][..i] == str[..i];
      hex := hex + UnitHex(str[i]);
    }
    assert str[..|str|] == str;
    TrimWithoutSpace(hex);
    hex := Trim(hex);
  }

  /** The key of a concatenation is the concatenation of the keys. */
  lemma {:induction false} EncodeAppend(a: JsString, b: JsString)
    ensures Encode(a + b) == Encode(a) + Encode(b)
    decreases |b|
  {
    if b == [] {
      assert a + b == a;
    } else {
      var b' := b[..|b| - 1];
      assert (a + b)[..|a + b| - 1] == a + b';
      assert (a + b)[|a + b| - 1] == b[|b| - 1];
      EncodeAppend(a, b');
    }
  }

  /** Without padding the key is not injective: [0x1, 0x23] and [0x12, 0x3] both give "123". */
  lemma KeyCollision()
    ensures Encode([0x1, 0x23]) == Encode([0x12, 0x3]) == Lit("123")
  {
  }

  /** True when every code unit has exactly two hex digits (0x10..0xFF, printable Latin-1 among them). */
  predicate TwoDigitUnits(s: JsString)
  {
    forall k :: 0 <= k < |s| ==> 0x10 <= s[k] < 0x100
  }

  /** Where every code unit has two hex digits, distinct strings get distinct keys. */
  lemma {:induction false} EncodeInjectiveOnTwoDigitUnits(s: JsString, t: JsString)
    requires TwoDigitUnits(s) && TwoDigitUnits(t)
    requires Encode(s) == Encode(t)
    ensures s == t
    decreases |s|
  {
    TwoDigitLength(s);
    TwoDigitLength(t);
    if s != [] {
      var s', t' := s[..|s| - 1], t[..|t| - 1];
      assert TwoDigitUnits(s') && TwoDigitUnits(t');
      TwoDigitLength(s');
      TwoDigitLength(t');
      var es, et := Encode(s'), Encode(t');
      assert Encode(s) == es + UnitHex(s[|s| - 1]);
      assert Encode(t) == et + UnitHex(t[|t| - 1]);
      assert es == Encode(s)[..|es|] && et == Encode(t)[..|et|];
      assert UnitHex(s[|s| - 1]) == Encode(s)[|es|..] == UnitHex(t[|t| - 1]);
      EncodeInjectiveOnTwoDigitUnits(s', t');
      assert s == s' + [s[|s| - 1]] && t == t' + [t[|t| - 1]];
    }
  }

  /** A string of two-digit units has a key exactly twice its length. */
  lemma {:induction false} TwoDigitLength(s: JsString)
    requires TwoDigitUnits(s)
    ensures |Encode(s)| == 2 * |s|
    decreases |s|
  {
    if s != [] {
      var s' := s[..|s| - 1];
      assert TwoDigitUnits(s');
      TwoDigitLength(s');
    }
  }
}
