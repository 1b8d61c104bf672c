/**
 * JavaScript strings as sequences of UTF-16 code units, with the two
 * built-ins the scraper relies on: String.prototype.trim and
 * Number.prototype.toString(radix) for non-negative integers.
 */
module JsText {

  /** One UTF-16 code unit, the value String.prototype.charCodeAt returns. */
  type CodeUnit = c: int | 0 <= c < 0x1_0000

  /** A JavaScript string: its sequence of UTF-16 code units. */
  type JsString = seq<CodeUnit>

  /** The code units of a literal written in ASCII. */
  function Lit(s: string): JsString
  {
    seq(|s|, i requires 0 <= i < |s| => (s[i] as int) % 0x1_0000)
  }

  /** The code units trim() removes: ECMAScript WhiteSpace and LineTerminator. */
  predicate IsJsSpace(c: CodeUnit)
  {
    c == 0x09 || c == 0x0A || c == 0x0B || c == 0x0C || c == 0x0D || c == 0x20
    || c == 0xA0 || c == 0x1680 || (0x2000 <= c <= 0x200A) || c == 0x2028
    || c == 0x2029 || c == 0x202F || c == 0x205F || c == 0x3000 || c == 0xFEFF
  }

  /** The number of white-space code units the string starts with. */
  function LeadingSpaces(s: JsString): (n: nat)
    ensures n <= |s|
    ensures forall k :: 0 <= k < n ==> IsJsSpace(s[k])
    ensures n < |s| ==> !IsJsSpace(s[n])
  {
    if s == [] || !IsJsSpace(s[0]) then 0 else 1 + LeadingSpaces(s[1..])
  }

  /** The length of the string once its trailing white space is dropped. */
  function EndOfText(s: JsString): (n: nat)
    ensures n <= |s|
    ensures forall k :: n <= k < |s| ==> IsJsSpace(s[k])
    ensures 0 < n ==> !IsJsSpace(s[n - 1])
  {
    if s == [] || !IsJsSpace(s[|s| - 1]) then |s| else EndOfText(s[..|s| - 1])
  }

  /** String.prototype.trim: leading white space dropped, then trailing white space dropped. */
  function Trim(s: JsString): (r: JsString)
    ensures LeadingSpaces(s) + |r| <= |s|
    ensures r == s[LeadingSpaces(s)..LeadingSpaces(s) + |r|]
    ensures r == [] || (!IsJsSpace(r[0]) && !IsJsSpace(r[|r| - 1]))
    ensures forall k :: LeadingSpaces(s) + |r| <= k < |s| ==> IsJsSpace(s[k])
  {
    var t := s[LeadingSpaces(s)..];
    t[..EndOfText(t)]
  }

  /** trim() changes nothing in a string that holds no white space. */
  lemma TrimWithoutSpace(s: JsString)
    requires forall k :: 0 <= k < |s| ==> !IsJsSpace(s[k])
    ensures Trim(s) == s
  {
  }

  /** trim() changes nothing in a string that neither starts nor ends with white space. */
  lemma TrimUnpadded(s: JsString)
    requires s != [] ==> !IsJsSpace(s[0]) && !IsJsSpace(s[|s| - 1])
    ensures Trim(s) == s
  {
  }

  /** True of the digits '0'..'9' and 'a'..'z' whose value is below the radix. */
  predicate IsDigitIn(c: CodeUnit, radix: nat)
  {
    (0x30 <= c <= 0x39 || 0x61 <= c <= 0x7A) && DigitValue(c) < radix
  }

  /** The value of a digit character, lower-case letters counting from ten. */
  function DigitValue(c: CodeUnit): nat
  {
    if 0x30 <= c <= 0x39 then c - 0x30
    else if 0x61 <= c <= 0x7A then c - 0x61 + 10
    else 0
  }

  /** The digit character toString(radix) writes for the value d. */
  function DigitChar(d: nat): (c: CodeUnit)
    requires d < 36
    ensures DigitValue(c) == d
    ensures forall radix :: d < radix ==> IsDigitIn(c, radix)
  {
    if d < 10 then 0x30 + d else 0x61 + (d - 10)
  }

  /**
   * Number.prototype.toString(radix) of a non-negative integer: its digits
   * in that radix, most significant first, with no sign, no padding and no
   * leading zero.
   */
  function NumberToString(n: nat, radix: nat): (r: JsString)
    requires 2 <= radix <= 36
    ensures 1 <= |r|
    ensures forall k :: 0 <= k < |r| ==> IsDigitIn(r[k], radix)
    ensures n > 0 ==> r[0] != 0x30
    ensures n < radix <==> |r| == 1
    decreases n
  {
    if n < radix then [DigitChar(n)]
    else
      DivMod(n, radix);
      NumberToString(n / radix, radix) + [DigitChar(n % radix)]
  }

  /** The number a string of digits denotes in the given radix. */
  function DigitsValue(s: JsString, radix: nat): nat
  {
    if s == [] then 0 else DigitsValue(s[..|s| - 1], radix) * radix + DigitValue(s[|s| - 1])
  }

  /** Reading back what toString(radix) wrote gives the number again. */
  lemma {:induction false} NumberToStringValue(n: nat, radix: nat)
    requires 2 <= radix <= 36
    ensures DigitsValue(NumberToString(n, radix), radix) == n
    decreases n
  {
    var r := NumberToString(n, radix);
    if n < radix {
      assert r[..0] == [];
    } else {
      var q, d := n / radix, n % radix;
      DivMod(n, radix);
      var front := NumberToString(q, radix);
      assert r[..|r| - 1] == front && r[|r| - 1] == DigitChar(d);
      NumberToStringValue(q, radix);
      assert DigitsValue(r, radix) == DigitsValue(front, radix) * radix + DigitValue(DigitChar(d));
    }
  }

  /** Euclidean division by a radix no larger than the number. */
  lemma DivMod(n: nat, radix: nat)
    requires 2 <= radix <= n
    ensures 1 <= n / radix < n && n == (n / radix) * radix + n % radix
  {
  }
}
