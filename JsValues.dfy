/** The few JavaScript value semantics that the build script's filters depend on:
    the values a front-matter key can hold, truthiness (the `&&` at gulpfile.js:230)
    and loose equality against `false` (the `== false` at gulpfile.js:169 and 230),
    following the Abstract Equality Comparison of ECMA-262 (section 7.2.15 of the
    2020 edition) and its StringToNumber conversion (section 7.1.4.1). */
module JsValues {

  /** A scalar front-matter value as the YAML parser hands it over. `Undefined` is
      what reading a missing key yields. Numbers are the finite ones: NaN and the
      infinities are not represented. */
  datatype JsValue = Undefined | Null | Bool(b: bool) | Num(n: real) | Str(s: string)

  /** Front matter: the mapping from keys to values attached to each post file. */
  type FrontMatter = map<string, JsValue>

  /** Property read `frontMatter.key`: a missing key reads as undefined. */
  function Get(fm: FrontMatter, key: string): (v: JsValue)
    ensures key !in fm ==> v == Undefined
    ensures key in fm ==> v == fm[key]
  {
    if key in fm then fm[key] else Undefined
  }

  /** ToBoolean: undefined, null, false, 0 and the empty string are falsy. */
  predicate Truthy(v: JsValue)
  {
    match v
    case Undefined => false
    case Null => false
    case Bool(b) => b
    case Num(n) => n != 0.0
    case Str(s) => s != ""
  }

  /** The characters StringToNumber trims: WhiteSpace (tab, vertical tab, form
      feed, the space separators of category Zs, the byte-order mark) and
      LineTerminator (line feed, carriage return, line and paragraph separators). */
  predicate IsJsWhiteSpace(c: char)
  {
    c == '\t' || c == '\U{000B}' || c == '\U{000C}' || c == ' ' || c == '\U{00A0}' ||
    c == '\U{FEFF}' || c == '\U{1680}' || ('\U{2000}' <= c <= '\U{200A}') ||
    c == '\U{202F}' || c == '\U{205F}' || c == '\U{3000}' ||
    c == '\n' || c == '\r' || c == '\U{2028}' || c == '\U{2029}'
  }

  /** `s` with leading and trailing JavaScript white space removed. */
  function Trim(s: string): (t: string)
    ensures |t| <= |s|
    decreases |s|
  {
    if s == [] then s
    else if IsJsWhiteSpace(s[0]) then Trim(s[1..])
    else if IsJsWhiteSpace(s[|s| - 1]) then Trim(s[..|s| - 1])
    else s
  }

  predicate IsDecimalDigit(c: char) { '0' <= c <= '9' }

  predicate AllDecimalDigits(s: string)
  {
    forall i :: 0 <= i < |s| ==> IsDecimalDigit(s[i])
  }

  /** A StrUnsignedDecimalLiteral mantissa (`1.5`, `.5`, `3.`, `10`) whose value is
      zero: only zeros and at most one decimal point, with at least one zero. */
  predicate IsZeroMantissa(m: string)
  {
    (forall i :: 0 <= i < |m| ==> m[i] == '0' || m[i] == '.') &&
    multiset(m)['.'] <= 1 && multiset(m)['0'] >= 1
  }

  /** An ExponentPart without its `e`: an optional sign and at least one digit. */
  predicate IsExponentDigits(e: string)
  {
    if e != [] && (e[0] == '+' || e[0] == '-') then |e| >= 2 && AllDecimalDigits(e[1..])
    else |e| >= 1 && AllDecimalDigits(e)
  }

  /** The position of the first `e` or `E`, or |s| when there is none. */
  function ExponentMark(s: string): (k: nat)
    ensures k <= |s|
    ensures k < |s| ==> s[k] == 'e' || s[k] == 'E'
    ensures forall j :: 0 <= j < k ==> s[j] != 'e' && s[j] != 'E'
  {
    if s == [] then 0
    else if s[0] == 'e' || s[0] == 'E' then 0
    else 1 + ExponentMark(s[1..])
  }

  /** An unsigned decimal literal with an optional exponent whose value is zero. */
  predicate IsZeroUnsignedDecimal(u: string)
  {
    var k := ExponentMark(u);
    IsZeroMantissa(u[..k]) && (k == |u| || IsExponentDigits(u[k + 1..]))
  }

  /** A StrDecimalLiteral (optionally signed) whose value is zero: `0`, `-0`, `+0.0`, `0e7`. */
  predicate IsZeroDecimalLiteral(t: string)
  {
    if t != [] && (t[0] == '+' || t[0] == '-') then IsZeroUnsignedDecimal(t[1..])
    else IsZeroUnsignedDecimal(t)
  }

  /** A NonDecimalIntegerLiteral (`0x..`, `0o..`, `0b..`) whose value is zero. */
  predicate IsZeroRadixLiteral(t: string)
  {
    |t| >= 3 && t[0] == '0' &&
    (t[1] == 'x' || t[1] == 'X' || t[1] == 'o' || t[1] == 'O' || t[1] == 'b' || t[1] == 'B') &&
    forall i :: 2 <= i < |t| ==> t[i] == '0'
  }

  /** StringToNumber(s) is +0 or -0: the trimmed string is empty or a numeric
      literal whose value is zero. Every other string converts to a non-zero
      number or to NaN. */
  predicate StringToNumberIsZero(s: string)
  {
    var t := Trim(s);
    t == "" || IsZeroDecimalLiteral(t) || IsZeroRadixLiteral(t)
  }

  /** `v == false`. The boolean operand converts to the number 0, so a boolean
      compares by value, a number against 0, a string after StringToNumber, and
      undefined and null are never loosely equal to a number. */
  predicate LooselyEqualsFalse(v: JsValue)
  {
    match v
    case Undefined => false
    case Null => false
    case Bool(b) => !b
    case Num(n) => n == 0.0
    case Str(s) => StringToNumberIsZero(s)
  }

  /** The values loosely equal to `false`, listed per kind. */
  lemma LooselyEqualsFalseCases(v: JsValue)
    ensures LooselyEqualsFalse(v) <==>
      v == Bool(false) || v == Num(0.0) || (v.Str? && StringToNumberIsZero(v.s))
  {
  }

  /** The values the blog's front matter uses to keep a post: a missing key, `true`,
      and the string "false" (which converts to NaN) are not loosely equal to `false`. */
  lemma KeptValuesExamples()
    ensures !LooselyEqualsFalse(Undefined) && !LooselyEqualsFalse(Null)
    ensures !LooselyEqualsFalse(Bool(true)) && !LooselyEqualsFalse(Num(1.0))
    ensures !LooselyEqualsFalse(Str("false"))
  {
    var t := "false";
    assert Trim(t) == t;
    assert !IsZeroRadixLiteral(t) by { assert t[0] == 'f'; }
    assert !IsZeroDecimalLiteral(t) by {
      assert ExponentMark(t) == 4;
      assert !IsZeroMantissa(t[..4]) by { assert t[..4][0] == 'f'; }
    }
  }

  /** `false`, `0`, the empty string and "0" are all loosely equal to `false`. */
  lemma DroppedValuesExamples()
    ensures LooselyEqualsFalse(Bool(false)) && LooselyEqualsFalse(Num(0.0))
    ensures LooselyEqualsFalse(Str("")) && LooselyEqualsFalse(Str("0"))
  {
    assert Trim("0") == "0";
    assert ExponentMark("0") == 1;
    assert ("0")[..1] == "0";
    assert multiset("0")['0'] == 1;
  }

  /** StringToNumber trims white space, so a blank string converts to zero. */
  lemma BlankStringExample()
    ensures LooselyEqualsFalse(Str(" \n"))
  {
    assert Trim(" \n") == "";
  }

  /** StringToNumber reads a sign, a fraction and an exponent. */
  lemma SignedZeroStringExample()
    ensures LooselyEqualsFalse(Str("-0.0e3"))
  {
    var t := "-0.0e3";
    assert Trim(t) == t;
    assert t[1..] == "0.0e3";
    ZeroWithExponent();
  }

  /** `0.0e3` is an unsigned decimal literal whose value is zero. */
  lemma ZeroWithExponent()
    ensures IsZeroUnsignedDecimal("0.0e3")
  {
    var u := "0.0e3";
    assert ExponentMark(u) == 3;
    assert u[..3] == "0.0";
    ZeroFraction();
    assert IsExponentDigits(u[4..]) by { assert u[4..] == "3"; }
  }

  /** `0.0` is a mantissa whose value is zero. */
  lemma ZeroFraction()
    ensures IsZeroMantissa("0.0")
  {
    assert multiset("0.0")['0'] == 2 && multiset("0.0")['.'] == 1;
  }

  /** StringToNumber reads hexadecimal, octal and binary literals. */
  lemma RadixZeroStringExample()
    ensures LooselyEqualsFalse(Str("0x00"))
  {
    assert Trim("0x00") == "0x00";
  }

  /** A non-zero fraction is not zero. */
  lemma NonZeroFractionExample()
    ensures !LooselyEqualsFalse(Str("0.1"))
  {
    assert Trim("0.1") == "0.1";
    assert ("0.1")[2] == '1';
    assert ExponentMark("0.1") == 3;
  }

  /** A radix prefix without digits is not a number, so it is not zero. */
  lemma BareRadixPrefixExample()
    ensures !LooselyEqualsFalse(Str("0x"))
  {
    assert Trim("0x") == "0x";
    assert ExponentMark("0x") == 2;
    assert ("0x")[..2][1] == 'x';
  }

  /** A truthy value loosely equal to `false` can only be a non-empty string that
      converts to zero, such as "0" or " ". */
  lemma TruthyAndLooselyFalse(v: JsValue)
    ensures Truthy(v) && LooselyEqualsFalse(v) <==>
      v.Str? && v.s != "" && StringToNumberIsZero(v.s)
  {
  }
}
