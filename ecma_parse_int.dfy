/**
  The global `parseInt(string)` of ECMAScript called without a radix
  (ECMA-262, section 19.2.5 "parseInt ( string, radix )"), and the decimal
  rendering that a template literal gives a non-negative integer Number
  (ECMA-262, section 6.1.6.1.20 "Number::toString").
*/
module EcmaParseInt {
  import opened Wrappers

  /** The two radixes `parseInt` uses when no radix is passed. */
  type Radix = r: nat | r == 10 || r == 16 witness 10

  /** The WhiteSpace and LineTerminator code points that TrimString(…, start)
      removes (ECMA-262, sections 12.2 and 12.3). */
  predicate IsJsWhitespace(c: char) {
    || c == '\U{0009}' || c == '\U{000B}' || c == '\U{000C}' || c == '\U{FEFF}'
    || c == '\U{0020}' || c == '\U{00A0}' || c == '\U{1680}'
    || ('\U{2000}' <= c <= '\U{200A}')
    || c == '\U{202F}' || c == '\U{205F}' || c == '\U{3000}'
    || c == '\U{000A}' || c == '\U{000D}' || c == '\U{2028}' || c == '\U{2029}'
  }

  predicate IsRadixDigit(c: char, radix: Radix) {
    || ('0' <= c <= '9')
    || (radix == 16 && (('a' <= c <= 'f') || ('A' <= c <= 'F')))
  }

  predicate AllDigits(z: string, radix: Radix) {
    forall i :: 0 <= i < |z| ==> IsRadixDigit(z[i], radix)
  }

  function DigitValue(c: char, radix: Radix): (d: nat)
    requires IsRadixDigit(c, radix)
    ensures d < radix
    ensures ('0' <= c <= '9') <==> d < 10
  {
    if '0' <= c <= '9' then c as int - '0' as int
    else if 'a' <= c <= 'f' then c as int - 'a' as int + 10
    else c as int - 'A' as int + 10
  }

  /** The integer a digit string denotes in the given radix, most significant digit first. */
  function Value(z: string, radix: Radix): nat
    requires AllDigits(z, radix)
    decreases |z|
  {
    if z == [] then 0
    else if radix == 10 then Value(z[..|z| - 1], radix) * 10 + DigitValue(z[|z| - 1], radix)
    else Value(z[..|z| - 1], radix) * 16 + DigitValue(z[|z| - 1], radix)
  }

  /** TrimString(s, start): the suffix left after dropping all leading white space. */
  function TrimStart(s: string): (r: string)
    ensures |r| <= |s| && r == s[|s| - |r|..]
    ensures forall i :: 0 <= i < |s| - |r| ==> IsJsWhitespace(s[i])
    ensures r == [] || !IsJsWhitespace(r[0])
  {
    if s != [] && IsJsWhitespace(s[0]) then TrimStart(s[1..]) else s
  }

  /** The longest prefix of `s` made of radix digits (steps 9-10 of parseInt). */
  function DigitPrefix(s: string, radix: Radix): (z: string)
    ensures z <= s
    ensures AllDigits(z, radix)
    ensures |z| == |s| || !IsRadixDigit(s[|z|], radix)
  {
    if s != [] && IsRadixDigit(s[0], radix) then [s[0]] + DigitPrefix(s[1..], radix) else []
  }

  predicate HasHexPrefix(u: string) {
    |u| >= 2 && u[0] == '0' && (u[1] == 'x' || u[1] == 'X')
  }

  /** Steps 10-12: the digits at the start of `body`, if there are any. */
  function ParseRadix(body: string, radix: Radix): Option<nat> {
    var z := DigitPrefix(body, radix);
    if z == [] then None else Some(Value(z, radix))
  }

  /** The digits give a number exactly when the text starts with a digit. */
  lemma ParseRadixSomeIff(body: string, radix: Radix)
    ensures ParseRadix(body, radix).Some? <==> body != [] && IsRadixDigit(body[0], radix)
  {
    var z := DigitPrefix(body, radix);
    if z != [] {
      assert body[0] == z[0];
    }
  }

  /** Steps 8-12: a "0x" or "0X" prefix switches to radix 16. */
  function ParseUnsigned(u: string): Option<nat> {
    if HasHexPrefix(u) then ParseRadix(u[2..], 16) else ParseRadix(u, 10)
  }

  /** Steps 3-4 and 13-14: an optional sign in front of the digits. */
  function ParseSigned(t: string): Option<int> {
    if t != [] && t[0] == '-' then
      match ParseUnsigned(t[1..])
      case None => None
      case Some(v) => Some(-(v as int))
    else if t != [] && t[0] == '+' then ParseUnsigned(t[1..])
    else ParseUnsigned(t)
  }

  /** parseInt(s) with the radix undefined; `None` stands for NaN. A result of
      -0 is the integer 0, which is what `===` makes of it. */
  function ParseInt(s: string): Option<int> {
    ParseSigned(TrimStart(s))
  }

  /** A reading of a string as parseInt accepts it: white space, an optional
      sign, an optional hexadecimal prefix, at least one digit, and whatever
      follows the digits. */
  datatype Numeral = Numeral(lead: string, sign: string, prefix: string, digits: string, rest: string)
  {
    function Text(): string {
      lead + (sign + (prefix + (digits + rest)))
    }

    function Base(): Radix {
      if prefix == "" then 10 else 16
    }

    predicate WellFormed() {
      && (forall i :: 0 <= i < |lead| ==> IsJsWhitespace(lead[i]))
      && (sign == "" || sign == "+" || sign == "-")
      && (prefix == "" || prefix == "0x" || prefix == "0X")
      && digits != [] && AllDigits(digits, Base())
      && (rest == [] || !IsRadixDigit(rest[0], Base()))
      // without a prefix, "0x…" would have been read as hexadecimal
      && (prefix == "" ==> !HasHexPrefix(digits + rest))
    }

    function Denotes(): int
      requires WellFormed()
    {
      if sign == "-" then -(Value(digits, Base()) as int) else Value(digits, Base())
    }
  }

  lemma {:induction false} TrimStartOf(lead: string, x: string)
    requires forall i :: 0 <= i < |lead| ==> IsJsWhitespace(lead[i])
    requires x != [] && !IsJsWhitespace(x[0])
    ensures TrimStart(lead + x) == x
  {
    if lead == [] {
      assert lead + x == x;
    } else {
      assert (lead + x)[1..] == lead[1..] + x;
      TrimStartOf(lead[1..], x);
    }
  }

  lemma {:induction false} DigitPrefixOf(z: string, rest: string, radix: Radix)
    requires AllDigits(z, radix)
    requires rest == [] || !IsRadixDigit(rest[0], radix)
    ensures DigitPrefix(z + rest, radix) == z
  {
    if z == [] {
      assert z + rest == rest;
    } else {
      assert (z + rest)[1..] == z[1..] + rest;
      DigitPrefixOf(z[1..], rest, radix);
    }
  }

  lemma ParseUnsignedOf(prefix: string, digits: string, rest: string, radix: Radix)
    requires prefix == "" || prefix == "0x" || prefix == "0X"
    requires radix == if prefix == "" then 10 else 16
    requires digits != [] && AllDigits(digits, radix)
    requires rest == [] || !IsRadixDigit(rest[0], radix)
    requires prefix == "" ==> !HasHexPrefix(digits + rest)
    ensures ParseUnsigned(prefix + (digits + rest)) == Some(Value(digits, radix))
  {
    DigitPrefixOf(digits, rest, radix);
    var u := prefix + (digits + rest);
    if prefix != "" {
      assert u[2..] == digits + rest;
    } else {
      assert u == digits + rest;
    }
  }

  lemma ParseSignedOf(sign: string, u: string, v: nat)
    requires sign == "" || sign == "+" || sign == "-"
    requires u != [] && u[0] != '+' && u[0] != '-'
    requires ParseUnsigned(u) == Some(v)
    ensures ParseSigned(sign + u) == Some(if sign == "-" then -(v as int) else v)
  {
    if sign != "" {
      assert (sign + u)[1..] == u;
    } else {
      assert sign + u == u;
    }
  }

  lemma DigitIsNotSpaceOrSign(c: char)
    requires '0' <= c <= '9'
    ensures !IsJsWhitespace(c) && c != '+' && c != '-'
  {
  }

  /** Every well-formed reading is parsed to the integer it denotes. */
  lemma ParseIntOfNumeral(p: Numeral)
    requires p.WellFormed()
    ensures ParseInt(p.Text()) == Some(p.Denotes())
  {
    var u := p.prefix + (p.digits + p.rest);
    var x := p.sign + u;
    var v := Value(p.digits, p.Base());
    assert u != [] && '0' <= u[0] <= '9' by {
      if p.prefix != "" {
        assert u[0] == p.prefix[0];
      } else {
        assert u[0] == p.digits[0];
      }
    }
    DigitIsNotSpaceOrSign(u[0]);
    assert ParseUnsigned(u) == Some(v) by {
      ParseUnsignedOf(p.prefix, p.digits, p.rest, p.Base());
    }
    assert ParseSigned(x) == Some(p.Denotes()) by {
      ParseSignedOf(p.sign, u, v);
    }
    assert TrimStart(p.Text()) == x by {
      assert x[0] == if p.sign != "" then p.sign[0] else u[0];
      TrimStartOf(p.lead, x);
    }
  }

  lemma EmptyAppend(x: string)
    ensures "" + x == x
  {
  }

  lemma {:induction false} SplitAt(s: string, k: nat)
    requires k <= |s|
    ensures s == s[..k] + s[k..]
  {
  }

  lemma SplitSign(t: string) returns (sign: string, u: string)
    ensures sign == "" || sign == "+" || sign == "-"
    ensures t == sign + u
    ensures ParseSigned(t) == match ParseUnsigned(u)
      case None => None
      case Some(v) => Some(if sign == "-" then -(v as int) else v)
  {
    if t != [] && (t[0] == '+' || t[0] == '-') {
      sign, u := [t[0]], t[1..];
      assert t == [t[0]] + t[1..];
    } else {
      sign, u := "", t;
      assert t == sign + u;
    }
  }

  /** Every successful parse comes from a well-formed reading of the input. */
  lemma ParseIntHasNumeral(s: string) returns (p: Numeral)
    requires ParseInt(s).Some?
    ensures p.WellFormed() && p.Text() == s && p.Denotes() == ParseInt(s).value
  {
    var t := TrimStart(s);
    var lead := s[..|s| - |t|];
    SplitAt(s, |s| - |t|);
    var sign, u := SplitSign(t);
    var q := UnsignedHasNumeral(u);
    p := WithLeadAndSign(lead, sign, q);
  }

  /** A reading of the unsigned part, with white space and a sign put in front. */
  lemma WithLeadAndSign(lead: string, sign: string, q: Numeral) returns (p: Numeral)
    requires forall i :: 0 <= i < |lead| ==> IsJsWhitespace(lead[i])
    requires sign == "" || sign == "+" || sign == "-"
    requires q.lead == [] && q.sign == [] && q.WellFormed()
    ensures p.WellFormed() && p.Base() == q.Base() && p.digits == q.digits
    ensures p.Text() == lead + (sign + (q.prefix + (q.digits + q.rest)))
    ensures p.Denotes() == if sign == "-" then -(Value(q.digits, q.Base()) as int) else Value(q.digits, q.Base())
  {
    p := Numeral(lead, sign, q.prefix, q.digits, q.rest);
  }

  lemma UnsignedHasNumeral(u: string) returns (p: Numeral)
    requires ParseUnsigned(u).Some?
    ensures p.lead == [] && p.sign == [] && p.WellFormed() && p.prefix + (p.digits + p.rest) == u
    ensures ParseUnsigned(u) == Some(Value(p.digits, p.Base()))
  {
    var radix: Radix, prefix, body;
    if HasHexPrefix(u) {
      radix, prefix, body := 16, u[..2], u[2..];
      SplitAt(u, 2);
      assert prefix == [u[0], u[1]];
    } else {
      radix, prefix, body := 10, "", u;
      assert u == prefix + body;
    }
    var z := DigitPrefix(body, radix);
    var rest := body[|z|..];
    SplitAt(body, |z|);
    assert z == body[..|z|];
    p := Numeral("", "", prefix, z, rest);
    assert p.Base() == radix;
  }

  /** parseInt yields `n` exactly when the input has a well-formed reading denoting `n`. */
  lemma ParseIntSomeIff(s: string, n: int)
    ensures ParseInt(s) == Some(n) <==> exists p: Numeral :: p.WellFormed() && p.Text() == s && p.Denotes() == n
  {
    if ParseInt(s) == Some(n) {
      var p := ParseIntHasNumeral(s);
    }
    if exists p: Numeral :: p.WellFormed() && p.Text() == s && p.Denotes() == n {
      var p: Numeral :| p.WellFormed() && p.Text() == s && p.Denotes() == n;
      ParseIntOfNumeral(p);
    }
  }

  /** parseInt yields NaN exactly when the input has no well-formed reading. */
  lemma ParseIntNoneIff(s: string)
    ensures ParseInt(s) == None <==> forall p: Numeral :: p.WellFormed() ==> p.Text() != s
  {
    if ParseInt(s).Some? {
      var p := ParseIntHasNumeral(s);
    }
    forall p: Numeral | p.WellFormed() && p.Text() == s
      ensures ParseInt(s).Some?
    {
      ParseIntOfNumeral(p);
    }
  }

  /** Leading white space never changes the result. */
  lemma {:induction false} ParseIntSkipsWhitespace(w: string, s: string)
    requires forall i :: 0 <= i < |w| ==> IsJsWhitespace(w[i])
    ensures ParseInt(w + s) == ParseInt(s)
  {
    TrimStartSkips(w, s);
  }

  lemma {:induction false} TrimStartSkips(w: string, s: string)
    requires forall i :: 0 <= i < |w| ==> IsJsWhitespace(w[i])
    ensures TrimStart(w + s) == TrimStart(s)
  {
    if w == [] {
      assert w + s == s;
    } else {
      assert (w + s)[1..] == w[1..] + s;
      TrimStartSkips(w[1..], s);
    }
  }

  function DecimalDigit(d: nat): (c: char)
    requires d < 10
    ensures IsRadixDigit(c, 10) && DigitValue(c, 10) == d
  {
    ('0' as int + d) as char
  }

  /** The decimal string of a non-negative integer, as `${n}` renders an
      integer Number below 10^21: digits only, no leading zero. */
  function DecimalString(n: nat): (s: string)
    ensures s != [] && AllDigits(s, 10)
    ensures s[0] == '0' <==> n == 0
    ensures n == 0 ==> s == "0"
  {
    if n < 10 then [DecimalDigit(n)] else DecimalString(n / 10) + [DecimalDigit(n % 10)]
  }

  lemma {:induction false} ValueOfDecimalString(n: nat)
    ensures Value(DecimalString(n), 10) == n
  {
    var s := DecimalString(n);
    if n >= 10 {
      assert s[..|s| - 1] == DecimalString(n / 10);
      ValueOfDecimalString(n / 10);
    }
  }

  /** parseInt reads back the decimal string of `n`, also when other text
      follows it, provided that text does not go on with a digit (and, after
      "0", does not turn it into a hexadecimal prefix). */
  lemma ParseIntDecimalString(n: nat, tail: string)
    requires tail == [] || !IsRadixDigit(tail[0], 10)
    requires n == 0 && tail != [] ==> tail[0] != 'x' && tail[0] != 'X'
    ensures ParseInt(DecimalString(n) + tail) == Some(n)
  {
    var p := Numeral("", "", "", DecimalString(n), tail);
    EmptyAppend(DecimalString(n) + tail);
    ValueOfDecimalString(n);
    ParseIntOfNumeral(p);
  }

  /** A sign before the decimal string: a minus negates it, a plus keeps it. */
  lemma ParseIntSignedDecimalString(sign: string, n: nat, tail: string)
    requires sign == "+" || sign == "-"
    requires tail == [] || !IsRadixDigit(tail[0], 10)
    requires n == 0 && tail != [] ==> tail[0] != 'x' && tail[0] != 'X'
    ensures ParseInt(sign + (DecimalString(n) + tail)) == Some(if sign == "-" then -(n as int) else n)
  {
    var p := Numeral("", sign, "", DecimalString(n), tail);
    EmptyAppend(DecimalString(n) + tail);
    EmptyAppend(sign + (DecimalString(n) + tail));
    ValueOfDecimalString(n);
    ParseIntOfNumeral(p);
  }

  /** The decimal string of `n` parses back to `n`. */
  lemma ParseIntRoundTrip(n: nat)
    ensures ParseInt(DecimalString(n)) == Some(n)
  {
    ParseIntDecimalString(n, "");
    assert DecimalString(n) + "" == DecimalString(n);
  }

  // ---------------------------------------------------------------------------
  // Examples: one input per lemma keeps each computation on a literal small.

  /** Parsing stops at the first character that is not a digit. */
  lemma ParseIntTrailingLetters()
    ensures ParseInt("3abc") == Some(3)
  {
    ParseIntDecimalString(3, "abc");
    assert DecimalString(3) + "abc" == "3abc";
  }

  /** A decimal point is not a digit: the fraction is dropped. */
  lemma ParseIntTrailingFraction()
    ensures ParseInt("3.5") == Some(3)
  {
    ParseIntDecimalString(3, ".5");
    assert DecimalString(3) + ".5" == "3.5";
  }

  lemma ParseIntPlusSign()
    ensures ParseInt("+7") == Some(7)
  {
    ParseIntSignedDecimalString("+", 7, "");
    assert "+" + (DecimalString(7) + "") == "+7";
  }

  /** "0x" switches to radix 16. */
  lemma ParseIntHexadecimal()
    ensures ParseInt("0xA") == Some(10)
  {
    var p := Numeral("", "", "0x", "A", "");
    assert p.WellFormed();
    ParseIntOfNumeral(p);
    assert p.Text() == "0xA";
  }

  /** -0 compares equal to 0. */
  lemma ParseIntMinusZero()
    ensures ParseInt("-0") == Some(0)
  {
    ParseIntSignedDecimalString("-", 0, "");
    assert "-" + (DecimalString(0) + "") == "-0";
  }

  lemma ParseIntMinusOne()
    ensures ParseInt("-1") == Some(-1)
  {
    ParseIntSignedDecimalString("-", 1, "");
    assert "-" + (DecimalString(1) + "") == "-1";
  }

  /** A hexadecimal prefix with no digit after it is NaN, not 0. */
  lemma ParseIntBareHexPrefix()
    ensures ParseInt("0x") == None
  {
    assert !IsJsWhitespace('0');
    assert HasHexPrefix("0x");
    assert "0x"[2..] == [];
  }

  /** Text with no leading digit is NaN. */
  lemma ParseIntWord()
    ensures ParseInt("banana") == None
  {
    assert !IsJsWhitespace('b');
    assert !HasHexPrefix("banana");
  }
}
