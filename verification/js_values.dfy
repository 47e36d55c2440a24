/** The JavaScript values that flow through the client (decoded token claims,
    fields of server records, route parameters), with the language rules the
    client applies to them: truthiness, `||`, string conversion, `parseInt`,
    loose `==` and the SameValueZero equality of `Array.prototype.includes`.
    Numbers are integers here; see README. */
module JsValues {
  import opened JsStrings

  datatype Value = Undefined | Null | Bool(b: bool) | Num(n: int) | NaN | Str(s: string)

  /** ToBoolean (section 7.1.2 of ECMA-262). */
  predicate Truthy(v: Value) {
    match v
    case Undefined => false
    case Null => false
    case Bool(b) => b
    case Num(n) => n != 0
    case NaN => false
    case Str(s) => s != ""
  }

  /** `a || b`: the left operand when it is truthy, else the right one. */
  function Or(a: Value, b: Value): Value {
    if Truthy(a) then a else b
  }

  /** `xs.includes(x)`. SameValueZero coincides with equality of `Value`s,
      since NaN equals NaN under it and the integers have no signed zero. */
  predicate Includes(xs: seq<Value>, x: Value) {
    x in xs
  }

  /** The character for a decimal digit. */
  function DigitChar(d: nat): char
    requires d < 10
  {
    ('0' as int + d) as char
  }

  /** The decimal numeral of a natural number, without leading zeros. */
  function NatToStr(n: nat): (r: string)
    ensures r != []
    ensures forall i :: 0 <= i < |r| ==> '0' <= r[i] <= '9'
    ensures r[0] == '0' ==> n == 0
  {
    if n < 10 then [DigitChar(n)] else NatToStr(n / 10) + [DigitChar(n % 10)]
  }

  /** ToString (section 7.1.12 of ECMA-262), as used by template literals and `+`. */
  function ToStr(v: Value): string {
    match v
    case Undefined => "undefined"
    case Null => "null"
    case Bool(b) => if b then "true" else "false"
    case Num(n) => if n < 0 then "-" + NatToStr(-n) else NatToStr(n)
    case NaN => "NaN"
    case Str(s) => s
  }

  /** The value of a character as a digit in radix up to 36; 36 for a non-digit. */
  function DigitValue(c: char): nat {
    if '0' <= c <= '9' then c as nat - '0' as nat
    else if 'a' <= c <= 'z' then c as nat - 'a' as nat + 10
    else if 'A' <= c <= 'Z' then c as nat - 'A' as nat + 10
    else 36
  }

  /** The number of leading characters of `s` that are digits in `radix`. */
  function DigitPrefix(s: string, radix: nat): (k: nat)
    ensures k <= |s|
    ensures forall i :: 0 <= i < k ==> DigitValue(s[i]) < radix
    ensures k < |s| ==> DigitValue(s[k]) >= radix
  {
    if s == [] || DigitValue(s[0]) >= radix then 0 else 1 + DigitPrefix(s[1..], radix)
  }

  /** The value of a numeral whose characters are all digits in `radix`. */
  function NumeralValue(s: string, radix: nat): nat {
    if s == [] then 0 else NumeralValue(s[..|s| - 1], radix) * radix + DigitValue(s[|s| - 1])
  }

  lemma {:induction false} NumeralOfNatToStr(n: nat)
    ensures NumeralValue(NatToStr(n), 10) == n
  {
    if n >= 10 {
      var r := NatToStr(n);
      assert r[..|r| - 1] == NatToStr(n / 10);
      NumeralOfNatToStr(n / 10);
    }
  }

  /** The radix argument of `parseInt`: `parseInt(s, 10)`, or `parseInt(s)`
      which also accepts a `0x` prefix. */
  datatype Radix = Ten | Unspecified

  /** A numeral split into its sign and the text after the sign. */
  datatype Signed = Signed(negative: bool, digits: string)

  /** Takes an optional leading `+` or `-` off `t`. */
  function TakeSign(t: string): Signed {
    if t != [] && t[0] == '-' then Signed(true, t[1..])
    else if t != [] && t[0] == '+' then Signed(false, t[1..])
    else Signed(false, t)
  }

  /** `u` starts with `0x` or `0X`. */
  predicate HasHexPrefix(u: string) {
    |u| >= 2 && u[0] == '0' && (u[1] == 'x' || u[1] == 'X')
  }

  /** The number the longest run of `radix` digits at the start of `w`
      names, with the sign applied; NaN when there is no such digit. */
  function LeadingNumber(negative: bool, w: string, radix: nat): (r: Value)
    ensures r.Num? || r.NaN?
  {
    var k := DigitPrefix(w, radix);
    var magnitude: int := NumeralValue(w[..k], radix);
    if k == 0 then NaN else if negative then Num(-magnitude) else Num(magnitude)
  }

  /** `parseInt(ToStr(v), radix)` (section 19.2.5 of ECMA-262): leading white
      space, an optional sign, for an unspecified radix an optional `0x`/`0X`
      prefix that selects radix 16, then the longest run of digits; NaN when
      that run is empty. */
  function ParseInt(v: Value, radix: Radix): (r: Value)
    ensures r.Num? || r.NaN?
  {
    var sign := TakeSign(TrimStart(ToStr(v)));
    if radix == Unspecified && HasHexPrefix(sign.digits) then
      LeadingNumber(sign.negative, sign.digits[2..], 16)
    else
      LeadingNumber(sign.negative, sign.digits, 10)
  }

  /** The numeral of a number, split into sign and digits. */
  lemma SignOfToStr(n: int)
    ensures var m: nat := if n < 0 then -n else n;
            TrimStart(ToStr(Num(n))) == ToStr(Num(n)) &&
            TakeSign(ToStr(Num(n))) == Signed(n < 0, NatToStr(m))
  {
    var m: nat := if n < 0 then -n else n;
    var d := NatToStr(m);
    var s := ToStr(Num(n));
    if n < 0 {
      assert s == "-" + d;
      assert s[1..] == d;
      assert s[0] == '-';
    } else {
      assert s == d;
      assert '0' <= s[0] <= '9';
    }
    NonSpaceStart(s);
  }

  /** A string that starts with a character other than white space is its
      own `trimStart`. */
  lemma NonSpaceStart(s: string)
    requires s != [] && (s[0] == '-' || '0' <= s[0] <= '9')
    ensures TrimStart(s) == s
  {
    assert !IsSpace(s[0]);
  }

  /** A decimal numeral is read back whole. */
  lemma LeadingNumberOfNatToStr(negative: bool, m: nat)
    ensures LeadingNumber(negative, NatToStr(m), 10) == Num(if negative then -(m as int) else m)
  {
    var d := NatToStr(m);
    DecimalNumeral(m);
    assert d[..|d|] == d;
  }

  /** `parseInt` reads back the numeral `ToStr` writes for a number, in
      either radix mode. */
  lemma ParseIntOfToStr(n: int, radix: Radix)
    ensures ParseInt(Num(n), radix) == Num(n)
  {
    var m: nat := if n < 0 then -n else n;
    SignOfToStr(n);
    LeadingNumberOfNatToStr(n < 0, m);
    var d := NatToStr(m);
    assert !HasHexPrefix(d);
  }

  /** `parseInt` of undefined and null reads the words "undefined" and "null",
      which hold no digit, and so is NaN. */
  lemma ParseIntOfNullish(radix: Radix)
    ensures ParseInt(Undefined, radix) == NaN
    ensures ParseInt(Null, radix) == NaN
  {
    WordHasNoNumber("undefined", radix);
    WordHasNoNumber("null", radix);
  }

  lemma WordHasNoNumber(t: string, radix: Radix)
    requires t != [] && 'a' <= t[0] <= 'z'
    ensures ParseInt(Str(t), radix) == NaN
  {
    assert !IsSpace(t[0]);
    assert TrimStart(t) == t;
    assert TakeSign(t) == Signed(false, t);
    assert !HasHexPrefix(t);
    assert DigitPrefix(t, 10) == 0;
  }

  /** The radix a `0x`, `0o` or `0b` prefix selects in a numeric string. */
  function PrefixRadix(c: char): nat {
    if c == 'x' || c == 'X' then 16
    else if c == 'o' || c == 'O' then 8
    else if c == 'b' || c == 'B' then 2
    else 0
  }

  /** `w` is a non-empty run of `radix` digits. */
  predicate IsNumeral(w: string, radix: nat) {
    w != [] && DigitPrefix(w, radix) == |w|
  }

  /** StringToNumber (section 7.1.4.1.1 of ECMA-262) on an already trimmed,
      non-empty string holding an integer numeral. */
  function TrimmedToNumber(t: string): (r: Value)
    requires t != []
    ensures r.Num? || r.NaN?
  {
    if |t| >= 2 && t[0] == '0' && PrefixRadix(t[1]) != 0 then
      var w := t[2..];
      if IsNumeral(w, PrefixRadix(t[1])) then Num(NumeralValue(w, PrefixRadix(t[1]))) else NaN
    else
      var sign := TakeSign(t);
      var magnitude: int := NumeralValue(sign.digits, 10);
      if !IsNumeral(sign.digits, 10) then NaN
      else if sign.negative then Num(-magnitude)
      else Num(magnitude)
  }

  /** StringToNumber (section 7.1.4.1.1 of ECMA-262) for integer numerals:
      surrounding white space is ignored, the empty string is 0, a decimal
      numeral may be signed, and `0x`, `0o`, `0b` numerals are unsigned. */
  function StringToNumber(s: string): (r: Value)
    ensures r.Num? || r.NaN?
  {
    var t := Trim(s);
    if t == [] then Num(0) else TrimmedToNumber(t)
  }

  /** ToNumber (section 7.1.4 of ECMA-262). */
  function ToNumber(v: Value): (r: Value)
    ensures r.Num? || r.NaN?
  {
    match v
    case Undefined => NaN
    case Null => Num(0)
    case Bool(b) => Num(if b then 1 else 0)
    case Num(n) => v
    case NaN => NaN
    case Str(s) => StringToNumber(s)
  }

  predicate IsNullish(v: Value) {
    v.Undefined? || v.Null?
  }

  /** Loose equality `a == b` (IsLooselyEqual, section 7.2.14 of ECMA-262). */
  predicate LooseEquals(a: Value, b: Value) {
    if IsNullish(a) || IsNullish(b) then IsNullish(a) && IsNullish(b)
    else if a.Str? && b.Str? then a.s == b.s
    else if a.Bool? && b.Bool? then a.b == b.b
    else
      var x := ToNumber(a);
      var y := ToNumber(b);
      x.Num? && y.Num? && x.n == y.n
  }

  /** A numeral loosely equals the number it names, and a different number
      never does: `"7" == 7` but `"7" != 8`. */
  lemma NumeralLooselyEqualsNumber(n: int, m: int)
    ensures LooseEquals(Str(ToStr(Num(n))), Num(m)) <==> n == m
  {
    StringToNumberOfToStr(n);
    StringLooselyEqualsNumber(ToStr(Num(n)), m);
  }

  /** A string loosely equals a number when it reads as that number. */
  lemma StringLooselyEqualsNumber(s: string, m: int)
    ensures LooseEquals(Str(s), Num(m)) <==> StringToNumber(s) == Num(m)
  {
    assert !IsNullish(Str(s)) && !IsNullish(Num(m));
    assert ToNumber(Str(s)) == StringToNumber(s);
    assert ToNumber(Num(m)) == Num(m);
  }

  /** ToNumber reads back the numeral of a number. */
  lemma StringToNumberOfToStr(n: int)
    ensures StringToNumber(ToStr(Num(n))) == Num(n)
  {
    TrimOfNumeral(n);
    TrimmedNumeral(n);
  }

  /** The numeral of a number, already trimmed, is read back. */
  lemma TrimmedNumeral(n: int)
    ensures ToStr(Num(n)) != []
    ensures TrimmedToNumber(ToStr(Num(n))) == Num(n)
  {
    var m: nat := if n < 0 then -n else n;
    var d := NatToStr(m);
    var s := ToStr(Num(n));
    SignOfToStr(n);
    NoRadixPrefixInNumeral(n);
    DecimalNumeral(m);
    assert TakeSign(s) == Signed(n < 0, d);
  }

  /** The decimal numeral of `m` is all digits and names `m`. */
  lemma DecimalNumeral(m: nat)
    ensures IsNumeral(NatToStr(m), 10)
    ensures NumeralValue(NatToStr(m), 10) == m
  {
    var d := NatToStr(m);
    NumeralOfNatToStr(m);
    assert DigitPrefix(d, 10) == |d|;
  }

  /** A numeral has no surrounding white space. */
  lemma TrimOfNumeral(n: int)
    ensures Trim(ToStr(Num(n))) == ToStr(Num(n))
  {
    SignOfToStr(n);
    TrimEndOfNumeral(n);
  }

  /** A decimal numeral never looks like a `0x`, `0o` or `0b` numeral. */
  lemma NoRadixPrefixInNumeral(n: int)
    ensures var s := ToStr(Num(n)); |s| >= 2 ==> PrefixRadix(s[1]) == 0
  {
    var m: nat := if n < 0 then -n else n;
    var d := NatToStr(m);
    var s := ToStr(Num(n));
    if |s| >= 2 {
      if n < 0 {
        assert s[1] == d[0];
      } else {
        assert s[1] == d[1];
      }
      assert '0' <= s[1] <= '9';
    }
  }

  /** A numeral ends with a digit, so `trimEnd` keeps it. */
  lemma TrimEndOfNumeral(n: int)
    ensures TrimEnd(ToStr(Num(n))) == ToStr(Num(n))
  {
    var s := ToStr(Num(n));
    assert '0' <= s[|s| - 1] <= '9';
  }
}
