/** Octal numerals as the archive header stores them: printing, padding and JavaScript's `parseInt(text, 8)`. */
module Octal {
  import opened Sequences

  type Byte = b: int | 0 <= b < 256
  type Bytes = seq<Byte>

  const NUL: Byte := 0
  const SPACE: Byte := 32
  const PLUS: Byte := 43
  const MINUS: Byte := 45
  const DIGIT_0: Byte := 48

  predicate IsOctalDigit(b: Byte) { 48 <= b <= 55 }

  predicate IsBlank(b: Byte) { 9 <= b <= 13 || b == SPACE }

  predicate IsNotNul(b: Byte) { b != NUL }

  predicate OctalDigits(s: Bytes) { forall i :: 0 <= i < |s| ==> IsOctalDigit(s[i]) }

  function Zeros(n: nat): (z: Bytes)
    ensures |z| == n && forall i :: 0 <= i < n ==> z[i] == NUL
  {
    seq(n, _ => NUL)
  }

  predicate AllZero(s: Bytes) { forall i :: 0 <= i < |s| ==> s[i] == NUL }

  function Pow8(n: nat): (p: nat)
    ensures p >= 1
  {
    if n == 0 then 1 else 8 * Pow8(n - 1)
  }

  /** `n.toString(8)` as ASCII. */
  function Numeral(n: nat): (s: Bytes)
    ensures s != [] && OctalDigits(s)
  {
    if n < 8 then [DIGIT_0 + n] else Numeral(n / 8) + [DIGIT_0 + n % 8]
  }

  /** `n.toString(8).padStart(width, '0')`. */
  function Padded(width: nat, n: nat): (s: Bytes)
    ensures |s| >= width && s != [] && OctalDigits(s)
  {
    var text := Numeral(n);
    if |text| >= width then text else seq(width - |text|, _ => DIGIT_0) + text
  }

  /** What a string of octal digits denotes. */
  function Value(s: Bytes): nat
    requires OctalDigits(s)
  {
    if s == [] then 0 else 8 * Value(s[..|s| - 1]) + (s[|s| - 1] - DIGIT_0)
  }

  lemma {:induction false} ValueOfNumeral(n: nat)
    ensures Value(Numeral(n)) == n
  {
    if n >= 8 {
      ValueOfNumeral(n / 8);
      assert Numeral(n)[..|Numeral(n)| - 1] == Numeral(n / 8);
    }
  }

  lemma {:induction false} ValueOfLeadingZeros(k: nat, s: Bytes)
    requires OctalDigits(s)
    ensures var z: Bytes := seq(k, _ => DIGIT_0); OctalDigits(z + s) && Value(z + s) == Value(s)
  {
    var z: Bytes := seq(k, _ => DIGIT_0);
    if s == [] {
      if k > 0 {
        var z': Bytes := seq(k - 1, _ => DIGIT_0);
        ValueOfLeadingZeros(k - 1, s);
        assert (z + s)[..|z + s| - 1] == z' + s;
      }
    } else {
      ValueOfLeadingZeros(k, s[..|s| - 1]);
      assert (z + s)[..|z + s| - 1] == z + s[..|s| - 1];
    }
  }

  lemma ValueOfPadded(width: nat, n: nat)
    ensures Value(Padded(width, n)) == n
  {
    ValueOfNumeral(n);
    if |Numeral(n)| < width {
      ValueOfLeadingZeros(width - |Numeral(n)|, Numeral(n));
    }
  }

  lemma {:induction false} ValueBound(s: Bytes)
    requires OctalDigits(s)
    ensures Value(s) < Pow8(|s|)
  {
    if s != [] {
      ValueBound(s[..|s| - 1]);
    }
  }

  lemma {:induction false} NumeralLength(width: nat, n: nat)
    requires width > 0
    ensures |Numeral(n)| <= width <==> n < Pow8(width)
  {
    if n < 8 {
      assert 8 * Pow8(width - 1) == Pow8(width);
    } else if width == 1 {
      assert Pow8(1) == 8 * Pow8(0);
    } else {
      NumeralLength(width - 1, n / 8);
    }
  }

  /** Padding is exact precisely for the numbers that fit. */
  lemma PaddedLength(width: nat, n: nat)
    requires width > 0
    ensures |Padded(width, n)| == width <==> n < Pow8(width)
  {
    NumeralLength(width, n);
  }

  lemma PaddedInjective(width: nat, m: nat, n: nat)
    ensures Padded(width, m) == Padded(width, n) <==> m == n
  {
    ValueOfPadded(width, m);
    ValueOfPadded(width, n);
  }

  // ----- reading -----

  function LeadingDigits(s: Bytes): (d: Bytes)
    ensures OctalDigits(d)
  {
    if s != [] && IsOctalDigit(s[0]) then [s[0]] + LeadingDigits(s[1..]) else []
  }

  /** `parseInt(text, 8)`; `None` is NaN. */
  function ParseInt8(text: Bytes): Option<int> {
    var s := TrimStart(text, IsBlank);
    var negative := s != [] && s[0] == MINUS;
    var digits := LeadingDigits(if s != [] && (s[0] == MINUS || s[0] == PLUS) then s[1..] else s);
    var magnitude: int := Value(digits);
    if digits == [] then None else Some(if negative then -magnitude else magnitude)
  }

  /** `field.toString().replace(/\0/g, '').trim()`. */
  function FieldText(field: Bytes): Bytes {
    Trim(Filter(field, IsNotNul), IsBlank)
  }

  function ParseField(field: Bytes): Option<int> {
    var text := FieldText(field);
    ParseInt8(if text == [] then [DIGIT_0] else text)
  }

  /** Tab, line feed, vertical tab, form feed, carriage return and space. */
  lemma BlanksAre(b: Byte)
    ensures IsBlank(b) <==> b in {9, 10, 11, 12, 13, 32}
  {
  }

  lemma {:induction false} DigitsLead(digits: Bytes, rest: Bytes)
    requires OctalDigits(digits) && (rest == [] || !IsOctalDigit(rest[0]))
    ensures LeadingDigits(digits + rest) == digits
  {
    if digits == [] {
      assert digits + rest == rest;
    } else {
      assert (digits + rest)[1..] == digits[1..] + rest;
      DigitsLead(digits[1..], rest);
    }
  }

  function SignedValue(sign: Bytes, digits: Bytes): int
    requires OctalDigits(digits)
  {
    var n: int := Value(digits);
    if sign == [MINUS] then -n else n
  }

  lemma SignedDigits(sign: Bytes, digits: Bytes, rest: Bytes)
    requires sign in {[], [PLUS], [MINUS]} && digits != [] && OctalDigits(digits)
    requires rest == [] || !IsOctalDigit(rest[0])
    ensures ParseInt8(sign + digits + rest) == Some(SignedValue(sign, digits))
  {
    hide Value;
    var text := sign + digits + rest;
    DigitsLead(digits, rest);
    assert text[|sign|..] == digits + rest;
    assert IsOctalDigit(digits[0]) && text[|sign|] == digits[0];
  }

  /** A field of any origin, its NULs left out, is the number after its blanks: a sign if any, and octal digits as far
      as they go. */
  lemma {:induction false} FieldIsNumber(field: Bytes, blanks: Bytes, sign: Bytes, digits: Bytes, rest: Bytes)
    requires Filter(field, IsNotNul) == blanks + (sign + digits + rest)
    requires forall i :: 0 <= i < |blanks| ==> IsBlank(blanks[i])
    requires sign in {[], [PLUS], [MINUS]} && digits != [] && OctalDigits(digits)
    requires rest == [] || !IsOctalDigit(rest[0])
    ensures ParseField(field) == Some(SignedValue(sign, digits))
  {
    hide Filter, Value, ParseInt8;
    var head := sign + digits;
    assert IsOctalDigit(digits[0]) && IsOctalDigit(digits[|digits| - 1]);
    assert head[|head| - 1] == digits[|digits| - 1];
    TrimStartSkips(blanks, head + rest, IsBlank);
    TrimEndBehind(head, rest, IsBlank);
    TrimEndIsPrefix(rest, IsBlank);
    SignedDigits(sign, digits, TrimEnd(rest, IsBlank));
  }

  /** A field with nothing but NULs and blanks is 0. */
  lemma {:induction false} EmptyFieldIsZero(field: Bytes)
    requires forall i :: 0 <= i < |Filter(field, IsNotNul)| ==> IsBlank(Filter(field, IsNotNul)[i])
    ensures ParseField(field) == Some(0)
  {
    hide Filter;
    var text := Filter(field, IsNotNul);
    TrimStartSkips(text, [], IsBlank);
    assert text + [] == text;
    assert FieldText(field) == [];
    SignedDigits([], [DIGIT_0], []);
    assert [] + [DIGIT_0] + [] == [DIGIT_0] && [DIGIT_0][..0] == [];
    assert Value([DIGIT_0]) == 8 * Value([]) + 0 == 0;
  }

  /** Anything else is no number. */
  lemma {:induction false} FieldIsNoNumber(field: Bytes, blanks: Bytes, rest: Bytes)
    requires Filter(field, IsNotNul) == blanks + rest && rest != [] && !IsBlank(rest[0])
    requires forall i :: 0 <= i < |blanks| ==> IsBlank(blanks[i])
    requires !IsOctalDigit(rest[0])
    requires rest[0] in {PLUS, MINUS} && |rest| > 1 ==> !IsOctalDigit(rest[1])
    ensures ParseField(field) == None
  {
    hide Filter, Value;
    TrimStartSkips(blanks, rest, IsBlank);
    TrimEndBehind([rest[0]], rest[1..], IsBlank);
    assert [rest[0]] + rest[1..] == rest;
    TrimEndIsPrefix(rest[1..], IsBlank);
    var text := [rest[0]] + TrimEnd(rest[1..], IsBlank);
    assert text[1..] == TrimEnd(rest[1..], IsBlank);
    assert FieldText(field) == text;
  }

  lemma {:induction false} AllDigitsLead(s: Bytes)
    requires OctalDigits(s)
    ensures LeadingDigits(s) == s
  {
    if s != [] {
      AllDigitsLead(s[1..]);
    }
  }

  /** Digits closed by NUL, or by NUL and a blank, are read back as they are. */
  lemma FieldTextOfDigits(text: Bytes)
    requires OctalDigits(text) && text != []
    ensures FieldText(text + [NUL]) == text
    ensures FieldText(text + [NUL, SPACE]) == text
  {
    assert Filter(text, IsNotNul) == text by { FilterAll(text, IsNotNul); }
    assert Filter(text + [NUL], IsNotNul) == text by {
      assert (text + [NUL])[..|text|] == text;
    }
    assert Filter(text + [NUL, SPACE], IsNotNul) == text + [SPACE] by {
      assert (text + [NUL, SPACE])[..|text| + 1] == text + [NUL];
    }
    assert TrimEnd(text + [SPACE], IsBlank) == text by {
      assert (text + [SPACE])[..|text|] == text;
    }
  }

  lemma ParseFieldOfDigits(text: Bytes)
    requires OctalDigits(text) && text != []
    ensures ParseField(text + [NUL]) == Some(Value(text))
  {
    FieldTextOfDigits(text);
    AllDigitsLead(text);
  }

  // ----- the field writer -----

  /** The bytes of a header field of `length` bytes: padded digits, cut to the field, then NUL. */
  function OctalField(length: nat, value: nat): (field: Bytes)
    requires length > 0
    ensures |field| == length
  {
    Padded(length - 1, value)[..length - 1] + [NUL]
  }

  /** A field reads back as the number written exactly when the number fits. */
  lemma {:induction false} OctalFieldInversion(length: nat, value: nat)
    requires length > 1
    ensures ParseField(OctalField(length, value)).Some?
    ensures ParseField(OctalField(length, value)) == Some(value) <==> value < Pow8(length - 1)
    ensures 0 <= ParseField(OctalField(length, value)).value < Pow8(length - 1)
  {
    var text := Padded(length - 1, value)[..length - 1];
    ParseFieldOfDigits(text);
    ValueBound(text);
    PaddedLength(length - 1, value);
    ValueOfPadded(length - 1, value);
    if value < Pow8(length - 1) {
      assert text == Padded(length - 1, value);
    }
  }

  method WriteOctal(buffer: array<Byte>, offset: nat, length: nat, value: nat)
    requires length > 0 && offset + length <= buffer.Length
    modifies buffer
    ensures forall i :: offset <= i < offset + length ==> buffer[i] == OctalField(length, value)[i - offset]
    ensures forall i :: 0 <= i < buffer.Length && !(offset <= i < offset + length) ==> buffer[i] == old(buffer[i])
  {
    var text := Padded(length - 1, value);
    for i := 0 to length - 1
      invariant forall j :: 0 <= j < i ==> buffer[offset + j] == text[j]
      invariant forall j :: 0 <= j < buffer.Length && !(offset <= j < offset + i) ==> buffer[j] == old(buffer[j])
    {
      buffer[offset + i] := text[i];
    }
    buffer[offset + length - 1] := NUL;
  }
}
