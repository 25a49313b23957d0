/** The directory name Claude Code gives a working directory: sanitised, and past
    200 characters cut and told apart by a 32-bit hash (baude-core/src/meta.rs). */
module ProjectDirName {
  import opened Prelude

  const MAX_ENCODED_PATH := 200
  const TWO_32 := 0x1_0000_0000
  const DIGITS := "0123456789abcdefghijklmnopqrstuvwxyz"

  /** A UTF-16 code unit. */
  type Unit = u: int | 0 <= u < 0x1_0000 witness 0

  /** A character outside the basic plane is two units. */
  function UnitsOf(c: char): seq<Unit> {
    var code := c as int;
    if code < 0x1_0000 then [code] else [0xD800 + (code - 0x1_0000) / 0x400, 0xDC00 + (code - 0x1_0000) % 0x400]
  }

  function Utf16(path: string): seq<Unit> {
    if path == "" then [] else UnitsOf(path[0]) + Utf16(path[1..])
  }

  predicate IsAlphanumeric(c: char) {
    '0' <= c <= '9' || 'A' <= c <= 'Z' || 'a' <= c <= 'z'
  }

  function Sanitize(units: seq<Unit>): (name: string)
    ensures |name| == |units|
    ensures forall c <- name :: IsAlphanumeric(c) || c == '-'
  {
    seq(|units|, i requires 0 <= i < |units| =>
      if units[i] < 0x80 && IsAlphanumeric(units[i] as char) then units[i] as char else '-')
  }

  // ----- The hash -----

  /** The signed 32-bit integer congruent to `n`. */
  function Signed(n: int): (i: int)
    ensures -0x8000_0000 <= i < 0x8000_0000
  {
    var m := n % TWO_32;
    if m >= 0x8000_0000 then m - TWO_32 else m
  }

  /** `(h << 5) - h + code`, wrapping at every step. */
  function HashStep(h: int, unit: Unit): int {
    Signed(Signed(Signed(h * 32) - h) + unit)
  }

  function Hash(units: seq<Unit>): (h: int)
    ensures -0x8000_0000 <= h < 0x8000_0000
  {
    if units == [] then 0 else HashStep(Hash(units[..|units| - 1]), units[|units| - 1])
  }

  function Pow(base: nat, n: nat): nat {
    if n == 0 then 1 else base * Pow(base, n - 1)
  }

  /** The base-31 polynomial whose leading coefficient is the first unit. */
  function Polynomial(units: seq<Unit>): nat {
    if units == [] then 0 else units[0] * Pow(31, |units| - 1) + Polynomial(units[1..])
  }

  lemma {:induction false} PolynomialShift(units: seq<Unit>, u: Unit)
    ensures Polynomial(units + [u]) == 31 * Polynomial(units) + u
  {
    if units == [] {
      assert units + [u] == [u] && [u][1..] == [];
    } else {
      PolynomialShift(units[1..], u);
      assert (units + [u])[1..] == units[1..] + [u];
      Distribute(units[0], Pow(31, |units| - 1), Polynomial(units[1..]));
    }
  }

  lemma Distribute(a: nat, b: nat, c: nat)
    ensures 31 * (a * b + c) == a * (31 * b) + 31 * c
  {
  }

  lemma SignedIsCongruent(n: int)
    ensures exists k: int :: Signed(n) == n + k * TWO_32
  {
    var k := if n % TWO_32 >= 0x8000_0000 then -(n / TWO_32) - 1 else -(n / TWO_32);
    assert Signed(n) == n + k * TWO_32;
  }

  lemma SignedOfCongruent(n: int, k: int)
    ensures Signed(n + k * TWO_32) == Signed(n)
  {
    assert (n + k * TWO_32) % TWO_32 == n % TWO_32;
  }

  lemma StepIsHorner(p: nat, u: Unit)
    ensures HashStep(Signed(p), u) == Signed(31 * p + u)
  {
    var h := Signed(p);
    SignedIsCongruent(p);
    var a: int :| h == p + a * TWO_32;
    SignedIsCongruent(h * 32);
    var b: int :| Signed(h * 32) == h * 32 + b * TWO_32;
    SignedIsCongruent(Signed(h * 32) - h);
    var c: int :| Signed(Signed(h * 32) - h) == Signed(h * 32) - h + c * TWO_32;
    assert Signed(Signed(h * 32) - h) + u == (31 * p + u) + (31 * a + b + c) * TWO_32;
    SignedOfCongruent(31 * p + u, 31 * a + b + c);
  }

  /** The wrapping fold is the polynomial, reduced once. */
  lemma {:induction false} HashIsPolynomial(units: seq<Unit>)
    ensures Hash(units) == Signed(Polynomial(units))
  {
    hide Polynomial, HashStep, Signed;
    if units == [] {
      NothingHashesToZero();
    } else {
      var init, last := units[..|units| - 1], units[|units| - 1];
      HashIsPolynomial(init);
      StepIsHorner(Polynomial(init), last);
      PolynomialShift(init, last);
      assert init + [last] == units;
    }
  }

  lemma NothingHashesToZero()
    ensures Polynomial([]) == 0 && Signed(0) == 0
  {
  }

  // ----- Base 36 -----

  function DigitValue(c: char): nat {
    if '0' <= c <= '9' then (c - '0') as nat else if 'a' <= c <= 'z' then (c - 'a') as nat + 10 else 0
  }

  predicate IsNumeral(s: string) {
    s != "" && (forall c <- s :: '0' <= c <= '9' || 'a' <= c <= 'z') && (s[0] == '0' ==> |s| == 1)
  }

  function NumeralValue(s: string): nat {
    if s == "" then 0 else NumeralValue(s[..|s| - 1]) * 36 + DigitValue(s[|s| - 1])
  }

  function Digit(d: nat): char
    requires d < 36
  {
    DIGITS[d]
  }

  function Base36(n: nat): string {
    if n < 36 then [Digit(n)] else Base36(n / 36) + [Digit(n % 36)]
  }

  /** The digits come out backwards and are turned round at the end. */
  method Base36Loop(number: U64) returns (out: string)
    ensures out == Base36(number)
  {
    hide Digit;
    var n, reversed := number, "";
    while true
      invariant 0 <= n <= number
      invariant Base36(number) == Base36(n) + Reverse(reversed)
      decreases n
    {
      reversed := reversed + [Digit(n % 36)];
      ReverseOneMore(reversed);
      if n < 36 { assert Base36(number) == Reverse(reversed); }
      n := n / 36;
      if n == 0 { break; }
    }
    out := Reverse(reversed);
  }

  function Reverse(s: string): (r: string)
    ensures |r| == |s| && forall i | 0 <= i < |s| :: r[i] == s[|s| - 1 - i]
  {
    seq(|s|, i requires 0 <= i < |s| => s[|s| - 1 - i])
  }

  lemma ReverseOneMore(s: string)
    requires s != ""
    ensures Reverse(s) == [s[|s| - 1]] + Reverse(s[..|s| - 1])
  {
  }

  lemma DigitsAreValues(d: nat)
    requires d < 36
    ensures DigitValue(Digit(d)) == d
    ensures Digit(d) == '0' <==> d == 0
    ensures '0' <= Digit(d) <= '9' || 'a' <= Digit(d) <= 'z'
  {
    assert d < 10 ==> DIGITS[d] == '0' + d as char;
    assert d >= 10 ==> DIGITS[d] == 'a' + (d - 10) as char;
  }

  /** The digits written are the number's, most significant first, with no leading zero. */
  lemma {:induction false} Base36IsNumeral(n: nat)
    ensures IsNumeral(Base36(n)) && NumeralValue(Base36(n)) == n
    ensures n > 0 ==> Base36(n)[0] != '0'
  {
    hide Digit, DigitValue;
    var s := Base36(n);
    DigitsAreValues(n % 36);
    if n >= 36 {
      Base36IsNumeral(n / 36);
      assert s[..|s| - 1] == Base36(n / 36);
    } else {
      assert s[..|s| - 1] == "";
      assert NumeralValue("") == 0;
    }
  }

  lemma {:induction false} Base36IsShort(n: nat, k: nat)
    requires k > 0 && n < Pow(36, k)
    ensures |Base36(n)| <= k
  {
    if n >= 36 {
      hide Digit;
      assert Pow(36, k) == 36 * Pow(36, k - 1);
      Base36IsShort(n / 36, k - 1);
    }
  }

  lemma Base36IsInjective(m: nat, n: nat)
    ensures Base36(m) == Base36(n) <==> m == n
  {
    Base36IsNumeral(m);
    Base36IsNumeral(n);
  }

  // ----- The name -----

  function Abs(n: int): nat {
    if n < 0 then -n else n
  }

  function EncodePath(path: string): string {
    var units := Utf16(path);
    var encoded := Sanitize(units);
    if |encoded| <= MAX_ENCODED_PATH then encoded
    else encoded[..MAX_ENCODED_PATH] + "-" + Base36(Abs(Hash(units)))
  }

  lemma {:induction false} Base36IsAlphanumeric(n: nat)
    ensures forall c <- Base36(n) :: IsAlphanumeric(c)
  {
    hide Digit;
    DigitsAreValues(n % 36);
    if n >= 36 { Base36IsAlphanumeric(n / 36); }
  }

  /** Every name is short and plain ASCII: letters, digits and dashes. */
  lemma NamesAreSafe(path: string)
    ensures |EncodePath(path)| <= 207
    ensures forall c <- EncodePath(path) :: IsAlphanumeric(c) || c == '-'
  {
    var hash := Abs(Hash(Utf16(path)));
    Base36IsAlphanumeric(hash);
    assert Pow(36, 6) == 36 * 36 * 36 * 36 * 36 * 36;
    Base36IsShort(hash, 6);
  }

  /** Two long paths share a name exactly when their first 200 sanitised units
      agree and their polynomials reduce to the same magnitude. */
  lemma LongNamesCollide(a: string, b: string)
    requires |Utf16(a)| > MAX_ENCODED_PATH && |Utf16(b)| > MAX_ENCODED_PATH
    ensures EncodePath(a) == EncodePath(b) <==>
      && Sanitize(Utf16(a))[..MAX_ENCODED_PATH] == Sanitize(Utf16(b))[..MAX_ENCODED_PATH]
      && Abs(Signed(Polynomial(Utf16(a)))) == Abs(Signed(Polynomial(Utf16(b))))
  {
    hide Sanitize, Hash, Polynomial, Signed, Base36, Utf16;
    HashIsPolynomial(Utf16(a));
    HashIsPolynomial(Utf16(b));
    Base36IsInjective(Abs(Hash(Utf16(a))), Abs(Hash(Utf16(b))));
    var x, y := EncodePath(a), EncodePath(b);
    assert x[..MAX_ENCODED_PATH] == Sanitize(Utf16(a))[..MAX_ENCODED_PATH] && x[MAX_ENCODED_PATH + 1..] == Base36(Abs(Hash(Utf16(a))));
    assert y[..MAX_ENCODED_PATH] == Sanitize(Utf16(b))[..MAX_ENCODED_PATH] && y[MAX_ENCODED_PATH + 1..] == Base36(Abs(Hash(Utf16(b))));
  }

  /** A short path and a long one never share a name. */
  lemma ShortAndLongDiffer(a: string, b: string)
    requires |Utf16(a)| <= MAX_ENCODED_PATH < |Utf16(b)|
    ensures EncodePath(a) != EncodePath(b)
  {
    Base36IsNumeral(Abs(Hash(Utf16(b))));
  }

  /** The units of a character are its code, or the surrogate pair that stands for it. */
  lemma UnitsReadBack(c: char)
    ensures var units, code := UnitsOf(c), c as int;
      if code < 0x1_0000 then units == [code]
      else
        && |units| == 2 && 0xD800 <= units[0] < 0xDC00 <= units[1] < 0xE000
        && var high: int, low: int := units[0], units[1]; code == 0x1_0000 + (high - 0xD800) * 0x400 + (low - 0xDC00)
  {
  }

  /** A name shows each of the first 200 units as itself if it is an ASCII letter
      or digit and as a dash if not; a short path ends there, and a long one
      continues with a dash and the base-36 numeral of its hash's magnitude. */
  lemma NamesAreRead(path: string)
    ensures var units, name := Utf16(path), EncodePath(path);
      && (forall i | 0 <= i < |units| && i < 200 ::
        i < |name| && name[i] == if 48 <= units[i] <= 57 || 65 <= units[i] <= 90 || 97 <= units[i] <= 122 then units[i] as char else '-')
      && (|units| <= 200 ==> |name| == |units|)
      && (|units| > 200 ==>
          && |name| > 201 && name[200] == '-' && IsNumeral(name[201..])
          && NumeralValue(name[201..]) == Abs(Signed(Polynomial(units))))
  {
    hide Sanitize, Hash, Polynomial, Signed, Base36, NumeralValue, Utf16, IsNumeral;
    var units, name := Utf16(path), EncodePath(path);
    SanitizeReads(units);
    HashIsPolynomial(units);
    Base36IsNumeral(Abs(Hash(units)));
    if |units| > 200 {
      var numeral := Base36(Abs(Hash(units)));
      NumeralsAreSome(numeral);
      assert name[201..] == numeral;
    }
  }

  lemma NumeralsAreSome(numeral: string)
    requires IsNumeral(numeral)
    ensures numeral != ""
  {
  }

  lemma SanitizeReads(units: seq<Unit>)
    ensures forall i | 0 <= i < |units| ::
      Sanitize(units)[i] == if 48 <= units[i] <= 57 || 65 <= units[i] <= 90 || 97 <= units[i] <= 122 then units[i] as char else '-'
  {
  }
}
