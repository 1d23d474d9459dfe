/** Digits, numerals and the machine's two integer interpretations, shared by the printing and the
    reading half of the task library. */
module Numerals {
  import opened Machine

  datatype Option<+T> = None | Some(value: T)

  /** A C string is given without its terminating zero; reading at its end yields that zero. */
  function Peek(s: string): char {
    if s == "" then '\0' else s[0]
  }

  lemma Regroup(x: string, y: string, z: string)
    ensures (x + y) + z == x + (y + z)
  {
  }

  lemma NothingInFront(s: string)
    ensures "" + s == s
  {
  }

  // ---------------------------------------------------------------- characters

  /** tasks/libc/include/ctype.h: isspace. */
  predicate IsSpace(c: char) {
    c == ' ' || c == '\U{0c}' || c == '\n' || c == '\r' || c == '\t' || c == '\U{0b}'
  }

  function SkipSpaces(s: string): string {
    if s != "" && IsSpace(s[0]) then SkipSpaces(s[1..]) else s
  }

  /** The value of a digit or letter as a digit; -1 for every other character. */
  function DigitValue(c: char): int {
    if '0' <= c <= '9' then c as int - '0' as int
    else if 'a' <= c <= 'z' then c as int - 'a' as int + 10
    else if 'A' <= c <= 'Z' then c as int - 'A' as int + 10
    else -1
  }

  /** White space and digits by their codes: blank and 9 to 13; decimal digits, then letters of either case. */
  lemma CharacterCodes(c: char)
    ensures IsSpace(c) <==> c as int == 32 || 9 <= c as int <= 13
    ensures var x := c as int;
            DigitValue(c) == if 48 <= x <= 57 then x - 48 else if 97 <= x <= 122 then x - 87
                             else if 65 <= x <= 90 then x - 55 else -1
  {
  }

  predicate IsDigitOf(c: char, base: int) {
    0 <= DigitValue(c) < base
  }

  predicate AllDigits(s: string, base: int) {
    forall i :: 0 <= i < |s| ==> IsDigitOf(s[i], base)
  }

  const DIGITS := "0123456789abcdef"

  /** The digit the printer writes for d. */
  function Digit(d: nat): (c: char)
    requires d < 16
    ensures DigitValue(c) == d && c != 'x' && c != 'X' && c != '-' && c != '+' && !IsSpace(c)
  {
    DIGITS[d]
  }

  /** The printer's digits are lower-case letters from ten on. */
  lemma DigitCodes(d: nat)
    requires d < 16
    ensures Digit(d) as int == if d < 10 then 48 + d else 87 + d
  {
  }

  // ---------------------------------------------------------------- numerals

  /** The numeral of u: at least one digit, none superfluous. */
  function Numeral(u: nat, base: nat): (s: string)
    requires 2 <= base <= 16
    ensures |s| > 0
  {
    if u < base then [Digit(u)] else Numeral(Quot(u, base), base) + [Digit(Rem(u, base))]
  }

  /** The number a string of digits stands for, most significant digit first. */
  function Value(s: string, base: nat): nat
    requires AllDigits(s, base)
  {
    if s == "" then 0 else Value(s[..|s| - 1], base) * base + DigitValue(s[|s| - 1])
  }

  lemma ValueSnoc(s: string, c: char, base: nat)
    requires AllDigits(s, base) && IsDigitOf(c, base)
    ensures AllDigits(s + [c], base) && Value(s + [c], base) == Value(s, base) * base + DigitValue(c)
  {
    assert (s + [c])[..|s + [c]| - 1] == s;
  }

  /** Reading a numeral gives back the number; a positive number does not begin with 0. */
  lemma {:induction false} NumeralValue(u: nat, base: nat)
    requires 2 <= base <= 16
    ensures AllDigits(Numeral(u, base), base) && Value(Numeral(u, base), base) == u
    ensures Numeral(u, base)[0] == '0' <==> u == 0
    ensures u == 0 ==> Numeral(u, base) == "0"
  {
    if u < base {
      ValueSnoc("", Digit(u), base);
      assert "" + [Digit(u)] == [Digit(u)];
    } else {
      QuotRem(u, base);
      NumeralValue(Quot(u, base), base);
      ValueSnoc(Numeral(Quot(u, base), base), Digit(Rem(u, base)), base);
    }
  }

  lemma {:induction false} LeadingZeros(k: nat, s: string, base: nat)
    requires base > 0 && AllDigits(s, base)
    ensures AllDigits(Repeat('0', k) + s, base) && Value(Repeat('0', k) + s, base) == Value(s, base)
    decreases k + |s|
  {
    var z := Repeat('0', k);
    if s != "" {
      LeadingZeros(k, s[..|s| - 1], base);
      assert (z + s)[..|z + s| - 1] == z + s[..|s| - 1];
    } else if k > 0 {
      assert z + s == Repeat('0', k - 1) + "0";
      LeadingZeros(k - 1, "", base);
      assert (z + s)[..|z + s| - 1] == Repeat('0', k - 1) + "";
    }
  }

  function Repeat(c: char, k: nat): (s: string)
    ensures |s| == k && forall i :: 0 <= i < k ==> s[i] == c
  {
    if k == 0 then "" else Repeat(c, k - 1) + [c]
  }

  function Pow(b: nat, k: nat): (p: nat)
    ensures b > 0 ==> p > 0
  {
    if k == 0 then 1 else b * Pow(b, k - 1)
  }

  lemma QuotientBelow(q: nat, base: nat, r: nat, p: nat)
    requires r < base
    ensures q < p <==> q * base + r < base * p
  {
    if q < p { MulMono(q + 1, p, base); } else { MulMono(p, q, base); }
  }

  /** How many digits a number has. */
  lemma {:induction false} NumeralLength(u: nat, base: nat, k: nat)
    requires 2 <= base <= 16 && k > 0
    ensures |Numeral(u, base)| <= k <==> u < Pow(base, k)
    decreases k
  {
    if u < base {
      MulMono(1, Pow(base, k - 1), base);
    } else {
      QuotRem(u, base);
      if k > 1 { NumeralLength(Quot(u, base), base, k - 1); }
      QuotientBelow(Quot(u, base), base, Rem(u, base), Pow(base, k - 1));
    }
  }

  lemma {:induction false} PowGrows(a: nat, b: nat, k: nat)
    requires 0 < a <= b
    ensures Pow(a, k) <= Pow(b, k)
  {
    if k > 0 {
      PowGrows(a, b, k - 1);
      MulMono(a, b, Pow(a, k - 1));
      MulMono(Pow(a, k - 1), Pow(b, k - 1), b);
    }
  }

  // ---------------------------------------------------------------- machine integers

  /** The 32-bit or 64-bit patterns, read without and with sign; `size` is the number of patterns. */
  function Unsigned(x: int, size: nat): (u: nat)
    requires size > 0
    ensures u < size
  {
    x % size
  }

  function Signed(x: int, size: nat): (n: int)
    requires size > 0 && size % 2 == 0
    ensures -(size / 2) <= n < size / 2
  {
    (x + size / 2) % size - size / 2
  }

  /** Both readings are the number up to a multiple of the number of patterns. */
  lemma SameResidue(x: int, size: nat)
    requires size > 0 && size % 2 == 0
    ensures (x - Unsigned(x, size)) % size == 0 && (x - Signed(x, size)) % size == 0
  {
    var q, y := x / size, x + size / 2;
    assert x - Unsigned(x, size) == q * size + 0;
    DivUnique(q * size, size, q, 0);
    var k := y / size;
    assert x - Signed(x, size) == y - y % size == k * size + 0;
    DivUnique(k * size, size, k, 0);
  }

  lemma SignedInRange(x: int, size: nat)
    requires size > 0 && size % 2 == 0 && -(size / 2) <= x < size / 2
    ensures Signed(x, size) == x
  {
    DivUnique(x + size / 2, size, 0, x + size / 2);
  }

  lemma UnsignedInRange(x: int, size: nat)
    requires 0 <= x < size
    ensures Unsigned(x, size) == x
  {
    DivUnique(x, size, 0, x);
  }

  lemma ModShift(x: int, k: int, size: nat)
    requires size > 0
    ensures (x + k * size) % size == x % size
  {
    assert x + k * size == (x / size + k) * size + x % size;
    DivUnique(x + k * size, size, x / size + k, x % size);
  }

  /** One digit more, computed in wrapping arithmetic, is one digit more of the exact number. */
  lemma WrapDigit(x: int, base: int, d: int)
    ensures Signed(Signed(x, WORD) * base + d, WORD) == Signed(x * base + d, WORD)
    ensures Unsigned(Unsigned(x, WORD) * base + d, WORD) == Unsigned(x * base + d, WORD)
  {
    var k := (x + WORD / 2) / WORD;
    assert x == Signed(x, WORD) + k * WORD;
    assert x * base + d + WORD / 2 == Signed(x, WORD) * base + d + WORD / 2 + (k * base) * WORD;
    ModShift(Signed(x, WORD) * base + d + WORD / 2, k * base, WORD);
    var j := x / WORD;
    assert x == Unsigned(x, WORD) + j * WORD;
    assert x * base + d == Unsigned(x, WORD) * base + d + (j * base) * WORD;
    ModShift(Unsigned(x, WORD) * base + d, j * base, WORD);
  }

  lemma WrapNegation(x: int)
    ensures Signed(-Signed(x, WORD), WORD) == Signed(-x, WORD)
  {
    WrapDigit(x, -1, 0);
    assert Signed(x, WORD) * -1 + 0 == -Signed(x, WORD) && x * -1 + 0 == -x;
  }
}
