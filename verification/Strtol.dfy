/** tasks/libc/stdlib/strtol.c and strtoul.c: reading a number in a given or detected base. */
module Strtol {
  import opened Machine
  import opened Numerals

  // ---------------------------------------------------------------- specification

  predicate HexPrefix(s: string) {
    |s| >= 2 && s[0] == '0' && (s[1] == 'x' || s[1] == 'X')
  }

  /** The text behind a 0x prefix, if the base allows one, and the base to read it in. */
  function Detect(s: string, base: int): (string, int) {
    if (base == 16 || base == 0) && HexPrefix(s) then (s[2..], 16)
    else if base == 0 then (s, if Peek(s) == '0' then 8 else 10)
    else (s, base)
  }

  /** The longest prefix of digits. */
  function DigitRun(s: string, base: int): (r: string)
    ensures |r| <= |s| && r == s[..|r|] && AllDigits(r, base)
    ensures |r| < |s| ==> !IsDigitOf(s[|r|], base)
  {
    if s == "" || !IsDigitOf(s[0], base) then "" else [s[0]] + DigitRun(s[1..], base)
  }

  /** The number a digit run stands for; with a base that has no digits the run is empty. */
  function RunValue(s: string, base: int): nat {
    if base <= 0 then 0 else Value(DigitRun(s, base), base)
  }

  function Behind(s: string, base: int): string {
    s[|DigitRun(s, base)|..]
  }

  /** Prefix, base and digits together: the number and the text behind it. */
  function ReadNumber(s: string, base: int): (nat, string) {
    var (digits, b) := Detect(s, base);
    (RunValue(digits, b), Behind(digits, b))
  }

  /** `strtol` behind the white space. A minus sign is stepped over, a plus sign is not. */
  function SignedNumber(t: string, base: int): (int, string) {
    var negative := Peek(t) == '-';
    var (v, end) := ReadNumber(if negative then t[1..] else t, base);
    (Signed(if negative then 0 - v else v, WORD), end)
  }

  /** `strtol`: the value, in the wrapping arithmetic of a 32-bit long, and the text from the end
      pointer on. */
  function ToLong(s: string, base: int): (int, string) {
    SignedNumber(SkipSpaces(s), base)
  }

  /** `strtoul`, which knows no signs. */
  function ToUnsignedLong(s: string, base: int): (nat, string) {
    var (v, end) := ReadNumber(SkipSpaces(s), base);
    (Unsigned(v, WORD), end)
  }

  // ---------------------------------------------------------------- implementation

  /** The loop over leading white space. */
  method SkipWhite(p: string) returns (i: nat)
    ensures i <= |p| && p[i..] == SkipSpaces(p)
  {
    i := 0;
    while i < |p| && IsSpace(p[i])
      invariant i <= |p| && SkipSpaces(p) == SkipSpaces(p[i..])
    {
      assert p[i..][1..] == p[i + 1..];
      i := i + 1;
    }
  }

  /** The prefix and base detection that both functions share. */
  method DetectBase(p: string, start: nat, base: int) returns (i: nat, b: int)
    requires start <= |p|
    ensures i <= |p| && (p[i..], b) == Detect(p[start..], base)
  {
    i, b := start, base;
    if (b == 16 || b == 0) && i + 1 < |p| && p[i] == '0' && (p[i + 1] == 'x' || p[i + 1] == 'X') {
      i := i + 2;
      b := 16;
      assert p[start..][2..] == p[i..];
    }
    if b == 0 {
      if i < |p| && p[i] == '0' {
        b := 8;
      } else {
        b := 10;
      }
    }
  }

  lemma {:induction false} DigitRunStep(s: string, k: nat, base: int)
    requires k < |s| && AllDigits(s[..k], base)
    ensures IsDigitOf(s[k], base) ==>
              AllDigits(s[..k + 1], base) && Value(s[..k + 1], base) == Value(s[..k], base) * base + DigitValue(s[k])
    ensures !IsDigitOf(s[k], base) ==> DigitRun(s, base) == s[..k]
  {
    if IsDigitOf(s[k], base) {
      assert s[..k + 1] == s[..k] + [s[k]];
      ValueSnoc(s[..k], s[k], base);
    } else {
      DigitRunIs(s, k, base);
    }
  }

  lemma {:induction false} DigitRunIs(s: string, k: nat, base: int)
    requires k <= |s| && AllDigits(s[..k], base) && (k < |s| ==> !IsDigitOf(s[k], base))
    ensures DigitRun(s, base) == s[..k]
  {
    var r := DigitRun(s, base);
    forall i | 0 <= i < k ensures IsDigitOf(s[i], base) { assert s[..k][i] == s[i]; }
    forall i | 0 <= i < |r| ensures IsDigitOf(s[i], base) { assert r[i] == s[i]; }
    assert |r| == k;
  }

  /** What the first k characters of s stand for when they are digits. */
  function PrefixValue(s: string, k: nat, base: int): nat
    requires k <= |s| && AllDigits(s[..k], base)
  {
    if base <= 0 then 0 else Value(s[..k], base)
  }

  /** One round of the digit loops, in signed and in unsigned wrapping arithmetic. */
  lemma NextDigit(s: string, k: nat, base: int)
    requires k < |s| && AllDigits(s[..k], base) && IsDigitOf(s[k], base)
    ensures AllDigits(s[..k + 1], base)
    ensures var x, y, d := PrefixValue(s, k, base), PrefixValue(s, k + 1, base), DigitValue(s[k]);
            && Signed(y, WORD) == Signed(Signed(x, WORD) * base + d, WORD)
            && Unsigned(y, WORD) == Unsigned(Unsigned(x, WORD) * base + d, WORD)
  {
    DigitRunStep(s, k, base);
    WrapDigit(PrefixValue(s, k, base), base, DigitValue(s[k]));
  }

  lemma RunEnds(s: string, k: nat, base: int)
    requires k <= |s| && AllDigits(s[..k], base) && (k < |s| ==> !IsDigitOf(s[k], base))
    ensures RunValue(s, base) == PrefixValue(s, k, base) && Behind(s, base) == s[k..]
  {
    DigitRunIs(s, k, base);
  }

  /** Digits followed by something else are read completely and nothing more. */
  lemma ReadRun(t: string, base: nat, tail: string)
    requires t != "" && base > 0 && AllDigits(t, base) && (tail == "" || !IsDigitOf(tail[0], base))
    ensures RunValue(t + tail, base) == Value(t, base) && Behind(t + tail, base) == tail
  {
    assert (t + tail)[..|t|] == t && (t + tail)[|t|..] == tail;
    DigitRunIs(t + tail, |t|, base);
  }

  /** The digit loop of `strtol`. */
  method SignedDigits(p: string, start: nat, base: int) returns (v: int, i: nat)
    requires start <= |p|
    ensures start <= i <= |p| && v == Signed(RunValue(p[start..], base), WORD) && p[i..] == Behind(p[start..], base)
  {
    ghost var s := p[start..];
    v, i := 0, start;
    assert Signed(0, WORD) == 0 && s[..0] == "";
    while i < |p| && IsDigitOf(p[i], base)
      invariant start <= i <= |p| && AllDigits(s[..i - start], base)
      invariant v == Signed(PrefixValue(s, i - start, base), WORD)
    {
      assert s[i - start] == p[i];
      NextDigit(s, i - start, base);
      v := Signed(v * base + DigitValue(p[i]), WORD);
      i := i + 1;
    }
    RunEnds(s, i - start, base);
  }

  /** The digit loop of `strtoul`. */
  method UnsignedDigits(p: string, start: nat, base: int) returns (v: nat, i: nat)
    requires start <= |p|
    ensures start <= i <= |p| && v == Unsigned(RunValue(p[start..], base), WORD) && p[i..] == Behind(p[start..], base)
  {
    ghost var s := p[start..];
    v, i := 0, start;
    assert s[..0] == "";
    while i < |p| && IsDigitOf(p[i], base)
      invariant start <= i <= |p| && AllDigits(s[..i - start], base)
      invariant v == Unsigned(PrefixValue(s, i - start, base), WORD)
    {
      assert s[i - start] == p[i];
      NextDigit(s, i - start, base);
      v := Unsigned(v * base + DigitValue(p[i]), WORD);
      i := i + 1;
    }
    RunEnds(s, i - start, base);
  }

  /** The minus sign. */
  method SkipMinus(p: string, start: nat) returns (negative: bool, i: nat)
    requires start <= |p|
    ensures i <= |p| && negative == (Peek(p[start..]) == '-')
    ensures p[i..] == if negative then p[start..][1..] else p[start..]
  {
    negative, i := false, start;
    if i < |p| && p[i] == '-' {
      negative := true;
      i := i + 1;
    }
  }

  /** The value and the end pointer, from the text behind the sign. */
  lemma ToLongIs(p: string, base: int, negative: bool, s: string)
    requires negative == (Peek(SkipSpaces(p)) == '-')
    requires s == if negative then SkipSpaces(p)[1..] else SkipSpaces(p)
    ensures var (v, end) := ReadNumber(s, base);
            ToLong(p, base) == (if negative then Signed(-Signed(v, WORD), WORD) else Signed(v, WORD), end)
  {
    WrapNegation(ReadNumber(s, base).0);
  }

  method StrToL(p: string, base: int) returns (v: int, end: nat)
    ensures end <= |p| && (v, p[end..]) == ToLong(p, base)
  {
    var i := SkipWhite(p);
    var negative, b;
    negative, i := SkipMinus(p, i);
    ToLongIs(p, base, negative, p[i..]);
    i, b := DetectBase(p, i, base);
    v, end := SignedDigits(p, i, b);
    if negative {
      v := Signed(-v, WORD);
    }
  }

  method StrToUL(p: string, base: int) returns (v: nat, end: nat)
    ensures end <= |p| && (v, p[end..]) == ToUnsignedLong(p, base)
  {
    var i := SkipWhite(p);
    var b;
    i, b := DetectBase(p, i, base);
    v, end := UnsignedDigits(p, i, b);
  }
}
