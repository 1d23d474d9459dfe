/** Printing a number and reading it back: doprnt.c against strtol.c and strtoul.c. */
module NumberRoundTrip {
  import opened Machine
  import opened Numerals
  import opened Printer
  import opened Strtol

  /** `tail` does not continue a number of the given base. */
  predicate Ends(tail: string, base: nat) {
    tail == "" || !IsDigitOf(tail[0], base)
  }

  predicate StartsWithX(tail: string) {
    tail != "" && (tail[0] == 'x' || tail[0] == 'X')
  }

  /** The number a field stands for. */
  function NumberOf(f: Field): int {
    if f.sign == '-' then 0 - f.u else f.u
  }

  predicate IsSignChar(c: char) {
    c == '\0' || c == '-' || c == '+' || c == ' '
  }

  /** What follows the last digit of a printed field: blanks of a left-adjusted field, then the rest. */
  function Tail(f: Field, rest: string): string
    requires f.WellFormed()
  {
    Repeat(' ', Trail(f)) + rest
  }

  /** Zero padding and numeral of a field. */
  function ZeroPadded(f: Field): string
    requires f.WellFormed()
  {
    Repeat('0', Zeros(f)) + Numeral(f.u, f.base)
  }

  lemma ZeroPaddedFacts(f: Field)
    requires f.WellFormed()
    ensures ZeroPadded(f) != "" && AllDigits(ZeroPadded(f), f.base) && Value(ZeroPadded(f), f.base) == f.u
  {
    NumeralValue(f.u, f.base);
    LeadingZeros(Zeros(f), Numeral(f.u, f.base), f.base);
  }

  /** The digits are a single 0, and what follows turns it into a hexadecimal prefix. */
  predicate LoneZero(f: Field, tail: string)
    requires f.WellFormed()
  {
    f.u == 0 && Zeros(f) == 0 && StartsWithX(tail)
  }

  lemma LoneText(f: Field)
    requires f.WellFormed()
    ensures ZeroPadded(f) == "0" <==> f.u == 0 && Zeros(f) == 0
  {
    var n := Numeral(f.u, f.base);
    NumeralValue(f.u, f.base);
    if Zeros(f) == 0 { NothingInFront(n); }
  }

  // ---------------------------------------------------------------- digits and what follows them

  lemma {:induction false} SkipBlanks(k: nat, s: string)
    requires s != "" && !IsSpace(s[0])
    ensures SkipSpaces(Repeat(' ', k) + s) == s
  {
    if k == 0 {
      assert Repeat(' ', 0) + s == s;
    } else {
      RepeatFront(' ', k);
      assert (Repeat(' ', k) + s)[1..] == Repeat(' ', k - 1) + s;
      SkipBlanks(k - 1, s);
    }
  }

  lemma RepeatFront(c: char, k: nat)
    requires k > 0
    ensures Repeat(c, k) == [c] + Repeat(c, k - 1)
  {
  }

  /** Digits never look like a sign or white space, and like a hex prefix only if they are a lone 0
      with an x behind it. */
  lemma FirstOfDigits(t: string, base: nat, tail: string)
    requires t != "" && AllDigits(t, base) && base <= 16
    ensures HexPrefix(t + tail) <==> t == "0" && StartsWithX(tail)
    ensures Peek(t + tail) == t[0] && t[0] != '-' && t[0] != '+' && !IsSpace(t[0])
  {
    assert IsDigitOf(t[0], base);
    if |t| > 1 { assert IsDigitOf(t[1], base); } else if tail != "" { assert (t + tail)[1] == tail[0]; }
  }

  /** A run of digits ends where the text stops having digits, not before. */
  lemma RunOutcome(t: string, base: nat, tail: string)
    requires t != "" && base > 0 && AllDigits(t, base)
    ensures if Ends(tail, base) then RunValue(t + tail, base) == Value(t, base) && Behind(t + tail, base) == tail
            else |Behind(t + tail, base)| < |tail|
  {
    if Ends(tail, base) {
      ReadRun(t, base, tail);
    } else {
      var k := |DigitRun(t + tail, base)|;
      if k <= |t| { assert (t + tail)[k] == if k < |t| then t[k] else tail[0]; }
    }
  }

  lemma BehindHexPrefix(x: string)
    ensures HexPrefix("0x" + x) && ("0x" + x)[2..] == x
  {
  }

  /** What reading must come to: number and end pointer in their places, or an end pointer that is
      not where the digits end. */
  predicate Outcome(r: (nat, string), good: bool, v: nat, tail: string) {
    if good then r == (v, tail) else |r.1| < |tail|
  }

  /** Hexadecimal digits behind 0x, with base 16 or 0. */
  lemma HexNumber(t: string, tail: string, base: int)
    requires t != "" && AllDigits(t, 16) && (base == 16 || base == 0)
    ensures Outcome(ReadNumber("0x" + (t + tail), base), Ends(tail, 16), Value(t, 16), tail)
  {
    BehindHexPrefix(t + tail);
    RunOutcome(t, 16, tail);
  }

  /** Octal digits behind 0, with base 8 or 0. */
  lemma OctalNumber(t: string, tail: string, base: int)
    requires t != "" && AllDigits(t, 8) && (base == 8 || base == 0)
    ensures Outcome(ReadNumber("0" + (t + tail), base), Ends(tail, 8), Value(t, 8), tail)
  {
    OneZero(t, 8);
    ZeroFirst("0" + t, tail, base);
    Regroup("0", t, tail);
  }

  /** Octal digits that begin with a 0 and are more than that. */
  lemma ZeroFirst(t: string, tail: string, base: int)
    requires |t| > 1 && t[0] == '0' && AllDigits(t, 8) && (base == 8 || base == 0)
    ensures Outcome(ReadNumber(t + tail, base), Ends(tail, 8), Value(t, 8), tail)
  {
    FirstOfDigits(t, 8, tail);
    RunOutcome(t, 8, tail);
  }

  /** Digits without prefix in their own base. */
  lemma PlainNumber(t: string, base: nat, tail: string)
    requires t != "" && 2 <= base <= 16 && AllDigits(t, base)
    ensures Outcome(ReadNumber(t + tail, base), Ends(tail, base) && !(base == 16 && t == "0" && StartsWithX(tail)),
                    Value(t, base), tail)
  {
    FirstOfDigits(t, base, tail);
    if base == 16 && t == "0" && StartsWithX(tail) { PrefixIsSkipped(tail, base); } else { RunOutcome(t, base, tail); }
  }

  /** A lone 0 and the x behind it are both skipped, with base 16 or 0. */
  lemma PrefixIsSkipped(tail: string, base: int)
    requires StartsWithX(tail) && (base == 16 || base == 0)
    ensures ReadNumber("0" + tail, base) == (RunValue(tail[1..], 16), Behind(tail[1..], 16))
    ensures |Behind(tail[1..], 16)| < |tail|
  {
    assert HexPrefix("0" + tail) && ("0" + tail)[2..] == tail[1..];
  }

  lemma OneZero(t: string, base: nat)
    requires 2 <= base && AllDigits(t, base)
    ensures AllDigits("0" + t, base) && Value("0" + t, base) == Value(t, base)
  {
    LeadingZeros(1, t, base);
    assert Repeat('0', 1) == "0";
  }

  // ---------------------------------------------------------------- base detection

  /** Fields whose base can be detected at all: decimal, or with the # flag octal and hexadecimal. */
  predicate Detectable(f: Field) {
    f.base == 10 || (f.altfmt && (f.base == 8 || f.base == 16))
  }

  /** The decimal fields that base detection takes for octal, with another outcome. */
  predicate LooksOctal(f: Field)
    requires f.WellFormed()
  {
    f.base == 10 && Zeros(f) > 0 && f.u >= 8
  }

  /** The base that base detection reads a field in. */
  function DetectedBase(f: Field): (base: nat)
    requires f.WellFormed()
  {
    if Prefix(f) == "" && (Zeros(f) > 0 || f.u == 0) then 8 else f.base
  }

  /** One digit below 8 has the same text in octal. */
  lemma SmallNumber(z: nat, u: nat, base: nat)
    requires 8 <= base <= 16 && u < 8
    ensures var t := Repeat('0', z) + Numeral(u, base); AllDigits(t, 8) && Value(t, 8) == u
  {
    assert Numeral(u, base) == Numeral(u, 8);
    NumeralValue(u, 8);
    LeadingZeros(z, Numeral(u, 8), 8);
  }

  lemma FirstOfZeroPadded(f: Field)
    requires f.WellFormed()
    ensures ZeroPadded(f) != "" && (ZeroPadded(f)[0] == '0' <==> Zeros(f) > 0 || f.u == 0)
  {
    NumeralValue(f.u, f.base);
    if Zeros(f) > 0 { RepeatFront('0', Zeros(f)); } else { assert ZeroPadded(f) == Numeral(f.u, f.base); }
  }

  /** Decimal digits read as octal ones give less. */
  lemma {:induction false} OctalIsLess(s: string)
    requires s != "" && AllDigits(s, 8) && AllDigits(s, 10)
    ensures Value(s, 8) <= Value(s, 10)
    ensures s[0] != '0' && |s| >= 2 ==> Value(s, 8) < Value(s, 10)
    ensures s[0] != '0' ==> Value(s, 10) > 0
  {
    var t := s[..|s| - 1];
    if t == "" {
      assert Value(t, 8) == 0 && Value(t, 10) == 0;
    } else {
      OctalIsLess(t);
    }
  }

  /** A zero-padded decimal number of 8 or more comes out smaller, or reading stops elsewhere. */
  lemma OctalMisreads(z: nat, u: nat, tail: string)
    requires z > 0 && u >= 8
    ensures var t := Repeat('0', z) + Numeral(u, 10);
            RunValue(t + tail, 8) < u || |Behind(t + tail, 8)| != |tail|
  {
    var n, t := Numeral(u, 10), Repeat('0', z) + Numeral(u, 10);
    NumeralValue(u, 10);
    if AllDigits(t, 8) {
      forall i | 0 <= i < |n| ensures IsDigitOf(n[i], 8) { assert n[i] == t[z + i]; }
      OctalIsLess(n);
      LeadingZeros(z, n, 8);
      RunOutcome(t, 8, tail);
    } else {
      var r := DigitRun(t + tail, 8);
      if |r| >= |t| {
        forall i | 0 <= i < |t| ensures IsDigitOf(t[i], 8) { assert t[i] == (t + tail)[i] == r[i]; }
      }
    }
  }

  // ---------------------------------------------------------------- whole fields

  /** Minus and plus sign as printed; a blank in the place of a sign counts as white space. */
  function VisibleSign(f: Field): string {
    if f.sign == '-' || f.sign == '+' then [f.sign] else ""
  }

  /** Prefix, zeros and digits of a field, with all that follows. */
  function Body(f: Field, rest: string): string
    requires f.WellFormed()
  {
    Prefix(f) + (ZeroPadded(f) + Tail(f, rest))
  }

  lemma Assembled(lead: string, sign: string, prefix: string, zeros: string, digits: string, trail: string,
                  rest: string)
    ensures (lead + sign + prefix + zeros + digits + trail) + rest
         == (lead + sign) + (prefix + ((zeros + digits) + (trail + rest)))
  {
  }

  lemma FirstOfBody(f: Field, rest: string)
    requires f.WellFormed()
    ensures var s := Body(f, rest); s != "" && s[0] != '-' && s[0] != '+' && !IsSpace(s[0])
  {
    ZeroPaddedFacts(f);
    FirstOfDigits(ZeroPadded(f), f.base, Tail(f, rest));
    if Prefix(f) == "" {
      NothingInFront(ZeroPadded(f) + Tail(f, rest));
    } else {
      assert Body(f, rest)[0] == Prefix(f)[0] == '0';
    }
  }

  /** A printed field with what follows it: blanks, then the sign, then the rest. */
  lemma FieldWithRest(f: Field, rest: string)
    requires f.WellFormed() && IsSignChar(f.sign)
    ensures FieldText(f) + rest
         == Repeat(' ', Lead(f) + if f.sign == ' ' then 1 else 0) + (VisibleSign(f) + Body(f, rest))
  {
    var blanks, trail := Repeat(' ', Lead(f)), Repeat(' ', Trail(f));
    var zeros, digits := Repeat('0', Zeros(f)), Numeral(f.u, f.base);
    FieldParts(f);
    Assembled(blanks, SignText(f), Prefix(f), zeros, digits, trail, rest);
    BlanksAndSign(f);
    Regroup(Repeat(' ', Lead(f) + if f.sign == ' ' then 1 else 0), VisibleSign(f), Body(f, rest));
  }

  /** Reading starts behind the blanks in front. */
  lemma BehindBlanks(f: Field, rest: string)
    requires f.WellFormed() && IsSignChar(f.sign)
    ensures SkipSpaces(FieldText(f) + rest) == VisibleSign(f) + Body(f, rest)
  {
    var k := Lead(f) + if f.sign == ' ' then 1 else 0;
    FieldWithRest(f, rest);
    FirstOfBody(f, rest);
    SkipBlanks(k, VisibleSign(f) + Body(f, rest));
  }

  lemma BlanksAndSign(f: Field)
    requires f.WellFormed() && IsSignChar(f.sign)
    ensures Repeat(' ', Lead(f)) + SignText(f) == Repeat(' ', Lead(f) + if f.sign == ' ' then 1 else 0) + VisibleSign(f)
  {
  }

  /** A plus sign is not stepped over: nothing is read and the end pointer stays on it. */
  lemma PlusStops(s: string, base: nat)
    requires s != "" && s[0] == '+'
    ensures ReadNumber(s, base).1 == s
  {
    assert !HexPrefix(s);
    assert DigitRun(s, Detect(s, base).1) == "";
  }

  /** The sign step of `strtol`, given what comes behind the sign. */
  lemma SignStep(sign: char, s: string, base: nat, v: nat, end: string)
    requires s != "" && s[0] != '-' && ReadNumber(s, base) == (v, end)
    ensures var t := (if sign == '-' || sign == '+' then [sign] else "") + s;
            if sign == '+' then SignedNumber(t, base).1 == t
            else SignedNumber(t, base) == (Signed(if sign == '-' then 0 - v else v, WORD), end)
  {
    var t := (if sign == '-' || sign == '+' then [sign] else "") + s;
    if sign == '-' {
      assert t[1..] == s;
    } else if sign == '+' {
      PlusStops(t, base);
    } else {
      assert t == s;
    }
  }

  /** What `strtol` makes of a field, given what it makes of the digits. */
  lemma FieldToLong(f: Field, rest: string, base: nat, v: nat, end: string)
    requires f.WellFormed() && IsSignChar(f.sign)
    requires ReadNumber(Body(f, rest), base) == (v, end)
    ensures var r := ToLong(FieldText(f) + rest, base);
            if f.sign == '+' then |r.1| > |Tail(f, rest)|
            else r == (Signed(if f.sign == '-' then 0 - v else v, WORD), end)
  {
    BehindBlanks(f, rest);
    FirstOfBody(f, rest);
    SignStep(f.sign, Body(f, rest), base, v, end);
    assert |Tail(f, rest)| < |Body(f, rest)| + 1;
  }

  lemma LongIff(f: Field, rest: string, base: nat, good: bool)
    requires f.WellFormed() && IsSignChar(f.sign)
    requires Outcome(ReadNumber(Body(f, rest), base), good, f.u, Tail(f, rest))
    ensures ToLong(FieldText(f) + rest, base) == (Signed(NumberOf(f), WORD), Tail(f, rest)) <==> f.sign != '+' && good
  {
    var (v, end) := ReadNumber(Body(f, rest), base);
    FieldToLong(f, rest, base, v, end);
  }

  /** What reads a field back with its own base: what follows is no digit, and no x behind a lone
      hexadecimal 0. */
  predicate OwnEnd(f: Field, rest: string)
    requires f.WellFormed()
  {
    Ends(Tail(f, rest), f.base) && !(f.base == 16 && LoneZero(f, Tail(f, rest)))
  }

  lemma OwnOutcome(f: Field, rest: string)
    requires f.WellFormed()
    ensures Outcome(ReadNumber(Body(f, rest), f.base), OwnEnd(f, rest), f.u, Tail(f, rest))
  {
    var t, tail := ZeroPadded(f), Tail(f, rest);
    ZeroPaddedFacts(f);
    LoneText(f);
    if Prefix(f) == "0x" {
      HexNumber(t, tail, 16);
    } else if Prefix(f) == "0" {
      OctalNumber(t, tail, 8);
    } else {
      NothingInFront(t + tail);
      PlainNumber(t, f.base, tail);
    }
  }

  /** `strtol` with the base of the field, for every number, width, padding, prefix and rest of the text:
      the value comes back and the end pointer stops right behind the digits, exactly if no plus sign
      was printed, no digit follows, and no x follows a lone hexadecimal 0. */
  lemma ExplicitBase(f: Field, rest: string)
    requires f.WellFormed() && IsSignChar(f.sign)
    ensures ToLong(FieldText(f) + rest, f.base) == (Signed(NumberOf(f), WORD), Tail(f, rest)) <==>
              f.sign != '+' && OwnEnd(f, rest)
  {
    OwnOutcome(f, rest);
    LongIff(f, rest, f.base, OwnEnd(f, rest));
  }

  /** What reads a field back with base 0: it does not look octal, no digit of the detected base follows,
      and no x behind a lone 0. */
  predicate DetectedEnd(f: Field, rest: string)
    requires f.WellFormed()
  {
    !LooksOctal(f) && Ends(Tail(f, rest), DetectedBase(f)) && !LoneZero(f, Tail(f, rest))
  }

  /** With base 0 the digits of a field are read as its number, or else as a smaller one, or the end
      pointer is elsewhere. */
  lemma DetectionOutcome(f: Field, rest: string)
    requires f.WellFormed() && Detectable(f)
    ensures var (v, end) := ReadNumber(Body(f, rest), 0);
            if DetectedEnd(f, rest) then v == f.u && end == Tail(f, rest) else v < f.u || |end| != |Tail(f, rest)|
  {
    var t, tail := ZeroPadded(f), Tail(f, rest);
    ZeroPaddedFacts(f);
    if Prefix(f) == "0x" {
      HexNumber(t, tail, 0);
    } else if Prefix(f) == "0" {
      OctalNumber(t, tail, 0);
    } else {
      NothingInFront(t + tail);
      PlainDetection(f, tail);
    }
  }

  /** Base 0 without a hexadecimal prefix: octal behind a 0, and decimal otherwise. */
  lemma Detects(s: string)
    requires s != "" && !HexPrefix(s)
    ensures var base := if s[0] == '0' then 8 else 10; ReadNumber(s, 0) == (RunValue(s, base), Behind(s, base))
  {
  }

  /** The same for a field without prefix: decimal, or 0. */
  lemma PlainDetection(f: Field, tail: string)
    requires f.WellFormed() && Detectable(f) && Prefix(f) == ""
    ensures var (v, end) := ReadNumber(ZeroPadded(f) + tail, 0);
            if !LooksOctal(f) && Ends(tail, DetectedBase(f)) && !LoneZero(f, tail) then v == f.u && end == tail
            else v < f.u || |end| != |tail|
  {
    var t := ZeroPadded(f);
    ZeroPaddedFacts(f);
    FirstOfZeroPadded(f);
    LoneText(f);
    if LoneZero(f, tail) {
      PrefixIsSkipped(tail, 0);
    } else {
      FirstOfDigits(t, f.base, tail);
      Detects(t + tail);
      RunDetection(f, tail);
    }
  }

  lemma RunDetection(f: Field, tail: string)
    requires f.WellFormed() && Detectable(f) && Prefix(f) == ""
    ensures var s, base := ZeroPadded(f) + tail, if ZeroPadded(f)[0] == '0' then 8 else 10;
            if !LooksOctal(f) && Ends(tail, DetectedBase(f)) then RunValue(s, base) == f.u && Behind(s, base) == tail
            else RunValue(s, base) < f.u || |Behind(s, base)| != |tail|
  {
    var t := ZeroPadded(f);
    ZeroPaddedFacts(f);
    FirstOfZeroPadded(f);
    if t[0] != '0' {
      RunOutcome(t, 10, tail);
    } else if f.u < 8 {
      SmallNumber(Zeros(f), f.u, f.base);
      RunOutcome(t, 8, tail);
    } else {
      OctalMisreads(Zeros(f), f.u, tail);
    }
  }

  lemma SmallerIsDifferent(u: nat, v: nat, negative: bool)
    requires v <= u && -(WORD / 2) <= (if negative then 0 - u else u) < WORD / 2
    ensures Signed(if negative then 0 - v else v, WORD) == (if negative then 0 - u else u) <==> v == u
  {
    SignedInRange(if negative then 0 - v else v, WORD);
  }

  /** `strtol` with base 0: the same, exactly if no plus sign and no zero-padded decimal number of 8 or
      more was printed, no digit of the detected base follows, and no x follows a lone 0. */
  lemma BaseDetection(f: Field, rest: string)
    requires f.WellFormed() && IsSignChar(f.sign) && Detectable(f)
    requires -(WORD / 2) <= NumberOf(f) < WORD / 2
    ensures ToLong(FieldText(f) + rest, 0) == (NumberOf(f), Tail(f, rest)) <==> f.sign != '+' && DetectedEnd(f, rest)
  {
    var (v, end) := ReadNumber(Body(f, rest), 0);
    DetectionOutcome(f, rest);
    FieldToLong(f, rest, 0, v, end);
    if v <= f.u { SmallerIsDifferent(f.u, v, f.sign == '-'); }
  }

  lemma ReadsAb()
    ensures RunValue("ab", 16) == 171 && Behind("ab", 16) == ""
  {
    var a, ab := "a", "ab";
    assert ab[..2] == a + ['b'] && a == "" + ['a'] && ab[2..] == "";
    assert Value("", 16) == 0;
    ValueSnoc("", 'a', 16);
    ValueSnoc("a", 'b', 16);
    RunEnds("ab", 2, 16);
  }

  /** An x behind a lone 0: a hexadecimal 0 with "xab" behind it comes back as 171, with its own base and
      with base 0, and nothing of the text is left. */
  lemma LoneZeroIsMisread(f: Field)
    requires f == Field(0, 16, '\0', false, ' ', false, 0)
    ensures FieldText(f) == "0" && Tail(f, "xab") == "xab"
    ensures ToLong(FieldText(f) + "xab", 16) == ToLong(FieldText(f) + "xab", 0) == (171, "")
  {
    assert Padding(f) == 0 && Numeral(0, 16) == "0";
    BehindBlanks(f, "xab");
    NothingInFront(Body(f, "xab"));
    assert Body(f, "xab") == "0" + "xab" && "xab"[1..] == "ab";
    PrefixIsSkipped("xab", 16);
    PrefixIsSkipped("xab", 0);
    ReadsAb();
    SignedInRange(171, WORD);
  }

  /** `strtoul` reads a field without sign as `ReadNumber` reads its prefix and digits. */
  lemma FieldToUnsigned(f: Field, rest: string, base: nat)
    requires f.WellFormed() && f.sign == '\0'
    ensures var (v, end) := ReadNumber(Body(f, rest), base);
            ToUnsignedLong(FieldText(f) + rest, base) == (Unsigned(v, WORD), end)
  {
    assert SkipSpaces(FieldText(f) + rest) == Body(f, rest) by {
      BehindBlanks(f, rest);
      NothingInFront(Body(f, rest));
    }
  }

  /** `strtoul` with the base of the field: every word in every field without sign is read back, with
      the end pointer right behind its digits, exactly if no digit follows, and no x behind a lone
      hexadecimal 0. */
  lemma UnsignedExplicitBase(f: Field, rest: string)
    requires f.WellFormed() && f.sign == '\0' && f.u < WORD
    ensures ToUnsignedLong(FieldText(f) + rest, f.base) == (f.u, Tail(f, rest)) <==> OwnEnd(f, rest)
  {
    FieldToUnsigned(f, rest, f.base);
    OwnOutcome(f, rest);
    UnsignedInRange(f.u, WORD);
  }

  /** `strtoul` with base 0: the same, exactly if no zero-padded decimal number of 8 or more was printed,
      no digit of the detected base follows, and no x behind a lone 0. */
  lemma UnsignedBaseDetection(f: Field, rest: string)
    requires f.WellFormed() && f.sign == '\0' && f.u < WORD && Detectable(f)
    ensures ToUnsignedLong(FieldText(f) + rest, 0) == (f.u, Tail(f, rest)) <==> DetectedEnd(f, rest)
  {
    var (v, end) := ReadNumber(Body(f, rest), 0);
    FieldToUnsigned(f, rest, 0);
    DetectionOutcome(f, rest);
    UnsignedInRange(f.u, WORD);
    if v <= f.u { UnsignedInRange(v, WORD); }
  }

  // ---------------------------------------------------------------- conversions

  lemma {:induction false} FlagsFacts(d: Directive)
    requires d.plus == '\0' || d.plus == '+' || d.plus == ' '
    ensures var r := Flags(d); r.padc == d.padc && (r.plus == '\0' || r.plus == '+' || r.plus == ' ')
    decreases |d.rest|
  {
    var c := Peek(d.rest);
    if c == '#' {
      FlagsFacts(d.(altfmt := true, rest := d.rest[1..]));
    } else if c == '-' {
      FlagsFacts(d.(ladjust := true, rest := d.rest[1..]));
    } else if c == '+' {
      FlagsFacts(d.(plus := '+', rest := d.rest[1..]));
    } else if c == ' ' {
      FlagsFacts(d.(plus := if d.plus == '\0' then ' ' else d.plus, rest := d.rest[1..]));
    }
  }

  lemma {:induction false} LongFlagsFacts(d: Directive)
    ensures var r := LongFlags(d); r.padc == d.padc && r.plus == d.plus
    decreases |d.rest|
  {
    if Peek(d.rest) == 'l' { LongFlagsFacts(d.(longopt := d.longopt + 1, rest := d.rest[1..])); }
  }

  lemma WidthFacts(d: Directive)
    requires Width(d).Some?
    ensures Width(d).value.padc == d.padc && Width(d).value.plus == d.plus
  {
  }

  lemma PrecisionFacts(d: Directive)
    requires Precision(d).Some?
    ensures Precision(d).value.padc == d.padc && Precision(d).value.plus == d.plus
  {
  }

  /** Sign and padding characters that a format text can ask for. */
  lemma ParsedFacts(fmt: string, args: seq<int>, d: Directive)
    requires Parsed(fmt, args) == Some(d)
    ensures (d.padc == ' ' || d.padc == '0') && (d.plus == '\0' || d.plus == '+' || d.plus == ' ')
  {
    var d0 := Directive(false, false, '\0', ' ', 0, 0, fmt, args);
    var d1 := ZeroFlag(Flags(d0));
    var d2 := Width(d1).value;
    FlagsFacts(d0);
    WidthFacts(d1);
    PrecisionFacts(d2);
    LongFlagsFacts(Precision(d2).value);
  }

  /** A directive of a format text, with its conversion character and the argument that it prints. */
  ghost predicate Prints(fmt: string, args: seq<int>, radix: int, d: Directive, c: char, arg: int) {
    && Parsed(fmt, args) == Some(d) && d.rest != "" && d.rest[0] == c && d.args != [] && d.args[0] == arg
    && IsNumeric(c) && d.longopt <= 1 && Converted(d, radix).Some?
  }

  lemma PrintsField(fmt: string, args: seq<int>, radix: int, d: Directive, c: char, arg: int)
    requires Prints(fmt, args, radix, d, c, arg)
    ensures BaseOf(c, radix) >= 0
    ensures var f := FieldOf(d, c, BaseOf(c, radix), arg);
            f.WellFormed() && Converted(d, radix).value.0 == FieldText(f) && IsSignChar(f.sign)
    ensures var f := FieldOf(d, c, BaseOf(c, radix), arg);
            if IsSigned(c) then
              NumberOf(f) == Signed(arg, WORD) && (f.sign == '+' <==> d.plus == '+' && NumberOf(f) >= 0)
            else f.sign == '\0' && f.u == Unsigned(arg, WORD)
  {
    ParsedFacts(fmt, args, d);
  }

  /** Every long, printed by any signed conversion of any format with any flags, width and padding, is
      read back by `strtol` with the base of the conversion, exactly if no plus sign was printed and what
      follows does not continue the number. */
  lemma SignedConversion(fmt: string, args: seq<int>, radix: int, d: Directive, c: char, arg: int, rest: string)
    requires Prints(fmt, args, radix, d, c, arg) && IsSigned(c)
    ensures BaseOf(c, radix) >= 0 && FieldOf(d, c, BaseOf(c, radix), arg).WellFormed()
    ensures var base := BaseOf(c, radix);
            var f, n := FieldOf(d, c, base, arg), Signed(arg, WORD);
            ToLong(Converted(d, radix).value.0 + rest, base) == (n, Tail(f, rest)) <==>
              !(d.plus == '+' && n >= 0) && OwnEnd(f, rest)
  {
    PrintsField(fmt, args, radix, d, c, arg);
    ExplicitBase(FieldOf(d, c, BaseOf(c, radix), arg), rest);
    SignedInRange(Signed(arg, WORD), WORD);
  }

  /** Every argument of an unsigned conversion of any format is read back by `strtoul` as its bit
      pattern, exactly if what follows does not continue the number. */
  lemma UnsignedConversion(fmt: string, args: seq<int>, radix: int, d: Directive, c: char, arg: int, rest: string)
    requires Prints(fmt, args, radix, d, c, arg) && !IsSigned(c)
    ensures BaseOf(c, radix) >= 0 && FieldOf(d, c, BaseOf(c, radix), arg).WellFormed()
    ensures var base := BaseOf(c, radix);
            var f := FieldOf(d, c, base, arg);
            ToUnsignedLong(Converted(d, radix).value.0 + rest, base) == (Unsigned(arg, WORD), Tail(f, rest)) <==>
              OwnEnd(f, rest)
  {
    PrintsField(fmt, args, radix, d, c, arg);
    UnsignedExplicitBase(FieldOf(d, c, BaseOf(c, radix), arg), rest);
  }
}
