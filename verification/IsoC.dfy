/** Where `strtol` and `_doscan` part from ISO/IEC 9899:1999: what sections 7.20.1.4 and 7.19.6.2 ask for,
    for which inputs the code does the same, and inputs for which it does not. */
module IsoC {
  import opened Machine
  import opened Numerals
  import opened Strtol
  import opened Scanner

  predicate HasDigits(s: string, base: int) {
    s != "" && IsDigitOf(s[0], base)
  }

  lemma {:induction false} SkipSpacesFacts(s: string)
    ensures |SkipSpaces(s)| <= |s| && (|SkipSpaces(s)| == |s| <==> s == "" || !IsSpace(s[0]))
    ensures |SkipSpaces(s)| == |s| ==> SkipSpaces(s) == s
  {
    if s != "" && IsSpace(s[0]) { SkipSpacesFacts(s[1..]); }
  }

  lemma DigitsOrNothing(s: string, base: int)
    ensures HasDigits(s, base) <==> |Behind(s, base)| < |s|
    ensures !HasDigits(s, base) ==> RunValue(s, base) == 0 && Behind(s, base) == s
  {
    if !HasDigits(s, base) && base > 0 { assert DigitRun(s, base) == "" && Value("", base) == 0; }
  }

  // ---------------------------------------------------------------- strtol (section 7.20.1.4)

  /** What is left behind an optional sign. */
  function BehindSign(t: string): string {
    if Peek(t) == '-' || Peek(t) == '+' then t[1..] else t
  }

  /** The prefix 0x with no hexadecimal digit behind it. */
  predicate BarePrefix(t: string, base: int) {
    (base == 16 || base == 0) && HexPrefix(t) && !HasDigits(t[2..], 16)
  }

  /** The digits and their base: a prefix only counts if digits follow. */
  function Subject(t: string, base: int): (string, int) {
    if BarePrefix(t, base) then (t, if base == 0 then 8 else 16) else Detect(t, base)
  }

  /** The number read, before any clamping to the range of a long, and the text at the end pointer: the
      whole text if there is no number. */
  function Standard(s: string, base: int): (int, string) {
    var t := SkipSpaces(s);
    var (digits, b) := Subject(BehindSign(t), base);
    if !HasDigits(digits, b) then (0, s)
    else (if Peek(t) == '-' then 0 - RunValue(digits, b) else RunValue(digits, b), Behind(digits, b))
  }

  /** Where the code agrees: there is no bare prefix; a number has no plus sign; and where there is no
      number, there is neither white space nor a minus sign to step over. */
  predicate Agrees(s: string, base: int) {
    var t := SkipSpaces(s);
    var (digits, b) := Subject(BehindSign(t), base);
    && !BarePrefix(BehindSign(t), base)
    && if HasDigits(digits, b) then Peek(t) != '+' else (s == "" || !IsSpace(s[0])) && Peek(s) != '-'
  }

  /** Number, in the arithmetic of a 32-bit long, and end pointer are those of the standard exactly for
      these inputs. */
  lemma StrtolAgreesIff(s: string, base: int)
    ensures (var (n, end) := Standard(s, base); ToLong(s, base) == (Signed(n, WORD), end)) <==> Agrees(s, base)
  {
    var t := SkipSpaces(s);
    SkipSpacesFacts(s);
    SignedInRange(0, WORD);
    if Peek(t) == '+' {
      PlusAgreesIff(s, base);
    } else if BarePrefix(BehindSign(t), base) {
      BarePrefixDiffers(BehindSign(t), base);
    } else {
      DigitsOrNothing(Detect(BehindSign(t), base).0, Detect(BehindSign(t), base).1);
      assert HexPrefix(BehindSign(t)) && (base == 0 || base == 16) ==> HasDigits(BehindSign(t)[2..], 16);
    }
  }

  /** A plus sign is no digit, and nothing is read from it on. */
  lemma PlusStops(s: string, base: int)
    requires Peek(SkipSpaces(s)) == '+'
    ensures ToLong(s, base) == (0, SkipSpaces(s))
  {
    var t := SkipSpaces(s);
    assert !HexPrefix(t);
    DigitsOrNothing(t, Detect(t, base).1);
    SignedInRange(0, WORD);
  }

  lemma SubjectIsShorter(t: string, base: int)
    ensures |Subject(t, base).0| <= |t|
    ensures BarePrefix(t, base) ==> HasDigits(Subject(t, base).0, Subject(t, base).1)
  {
  }

  lemma PlusAgreesIff(s: string, base: int)
    requires Peek(SkipSpaces(s)) == '+'
    ensures (var (n, end) := Standard(s, base); ToLong(s, base) == (Signed(n, WORD), end)) <==> Agrees(s, base)
  {
    var t := SkipSpaces(s);
    var (digits, b) := Subject(t[1..], base);
    PlusStops(s, base);
    SubjectIsShorter(t[1..], base);
    SkipSpacesFacts(s);
    if HasDigits(digits, b) { DigitsOrNothing(digits, b); } else { SignedInRange(0, WORD); }
  }

  /** Reading goes on behind a bare prefix, where the standard stops behind its 0. */
  lemma BarePrefixDiffers(t: string, base: int)
    requires BarePrefix(t, base)
    ensures ReadNumber(t, base) == (0, t[2..])
    ensures var (digits, b) := Subject(t, base); HasDigits(digits, b) && Behind(digits, b) == t[1..]
  {
    DigitsOrNothing(t[2..], 16);
    var b := if base == 0 then 8 else 16;
    assert t[..1] == "0" && !IsDigitOf(t[1], b);
    RunEnds(t, 1, b);
  }

  /** `strtoul` steps over neither sign: it reads 0 and leaves the end pointer on the sign. */
  lemma UnsignedStopsAtSign(s: string, base: int)
    requires Peek(SkipSpaces(s)) == '-' || Peek(SkipSpaces(s)) == '+'
    ensures ToUnsignedLong(s, base) == (0, SkipSpaces(s))
  {
    var t := SkipSpaces(s);
    assert !HexPrefix(t);
    DigitsOrNothing(t, Detect(t, base).1);
    UnsignedInRange(0, WORD);
  }

  /** One input for each way to differ: white space in front of no number, a plus sign, a bare prefix. */
  lemma StrtolDiffers(s: string, base: int)
    requires (s == [' ', 'z'] && base == 10) || (s == ['+', '7'] && base == 10) || (s == ['0', 'x', 'z'] && base == 16)
    ensures var (n, end) := Standard(s, base); ToLong(s, base) != (Signed(n, WORD), end)
  {
    if s[0] == ' ' {
      assert s[1..] == ['z'] && SkipSpaces(s) == ['z'];
      assert !HasDigits(['z'], 10);
    } else if s[0] == '+' {
      assert SkipSpaces(s) == s && s[1..] == ['7'] && HasDigits(['7'], 10);
    } else {
      assert SkipSpaces(s) == s && s[2..] == ['z'] && !HasDigits(['z'], 16);
    }
    assert !Agrees(s, base);
    StrtolAgreesIff(s, base);
  }

  // ---------------------------------------------------------------- number conversions (section 7.19.6.2)

  /** What %d and %x ask for: white space is skipped, either sign may stand in front, %x takes a prefix
      0x, and without digits the conversion fails. */
  function StandardItem(input: string, base: nat): Option<(int, string)> {
    var t := SkipSpaces(input);
    var s := BehindSign(t);
    var digits := if base == 16 && HexPrefix(s) then s[2..] else s;
    if !HasDigits(digits, base) then None
    else Some((Signed(if Peek(t) == '-' then 0 - RunValue(digits, base) else RunValue(digits, base), WORD),
               Behind(digits, base)))
  }

  /** The digits are there, behind nothing but a minus sign. */
  predicate PlainInput(input: string, base: nat) {
    var s := if Peek(input) == '-' then input[1..] else input;
    HasDigits(s, base) && !(base == 16 && HexPrefix(s))
  }

  /** A conversion takes from the input what the standard wants it to take exactly for these inputs. */
  lemma ConversionAgreesIff(input: string, base: nat)
    requires 2 <= base <= 16
    ensures StandardItem(input, base) == Some(ScanNumber(input, base)) <==> PlainInput(input, base)
  {
    var t := SkipSpaces(input);
    var s := BehindSign(t);
    SkipSpacesFacts(input);
    DigitsOrNothing(input, base);
    DigitsOrNothing(if Peek(input) == '-' then input[1..] else input, base);
    DigitsOrNothing(if base == 16 && HexPrefix(s) then s[2..] else s, base);
    if input != "" && IsSpace(input[0]) {
      assert ScanNumber(input, base).1 == input;
    } else if base == 16 && HexPrefix(s) {
      ZeroOfPrefix(s);
    }
  }

  lemma ZeroOfPrefix(s: string)
    requires HexPrefix(s)
    ensures Behind(s, 16) == s[1..]
  {
    assert s[..1] == "0" && !IsDigitOf(s[1], 16);
    RunEnds(s, 1, 16);
  }

  /** The step that the standard takes for a conversion: a failed one ends the scan and does not count. */
  function StandardStep(c: char, more: string, input: string): Option<ScanResult> {
    match StandardItem(input, if c == 'd' then 10 else 16)
    case None => Some(ScanResult(0, []))
    case Some((n, left)) => Tally(false, [n], Scanned(more, left))
  }

  /** The code counts every conversion: it takes the standard's step on plain input, and never where the
      standard's conversion fails. */
  lemma FailedConversionCounts(c: char, more: string, input: string)
    requires (c == 'd' || c == 'x') && Scanned(['%', c] + more, input).Some?
    ensures var base := if c == 'd' then 10 else 16;
            && (PlainInput(input, base) ==> Scanned(['%', c] + more, input) == StandardStep(c, more, input))
            && (StandardItem(input, base).None? ==> Scanned(['%', c] + more, input) != StandardStep(c, more, input))
  {
    var base, fmt := if c == 'd' then 10 else 16, ['%', c] + more;
    ConversionAgreesIff(input, base);
    assert fmt[0] == '%' && fmt[1..] == [c] + more && ([c] + more)[1..] == more && AfterStars([c] + more) == [c] + more;
  }

  /** A character that is no conversion takes nothing from the input and counts as a conversion. For a
      percent sign the standard wants one percent sign taken and none counted. */
  lemma OthersCount(c: char, more: string, input: string)
    requires c != 'd' && c != 'x' && c != 's' && c != '*'
    ensures Scanned(['%', c] + more, input) == Tally(false, [], Scanned(more, input))
  {
    var fmt, rest := ['%', c] + more, [c] + more;
    assert fmt[0] == '%' && fmt[1..] == rest && rest[1..] == more && AfterStars(rest) == rest;
  }

  /** So the format "%%" yields 1 for every input, where the standard wants 0. */
  lemma PercentDiffers(input: string)
    ensures Scanned("%%", input) == Some(ScanResult(1, []))
  {
    OthersCount('%', "", input);
    assert Scanned("", input) == Some(ScanResult(0, []));
    assert ['%', '%'] + "" == "%%";
    var none: seq<int> := [];
    assert none + none == none;
  }
}
