/** What a conversion in a format text asks for and what `_doprnt` prints for it, from the characters of
    the format to the characters of the output. */
module Directives {
  import opened Machine
  import opened Numerals
  import opened Printer

  // ---------------------------------------------------------------- requests and their text

  function Has(s: string, c: char): bool {
    s != "" && (s[0] == c || Has(s[1..], c))
  }

  predicate IsFlag(c: char) {
    c == '#' || c == '-' || c == '+' || c == ' '
  }

  datatype WidthPart = NoWidth | WidthDigits(w: nat) | WidthStar
  datatype PrecisionPart = NoPrecision | PrecisionDigits(digits: string) | PrecisionStar

  /** What can stand between the percent sign and the conversion character. */
  datatype Request = Request(flags: string, zero: bool, width: WidthPart, precision: PrecisionPart, longs: nat) {
    predicate Proper() {
      && (forall i :: 0 <= i < |flags| ==> IsFlag(flags[i]))
      && (width.WidthDigits? ==> 0 < width.w <= INT_MAX)
      && (precision.PrecisionDigits? ==>
            (forall i :: 0 <= i < |precision.digits| ==> IsDecimal(precision.digits[i]))
            && DecimalRun(0, precision.digits).0 <= INT_MAX)
    }

    /** The request as format text, followed by `tail`; and what of it is left behind the flags, the zero
        flag, the width and the precision. */
    function Text(tail: string): string {
      flags + BehindFlags(tail)
    }

    function BehindFlags(tail: string): string {
      ZeroText() + BehindZero(tail)
    }

    function BehindZero(tail: string): string {
      WidthText() + BehindWidth(tail)
    }

    function BehindWidth(tail: string): string {
      PrecisionText() + BehindPrecision(tail)
    }

    function BehindPrecision(tail: string): string {
      Repeat('l', longs) + tail
    }

    function ZeroText(): string {
      if zero then "0" else ""
    }

    function WidthText(): string {
      match width
      case NoWidth => ""
      case WidthDigits(w) => Numeral(w, 10)
      case WidthStar => "*"
    }

    function PrecisionText(): string {
      match precision
      case NoPrecision => ""
      case PrecisionDigits(digits) => "." + digits
      case PrecisionStar => ".*"
    }

    /** The arguments that the stars take. */
    function Stars(): nat {
      (if width.WidthStar? then 1 else 0) + if precision.PrecisionStar? then 1 else 0
    }

    /** There is an argument for each star, and the width can be made positive. */
    predicate Served(args: seq<int>) {
      |args| >= Stars() && (width.WidthStar? ==> Signed(args[0], 0x1_0000_0000) > -0x8000_0000)
    }

    /** The width asked for, with a minus sign if it is given by a negative argument. */
    function Asked(args: seq<int>): int
      requires Served(args)
    {
      match width
      case NoWidth => 0
      case WidthDigits(w) => w
      case WidthStar => Signed(args[0], 0x1_0000_0000)
    }

    /** Left adjustment: the flag, turned round by a negative width. */
    predicate Left(args: seq<int>)
      requires Served(args)
    {
      Has(flags, '-') != (Asked(args) < 0)
    }

    /** What is put in front of a number that is not negative. */
    function PlusText(): string {
      if Has(flags, '+') then "+" else if Has(flags, ' ') then " " else ""
    }
  }

  // ---------------------------------------------------------------- reading a request back

  /** Neither part of a request nor its continuation. */
  predicate Quiet(c: char) {
    !IsFlag(c) && !IsDecimal(c) && c != '*' && c != '.' && c != 'l'
  }

  lemma {:induction false} FlagsStage(flags: string, tail: string, d: Directive)
    requires (forall i :: 0 <= i < |flags| ==> IsFlag(flags[i])) && !IsFlag(Peek(tail)) && d.rest == flags + tail
    ensures Flags(d) == d.(altfmt := d.altfmt || Has(flags, '#'), ladjust := d.ladjust || Has(flags, '-'),
                           plus := if Has(flags, '+') then '+' else if d.plus != '\0' then d.plus
                                   else if Has(flags, ' ') then ' ' else '\0',
                           rest := tail)
    decreases |flags|
  {
    if flags == "" {
      NothingInFront(tail);
    } else {
      var c, more := flags[0], flags[1..];
      assert Peek(d.rest) == c && IsFlag(c) && d.rest[1..] == more + tail;
      if c == '#' {
        FlagsStage(more, tail, d.(altfmt := true, rest := more + tail));
      } else if c == '-' {
        FlagsStage(more, tail, d.(ladjust := true, rest := more + tail));
      } else if c == '+' {
        FlagsStage(more, tail, d.(plus := '+', rest := more + tail));
      } else {
        FlagsStage(more, tail, d.(plus := if d.plus == '\0' then ' ' else d.plus, rest := more + tail));
      }
    }
  }

  /** A run of decimal digits in front of something else is read to its end. */
  lemma {:induction false} DecimalStage(s: string, tail: string)
    requires forall i :: 0 <= i < |s| ==> IsDecimal(s[i])
    ensures AllDigits(s, 10) && DecimalRun(0, s + tail) == DecimalRun(Value(s, 10), tail)
    decreases |s|
  {
    if s == "" {
      NothingInFront(tail);
    } else {
      var t, c := s[..|s| - 1], s[|s| - 1];
      DecimalStage(t, [c] + tail);
      assert t + ([c] + tail) == s + tail;
      assert ([c] + tail)[1..] == tail;
      assert t + [c] == s && DigitValue(c) == c as int - '0' as int;
      ValueSnoc(t, c, 10);
    }
  }

  lemma WidthOfDigits(w: nat, tail: string, d: Directive)
    requires 0 < w <= INT_MAX && !IsDecimal(Peek(tail)) && d.rest == Numeral(w, 10) + tail
    ensures Width(d) == Some(d.(length := w, rest := tail))
  {
    var s := Numeral(w, 10);
    NumeralValue(w, 10);
    forall i | 0 <= i < |s| ensures IsDecimal(s[i]) { assert IsDigitOf(s[i], 10); }
    DecimalStage(s, tail);
    assert Peek(d.rest) == s[0];
  }

  lemma WidthStage(rq: Request, tail: string, d: Directive, args: seq<int>)
    requires rq.Proper() && rq.Served(args) && !IsDecimal(Peek(tail)) && Peek(tail) != '*'
    requires d.rest == rq.WidthText() + tail && d.args == args && d.length == 0
    ensures var k := if rq.width.WidthStar? then 1 else 0;
            Width(d) == Some(d.(length := if rq.Asked(args) < 0 then -rq.Asked(args) else rq.Asked(args),
                                ladjust := d.ladjust != (rq.Asked(args) < 0), rest := tail, args := args[k..]))
  {
    match rq.width
    case NoWidth => NothingInFront(tail); assert args[0..] == args;
    case WidthDigits(w) => WidthOfDigits(w, tail, d); assert args[0..] == args;
    case WidthStar => assert ("*" + tail)[1..] == tail;
  }

  lemma PrecisionStage(rq: Request, tail: string, d: Directive)
    requires rq.Proper() && !IsDecimal(Peek(tail)) && Peek(tail) != '*' && Peek(tail) != '.'
    requires d.rest == rq.PrecisionText() + tail && (rq.precision.PrecisionStar? ==> d.args != [])
    ensures Precision(d) == Some(d.(rest := tail, args := d.args[if rq.precision.PrecisionStar? then 1 else 0..]))
  {
    match rq.precision
    case NoPrecision => NothingInFront(tail);
    case PrecisionDigits(digits) =>
      Regroup(".", digits, tail);
      assert ("." + (digits + tail))[1..] == digits + tail;
      DecimalStage(digits, tail);
      DecimalStage(digits, "");
      assert digits + "" == digits;
      if digits == "" { NothingInFront(tail); } else { assert Peek(digits + tail) == digits[0]; }
    case PrecisionStar =>
      Regroup(".", "*", tail);
      assert ("." + ("*" + tail))[1..] == "*" + tail && ("*" + tail)[1..] == tail;
  }

  lemma {:induction false} LongStage(k: nat, tail: string, d: Directive)
    requires Peek(tail) != 'l' && d.rest == Repeat('l', k) + tail
    ensures LongFlags(d) == d.(longopt := d.longopt + k, rest := tail)
    decreases k
  {
    if k == 0 {
      NothingInFront(tail);
    } else {
      RepeatFirst('l', k);
      assert d.rest[0] == 'l' && d.rest[1..] == Repeat('l', k - 1) + tail;
      LongStage(k - 1, tail, d.(longopt := d.longopt + 1, rest := Repeat('l', k - 1) + tail));
    }
  }

  lemma RepeatFirst(c: char, k: nat)
    requires k > 0
    ensures Repeat(c, k) == [c] + Repeat(c, k - 1)
  {
  }

  /** The first character of a text with something in front. */
  lemma FirstOf(s: string, tail: string)
    ensures Peek(s + tail) == if s == "" then Peek(tail) else s[0]
  {
    if s == "" { NothingInFront(tail); }
  }

  /** The directive that a request comes to. */
  function Meaning(rq: Request, rest: string, args: seq<int>): Directive
    requires rq.Served(args)
  {
    Directive(Has(rq.flags, '#'), rq.Left(args),
              if Has(rq.flags, '+') then '+' else if Has(rq.flags, ' ') then ' ' else '\0',
              if rq.zero then '0' else ' ',
              if rq.Asked(args) < 0 then -rq.Asked(args) else rq.Asked(args),
              rq.longs, rest, args[rq.Stars()..])
  }

  /** Each part of the text ends where the next begins. */
  lemma PartsEnd(rq: Request, rest: string)
    requires rq.Proper() && rest != "" && Quiet(rest[0])
    ensures !IsFlag(Peek(rq.BehindFlags(rest)))
    ensures !IsFlag(Peek(rq.BehindZero(rest))) && Peek(rq.BehindZero(rest)) != '0'
    ensures var c := Peek(rq.BehindWidth(rest)); !IsDecimal(c) && c != '*'
    ensures var c := Peek(rq.BehindPrecision(rest)); !IsDecimal(c) && c != '*' && c != '.'
  {
    FirstOf(Repeat('l', rq.longs), rest);
    FirstOf(rq.PrecisionText(), rq.BehindPrecision(rest));
    FirstOfWidth(rq, rq.BehindWidth(rest));
    FirstOf(rq.ZeroText(), rq.BehindZero(rest));
  }

  lemma ParsedIs(fmt: string, args: seq<int>, d1: Directive, d2: Directive, d3: Directive)
    requires ZeroFlag(Flags(Directive(false, false, '\0', ' ', 0, 0, fmt, args))) == d1
    requires Width(d1) == Some(d2) && Precision(d2) == Some(d3)
    ensures Parsed(fmt, args) == Some(LongFlags(d3))
  {
  }

  /** Flags and zero flag together. */
  lemma HeadStage(rq: Request, rest: string, args: seq<int>)
    requires rq.Proper() && rest != "" && Quiet(rest[0])
    ensures ZeroFlag(Flags(Directive(false, false, '\0', ' ', 0, 0, rq.Text(rest), args)))
         == Directive(Has(rq.flags, '#'), Has(rq.flags, '-'),
                      if Has(rq.flags, '+') then '+' else if Has(rq.flags, ' ') then ' ' else '\0',
                      if rq.zero then '0' else ' ', 0, 0, rq.BehindZero(rest), args)
  {
    var d := Directive(false, false, '\0', ' ', 0, 0, rq.Text(rest), args);
    PartsEnd(rq, rest);
    FlagsStage(rq.flags, rq.BehindFlags(rest), d);
    ZeroStage(rq, rq.BehindZero(rest), Flags(d));
  }

  /** Whatever flags in whatever order, zero flag, width, precision and number of l are written, they are
      what is read back, up to the conversion character. */
  lemma ParsedText(rq: Request, rest: string, args: seq<int>)
    requires rq.Proper() && rq.Served(args) && rest != "" && Quiet(rest[0])
    ensures Parsed(rq.Text(rest), args) == Some(Meaning(rq, rest, args))
  {
    var m, k := Meaning(rq, rest, args), if rq.width.WidthStar? then 1 else 0;
    var d1 := Directive(m.altfmt, Has(rq.flags, '-'), m.plus, m.padc, 0, 0, rq.BehindZero(rest), args);
    var d2 := m.(longopt := 0, rest := rq.BehindWidth(rest), args := args[k..]);
    var d3 := m.(longopt := 0, rest := rq.BehindPrecision(rest));
    PartsEnd(rq, rest);
    HeadStage(rq, rest, args);
    WidthStage(rq, rq.BehindWidth(rest), d1, args);
    PrecisionStage(rq, rq.BehindPrecision(rest), d2);
    assert args[k..][if rq.precision.PrecisionStar? then 1 else 0..] == args[rq.Stars()..];
    ParsedIs(rq.Text(rest), args, d1, d2, d3);
    LongStage(rq.longs, rest, d3);
  }

  lemma FirstOfWidth(rq: Request, tail: string)
    requires rq.Proper() && !IsFlag(Peek(tail)) && Peek(tail) != '0'
    ensures !IsFlag(Peek(rq.WidthText() + tail)) && Peek(rq.WidthText() + tail) != '0'
  {
    FirstOf(rq.WidthText(), tail);
    if rq.width.WidthDigits? {
      NumeralValue(rq.width.w, 10);
      assert IsDigitOf(Numeral(rq.width.w, 10)[0], 10);
    }
  }

  lemma ZeroStage(rq: Request, tail: string, d: Directive)
    requires Peek(tail) != '0' && d.rest == rq.ZeroText() + tail && d.padc == ' '
    ensures ZeroFlag(d) == d.(padc := if rq.zero then '0' else ' ', rest := tail)
  {
    if rq.zero { assert ("0" + tail)[1..] == tail; } else { NothingInFront(tail); }
  }

  // ---------------------------------------------------------------- what is printed

  /** The numeric conversions with their base and sign: those of the standard, z for signed hexadecimal
      numbers, and r and n for the radix that the caller of `_doprnt` passes. */
  predicate IsConversion(c: char, base: nat, signed: bool, radix: int) {
    || ((c == 'd' || c == 'D') && base == 10 && signed)
    || ((c == 'u' || c == 'U') && base == 10 && !signed)
    || ((c == 'o' || c == 'O') && base == 8 && !signed)
    || ((c == 'x' || c == 'X') && base == 16 && !signed)
    || ((c == 'z' || c == 'Z') && base == 16 && signed)
    || ((c == 'r' || c == 'R') && base == radix && 2 <= base <= 16 && signed)
    || ((c == 'n' || c == 'N') && base == radix && 2 <= base <= 16 && !signed)
  }

  /** The argument as the conversion sees it: 32 bits, or 64 from the second l on, with or without sign. */
  function Seen(rq: Request, signed: bool, arg: int): int {
    var size := if rq.longs >= 2 then 0x1_0000_0000_0000_0000 else 0x1_0000_0000;
    if signed then Signed(arg, size) else Unsigned(arg, size)
  }

  /** Sign and prefix of a number. */
  function Head(rq: Request, base: nat, signed: bool, n: int): string {
    (if n < 0 then "-" else if signed then rq.PlusText() else "")
    + if n == 0 || !Has(rq.flags, '#') then "" else if base == 8 then "0" else if base == 16 then "0x" else ""
  }

  function Digits(base: nat, n: int): string
    requires 2 <= base <= 16
  {
    Numeral(if n < 0 then -n else n, base)
  }

  /** A head and digits in a field: zeros go between them, blanks behind or in front. */
  function Laid(head: string, digits: string, zero: bool, left: bool, width: nat): string {
    var gap := Max(0, width - |head| - |digits|);
    if zero then head + (Repeat('0', gap) + digits)
    else if left then head + digits + Repeat(' ', gap)
    else Repeat(' ', gap) + (head + digits)
  }

  /** The width is met; a field is adjusted to the left or to the right, or filled up between head and
      digits. */
  lemma LaidSides(head: string, digits: string, zero: bool, left: bool, width: nat)
    ensures var s, natural := Laid(head, digits, zero, left, width), |head| + |digits|;
            && |s| == Max(width, natural)
            && (zero || left ==> s[..|head|] == head) && (zero || !left ==> s[|s| - |digits|..] == digits)
            && (!zero && left ==> s[..natural] == head + digits && forall i :: natural <= i < |s| ==> s[i] == ' ')
            && (!zero && !left ==>
                  s[|s| - natural..] == head + digits && forall i :: 0 <= i < |s| - natural ==> s[i] == ' ')
            && (zero ==> forall i :: |head| <= i < |s| - |digits| ==> s[i] == '0')
  {
  }

  lemma FieldIsLaid(f: Field, head: string, digits: string)
    requires f.WellFormed() && f.length >= 0 && head == SignText(f) + Prefix(f) && digits == Numeral(f.u, f.base)
    ensures FieldText(f) == Laid(head, digits, f.padc == '0', f.ladjust, f.length)
  {
    var gap := Padding(f);
    assert Natural(f) == head + digits;
    if f.padc == '0' { Regroup(head, Repeat('0', gap), digits); }
  }

  lemma FieldOfRequest(rq: Request, c: char, base: nat, signed: bool, radix: int, rest: string, args: seq<int>,
                       arg: int)
    requires rq.Served(args) && IsConversion(c, base, signed, radix)
    ensures var f, n := FieldOf(Meaning(rq, rest, args), c, base, arg), Seen(rq, signed, arg);
            && f.u == (if n < 0 then -n else n)
            && f.u < (if rq.longs >= 2 then 0x1_0000_0000_0000_0000 else 0x1_0000_0000)
            && SignText(f) + Prefix(f) == Head(rq, base, signed, n)
            && f.base == base && f.ladjust == rq.Left(args) && (f.padc == '0' <==> rq.zero)
            && f.length == (if rq.Asked(args) < 0 then -rq.Asked(args) else rq.Asked(args))
  {
  }

  /** Every number fits the digit buffer, except for 64-bit ones in base 2 or 3. */
  predicate FitsBuffer(rq: Request, base: nat) {
    rq.longs < 2 || base >= 4
  }

  /** The text that a request asks for. */
  function Wanted(rq: Request, base: nat, signed: bool, args: seq<int>): string
    requires rq.Served(args) && |args| > rq.Stars() && 2 <= base <= 16
  {
    var n, w := Seen(rq, signed, args[rq.Stars()]), rq.Asked(args);
    Laid(Head(rq, base, signed, n), Digits(base, n), rq.zero, rq.Left(args), if w < 0 then -w else w)
  }

  lemma FieldAsAsked(rq: Request, c: char, base: nat, signed: bool, radix: int, rest: string, args: seq<int>)
    requires rq.Served(args) && IsConversion(c, base, signed, radix) && FitsBuffer(rq, base) && |args| > rq.Stars()
    ensures var f := FieldOf(Meaning(rq, rest, args), c, base, args[rq.Stars()]);
            Printable(f) && FieldText(f) == Wanted(rq, base, signed, args)
  {
    var arg := args[rq.Stars()];
    var f := FieldOf(Meaning(rq, rest, args), c, base, arg);
    FieldOfRequest(rq, c, base, signed, radix, rest, args, arg);
    assert Printable(f) by { BufferSuffices(f.u, base); }
    FieldIsLaid(f, Head(rq, base, signed, Seen(rq, signed, arg)), Numeral(f.u, base));
  }

  lemma ConvertsAsAsked(rq: Request, c: char, base: nat, signed: bool, rest: string, args: seq<int>, radix: int)
    requires rq.Served(args) && IsConversion(c, base, signed, radix) && FitsBuffer(rq, base)
    requires |args| > rq.Stars() && rest != "" && rest[0] == c
    ensures Converted(Meaning(rq, rest, args), radix)
         == Some((Wanted(rq, base, signed, args), args[rq.Stars() + 1..]))
  {
    var d := Meaning(rq, rest, args);
    FieldAsAsked(rq, c, base, signed, radix, rest, args);
    assert d.args[1..] == args[rq.Stars() + 1..];
    ConvertedNumber(d, radix, c);
  }

  /** One step of `_doprnt` over a directive. */
  lemma PrintedStep(fmt: string, args: seq<int>, radix: int, d: Directive, text: string, left: seq<int>)
    requires fmt != "" && fmt[0] == '%' && Parsed(fmt[1..], args) == Some(d) && d.rest != ""
    requires Converted(d, radix) == Some((text, left))
    ensures Printed(fmt, args, radix) == Prepend(text, Printed(d.rest[1..], left, radix))
  {
  }

  /** Every numeric conversion prints what it asks for: the argument in its base and size, with its sign
      and prefix, on its side of the field; and printing goes on behind it with the next argument. */
  lemma PrintsAsAsked(rq: Request, c: char, base: nat, signed: bool, more: string, args: seq<int>, radix: int)
    requires rq.Proper() && rq.Served(args) && |args| > rq.Stars()
    requires IsConversion(c, base, signed, radix) && FitsBuffer(rq, base)
    ensures Printed(['%'] + rq.Text([c] + more), args, radix)
         == Prepend(Wanted(rq, base, signed, args), Printed(more, args[rq.Stars() + 1..], radix))
  {
    var rest := [c] + more;
    var fmt := ['%'] + rq.Text(rest);
    assert fmt[1..] == rq.Text(rest) && rest[1..] == more;
    ParsedText(rq, rest, args);
    ConvertsAsAsked(rq, c, base, signed, rest, args, radix);
    PrintedStep(fmt, args, radix, Meaning(rq, rest, args), Wanted(rq, base, signed, args), args[rq.Stars() + 1..]);
  }

  const BARE := Request("", false, NoWidth, NoPrecision, 0)

  /** Without flags and width, with any number of l: a minus sign for a negative number, and the numeral in
      base 10 for d and u, 8 for o and 16 for x. */
  lemma PrintsBare(longs: nat, c: char, base: nat, signed: bool, arg: int, radix: int)
    requires IsConversion(c, base, signed, radix) && (longs < 2 || base >= 4)
    ensures var n := Seen(BARE.(longs := longs), signed, arg);
            var minus := if n < 0 then "-" else "";
            Printed(['%'] + (Repeat('l', longs) + [c]), [arg], radix) == Some(minus + Digits(base, n))
  {
    var rq := BARE.(longs := longs);
    var n := Seen(rq, signed, arg);
    PrintsAsAsked(rq, c, base, signed, "", [arg], radix);
    BareText(longs, [c]);
    assert [c] + "" == [c];
    BareLaid(Head(rq, base, signed, n), Digits(base, n));
    BareHead(rq, base, signed, n);
    assert Printed("", [arg][1..], radix) == Some("");
  }

  lemma BareHead(rq: Request, base: nat, signed: bool, n: int)
    requires rq.flags == ""
    ensures Head(rq, base, signed, n) == if n < 0 then "-" else ""
  {
  }

  lemma BareText(longs: nat, tail: string)
    ensures BARE.(longs := longs).Text(tail) == Repeat('l', longs) + tail
  {
  }

  lemma BareLaid(head: string, digits: string)
    ensures Laid(head, digits, false, false, 0) == head + digits
    ensures Laid(head, digits, false, false, 0) + "" == head + digits
  {
  }

  // ---------------------------------------------------------------- other conversions

  /** %c prints the character with the code of its argument; any other character that is no conversion
      stands for itself, a percent sign among them. */
  lemma PrintsCharacters(c: char, more: string, args: seq<int>, radix: int)
    requires Quiet(c) && !IsNumeric(c) && !IsLeftOut(c) && c != '\0' && (c == 'c' ==> args != [])
    ensures Printed(['%', c] + more, args, radix)
         == if c == 'c' then Prepend([(args[0] % 256) as char], Printed(more, args[1..], radix))
            else Prepend([c], Printed(more, args, radix))
  {
    var rest, fmt := [c] + more, ['%', c] + more;
    ParsedText(BARE, rest, args);
    BareText(0, rest);
    NothingInFront(rest);
    assert fmt[1..] == rest && rest[1..] == more && args[0..] == args;
    var d := Meaning(BARE, rest, args);
    ConvertsCharacter(d, c, radix);
    if c == 'c' {
      PrintedStep(fmt, args, radix, d, [(args[0] % 256) as char], args[1..]);
    } else {
      PrintedStep(fmt, args, radix, d, [c], args);
    }
  }

  lemma ConvertsCharacter(d: Directive, c: char, radix: int)
    requires d.rest != "" && d.rest[0] == c && !IsNumeric(c) && !IsLeftOut(c) && (c == 'c' ==> d.args != [])
    ensures Converted(d, radix) ==
              Some(if c == 'c' then ([(d.args[0] % 256) as char], d.args[1..]) else ([c], d.args))
  {
  }

  /** A percent sign at the end prints nothing. */
  lemma PrintsNothing(args: seq<int>, radix: int)
    ensures Printed(['%'], args, radix) == Some("")
  {
    var s := ['%'];
    assert s[1..] == "";
    assert Parsed("", args) == Some(Directive(false, false, '\0', ' ', 0, 0, "", args));
    NothingInFront("");
  }
}
