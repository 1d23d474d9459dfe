/** Printing with a format and scanning the result with the same format: doprnt.c and sprintf.c
    against doscan.c and sscanf.c. */
module FormatRoundTrip {
  import opened Machine
  import opened Numerals
  import opened Printer
  import opened Strtol
  import opened Scanner

  /** The formats of the law: literal characters, white space among them, and %d and %x. A skipped
      conversion has a star in the format for scanning. */
  datatype Item = Literal(c: char) | Decimal(skip: bool) | Hexadecimal(skip: bool)

  /** The format text for printing, and the one for scanning, each with something behind it. */
  function Render(items: seq<Item>, fmt: string): string {
    if items == [] then fmt else RenderItem(items[0], false) + Render(items[1..], fmt)
  }

  function RenderScan(items: seq<Item>, fmt: string): string {
    if items == [] then fmt else RenderItem(items[0], true) + RenderScan(items[1..], fmt)
  }

  function RenderItem(i: Item, scan: bool): string {
    match i
    case Literal(c) => [c]
    case Decimal(skip) => if scan && skip then "%*d" else "%d"
    case Hexadecimal(skip) => if scan && skip then "%*x" else "%x"
  }

  /** The arguments of the conversions that are not skipped, in order. */
  function Kept(items: seq<Item>, args: seq<int>): seq<int>
    requires |args| == Conversions(items)
  {
    if items == [] then []
    else if items[0].Literal? then Kept(items[1..], args)
    else (if items[0].skip then [] else [args[0]]) + Kept(items[1..], args[1..])
  }

  function Conversions(items: seq<Item>): nat {
    if items == [] then 0 else Conversions(items[1..]) + if items[0].Literal? then 0 else 1
  }

  function BaseOfItem(i: Item): nat {
    if i.Hexadecimal? then 16 else 10
  }

  predicate InRange(args: seq<int>) {
    forall k :: 0 <= k < |args| ==> -(WORD / 2) <= args[k] < WORD / 2
  }

  // ---------------------------------------------------------------- what is printed

  predicate Negative(i: Item, n: int) {
    !i.Hexadecimal? && n < 0
  }

  /** The number a conversion prints behind the sign: %x prints the bit pattern. */
  function Magnitude(i: Item, n: int): nat {
    if i.Hexadecimal? then Unsigned(n, WORD) else if n < 0 then -n else n
  }

  function Minus(negative: bool): string {
    if negative then "-" else ""
  }

  function NumberText(i: Item, n: int): string {
    Minus(Negative(i, n)) + Numeral(Magnitude(i, n), BaseOfItem(i))
  }

  /** The printed text, with something behind it. */
  function Output(items: seq<Item>, args: seq<int>, rest: string): string
    requires |args| == Conversions(items)
  {
    if items == [] then rest
    else match items[0]
      case Literal(c) => [c] + Output(items[1..], args, rest)
      case _ => NumberText(items[0], args[0]) + Output(items[1..], args[1..], rest)
  }

  /** Literals are ordinary characters, and what stands behind a printed number does not continue it. */
  predicate Readable(items: seq<Item>, args: seq<int>, rest: string)
    requires |args| == Conversions(items)
  {
    items != [] ==>
      match items[0]
      case Literal(c) => c != '%' && c != '\0' && Readable(items[1..], args, rest)
      case _ =>
        var tail := Output(items[1..], args[1..], rest);
        (tail == "" || !IsDigitOf(tail[0], BaseOfItem(items[0]))) && Readable(items[1..], args[1..], rest)
  }

  /** Formats in which every conversion is the last item or has a literal behind it that is no digit:
      what the format alone can say for all arguments. */
  predicate Separated(items: seq<Item>) {
    items != [] ==>
      && (match items[0]
          case Literal(c) => c != '%' && c != '\0'
          case _ => |items| > 1 ==> items[1].Literal? && !IsDigitOf(items[1].c, BaseOfItem(items[0])))
      && Separated(items[1..])
  }

  lemma {:induction false} SeparatedIsReadable(items: seq<Item>, args: seq<int>)
    requires |args| == Conversions(items) && Separated(items)
    ensures Readable(items, args, "")
  {
    if items != [] { SeparatedIsReadable(items[1..], if items[0].Literal? then args else args[1..]); }
  }

  function Conversion(i: Item): char {
    if i.Hexadecimal? then 'x' else 'd'
  }

  /** The directive of a bare conversion character. */
  function Plain(c: char, rest: string, args: seq<int>): Directive {
    Directive(false, false, '\0', ' ', 0, 0, [c] + rest, args)
  }

  lemma ParsePlain(c: char, rest: string, args: seq<int>)
    requires c == 'x' || c == 'd'
    ensures Parsed([c] + rest, args) == Some(Plain(c, rest, args))
  {
    assert Peek([c] + rest) == c;
  }

  lemma PlainFieldText(f: Field)
    requires f.WellFormed() && f.padc == ' ' && f.length == 0 && !f.altfmt
    ensures FieldText(f) == SignText(f) + Numeral(f.u, f.base)
  {
    assert Padding(f) == 0 && Repeat(' ', 0) == "";
    assert SignText(f) + "" + Numeral(f.u, f.base) == SignText(f) + Numeral(f.u, f.base);
  }

  /** The field of a bare conversion. */
  function PlainField(i: Item, n: int): Field {
    Field(Magnitude(i, n), BaseOfItem(i), if Negative(i, n) then '-' else '\0', false, ' ', false, 0)
  }

  lemma FieldOfPlain(i: Item, n: int, rest: string, args: seq<int>)
    requires !i.Literal? && -(WORD / 2) <= n < WORD / 2
    ensures FieldOf(Plain(Conversion(i), rest, args), Conversion(i), BaseOfItem(i), n) == PlainField(i, n)
  {
    if !i.Hexadecimal? { SignedInRange(n, WORD); }
  }

  lemma PlainFieldIsNumber(i: Item, n: int)
    requires !i.Literal? && -(WORD / 2) <= n < WORD / 2
    ensures PlainField(i, n).WellFormed() && FieldText(PlainField(i, n)) == NumberText(i, n)
  {
    var f := PlainField(i, n);
    PlainFieldText(f);
  }

  lemma PlainFieldFacts(i: Item, n: int)
    requires !i.Literal? && -(WORD / 2) <= n < WORD / 2
    ensures Printable(PlainField(i, n)) && FieldText(PlainField(i, n)) == NumberText(i, n)
  {
    var f := PlainField(i, n);
    assert Printable(f) by { BufferSuffices(f.u, f.base); }
    PlainFieldIsNumber(i, n);
  }

  lemma ConvertPlain(i: Item, n: int, rest: string, args: seq<int>)
    requires !i.Literal? && -(WORD / 2) <= n < WORD / 2 && args != [] && args[0] == n
    ensures Converted(Plain(Conversion(i), rest, args), 0) == Some((NumberText(i, n), args[1..]))
  {
    FieldOfPlain(i, n, rest, args);
    PlainFieldFacts(i, n);
    ConvertedNumber(Plain(Conversion(i), rest, args), 0, Conversion(i));
  }

  lemma PercentFirst(c: char, rest: string)
    ensures var s := ['%', c] + rest; s[0] == '%' && s[1..] == [c] + rest
  {
  }

  lemma RenderConversion(items: seq<Item>, rest: string)
    requires items != [] && !items[0].Literal?
    ensures var fmt, more := Render(items, rest), Render(items[1..], rest);
            && fmt != "" && fmt[0] == '%' && fmt[1..] == [Conversion(items[0])] + more
  {
    assert RenderItem(items[0], false) == ['%', Conversion(items[0])];
    PercentFirst(Conversion(items[0]), Render(items[1..], rest));
  }

  lemma {:induction false} PrintedIsOutput(items: seq<Item>, args: seq<int>)
    requires |args| == Conversions(items) && Readable(items, args, "") && InRange(args)
    ensures Printed(Render(items, ""), args, 0) == Some(Output(items, args, ""))
  {
    if items != [] {
      var fmt, rest := Render(items, ""), Render(items[1..], "");
      if items[0].Literal? {
        assert fmt[0] == items[0].c && fmt[1..] == rest;
        PrintedIsOutput(items[1..], args);
      } else {
        var c := Conversion(items[0]);
        RenderConversion(items, "");
        assert ([c] + rest)[1..] == rest;
        ParsePlain(c, rest, args);
        ConvertPlain(items[0], args[0], rest, args);
        PrintedIsOutput(items[1..], args[1..]);
      }
    }
  }

  // ---------------------------------------------------------------- what is read

  lemma NumberTextFacts(i: Item, n: int)
    requires !i.Literal? && -(WORD / 2) <= n < WORD / 2
    ensures var s := NumberText(i, n); s != "" && !IsSpace(s[0])
  {
    NumeralValue(Magnitude(i, n), BaseOfItem(i));
    if !Negative(i, n) { NothingInFront(Numeral(Magnitude(i, n), BaseOfItem(i))); }
  }

  /** The sign step of the scanner, given what comes behind the sign. */
  lemma ScanSigned(negative: bool, s: string, base: nat, v: nat, end: string)
    requires s != "" && s[0] != '-' && RunValue(s, base) == v && Behind(s, base) == end
    ensures ScanNumber(Minus(negative) + s, base) == (Signed(if negative then 0 - v else v, WORD), end)
  {
    if negative { assert ("-" + s)[1..] == s; } else { NothingInFront(s); }
  }

  lemma ScanNumeral(u: nat, base: nat, negative: bool, tail: string)
    requires 2 <= base <= 16 && (tail == "" || !IsDigitOf(tail[0], base))
    ensures ScanNumber(Minus(negative) + (Numeral(u, base) + tail), base)
         == (Signed(if negative then 0 - u else u, WORD), tail)
  {
    var t := Numeral(u, base);
    NumeralValue(u, base);
    ReadRun(t, base, tail);
    assert (t + tail)[0] == t[0] && IsDigitOf(t[0], base);
    ScanSigned(negative, t + tail, base, u, tail);
  }

  /** A printed number is read back, and reading stops where its text ends. */
  lemma ScanPrinted(i: Item, n: int, tail: string)
    requires !i.Literal? && -(WORD / 2) <= n < WORD / 2
    requires tail == "" || !IsDigitOf(tail[0], BaseOfItem(i))
    ensures ScanNumber(NumberText(i, n) + tail, BaseOfItem(i)) == (n, tail)
  {
    ScanNumeral(Magnitude(i, n), BaseOfItem(i), Negative(i, n), tail);
    Regroup(Minus(Negative(i, n)), Numeral(Magnitude(i, n), BaseOfItem(i)), tail);
    if i.Hexadecimal? { PatternKeepsSign(n); } else { SignedInRange(n, WORD); }
  }

  /** The bit pattern of a long, read with sign again. */
  lemma PatternKeepsSign(n: int)
    requires -(WORD / 2) <= n < WORD / 2
    ensures Signed(Unsigned(n, WORD), WORD) == n
  {
    SignedInRange(n, WORD);
    ModShift(n + WORD / 2, -(n / WORD), WORD);
  }

  lemma {:induction false} SkipTwice(s: string)
    ensures SkipSpaces(SkipSpaces(s)) == SkipSpaces(s)
  {
    if s != "" && IsSpace(s[0]) { SkipTwice(s[1..]); }
  }

  lemma FirstOfOutput(items: seq<Item>, args: seq<int>, rest: string)
    requires items != [] && |args| == Conversions(items) && InRange(args)
    ensures var s := Output(items, args, rest);
            && s != "" && (items[0].Literal? ==> s[0] == items[0].c && s[1..] == Output(items[1..], args, rest))
            && (!items[0].Literal? ==> !IsSpace(s[0]))
  {
    if !items[0].Literal? { NumberTextFacts(items[0], args[0]); }
  }

  /** A scan that first stores these values and counts each of them. */
  function After(values: seq<int>, r: Option<ScanResult>): Option<ScanResult> {
    match r
    case None => None
    case Some(x) => Some(ScanResult(|values| + x.vals, values + x.stored))
  }

  lemma AfterStep(skip: bool, n: int, values: seq<int>, r: Option<ScanResult>)
    ensures Tally(skip, if skip then [] else [n], After(values, r)) == After((if skip then [] else [n]) + values, r)
  {
    if r.Some? {
      assert [n] + (values + r.value.stored) == ([n] + values) + r.value.stored;
      assert [] + values == values;
    }
  }

  /** Scanning a printed text with its format stores and counts the arguments that are not skipped, and
      goes on with what is behind in the format and in the text. The induction step works on the text
      and on the text without its leading white space, which an earlier white-space character of the
      format may have consumed already. */
  lemma {:induction false} ScanOutput(items: seq<Item>, args: seq<int>, fmt: string, rest: string, input: string)
    requires |args| == Conversions(items) && Readable(items, args, rest) && InRange(args)
    requires rest == "" || !IsSpace(rest[0])
    requires input == Output(items, args, rest) || input == SkipSpaces(Output(items, args, rest))
    ensures Scanned(RenderScan(items, fmt), input) == After(Kept(items, args), Scanned(fmt, rest))
    decreases |items|, 1
  {
    if items == [] {
      AfterNothing(Scanned(fmt, rest));
    } else {
      var more := items[1..];
      FirstOfOutput(items, args, rest);
      match items[0]
      case Literal(c) =>
        var scan := RenderScan(items, fmt);
        assert scan[0] == c && scan[1..] == RenderScan(more, fmt);
        if IsSpace(c) {
          SkipTwice(Output(more, args, rest));
          ScanOutput(more, args, fmt, rest, SkipSpaces(input));
        } else {
          ScanOutput(more, args, fmt, rest, input[1..]);
        }
      case _ => ScanConversion(items, args, fmt, rest);
    }
  }

  lemma AfterNothing(r: Option<ScanResult>)
    ensures After([], r) == r
  {
    if r.Some? { assert [] + r.value.stored == r.value.stored; }
  }

  lemma {:induction false} ScanConversion(items: seq<Item>, args: seq<int>, fmt: string, rest: string)
    requires items != [] && !items[0].Literal?
    requires |args| == Conversions(items) && Readable(items, args, rest) && InRange(args)
    requires rest == "" || !IsSpace(rest[0])
    ensures Scanned(RenderScan(items, fmt), Output(items, args, rest)) == After(Kept(items, args), Scanned(fmt, rest))
    decreases |items|, 0
  {
    var more, left := items[1..], args[1..];
    ConversionStep(items, args, fmt, rest);
    ScanOutput(more, left, fmt, rest, Output(more, left, rest));
    AfterStep(items[0].skip, args[0], Kept(more, left), Scanned(fmt, rest));
  }

  /** One conversion takes its number and leaves the output of the rest. */
  lemma ConversionStep(items: seq<Item>, args: seq<int>, fmt: string, rest: string)
    requires items != [] && !items[0].Literal?
    requires |args| == Conversions(items) && Readable(items, args, rest) && InRange(args)
    ensures Scanned(RenderScan(items, fmt), Output(items, args, rest))
         == Tally(items[0].skip, if items[0].skip then [] else [args[0]],
                  Scanned(RenderScan(items[1..], fmt), Output(items[1..], args[1..], rest)))
  {
    var i, more, tail := items[0], RenderScan(items[1..], fmt), Output(items[1..], args[1..], rest);
    ScanPrinted(i, args[0], tail);
    if i.skip {
      assert RenderItem(i, true) == ['%', '*', Conversion(i)];
      ScanSkipped(Conversion(i), more, Output(items, args, rest), args[0], tail);
    } else {
      assert RenderItem(i, true) == ['%', Conversion(i)];
      ScanOne(Conversion(i), more, Output(items, args, rest), args[0], tail);
    }
  }

  /** The scanner's step for a bare conversion, and for a skipped one. */
  lemma ScanOne(c: char, more: string, input: string, n: int, left: string)
    requires (c == 'd' || c == 'x') && ScanNumber(input, if c == 'd' then 10 else 16) == (n, left)
    ensures Scanned(['%', c] + more, input) == Tally(false, [n], Scanned(more, left))
  {
    var fmt, f := ['%', c] + more, [c] + more;
    assert fmt[1..] == f && f[1..] == more && AfterStars(f) == f;
  }

  lemma ScanSkipped(c: char, more: string, input: string, n: int, left: string)
    requires (c == 'd' || c == 'x') && ScanNumber(input, if c == 'd' then 10 else 16) == (n, left)
    ensures Scanned(['%', '*', c] + more, input) == Tally(true, [], Scanned(more, left))
  {
    var fmt, g, f := ['%', '*', c] + more, ['*', c] + more, [c] + more;
    assert fmt[1..] == g && g[1..] == f && f[1..] == more && AfterStars(f) == f;
    assert AfterStars(g) == f && f != g;
  }

  /** Every readable format recovers from its own output every argument that it does not skip, in order,
      and counts just these. */
  lemma ScanAfterPrint(items: seq<Item>, args: seq<int>)
    requires |args| == Conversions(items) && Readable(items, args, "") && InRange(args)
    ensures Printed(Render(items, ""), args, 0).Some?
    ensures var text := Printed(Render(items, ""), args, 0).value;
            Scanned(RenderScan(items, ""), text) == Some(ScanResult(|Kept(items, args)|, Kept(items, args)))
  {
    PrintedIsOutput(items, args);
    ScanOutput(items, args, "", "", Output(items, args, ""));
    assert Kept(items, args) + [] == Kept(items, args);
  }

  /** Scanning stops at the first literal that the text does not have, whatever comes behind it in the
      format: everything before is stored and counted, and nothing else. */
  lemma MismatchStops(items: seq<Item>, args: seq<int>, c: char, more: string, rest: string)
    requires |args| == Conversions(items) && Readable(items, args, rest) && InRange(args)
    requires c != '%' && !IsSpace(c) && (rest == "" || (!IsSpace(rest[0]) && rest[0] != c))
    ensures Scanned(RenderScan(items, [c] + more), Output(items, args, rest))
         == Some(ScanResult(|Kept(items, args)|, Kept(items, args)))
  {
    ScanOutput(items, args, [c] + more, rest, Output(items, args, rest));
    assert Scanned([c] + more, rest) == Some(ScanResult(0, []));
    assert Kept(items, args) + [] == Kept(items, args);
  }
}
