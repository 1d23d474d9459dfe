/** tasks/libc/stdio/doprnt.c and sprintf.c: formatted printing of numbers into a buffer. */
module Printer {
  import opened Machine
  import opened Numerals

  // ---------------------------------------------------------------- one number

  /** What the block `print_num` works on. `sign` is '\0' when no sign is to be printed; `padc` is
      a blank or '0'; `length` is the field width. */
  datatype Field = Field(u: nat, base: nat, sign: char, altfmt: bool, padc: char, ladjust: bool, length: int) {
    predicate WellFormed() {
      2 <= base <= 16 && (padc == ' ' || padc == '0')
    }
  }

  function SignText(f: Field): string {
    if f.sign == '\0' then "" else [f.sign]
  }

  function Prefix(f: Field): string {
    if f.u == 0 || !f.altfmt then "" else if f.base == 8 then "0" else if f.base == 16 then "0x" else ""
  }

  /** The field without padding. */
  function Natural(f: Field): string
    requires f.WellFormed()
  {
    SignText(f) + Prefix(f) + Numeral(f.u, f.base)
  }

  function Padding(f: Field): nat
    requires f.WellFormed()
  {
    Max(0, f.length - |Natural(f)|)
  }

  /** Blanks go in front or behind, zeros between prefix and digits; zeros win over left adjustment. */
  function FieldText(f: Field): string
    requires f.WellFormed()
  {
    if f.padc == '0' then SignText(f) + Prefix(f) + Repeat('0', Padding(f)) + Numeral(f.u, f.base)
    else if f.ladjust then Natural(f) + Repeat(' ', Padding(f))
    else Repeat(' ', Padding(f)) + Natural(f)
  }

  /** Blanks in front, zeros inside and blanks behind; at most one of the three is not 0. */
  function Lead(f: Field): nat
    requires f.WellFormed()
  {
    if f.padc == ' ' && !f.ladjust then Padding(f) else 0
  }

  function Zeros(f: Field): nat
    requires f.WellFormed()
  {
    if f.padc == '0' then Padding(f) else 0
  }

  function Trail(f: Field): nat
    requires f.WellFormed()
  {
    if f.padc == ' ' && f.ladjust then Padding(f) else 0
  }

  lemma FieldParts(f: Field)
    requires f.WellFormed()
    ensures FieldText(f) == Repeat(' ', Lead(f)) + SignText(f) + Prefix(f) + Repeat('0', Zeros(f))
                          + Numeral(f.u, f.base) + Repeat(' ', Trail(f))
  {
  }

  /** Every field is exactly as wide as asked for, or as its natural text if that is wider. */
  lemma ExactWidth(f: Field)
    requires f.WellFormed()
    ensures |FieldText(f)| == Max(f.length, |Natural(f)|)
  {
  }

  /** The 32-byte digit buffer is big enough exactly for numbers below base to the 32nd: for every
      64-bit number from base 4 on, and for every 32-bit number in every base. */
  lemma BufferSuffices(u: nat, base: nat)
    requires 2 <= base <= 16
    ensures |Numeral(u, base)| <= 32 <==> u < Pow(base, 32)
    ensures u < LONG_WORD && base >= 4 ==> |Numeral(u, base)| <= 32
    ensures u < WORD ==> |Numeral(u, base)| <= 32
  {
    NumeralLength(u, base, 32);
    PowersOfTwo();
    PowGrows(2, base, 32);
    if base >= 4 { PowGrows(4, base, 32); }
  }

  lemma PowersOfTwo()
    ensures Pow(2, 32) == WORD && Pow(4, 32) == LONG_WORD
  {
    assert Pow(2, 8) == 0x100;
    assert Pow(2, 16) == 0x1_0000;
    assert Pow(2, 24) == 0x100_0000;
    assert Pow(4, 8) == 0x1_0000;
    assert Pow(4, 16) == 0x1_0000_0000;
    assert Pow(4, 24) == 0x1_0000_0000_0000;
  }

  // ---------------------------------------------------------------- format directives

  const INT_MAX := 0x7fff_ffff

  /** A directive up to its conversion character, with which `rest` begins; `args` are the
      arguments not yet taken. */
  datatype Directive = Directive(altfmt: bool, ladjust: bool, plus: char, padc: char, length: int, longopt: nat,
                                 rest: string, args: seq<int>)

  predicate IsDecimal(c: char) {
    '0' <= c <= '9'
  }

  /** The loop over the flags # - + and blank. A blank does not override an earlier +. */
  function Flags(d: Directive): (r: Directive)
    ensures |r.rest| <= |d.rest| && r.args == d.args
    decreases |d.rest|
  {
    var c := Peek(d.rest);
    if c == '#' then Flags(d.(altfmt := true, rest := d.rest[1..]))
    else if c == '-' then Flags(d.(ladjust := true, rest := d.rest[1..]))
    else if c == '+' then Flags(d.(plus := '+', rest := d.rest[1..]))
    else if c == ' ' then Flags(d.(plus := if d.plus == '\0' then ' ' else d.plus, rest := d.rest[1..]))
    else d
  }

  function ZeroFlag(d: Directive): (r: Directive)
    ensures |r.rest| <= |d.rest|
  {
    if Peek(d.rest) == '0' then d.(padc := '0', rest := d.rest[1..]) else d
  }

  /** A run of decimal digits: its value, continuing from n, and what follows. */
  function DecimalRun(n: nat, s: string): (r: (nat, string))
    ensures |r.1| <= |s|
    decreases |s|
  {
    if s != "" && IsDecimal(s[0]) then DecimalRun(10 * n + (s[0] as int - '0' as int), s[1..]) else (n, s)
  }

  /** The field width: digits, or an argument whose minus sign turns the adjustment round. None where
      the width overflows an int or the argument is missing, which C leaves undefined. */
  function Width(d: Directive): (r: Option<Directive>)
    ensures r.Some? ==> |r.value.rest| <= |d.rest|
  {
    if IsDecimal(Peek(d.rest)) then
      var (n, rest) := DecimalRun(0, d.rest);
      if n > INT_MAX then None else Some(d.(length := n, rest := rest))
    else if Peek(d.rest) == '*' then
      if d.args == [] then None
      else
        var n, r := Signed(d.args[0], WORD), d.(rest := d.rest[1..], args := d.args[1..]);
        if n < -INT_MAX then None
        else Some(if n < 0 then r.(ladjust := !d.ladjust, length := -n) else r.(length := n))
    else Some(d)
  }

  /** The precision is read, but numbers ignore it. */
  function Precision(d: Directive): (r: Option<Directive>)
    ensures r.Some? ==> |r.value.rest| <= |d.rest|
  {
    if Peek(d.rest) != '.' then Some(d)
    else
      var s := d.rest[1..];
      if IsDecimal(Peek(s)) then
        var (n, rest) := DecimalRun(0, s);
        if n > INT_MAX then None else Some(d.(rest := rest))
      else if Peek(s) == '*' then
        if d.args == [] then None else Some(d.(rest := s[1..], args := d.args[1..]))
      else Some(d.(rest := s))
  }

  function LongFlags(d: Directive): (r: Directive)
    ensures |r.rest| <= |d.rest|
    decreases |d.rest|
  {
    if Peek(d.rest) == 'l' then LongFlags(d.(longopt := d.longopt + 1, rest := d.rest[1..])) else d
  }

  /** Everything between the percent sign and the conversion character. */
  function Parsed(fmt: string, args: seq<int>): (r: Option<Directive>)
    ensures r.Some? ==> |r.value.rest| <= |fmt|
  {
    var d := ZeroFlag(Flags(Directive(false, false, '\0', ' ', 0, 0, fmt, args)));
    match Width(d)
    case None => None
    case Some(d1) =>
      match Precision(d1)
      case None => None
      case Some(d2) => Some(LongFlags(d2))
  }

  // ---------------------------------------------------------------- conversions

  /** The base and signedness of a numeric conversion; base 0 for any other character. */
  function BaseOf(c: char, radix: int): int {
    if c == 'o' || c == 'O' then 8
    else if c == 'd' || c == 'D' || c == 'u' || c == 'U' then 10
    else if c == 'x' || c == 'X' || c == 'z' || c == 'Z' then 16
    else if c == 'r' || c == 'R' || c == 'n' || c == 'N' then radix
    else 0
  }

  predicate IsNumeric(c: char) {
    IsSigned(c) || c == 'o' || c == 'O' || c == 'u' || c == 'U' || c == 'x' || c == 'X' || c == 'n' || c == 'N'
  }

  predicate IsSigned(c: char) {
    c == 'd' || c == 'D' || c == 'z' || c == 'Z' || c == 'r' || c == 'R'
  }

  /** Conversions this model leaves out. */
  predicate IsLeftOut(c: char) {
    c == 'b' || c == 'B' || c == 't' || c == 's' || c == 'p'
  }

  /** The field of a numeric conversion: magnitude and sign of the argument. */
  function FieldOf(d: Directive, c: char, base: nat, arg: int): (f: Field)
    ensures f.base == base && f.padc == d.padc && f.length == d.length
  {
    var size := if d.longopt > 1 then LONG_WORD else WORD;
    if IsSigned(c) then
      var n := Signed(arg, size);
      Field(if n >= 0 then n else -n, base, if n >= 0 then d.plus else '-', d.altfmt, d.padc, d.ladjust, d.length)
    else Field(Unsigned(arg, size), base, '\0', d.altfmt, d.padc, d.ladjust, d.length)
  }

  /** A field the source can print: a base with digits, and a numeral that fits the digit buffer. */
  predicate Printable(f: Field) {
    f.WellFormed() && |Numeral(f.u, f.base)| <= 32
  }

  /** The text of one conversion and the arguments left. None where C leaves the behaviour undefined
      (argument missing, base without digits, digit buffer overrun) or the model does not follow. */
  function Converted(d: Directive, radix: int): Option<(string, seq<int>)> {
    if d.rest == "" then Some(("", d.args))
    else
      var c := d.rest[0];
      if IsLeftOut(c) then None
      else if c == 'c' || IsNumeric(c) then
        if d.args == [] then None
        else if c == 'c' then Some(([Unsigned(d.args[0], 256) as char], d.args[1..]))
        else if BaseOf(c, radix) < 0 then None
        else
          var f := FieldOf(d, c, BaseOf(c, radix), d.args[0]);
          if Printable(f) then Some((FieldText(f), d.args[1..])) else None
      else Some(([c], d.args))
  }

  lemma ConvertedNumber(d: Directive, radix: int, c: char)
    requires d.rest != "" && d.rest[0] == c && IsNumeric(c) && BaseOf(c, radix) >= 0 && d.args != []
    requires Printable(FieldOf(d, c, BaseOf(c, radix), d.args[0]))
    ensures Converted(d, radix) == Some((FieldText(FieldOf(d, c, BaseOf(c, radix), d.args[0])), d.args[1..]))
  {
  }

  /** `_doprnt`: everything the format prints. */
  function Printed(fmt: string, args: seq<int>, radix: int): Option<string>
    decreases |fmt|
  {
    if fmt == "" then Some("")
    else if fmt[0] != '%' then Prepend([fmt[0]], Printed(fmt[1..], args, radix))
    else
      match Parsed(fmt[1..], args)
      case None => None
      case Some(d) =>
        match Converted(d, radix)
        case None => None
        case Some((text, left)) => Prepend(text, Printed(if d.rest == "" then "" else d.rest[1..], left, radix))
  }

  function Prepend(s: string, r: Option<string>): Option<string> {
    match r
    case None => None
    case Some(t) => Some(s + t)
  }

  // ---------------------------------------------------------------- the sink (sprintf.c)

  /** `struct sprintf_state` without a limit: characters go to `buf`, one after the other. */
  class Sink {
    const buf: array<char>
    var len: nat

    constructor (buf: array<char>)
      ensures this.buf == buf && len == 0
    {
      this.buf := buf;
      len := 0;
    }

    ghost predicate Valid()
      reads this
    {
      len <= buf.Length
    }

    ghost function Contents(): string
      reads this, buf
      requires Valid()
    {
      buf[..len]
    }

    /** `savechar`. */
    method SaveChar(c: char)
      requires Valid() && len < buf.Length
      modifies this, buf
      ensures Valid() && len == old(len) + 1 && Contents() == old(Contents()) + [c]
    {
      buf[len] := c;
      len := len + 1;
    }

    method SaveText(s: string)
      requires Valid() && len + |s| <= buf.Length
      modifies this, buf
      ensures Valid() && len == old(len) + |s| && Contents() == old(Contents()) + s
    {
      for i := 0 to |s|
        invariant Valid() && Contents() == old(Contents()) + s[..i]
      {
        SaveChar(s[i]);
        assert s[..i + 1] == s[..i] + [s[i]];
      }
      assert s[..|s|] == s;
    }

    method SavePadding(c: char, count: int)
      requires Valid() && len + Max(0, count) <= buf.Length
      modifies this, buf
      ensures Valid() && len == old(len) + Max(0, count) && Contents() == old(Contents()) + Repeat(c, Max(0, count))
    {
      var length := count - 1;
      while length >= 0
        invariant -1 <= length || length == count - 1
        invariant Valid() && Contents() == old(Contents()) + Repeat(c, Max(0, count) - Max(0, length + 1))
        decreases length
      {
        SaveChar(c);
        length := length - 1;
      }
    }
  }

  // ---------------------------------------------------------------- printing

  /** The digits in front of the last one of u; none if there is only one. */
  function Front(u: nat, base: nat): string
    requires 2 <= base <= 16
  {
    if u == 0 then "" else Numeral(u, base)
  }

  lemma OneDigit(u: nat, base: nat, tail: string)
    requires 2 <= base <= 16
    ensures Numeral(u, base) + tail == Front(Quot(u, base), base) + ([Digit(Rem(u, base))] + tail)
  {
    Regroup(Front(Quot(u, base), base), [Digit(Rem(u, base))], tail);
  }

  /** The digit loop shared by `printnum` and `print_num`: digits go into the buffer from its end
      downwards. The result is the index of the first digit. */
  method WriteDigits(number: nat, base: nat, buf: array<char>) returns (first: nat)
    requires 2 <= base <= 16 && buf.Length == 32 && |Numeral(number, base)| <= 32
    modifies buf
    ensures first <= 32 && buf[first..] == Numeral(number, base)
  {
    var u: nat, p: int := number, 31;
    Division(u, base);
    OneDigit(u, base, "");
    buf[p] := DIGITS[u % base];
    p := p - 1;
    u := u / base;
    assert Numeral(number, base) + "" == Numeral(number, base) && buf[p + 1..] == [Digit(Rem(number, base))] + "";
    while u != 0
      invariant -1 <= p < 31
      invariant Numeral(number, base) == Front(u, base) + buf[p + 1..]
      decreases u
    {
      ghost var tail := buf[p + 1..];
      Division(u, base);
      OneDigit(u, base, tail);
      buf[p] := DIGITS[u % base];
      p := p - 1;
      assert buf[p + 1..] == [Digit(Rem(u, base))] + tail;
      u := u / base;
    }
    first := p + 1;
  }

  /** `printnum`. */
  method PrintNum(u: nat, base: nat, sink: Sink)
    requires 2 <= base <= 16 && u < WORD
    requires sink.Valid() && sink.len + |Numeral(u, base)| <= sink.buf.Length
    modifies sink, sink.buf
    ensures sink.Valid() && sink.Contents() == old(sink.Contents()) + Numeral(u, base)
  {
    BufferSuffices(u, base);
    var buf := new char[32];
    var p := WriteDigits(u, base, buf);
    sink.SaveText(buf[p..]);
  }

  /** Blank padding in front, sign, prefix and zero padding; what is left of the field width. */
  method SaveHead(f: Field, prefix: string, count: int, sink: Sink) returns (left: int)
    requires f.WellFormed() && prefix == Prefix(f) && count == f.length - |Natural(f)|
    requires sink.Valid() && sink.len + Lead(f) + |SignText(f)| + |Prefix(f)| + Zeros(f) <= sink.buf.Length
    modifies sink, sink.buf
    ensures sink.Valid()
    ensures sink.Contents()
         == old(sink.Contents()) + (Repeat(' ', Lead(f)) + SignText(f) + Prefix(f) + Repeat('0', Zeros(f)))
    ensures f.ladjust ==> Max(0, left) == Trail(f)
  {
    left := count;
    ghost var before, lead, zeros := sink.Contents(), Repeat(' ', Lead(f)), Repeat('0', Zeros(f));
    if f.padc == ' ' && !f.ladjust {
      sink.SavePadding(' ', left);
      left := -1;
    }
    assert sink.Contents() == before + lead;
    if f.sign != '\0' {
      sink.SaveChar(f.sign);
    }
    Regroup(before, lead, SignText(f));
    assert sink.Contents() == before + (lead + SignText(f));
    sink.SaveText(prefix);
    Regroup(before, lead + SignText(f), prefix);
    if f.padc == '0' {
      sink.SavePadding('0', left);
      left := -1;
    }
    Regroup(before, lead + SignText(f) + prefix, zeros);
  }

  /** The block `print_num`. */
  method PrintField(f: Field, sink: Sink)
    requires Printable(f) && sink.Valid() && sink.len + |FieldText(f)| <= sink.buf.Length
    modifies sink, sink.buf
    ensures sink.Valid() && sink.Contents() == old(sink.Contents()) + FieldText(f)
  {
    var buf := new char[32];
    var prefix := "";
    if f.u != 0 && f.altfmt {
      if f.base == 8 {
        prefix := "0";
      } else if f.base == 16 {
        prefix := "0x";
      }
    }
    var p := WriteDigits(f.u, f.base, buf);
    var digits := buf[p..];
    var length := f.length - (32 - p);
    if f.sign != '\0' {
      length := length - 1;
    }
    length := length - |prefix|;
    FieldParts(f);
    ghost var before, head := sink.Contents(), Repeat(' ', Lead(f)) + SignText(f) + Prefix(f) + Repeat('0', Zeros(f));
    length := SaveHead(f, prefix, length, sink);
    sink.SaveText(digits);
    Regroup(before, head, digits);
    if f.ladjust {
      sink.SavePadding(' ', length);
    }
    Regroup(before, head + digits, Repeat(' ', Trail(f)));
  }

  // ---------------------------------------------------------------- reading the format

  /** The loop over the flags; i is the format pointer as an index. */
  method ParseFlags(fmt: string, start: nat, ghost d0: Directive)
    returns (altfmt: bool, ladjust: bool, plus: char, i: nat)
    requires start <= |fmt| && d0.rest == fmt[start..] && !d0.altfmt && !d0.ladjust && d0.plus == '\0'
    ensures start <= i <= |fmt|
    ensures Flags(d0) == d0.(altfmt := altfmt, ladjust := ladjust, plus := plus, rest := fmt[i..])
  {
    altfmt, ladjust, plus, i := false, false, '\0', start;
    while i < |fmt| && fmt[i] in "#-+ "
      invariant start <= i <= |fmt|
      invariant Flags(d0) == Flags(d0.(altfmt := altfmt, ladjust := ladjust, plus := plus, rest := fmt[i..]))
    {
      assert fmt[i..][1..] == fmt[i + 1..];
      if fmt[i] == '#' {
        altfmt := true;
      } else if fmt[i] == '-' {
        ladjust := true;
      } else if fmt[i] == '+' {
        plus := '+';
      } else if plus == '\0' {
        plus := ' ';
      }
      i := i + 1;
    }
  }

  /** The loop that reads a width or precision. */
  method ParseDecimal(fmt: string, start: nat) returns (n: nat, i: nat)
    requires start <= |fmt|
    ensures start <= i <= |fmt| && DecimalRun(0, fmt[start..]) == (n, fmt[i..])
  {
    n, i := 0, start;
    while i < |fmt| && IsDecimal(fmt[i])
      invariant start <= i <= |fmt|
      invariant DecimalRun(0, fmt[start..]) == DecimalRun(n, fmt[i..])
    {
      assert fmt[i..][1..] == fmt[i + 1..];
      n := 10 * n + (fmt[i] as int - '0' as int);
      i := i + 1;
    }
  }

  method ParseWidth(fmt: string, start: nat, args: seq<int>, first: nat, d: Directive)
    returns (r: Directive, i: nat, a: nat)
    requires start <= |fmt| && first <= |args| && d.rest == fmt[start..] && d.args == args[first..]
    requires Width(d).Some?
    ensures start <= i <= |fmt| && a <= |args| && r == Width(d).value && r.rest == fmt[i..] && r.args == args[a..]
  {
    r, i, a := d, start, first;
    if i < |fmt| && IsDecimal(fmt[i]) {
      var n;
      n, i := ParseDecimal(fmt, i);
      r := r.(length := n, rest := fmt[i..]);
    } else if i < |fmt| && fmt[i] == '*' {
      var length := Signed(args[a], WORD);
      i, a := i + 1, a + 1;
      r := r.(length := length, rest := fmt[i..], args := args[a..]);
      if length < 0 {
        r := r.(ladjust := !r.ladjust, length := -length);
      }
    }
  }

  method ParsePrecision(fmt: string, start: nat, args: seq<int>, first: nat, d: Directive)
    returns (r: Directive, i: nat, a: nat)
    requires start <= |fmt| && first <= |args| && d.rest == fmt[start..] && d.args == args[first..]
    requires Precision(d).Some?
    ensures start <= i <= |fmt| && a <= |args| && r == Precision(d).value && r.rest == fmt[i..] && r.args == args[a..]
  {
    r, i, a := d, start, first;
    if i < |fmt| && fmt[i] == '.' {
      i := i + 1;
      assert fmt[start..][1..] == fmt[i..];
      if i < |fmt| && IsDecimal(fmt[i]) {
        var prec;
        prec, i := ParseDecimal(fmt, i);
      } else if i < |fmt| && fmt[i] == '*' {
        assert fmt[i..][1..] == fmt[i + 1..];
        i, a := i + 1, a + 1;
      }
      r := r.(rest := fmt[i..], args := args[a..]);
    }
  }

  method ParseLong(fmt: string, start: nat, d: Directive) returns (r: Directive, i: nat)
    requires start <= |fmt| && d.rest == fmt[start..]
    ensures start <= i <= |fmt| && r == LongFlags(d) && r.rest == fmt[i..] && r.args == d.args
  {
    r, i := d, start;
    while i < |fmt| && fmt[i] == 'l'
      invariant start <= i <= |fmt| && r.rest == fmt[i..] && r.args == d.args && LongFlags(d) == LongFlags(r)
    {
      assert fmt[i..][1..] == fmt[i + 1..];
      i := i + 1;
      r := r.(longopt := r.longopt + 1, rest := fmt[i..]);
    }
  }

  /** Everything between the percent sign and the conversion character. */
  method ParseDirective(fmt: string, start: nat, args: seq<int>, first: nat) returns (d: Directive, i: nat, a: nat)
    requires start <= |fmt| && first <= |args| && Parsed(fmt[start..], args[first..]).Some?
    ensures start <= i <= |fmt| && a <= |args| && Parsed(fmt[start..], args[first..]) == Some(d)
    ensures d.rest == fmt[i..] && d.args == args[a..]
  {
    d := Directive(false, false, '\0', ' ', 0, 0, fmt[start..], args[first..]);
    var altfmt, ladjust, plus;
    altfmt, ladjust, plus, i := ParseFlags(fmt, start, d);
    d := d.(altfmt := altfmt, ladjust := ladjust, plus := plus, rest := fmt[i..]);
    if i < |fmt| && fmt[i] == '0' {
      i := i + 1;
      d := d.(padc := '0', rest := fmt[i..]);
    }
    d, i, a := ParseWidth(fmt, i, args, first, d);
    d, i, a := ParsePrecision(fmt, i, args, a, d);
    d, i := ParseLong(fmt, i, d);
  }

  // ---------------------------------------------------------------- _doprnt and vsprintf

  /** One conversion; `i` is the index of its character. */
  method Convert(d: Directive, radix: int, sink: Sink) returns (taken: nat)
    requires Converted(d, radix).Some?
    requires sink.Valid() && sink.len + |Converted(d, radix).value.0| <= sink.buf.Length
    modifies sink, sink.buf
    ensures sink.Valid() && sink.Contents() == old(sink.Contents()) + Converted(d, radix).value.0
    ensures taken <= |d.args| && Converted(d, radix).value.1 == d.args[taken..]
  {
    taken := 0;
    if d.rest != "" {
      var c := d.rest[0];
      if c == 'c' {
        sink.SaveChar(Unsigned(d.args[0], 256) as char);
        taken := 1;
      } else if IsNumeric(c) {
        PrintField(FieldOf(d, c, BaseOf(c, radix), d.args[0]), sink);
        taken := 1;
      } else {
        sink.SaveChar(c);
      }
    }
  }

  /** A directive, from behind its percent sign to behind its conversion character. */
  method PrintDirective(fmt: string, start: nat, args: seq<int>, first: nat, radix: int, sink: Sink)
    returns (i: nat, a: nat, ghost d: Directive)
    requires start <= |fmt| && first <= |args| && Parsed(fmt[start..], args[first..]).Some?
    requires Converted(Parsed(fmt[start..], args[first..]).value, radix).Some?
    requires var d := Parsed(fmt[start..], args[first..]).value;
             sink.Valid() && sink.len + |Converted(d, radix).value.0| <= sink.buf.Length
    modifies sink, sink.buf
    ensures start <= i <= |fmt| && a <= |args| && Parsed(fmt[start..], args[first..]) == Some(d)
    ensures sink.Valid() && sink.Contents() == old(sink.Contents()) + Converted(d, radix).value.0
    ensures fmt[i..] == (if d.rest == "" then "" else d.rest[1..]) && args[a..] == Converted(d, radix).value.1
  {
    var directive;
    directive, i, a := ParseDirective(fmt, start, args, first);
    d := directive;
    var taken := Convert(directive, radix, sink);
    a := a + taken;
    if i < |fmt| {
      assert d.rest[1..] == fmt[i + 1..];
      i := i + 1;
    }
  }

  /** One round of the main loop: a literal character, or a directive with its conversion. */
  method DoprntStep(fmt: string, start: nat, args: seq<int>, first: nat, radix: int, sink: Sink)
    returns (i: nat, a: nat, ghost text: string)
    requires start < |fmt| && first <= |args| && Printed(fmt[start..], args[first..], radix).Some?
    requires sink.Valid() && sink.len + |Printed(fmt[start..], args[first..], radix).value| <= sink.buf.Length
    modifies sink, sink.buf
    ensures start < i <= |fmt| && a <= |args|
    ensures sink.Valid() && sink.Contents() == old(sink.Contents()) + text
    ensures Printed(fmt[start..], args[first..], radix) == Prepend(text, Printed(fmt[i..], args[a..], radix))
  {
    i, a := start, first;
    assert fmt[start..][1..] == fmt[start + 1..];
    if fmt[i] != '%' {
      text := [fmt[i]];
      sink.SaveChar(fmt[i]);
      i := i + 1;
    } else {
      ghost var d;
      i, a, d := PrintDirective(fmt, start + 1, args, first, radix, sink);
      text := Converted(d, radix).value.0;
    }
  }

  /** `_doprnt` with `savechar` as its output routine. */
  method Doprnt(fmt: string, args: seq<int>, radix: int, sink: Sink)
    requires '\0' !in fmt && Printed(fmt, args, radix).Some?
    requires sink.Valid() && sink.len + |Printed(fmt, args, radix).value| <= sink.buf.Length
    modifies sink, sink.buf
    ensures sink.Valid() && sink.Contents() == old(sink.Contents()) + Printed(fmt, args, radix).value
  {
    var i, a := 0, 0;
    ghost var before, todo := sink.Contents(), Printed(fmt, args, radix).value;
    assert fmt[0..] == fmt && args[0..] == args;
    while i < |fmt|
      invariant 0 <= i <= |fmt| && 0 <= a <= |args| && sink.Valid()
      invariant Printed(fmt[i..], args[a..], radix) == Some(todo)
      invariant sink.Contents() + todo == before + Printed(fmt, args, radix).value
    {
      ghost var text, sofar := "", sink.Contents();
      i, a, text := DoprntStep(fmt, i, args, a, radix, sink);
      todo := Printed(fmt[i..], args[a..], radix).value;
      Regroup(sofar, text, todo);
    }
  }

  /** `vsprintf`: the formatted text, a terminating zero, and the length as result. */
  method Vsprintf(s: array<char>, fmt: string, args: seq<int>) returns (len: nat)
    requires '\0' !in fmt && Printed(fmt, args, 0).Some? && |Printed(fmt, args, 0).value| < s.Length
    modifies s
    ensures len == |Printed(fmt, args, 0).value| && s[..len] == Printed(fmt, args, 0).value && s[len] == '\0'
  {
    var state := new Sink(s);
    Doprnt(fmt, args, 0, state);
    s[state.len] := '\0';
    len := state.len;
  }
}
