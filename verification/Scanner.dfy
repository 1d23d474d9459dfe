/** tasks/libc/stdio/doscan.c and sscanf.c: formatted reading of numbers from a string. */
module Scanner {
  import opened Machine
  import opened Numerals
  import opened Strtol

  // ---------------------------------------------------------------- specification

  /** The number of counted conversions and the values stored through the pointer arguments. */
  datatype ScanResult = ScanResult(vals: nat, stored: seq<int>)

  /** The conversions d and x: an optional minus sign and digits, without prefix or white space; no
      digit at all reads as 0. */
  function ScanNumber(input: string, base: nat): (int, string) {
    var negative := Peek(input) == '-';
    var s := if negative then input[1..] else input;
    (Signed(if negative then 0 - RunValue(s, base) else RunValue(s, base), WORD), Behind(s, base))
  }

  /** What follows the stars of a directive. */
  function AfterStars(fmt: string): (r: string)
    ensures |r| <= |fmt|
  {
    if Peek(fmt) == '*' then AfterStars(fmt[1..]) else fmt
  }

  function Tally(discard: bool, values: seq<int>, r: Option<ScanResult>): Option<ScanResult> {
    match r
    case None => None
    case Some(x) => Some(if discard then x else ScanResult(x.vals + 1, values + x.stored))
  }

  /** `_doscan`. None for the conversion s, which this model leaves out, and for a format that ends
      inside a directive, behind which the source reads on. Every other conversion character counts
      as a conversion and reads nothing. */
  function Scanned(fmt: string, input: string): Option<ScanResult>
    decreases |fmt|
  {
    if fmt == "" then Some(ScanResult(0, []))
    else if fmt[0] != '%' then
      if IsSpace(fmt[0]) then Scanned(fmt[1..], SkipSpaces(input))
      else if input != "" && input[0] == fmt[0] then Scanned(fmt[1..], input[1..])
      else Some(ScanResult(0, []))
    else
      var f := AfterStars(fmt[1..]);
      var discard := f != fmt[1..];
      if f == "" || f[0] == 's' then None
      else if f[0] == 'd' || f[0] == 'x' then
        var (n, rest) := ScanNumber(input, if f[0] == 'd' then 10 else 16);
        Tally(discard, [n], Scanned(f[1..], rest))
      else Tally(discard, [], Scanned(f[1..], input))
  }

  // ---------------------------------------------------------------- the source of characters (sscanf.c)

  class Source {
    const text: string
    var pos: nat

    constructor (text: string)
      ensures this.text == text && pos == 0
    {
      this.text := text;
      pos := 0;
    }

    ghost predicate Valid()
      reads this
    {
      pos <= |text|
    }

    ghost function Left(): string
      reads this
      requires Valid()
    {
      text[pos..]
    }

    /** `readchar`: at the end of the string it delivers the terminating zero, once. */
    method ReadChar() returns (c: char)
      requires Valid()
      modifies this
      ensures pos == old(pos) + 1 && c == Peek(old(Left()))
      ensures old(Left()) != "" ==> Valid() && Left() == old(Left())[1..]
    {
      c := if pos < |text| then text[pos] else '\0';
      pos := pos + 1;
    }

    /** `unchar`. */
    method UnChar()
      requires 0 < pos <= |text| + 1
      modifies this
      ensures pos == old(pos) - 1
    {
      pos := pos - 1;
    }

    /** The white-space loop. */
    method SkipWhite()
      requires Valid()
      modifies this
      ensures Valid() && Left() == SkipSpaces(old(Left()))
    {
      var c := ReadChar();
      while IsSpace(c)
        invariant 0 < pos <= |text| + 1 && c == Peek(text[pos - 1..])
        invariant SkipSpaces(text[pos - 1..]) == SkipSpaces(old(Left()))
        decreases |text| + 1 - pos
      {
        assert text[pos - 1..][1..] == text[pos..];
        c := ReadChar();
      }
      UnChar();
    }

    /** The digit loop. It starts with the first character read, and ends one character behind
        the digits. */
    method Digits(base: nat, first: char) returns (n: int)
      requires 0 < pos <= |text| + 1 && first == Peek(text[pos - 1..])
      modifies this
      ensures 0 < pos <= |text| + 1
      ensures var s := old(text[pos - 1..]); n == Signed(RunValue(s, base), WORD) && text[pos - 1..] == Behind(s, base)
    {
      ghost var start, s := pos - 1, text[pos - 1..];
      var c := first;
      n := 0;
      assert Signed(0, WORD) == 0 && s[..0] == "";
      while IsDigitOf(c, base)
        invariant start < pos <= |text| + 1 && c == Peek(text[pos - 1..])
        invariant AllDigits(s[..pos - 1 - start], base)
        invariant n == Signed(PrefixValue(s, pos - 1 - start, base), WORD)
        decreases |text| + 1 - pos
      {
        assert s[pos - 1 - start] == c;
        NextDigit(s, pos - 1 - start, base);
        n := Signed(n * base + DigitValue(c), WORD);
        c := ReadChar();
      }
      RunEnds(s, pos - 1 - start, base);
    }

    /** The conversions d and x, with one character of lookahead that is given back. */
    method Number(base: nat) returns (n: int)
      requires Valid()
      modifies this
      ensures Valid() && (n, Left()) == ScanNumber(old(Left()), base)
    {
      var c := ReadChar();
      var negative := c == '-';
      assert old(Left()) == text[pos - 1..];
      if negative {
        assert text[pos - 1..][1..] == text[pos..];
        c := ReadChar();
      }
      ghost var s := text[pos - 1..];
      n := Digits(base, c);
      UnChar();
      if negative {
        WrapNegation(RunValue(s, base));
        n := Signed(-n, WORD);
      }
    }
  }

  // ---------------------------------------------------------------- implementation

  /** One directive, from behind its percent sign on: whether it is counted, and what it stores. */
  method ScanDirective(fmt: string, start: nat, source: Source) returns (i: nat, discard: bool, values: seq<int>)
    requires 0 < start <= |fmt| && fmt[start - 1] == '%' && source.Valid()
    requires Scanned(fmt[start - 1..], source.Left()).Some?
    modifies source
    ensures start < i <= |fmt| && source.Valid()
    ensures Scanned(fmt[start - 1..], old(source.Left())) == Tally(discard, values, Scanned(fmt[i..], source.Left()))
  {
    i, discard, values := start, false, [];
    ghost var f := fmt[start..];
    assert fmt[start - 1..][1..] == f;
    while i < |fmt| && fmt[i] == '*'
      invariant start <= i <= |fmt| && AfterStars(f) == AfterStars(fmt[i..])
      invariant discard <==> i > start
    {
      assert fmt[i..][1..] == fmt[i + 1..];
      discard := true;
      i := i + 1;
    }
    assert AfterStars(f) == fmt[i..] && (i > start ==> |fmt[i..]| < |f|);
    var c := fmt[i];
    assert fmt[i..][1..] == fmt[i + 1..];
    i := i + 1;
    if c == 'd' || c == 'x' {
      var n := source.Number(if c == 'd' then 10 else 16);
      values := [n];
    }
  }

  /** One literal character of the format; false when the input has another one. */
  method ScanLiteral(fmt: string, start: nat, source: Source) returns (matched: bool)
    requires '\0' !in fmt && 0 < start <= |fmt| && fmt[start - 1] != '%' && source.Valid()
    modifies source
    ensures matched ==>
              source.Valid() && Scanned(fmt[start - 1..], old(source.Left())) == Scanned(fmt[start..], source.Left())
    ensures !matched ==> Scanned(fmt[start - 1..], old(source.Left())) == Some(ScanResult(0, []))
  {
    var c := fmt[start - 1];
    assert c in fmt && fmt[start - 1..][1..] == fmt[start..];
    matched := true;
    if IsSpace(c) {
      source.SkipWhite();
    } else {
      var d := source.ReadChar();
      matched := d == c;
    }
  }

  /** What has been scanned so far, and then the rest. */
  function Joined(vals: nat, stored: seq<int>, r: ScanResult): ScanResult {
    ScanResult(vals + r.vals, stored + r.stored)
  }

  lemma JoinedTally(vals: nat, stored: seq<int>, values: seq<int>, r: ScanResult)
    ensures Joined(vals, stored, ScanResult(r.vals + 1, values + r.stored)) == Joined(vals + 1, stored + values, r)
  {
  }

  /** `_doscan`; `stored` is what it writes through its pointer arguments, in order. */
  method Doscan(fmt: string, source: Source) returns (vals: nat, stored: seq<int>)
    requires '\0' !in fmt && source.Valid() && Scanned(fmt, source.Left()).Some?
    modifies source
    ensures Scanned(fmt, old(source.Left())) == Some(ScanResult(vals, stored))
  {
    var i := 0;
    vals, stored := 0, [];
    ghost var goal := Scanned(fmt, source.Left()).value;
    assert fmt[0..] == fmt && [] + goal.stored == goal.stored;
    while i < |fmt|
      invariant 0 <= i <= |fmt| && source.Valid() && Scanned(fmt[i..], source.Left()).Some?
      invariant Joined(vals, stored, Scanned(fmt[i..], source.Left()).value) == goal
    {
      i := i + 1;
      if fmt[i - 1] != '%' {
        var matched := ScanLiteral(fmt, i, source);
        if !matched {
          break;
        }
      } else {
        var discard, values;
        i, discard, values := ScanDirective(fmt, i, source);
        if !discard {
          JoinedTally(vals, stored, values, Scanned(fmt[i..], source.Left()).value);
          stored := stored + values;
          vals := vals + 1;
        }
      }
    }
    assert stored + [] == stored;
  }

  /** `vsscanf`. */
  method Vsscanf(s: string, fmt: string) returns (vals: nat, stored: seq<int>)
    requires '\0' !in fmt && Scanned(fmt, s).Some?
    ensures Scanned(fmt, s) == Some(ScanResult(vals, stored))
  {
    var source := new Source(s);
    assert source.Left() == s;
    vals, stored := Doscan(fmt, source);
  }
}
