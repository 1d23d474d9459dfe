/** The target's machine words and their division, shared by the kernel model and the model of the
    task library. */
module Machine {

  /** Number of values of the target's 32-bit `unsigned long`, and of a 64-bit integer. */
  const WORD := 0x1_0000_0000
  const LONG_WORD := 0x1_0000_0000_0000_0000

  type Word = n: nat | n < WORD

  /** Addition of two `unsigned long` values, with wrap-around. */
  function AddWord(x: Word, y: Word): Word {
    (x + y) % WORD
  }

  function Min(x: nat, y: nat): nat {
    if x <= y then x else y
  }

  function Max(x: int, y: int): int {
    if x >= y then x else y
  }

  // ---------------------------------------------------------------- arithmetic

  lemma MulMono(a: int, b: int, c: nat)
    requires a <= b
    ensures a * c <= b * c
  {
    assert (b - a) * c >= 0;
  }

  /** Quotient and remainder are unique. */
  lemma DivUnique(x: int, size: nat, q: int, r: int)
    requires size > 0 && x == q * size + r && 0 <= r < size
    ensures x / size == q && x % size == r
  {
    var p := x / size;
    assert x == p * size + x % size;
    if p < q { MulMono(p + 1, q, size); }
    if q < p { MulMono(q + 1, p, size); }
  }

  /** Quotient and remainder by repeated subtraction; QuotRem ties them to the machine's division. */
  function Quot(u: nat, base: nat): (q: nat)
    requires base >= 2
    ensures (q == 0 <==> u < base) && (u > 0 ==> q < u)
  {
    if u < base then 0 else 1 + Quot(u - base, base)
  }

  function Rem(u: nat, base: nat): (r: nat)
    requires base >= 2
    ensures r < base
  {
    if u < base then u else Rem(u - base, base)
  }

  lemma {:induction false} QuotRem(u: nat, base: nat)
    requires base >= 2
    ensures u == Quot(u, base) * base + Rem(u, base)
    ensures u / base == Quot(u, base) && u % base == Rem(u, base)
  {
    if u >= base {
      QuotRem(u - base, base);
      assert (1 + Quot(u - base, base)) * base == base + Quot(u - base, base) * base;
    }
    DivUnique(u, base, Quot(u, base), Rem(u, base));
  }

  lemma Division(u: nat, base: nat)
    requires base >= 2
    ensures u / base == Quot(u, base) && u % base == Rem(u, base)
  {
    QuotRem(u, base);
  }
}
