/** Powers of two, bit lengths and the few division facts that the 256-bit model rests on. */
module Arith {

  const WORD: nat := 0x1_0000_0000  // 2^32
  const TWO64: nat := 0x1_0000_0000_0000_0000
  const TWO128: nat := 0x1_0000_0000_0000_0000_0000_0000_0000_0000
  const TWO256: nat := TWO128 * TWO128

  function Pow2(n: nat): (r: nat)
    ensures r > 0
  {
    if n == 0 then 1 else 2 * Pow2(n - 1)
  }

  lemma {:induction false} Pow2Add(a: nat, b: nat)
    ensures Pow2(a + b) == Pow2(a) * Pow2(b)
  {
    if a == 0 {
    } else {
      Pow2Add(a - 1, b);
      assert Pow2(a + b) == 2 * Pow2(a - 1 + b);
      assert 2 * (Pow2(a - 1) * Pow2(b)) == (2 * Pow2(a - 1)) * Pow2(b);
    }
  }

  lemma {:induction false} Pow2Mono(a: nat, b: nat)
    requires a <= b
    ensures Pow2(a) <= Pow2(b)
    decreases b - a
  {
    if a < b {
      Pow2Mono(a, b - 1);
    }
  }

  lemma Pow2Small()
    ensures Pow2(1) == 2 && Pow2(8) == 256 && Pow2(16) == 65536 && Pow2(24) == 0x100_0000
    ensures Pow2(23) == 0x80_0000 && Pow2(15) == 0x8000 && Pow2(32) == 0x1_0000_0000
  {
    Pow2Add(8, 8);
    Pow2Add(16, 8);
    Pow2Add(16, 16);
    Pow2Add(8, 7);
    Pow2Add(16, 7);
  }

  lemma Pow2Limbs()
    ensures Pow2(64) == TWO64 && Pow2(128) == TWO128 && Pow2(256) == TWO256
  {
    Pow2Small();
    Pow2Add(32, 32);
    Pow2Add(64, 64);
    Pow2Add(128, 128);
  }

  /** The quotient and remainder are the only pair with the defining property. */
  lemma DivModUnique(a: int, b: int, q: int, r: int)
    requires 0 < b && 0 <= r < b && a == q * b + r
    ensures a / b == q && a % b == r
  {
    var q', r' := a / b, a % b;
    assert a == q' * b + r';
    assert (q - q') * b == r' - r;
    if q > q' {
      assert (q - q') * b >= b by { MulMono(1, q - q', b); }
    } else if q < q' {
      assert (q' - q) * b >= b by { MulMono(1, q' - q, b); }
    }
  }

  lemma MulMono(a: int, b: int, c: int)
    requires a <= b && 0 <= c
    ensures a * c <= b * c && c * a <= c * b
  {
  }

  lemma DivMono(a: int, b: int, c: int)
    requires a <= b && 0 < c
    ensures a / c <= b / c
  {
    if a / c > b / c {
      MulMono(b / c + 1, a / c, c);
    }
  }

  /** Floor division is the greatest integer that fits: `q <= a / b` exactly when `q * b <= a`. */
  lemma DivGalois(a: int, b: int, q: int)
    requires 0 < b
    ensures q <= a / b <==> q * b <= a
  {
    if q <= a / b {
      MulMono(q, a / b, b);
    } else {
      MulMono(a / b + 1, q, b);
      assert (a / b + 1) * b == (a / b) * b + b;
    }
  }

  /** Two successive floor divisions are one floor division by the product. */
  lemma DivDiv(a: nat, b: nat, c: nat)
    requires 0 < b && 0 < c
    ensures b * c > 0 && a / b / c == a / (b * c)
  {
    var q, r := a / b, a % b;
    var q2, r2 := q / c, q % c;
    MulMono(1, c, b);
    DigitsRegroup(b, c, q2, r2, r);
    DigitsBelow(b, c, r2, r);
    DivModUnique(a, b * c, q2, r2 * b + r);
  }

  lemma DigitsRegroup(b: int, c: int, q: int, s: int, r: int)
    ensures (q * c + s) * b + r == q * (b * c) + (s * b + r)
  {
  }

  lemma DigitsBelow(b: int, c: int, s: int, r: int)
    requires 0 <= r < b && 0 <= s < c
    ensures 0 <= s * b + r < b * c
  {
    MulMono(s, c - 1, b);
    MulMono(0, s, b);
    assert (c - 1) * b == b * c - b;
  }

  /** Number of binary digits; 128 minus this is the source's `leading_zeros` of a limb. */
  function BitLen(n: nat): (r: nat) {
    if n == 0 then 0 else 1 + BitLen(n / 2)
  }

  lemma {:induction false} BitLenBounds(n: nat)
    ensures n < Pow2(BitLen(n))
    ensures n > 0 ==> BitLen(n) > 0 && Pow2(BitLen(n) - 1) <= n
  {
    if n > 0 {
      BitLenBounds(n / 2);
    }
  }

  /** The bit length is the only exponent that brackets the number. */
  lemma BitLenUnique(n: nat, k: nat)
    requires n < Pow2(k)
    requires k == 0 || Pow2(k - 1) <= n
    ensures BitLen(n) == k
  {
    BitLenBounds(n);
    if BitLen(n) < k {
      Pow2Mono(BitLen(n), k - 1);
    } else if k < BitLen(n) {
      Pow2Mono(k, BitLen(n) - 1);
    }
  }

  lemma {:induction false} BitLenMono(a: nat, b: nat)
    requires a <= b
    ensures BitLen(a) <= BitLen(b)
  {
    if a > 0 {
      BitLenMono(a / 2, b / 2);
    }
  }

  function Min(a: int, b: int): int {
    if a <= b then a else b
  }

  function Max(a: int, b: int): int {
    if a <= b then b else a
  }

  /** Rust's signed division: it truncates toward zero. */
  function TruncDiv(a: int, b: int): int
    requires b > 0
  {
    if a >= 0 then a / b else -((-a) / b)
  }

  lemma TruncDivMono(a: int, b: int, c: int)
    requires a <= b && c > 0
    ensures TruncDiv(a, c) <= TruncDiv(b, c)
  {
    if a >= 0 {
      DivMono(a, b, c);
    } else if b < 0 {
      DivMono(-b, -a, c);
    } else {
      DivMono(0, -a, c);
      DivMono(0, b, c);
    }
  }
}
