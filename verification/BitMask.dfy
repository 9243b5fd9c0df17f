/** Powers of two, bit masks and size_t arithmetic, on natural numbers. */
module BitMask {
  const SIZE_MAX: nat := 0xFFFF_FFFF_FFFF_FFFF

  /** The value a 64-bit register keeps. */
  function Wrap(x: nat): (r: nat)
    ensures r <= SIZE_MAX
    ensures x <= SIZE_MAX ==> r == x
  {
    x % 0x1_0000_0000_0000_0000
  }

  /** Subtraction in a 64-bit register. */
  function WrapSub(a: nat, b: nat): (r: nat)
    ensures r <= SIZE_MAX
    ensures b <= a <= SIZE_MAX ==> r == a - b
  {
    (a - b) % 0x1_0000_0000_0000_0000
  }

  function BitAnd(a: nat, b: nat): (r: nat)
    decreases b
  {
    if b == 0 then 0 else (if a % 2 == 1 && b % 2 == 1 then 1 else 0) + 2 * BitAnd(a / 2, b / 2)
  }

  function BitXor(a: nat, b: nat): nat
    decreases a + b
  {
    if a == 0 then b else if b == 0 then a
    else (if a % 2 != b % 2 then 1 else 0) + 2 * BitXor(a / 2, b / 2)
  }

  predicate Bit(x: nat, k: nat) {
    if k == 0 then x % 2 == 1 else Bit(x / 2, k - 1)
  }

  lemma {:induction false} NoBitsInZero(k: nat)
    ensures !Bit(0, k)
  {
    if k > 0 {
      NoBitsInZero(k - 1);
    }
  }

  /** Conjunction and exclusive or, bit by bit. */
  lemma {:induction false} BitwiseMeaning(a: nat, b: nat, k: nat)
    ensures Bit(BitAnd(a, b), k) <==> Bit(a, k) && Bit(b, k)
    ensures Bit(BitXor(a, b), k) <==> Bit(a, k) != Bit(b, k)
    decreases k
  {
    NoBitsInZero(k);
    if k > 0 {
      BitwiseMeaning(a / 2, b / 2, k - 1);
    }
  }

  predicate PowerOfTwo(n: nat) {
    n == 1 || (n > 1 && n % 2 == 0 && PowerOfTwo(n / 2))
  }

  /** Masking with a power of two less one is reduction modulo that power. */
  lemma {:induction false} MaskIsModulo(x: nat, n: nat)
    requires PowerOfTwo(n)
    ensures BitAnd(x, n - 1) == x % n
    decreases n
  {
    if n > 1 {
      var m := n / 2;
      MaskIsModulo(x / 2, m);
      assert (n - 1) % 2 == 1 && (n - 1) / 2 == m - 1;
      HalfModulo(x, m);
    }
  }

  lemma HalfModulo(x: nat, m: nat)
    requires m > 0
    ensures x % (2 * m) == x % 2 + 2 * ((x / 2) % m)
  {
    var q, r := (x / 2) / m, (x / 2) % m;
    assert x / 2 == q * m + r;
    assert x == q * (2 * m) + (2 * r + x % 2);
    ModuloIsUnique(x, 2 * m, q, 2 * r + x % 2);
  }

  lemma ModuloIsUnique(x: nat, d: nat, q: nat, r: nat)
    requires x == q * d + r && r < d
    ensures x % d == r
  {
    QuotientIsUnique(d, q, r, x / d, x % d);
  }

  lemma QuotientIsUnique(d: nat, q: nat, r: nat, q': nat, r': nat)
    requires q * d + r == q' * d + r' && r < d && r' < d
    ensures q == q' && r == r'
  {
    MultiplesAreApart(d, q, q');
    MultiplesAreApart(d, q', q);
  }

  lemma {:induction false} MultiplesAreApart(d: nat, q: nat, q': nat)
    ensures q < q' ==> q * d + d <= q' * d
    decreases q'
  {
    if q < q' {
      assert q' * d == (q' - 1) * d + d;
      MultiplesAreApart(d, q, q' - 1);
    }
  }

  lemma DoublePower(n: nat)
    requires PowerOfTwo(n)
    ensures PowerOfTwo(2 * n)
  {
  }

  lemma {:induction false} PowersAreApart(p: nat, q: nat)
    requires PowerOfTwo(p) && PowerOfTwo(q) && p < q
    ensures 2 * p <= q
    decreases q
  {
    if p > 1 {
      PowersAreApart(p / 2, q / 2);
    }
  }
}
