/** 32-bit words as integers, with the wrap-around written out. A shift by a
    constant is a division or a multiplication by a power of two, a mask is a
    remainder, and the `|` of disjoint fields is a sum. */
module Words {
  type word = x: int | 0 <= x < 0x1_0000_0000
  type byte = x: int | 0 <= x < 0x100
  type regidx = x: int | 0 <= x < 32

  /** Mask to 32 unsigned bits; Python's `&` on a negative operand is a floor remainder. */
  function U32(x: int): word {
    x % 0x1_0000_0000
  }

  /** The two's-complement reading of the low 32 bits. */
  function S32(x: int): int {
    var y := x % 0x1_0000_0000;
    if y >= 0x8000_0000 then y - 0x1_0000_0000 else y
  }

  /** Sign-extend the low bits of `value`, where `span` is 2 to the number of bits. */
  function Sext(value: int, span: int): int
    requires span >= 2
  {
    var v := value % span;
    if v >= span / 2 then v - span else v
  }

  function Pow2(n: nat): (p: int)
    ensures p >= 1
  {
    if n == 0 then 1 else 2 * Pow2(n - 1)
  }

  function AndBits(a: nat, b: nat): (r: nat)
    ensures r <= a
    decreases a
  {
    if a == 0 then 0 else (if a % 2 == 1 then b % 2 else 0) + 2 * AndBits(a / 2, b / 2)
  }

  function OrBits(a: nat, b: nat): nat
    decreases a
  {
    if a == 0 then b else (if a % 2 == 1 then 1 else b % 2) + 2 * OrBits(a / 2, b / 2)
  }

  function XorBits(a: nat, b: nat): nat
    decreases a
  {
    if a == 0 then b else (if a % 2 == b % 2 then 0 else 1) + 2 * XorBits(a / 2, b / 2)
  }

  lemma {:induction false} OrXorBound(a: nat, b: nat, n: nat)
    requires a < Pow2(n) && b < Pow2(n)
    ensures OrBits(a, b) < Pow2(n) && XorBits(a, b) < Pow2(n)
    decreases a
  {
    if a != 0 {
      OrXorBound(a / 2, b / 2, n - 1);
    }
  }

  lemma Pow2At32()
    ensures Pow2(32) == 0x1_0000_0000
  {
    Pow2Add(8, 8);
    Pow2Add(16, 16);
  }

  function And32(a: word, b: word): word {
    AndBits(a, b)
  }

  function Or32(a: word, b: word): word {
    Pow2At32();
    OrXorBound(a, b, 32);
    OrBits(a, b)
  }

  function Xor32(a: word, b: word): word {
    Pow2At32();
    OrXorBound(a, b, 32);
    XorBits(a, b)
  }

  predicate Bit(x: nat, k: nat) {
    if k == 0 then x % 2 == 1 else Bit(x / 2, k - 1)
  }

  lemma Halves(low: int, m: nat)
    requires 0 <= low < 2
    ensures (low + 2 * m) % 2 == low && (low + 2 * m) / 2 == m
  {}

  // Each operation is its bit operation on the low bits, then itself on the rest.

  lemma AndStep(a: nat, b: nat)
    requires a > 0
    ensures AndBits(a, b) % 2 == (if a % 2 == 1 then b % 2 else 0) && AndBits(a, b) / 2 == AndBits(a / 2, b / 2)
  {
    var low, rest := if a % 2 == 1 then b % 2 else 0, AndBits(a / 2, b / 2);
    assert AndBits(a, b) == low + 2 * rest;
    hide AndBits;
    Halves(low, rest);
  }

  lemma OrStep(a: nat, b: nat)
    requires a > 0
    ensures OrBits(a, b) % 2 == (if a % 2 == 1 then 1 else b % 2) && OrBits(a, b) / 2 == OrBits(a / 2, b / 2)
  {
    var low, rest := if a % 2 == 1 then 1 else b % 2, OrBits(a / 2, b / 2);
    assert OrBits(a, b) == low + 2 * rest;
    hide OrBits;
    Halves(low, rest);
  }

  lemma XorStep(a: nat, b: nat)
    requires a > 0
    ensures XorBits(a, b) % 2 == (if a % 2 == b % 2 then 0 else 1) && XorBits(a, b) / 2 == XorBits(a / 2, b / 2)
  {
    var low, rest := if a % 2 == b % 2 then 0 else 1, XorBits(a / 2, b / 2);
    assert XorBits(a, b) == low + 2 * rest;
    hide XorBits;
    Halves(low, rest);
  }

  /** The three operations act on each bit on its own. */
  lemma {:induction false} Bitwise(a: nat, b: nat, k: nat)
    ensures Bit(AndBits(a, b), k) <==> Bit(a, k) && Bit(b, k)
    ensures Bit(OrBits(a, b), k) <==> Bit(a, k) || Bit(b, k)
    ensures Bit(XorBits(a, b), k) <==> Bit(a, k) != Bit(b, k)
    decreases k
  {
    if a == 0 {
      NoBits(k);
    } else {
      hide AndBits, OrBits, XorBits;
      AndStep(a, b);
      OrStep(a, b);
      XorStep(a, b);
      if k > 0 {
        Bitwise(a / 2, b / 2, k - 1);
      }
    }
  }

  lemma {:induction false} NoBits(k: nat)
    ensures !Bit(0, k)
  {
    if k > 0 {
      NoBits(k - 1);
    }
  }

  /** The same, on words. */
  lemma WordBits(a: word, b: word, k: nat)
    ensures Bit(And32(a, b), k) <==> Bit(a, k) && Bit(b, k)
    ensures Bit(Or32(a, b), k) <==> Bit(a, k) || Bit(b, k)
    ensures Bit(Xor32(a, b), k) <==> Bit(a, k) != Bit(b, k)
  {
    hide Bit;
    Bitwise(a, b, k);
  }

  /** A number below 2^n is its n low bits. */
  lemma {:induction false} BitsDetermine(a: nat, b: nat, n: nat)
    requires a < Pow2(n) && b < Pow2(n)
    requires forall k: nat :: k < n ==> Bit(a, k) == Bit(b, k)
    ensures a == b
    decreases n
  {
    if n > 0 {
      assert Bit(a, 0) == Bit(b, 0);
      forall k: nat | k < n - 1
        ensures Bit(a / 2, k) == Bit(b / 2, k)
      {
        assert Bit(a, k + 1) == Bit(b, k + 1);
      }
      BitsDetermine(a / 2, b / 2, n - 1);
    }
  }

  /** Bit `k` of a quotient by 2^s is bit `k + s`. */
  lemma {:induction false} BitOfQuotient(x: nat, s: nat, k: nat)
    ensures x / Pow2(s) >= 0 && (Bit(x / Pow2(s), k) <==> Bit(x, k + s))
    decreases s
  {
    if s > 0 {
      hide Pow2;
      Pow2Twice(s);
      DivDiv(x, 2, Pow2(s - 1));
      BitOfQuotient(x / 2, s - 1, k);
    }
  }

  lemma Pow2Twice(n: nat)
    requires n >= 1
    ensures Pow2(n) == 2 * Pow2(n - 1)
  {}

  /** Bit `k` of a product by 2^s is bit `k - s`. */
  lemma {:induction false} BitOfProduct(x: nat, s: nat, k: nat)
    ensures x * Pow2(s) >= 0 && (Bit(x * Pow2(s), k) <==> k >= s && Bit(x, k - s))
    decreases s
  {
    if s > 0 {
      hide Pow2;
      Pow2Twice(s);
      var y := x * Pow2(s - 1);
      assert x * Pow2(s) == 2 * y;
      BitOfProduct(x, s - 1, if k > 0 then k - 1 else 0);
      Halves(0, y);
    }
  }

  /** Taking a number modulo 2^n keeps its n low bits and no others. */
  lemma {:induction false} BitOfRemainder(x: nat, n: nat, k: nat)
    ensures x % Pow2(n) >= 0 && (Bit(x % Pow2(n), k) <==> k < n && Bit(x, k))
    decreases n
  {
    if n == 0 {
      NoBits(k);
    } else {
      hide Pow2;
      Pow2Twice(n);
      var p, h := Pow2(n - 1), x / 2;
      var q, r := h / p, h % p;
      assert h == p * q + r && x == 2 * h + x % 2;
      assert 2 * (p * q) == (2 * p) * q;
      DivModUnique(x, 2 * p, q, x % 2 + 2 * r);
      Halves(x % 2, r);
      if k > 0 {
        BitOfRemainder(h, n - 1, k - 1);
      }
    }
  }

  lemma {:induction false} BitOfOnes(n: nat, k: nat)
    ensures Bit(Pow2(n) - 1, k) <==> k < n
    decreases n
  {
    if n == 0 {
      NoBits(k);
    } else {
      hide Pow2;
      Pow2Twice(n);
      Halves(1, Pow2(n - 1) - 1);
      if k > 0 {
        BitOfOnes(n - 1, k - 1);
      }
    }
  }

  /** The signed reading is the number in range with the same low 32 bits. */
  lemma SignedReading(x: int)
    ensures -0x8000_0000 <= S32(x) < 0x8000_0000
    ensures (x - S32(x)) % 0x1_0000_0000 == 0
  {
    var y, q := x % 0x1_0000_0000, x / 0x1_0000_0000;
    DivModUnique(x - S32(x), 0x1_0000_0000, if y >= 0x8000_0000 then q + 1 else q, 0);
  }

  /** Flipping every bit: `xori rd, rs, -1`. */
  lemma {:induction false} XorOnes(a: nat, n: nat)
    requires a < Pow2(n)
    ensures XorBits(a, Pow2(n) - 1) == Pow2(n) - 1 - a
    decreases n
  {
    if n != 0 && a != 0 {
      assert (Pow2(n) - 1) / 2 == Pow2(n - 1) - 1;
      XorOnes(a / 2, n - 1);
    }
  }

  lemma {:induction false} Pow2Add(m: nat, n: nat)
    ensures Pow2(m + n) == Pow2(m) * Pow2(n)
    decreases m
  {
    if m != 0 {
      Pow2Add(m - 1, n);
      assert m + n - 1 == (m - 1) + n;
      assert 2 * (Pow2(m - 1) * Pow2(n)) == (2 * Pow2(m - 1)) * Pow2(n);
    }
  }

  /** The shift amount is the low five bits. */
  function Shamt(b: int): (s: nat)
    ensures s < 32
  {
    b % 32
  }

  function ShiftLeft(a: word, s: nat): word {
    U32(a * Pow2(s))
  }

  function ShiftRight(a: word, s: nat): (r: word)
  {
    DivBound(a, Pow2(s));
    a / Pow2(s)
  }

  lemma DivBound(a: int, p: int)
    requires a >= 0 && p >= 1
    ensures 0 <= a / p <= a
  {
  }

  lemma MulAtLeast(m: int, d: int)
    requires m >= 1
    ensures d >= 1 ==> m * d >= m
    ensures d <= -1 ==> m * d <= -m
  {}

  lemma DivModUnique(x: int, m: int, q: int, r: int)
    requires m >= 1 && 0 <= r < m && x == m * q + r
    ensures x / m == q && x % m == r
  {
    var d, r' := x / m, x % m;
    assert x == m * d + r' && 0 <= r' < m;
    assert m * (d - q) == m * d - m * q;
    MulAtLeast(m, d - q);
  }

  /** A bit slice: the bits from weight `at` up, `width` values wide. */
  function Slice(x: int, at: int, width: int): (r: int)
    requires at >= 1 && width >= 1
    ensures 0 <= r < width
  {
    x / at % width
  }

  lemma Nested(a: int, b: int, q: int, r: int, s: int)
    requires a >= 1 && b >= 1 && 0 <= r < b && 0 <= s < a
    ensures a * b >= 1 && 0 <= a * r + s < a * b
    ensures a * (b * q + r) + s == (a * b) * q + (a * r + s)
  {
    assert a * (b * q + r) == (a * b) * q + a * r;
    MulAtLeast(a, b);
    MulAtLeast(a, b - r);
    assert a * (b - r) == a * b - a * r;
    MulNonneg(a, r);
  }

  lemma DivDiv(x: int, a: int, b: int)
    requires a >= 1 && b >= 1
    ensures a * b >= 1 && x / (a * b) == x / a / b
  {
    var y, s := x / a, x % a;
    var q, r := y / b, y % b;
    Nested(a, b, q, r, s);
    DivModUnique(x, a * b, q, a * r + s);
  }

  lemma MulNonneg(a: int, b: int)
    requires a >= 0 && b >= 0
    ensures a * b >= 0
  {}

  /** A slice is its low part and its high part. */
  lemma SliceSplit(x: int, at: int, m: int, k: int)
    requires at >= 1 && m >= 1 && k >= 1
    ensures m * k >= 1 && at * m >= 1
    ensures Slice(x, at, m * k) == Slice(x, at, m) + m * Slice(x, at * m, k)
  {
    var y := x / at;
    DivDiv(x, at, m);
    var q, r := y / m, y % m;
    var h, t := q / k, q % k;
    Nested(m, k, h, t, r);
    DivModUnique(y, m * k, h, m * t + r);
  }

  /** Reading the middle field of a packed word. */
  lemma FieldAt(lo: int, m: int, field: int, k: int, hi: int)
    requires 0 <= lo < m && 0 <= field < k
    ensures Slice(lo + m * (field + k * hi), m, k) == field
  {
    DivModUnique(lo + m * (field + k * hi), m, field + k * hi, lo);
    DivModUnique(field + k * hi, k, hi, field);
  }
}
