/** The bytes of little-endian machine words. */
module Bytes {

  /** 256 to the power `k`. */
  function Power(k: nat): (p: nat)
    ensures p > 0
  {
    if k == 0 then 1 else 256 * Power(k - 1)
  }

  /** Byte `k` of a word, from the lowest. */
  function Byte(w: int, k: nat): (b: int)
    ensures 0 <= b < 256
    decreases k
  {
    if k == 0 then w % 256 else Byte(w / 256, k - 1)
  }

  /** A word of `was` with its first `k` bytes, which are its lowest, from `now`. */
  function MixWord(was: int, now: int, k: nat): (w: int) {
    was - was % Power(k) + now % Power(k)
  }

  // Division.

  lemma Times(d: nat, a: int, b: int)
    requires a < b
    ensures d * a + d <= d * b
  {
    assert d * (b - a - 1) >= 0;
    assert d * b == d * (b - a - 1) + d * a + d;
  }

  lemma QuotientUnique(d: nat, q: int, r: int, p: int, o: int)
    requires d * q + r == d * p + o && 0 <= r < d && 0 <= o < d
    ensures q == p && r == o
  {
    if q < p {
      Times(d, q, p);
    } else if p < q {
      Times(d, p, q);
    }
  }

  lemma DivUnique(x: int, d: nat, q: int, r: int)
    requires d > 0 && x == d * q + r && 0 <= r < d
    ensures x / d == q && x % d == r
  {
    QuotientUnique(d, q, r, x / d, x % d);
  }

  lemma DivNested(x: int, a: nat, b: nat, q: int, r: int, p: int, o: int)
    requires x == a * q + r && q == b * p + o && 0 <= r < a && 0 <= o < b
    ensures a * b > 0 && x / (a * b) == p
  {
    assert a * q == a * b * p + a * o;
    Times(a, o, b);
    DivUnique(x, a * b, p, a * o + r);
  }

  lemma DivTwice(x: int, a: nat, b: nat)
    requires a > 0 && b > 0
    ensures a * b > 0 && x / (a * b) == x / a / b
  {
    DivNested(x, a, b, x / a, x % a, x / a / b, x / a % b);
  }

  /** Adding a multiple of the divisor. */
  lemma DivShift(r: int, a: nat, m: int)
    requires a > 0
    ensures (a * m + r) / a == m + r / a && (a * m + r) % a == r % a
  {
    assert r == a * (r / a) + r % a;
    assert a * m + a * (r / a) == a * (m + r / a);
    DivUnique(a * m + r, a, m + r / a, r % a);
  }

  lemma {:induction false} PowerSum(a: nat, b: nat)
    ensures Power(a + b) == Power(a) * Power(b)
  {
    if a > 0 {
      PowerSum(a - 1, b);
      assert Power(a + b) == 256 * (Power(a - 1) * Power(b));
      assert Power(a) * Power(b) == 256 * Power(a - 1) * Power(b);
    }
  }

  // Bytes.

  ghost function Digit(w: int, k: nat): (b: int) {
    w / Power(k) % 256
  }

  lemma {:induction false} ByteIsDigit(w: int, k: nat)
    ensures Byte(w, k) == Digit(w, k)
    decreases k
  {
    if k > 0 {
      ByteIsDigit(w / 256, k - 1);
      DivTwice(w, 256, Power(k - 1));
      assert Power(k) == 256 * Power(k - 1);
    }
  }

  lemma {:induction false} ZeroByte(k: nat)
    ensures Byte(0, k) == 0
  {
    if k > 0 {
      ZeroByte(k - 1);
    }
  }

  /** The bytes from `k` on are those of the quotient. */
  lemma DigitHigh(x: int, k: nat, j: nat)
    ensures Digit(x, k + j) == Digit(x / Power(k), j)
  {
    PowerSum(k, j);
    DivTwice(x, Power(k), Power(j));
  }

  lemma Regroup(a: int, c: int, q: int)
    ensures a * (256 * c) * q == a * (256 * (c * q))
  {
    assert 256 * c * q == 256 * (c * q);
  }

  lemma LowPart(x: int, r: int, p: nat, a: nat, c: nat, q: int)
    requires a > 0 && p == a * (256 * c) && x == p * q + r
    ensures x / a % 256 == r / a % 256
  {
    Regroup(a, c, q);
    DivShift(r, a, 256 * (c * q));
    DivShift(r / a, 256, c * q);
  }

  lemma PowerSplit(k: nat, j: nat) returns (c: nat)
    requires j < k
    ensures Power(k) == Power(j) * (256 * c)
  {
    PowerSum(j, k - j);
    c := Power(k - j - 1);
  }

  /** The bytes below `k` are those of the remainder. */
  lemma DigitLow(x: int, k: nat, j: nat)
    requires j < k
    ensures Digit(x, j) == Digit(x % Power(k), j)
  {
    var c := PowerSplit(k, j);
    LowPart(x, x % Power(k), Power(k), Power(j), c, x / Power(k));
  }

  lemma MixDigit(was: int, now: int, k: nat, j: nat)
    ensures Digit(MixWord(was, now, k), j) == Digit(if j < k then now else was, j)
  {
    var p, w := Power(k), MixWord(was, now, k);
    assert w == p * (was / p) + now % p;
    DivUnique(w, p, was / p, now % p);
    if j < k {
      DigitLow(w, k, j);
      DigitLow(now, k, j);
    } else {
      DigitHigh(w, k, j - k);
      DigitHigh(was, k, j - k);
    }
  }

  /** The bytes of a mixed word. */
  lemma MixByte(was: int, now: int, k: nat, j: nat)
    ensures Byte(MixWord(was, now, k), j) == Byte(if j < k then now else was, j)
  {
    MixDigit(was, now, k, j);
    ByteIsDigit(MixWord(was, now, k), j);
    ByteIsDigit(if j < k then now else was, j);
  }

  lemma {:induction false} SameLow(a: int, b: int, k: nat)
    requires forall j :: 0 <= j < k ==> Byte(a, j) == Byte(b, j)
    ensures a % Power(k) == b % Power(k)
  {
    if k > 0 {
      SameLow(a, b, k - 1);
      assert Byte(a, k - 1) == Byte(b, k - 1);
      ByteIsDigit(a, k - 1);
      ByteIsDigit(b, k - 1);
      LowNext(a, k - 1, k);
      LowNext(b, k - 1, k);
    }
  }

  lemma NextPart(x: int, p: nat, q: int, m: int, b: int, r: int)
    requires p > 0 && x == p * q + r && q == 256 * m + b && 0 <= b < 256 && 0 <= r < p
    ensures x % (256 * p) == p * b + r
  {
    assert p * q == 256 * p * m + p * b;
    assert 0 <= p * b <= p * 255;
    DivUnique(x, 256 * p, m, p * b + r);
  }

  lemma LowNext(x: int, k: nat, next: nat)
    requires next == k + 1
    ensures x % Power(next) == Power(k) * Digit(x, k) + x % Power(k)
  {
    var q := x / Power(k);
    NextPart(x, Power(k), q, q / 256, q % 256, x % Power(k));
  }

  lemma WordRange()
    ensures Power(8) == 0x1_0000_0000_0000_0000
  {
    assert Power(2) == 0x1_0000 && Power(4) == 0x1_0000_0000 && Power(6) == 0x1_0000_0000_0000;
  }

  /** A 64-bit word is its eight bytes. */
  lemma SameWord(a: int, b: int)
    requires 0 <= a < 0x1_0000_0000_0000_0000 && 0 <= b < 0x1_0000_0000_0000_0000
    requires forall j :: 0 <= j < 8 ==> Byte(a, j) == Byte(b, j)
    ensures a == b
  {
    WordRange();
    SameLow(a, b, 8);
  }
}
