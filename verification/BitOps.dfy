// Bitwise operations on unsigned words, written on the naturals. A word is the number it holds:
// bit 0 is w % 2, w >> 1 is w / 2, and a k-bit word is a number below Pow2(k).
module BitOps {

  function Pow2(k: nat): (p: nat)
    ensures p >= 1
  {
    if k == 0 then 1 else 2 * Pow2(k - 1)
  }

  lemma {:induction false} Pow2Add(j: nat, k: nat)
    ensures Pow2(j + k) == Pow2(j) * Pow2(k)
  {
    if j > 0 {
      Pow2Add(j - 1, k);
    }
  }

  lemma Pow2At16()
    ensures Pow2(16) == 0x1_0000
  {
    Pow2Add(8, 8);
  }

  lemma Pow2At32()
    ensures Pow2(32) == 0x1_0000_0000
  {
    Pow2At16();
    Pow2Add(16, 16);
  }

  lemma Pow2At64()
    ensures Pow2(64) == 0x1_0000_0000_0000_0000
  {
    Pow2At32();
    Pow2Add(32, 32);
  }

  lemma {:induction false} Pow2Mono(j: nat, k: nat)
    requires j <= k
    ensures Pow2(j) <= Pow2(k)
    decreases k - j
  {
    if j < k {
      Pow2Mono(j, k - 1);
    }
  }

  // a ^ b
  function Xor(a: nat, b: nat): nat
    decreases a + b
  {
    if a == 0 && b == 0 then 0
    else (if a % 2 == b % 2 then 0 else 1) + 2 * Xor(a / 2, b / 2)
  }

  // a & b
  function And(a: nat, b: nat): nat
    decreases a
  {
    if a == 0 then 0 else (if a % 2 == 1 && b % 2 == 1 then 1 else 0) + 2 * And(a / 2, b / 2)
  }

  lemma {:induction false} XorNone(a: nat)
    ensures Xor(a, 0) == a && Xor(0, a) == a
  {
    if a != 0 {
      XorNone(a / 2);
    }
  }

  lemma {:induction false} XorComm(a: nat, b: nat)
    ensures Xor(a, b) == Xor(b, a)
    decreases a + b
  {
    if a != 0 || b != 0 {
      XorComm(a / 2, b / 2);
    }
  }

  lemma XorBit(a: nat, b: nat)
    ensures Xor(a, b) % 2 == if a % 2 == b % 2 then 0 else 1
    ensures Xor(a, b) / 2 == Xor(a / 2, b / 2)
  {
  }

  lemma {:induction false} XorAssoc(a: nat, b: nat, c: nat)
    ensures Xor(Xor(a, b), c) == Xor(a, Xor(b, c))
    decreases a + b + c
  {
    if a != 0 || b != 0 || c != 0 {
      XorBit(a, b);
      XorBit(b, c);
      XorAssoc(a / 2, b / 2, c / 2);
    }
  }

  lemma {:induction false} XorSelf(a: nat)
    ensures Xor(a, a) == 0
  {
    if a != 0 {
      XorSelf(a / 2);
    }
  }

  // Adding b twice cancels.
  lemma XorCancel(a: nat, b: nat)
    ensures Xor(Xor(a, b), b) == a
    ensures Xor(b, Xor(b, a)) == a
  {
    XorAssoc(a, b, b);
    XorAssoc(b, b, a);
    XorSelf(b);
    XorNone(a);
  }

  lemma XorSwap(p: nat, q: nat, x: nat, y: nat)
    ensures Xor(Xor(p, q), Xor(x, y)) == Xor(Xor(p, x), Xor(q, y))
  {
    XorAssoc(p, q, Xor(x, y));
    XorAssoc(q, x, y);
    XorComm(q, x);
    XorAssoc(x, q, y);
    XorAssoc(p, x, Xor(q, y));
  }

  lemma {:induction false} XorBound(a: nat, b: nat, k: nat)
    requires a < Pow2(k) && b < Pow2(k)
    ensures Xor(a, b) < Pow2(k)
  {
    if a != 0 || b != 0 {
      XorBound(a / 2, b / 2, k - 1);
    }
  }

  // The number of trailing zero bits of w (Go's bits.TrailingZeros64).
  function TrailingZeros(w: nat): nat
    requires w != 0
  {
    if w % 2 == 1 then 0 else 1 + TrailingZeros(w / 2)
  }

  // w >> j
  function Shr(w: nat, j: nat): nat {
    if j == 0 then w else Shr(w / 2, j - 1)
  }

  lemma {:induction false} ShrIsDiv(w: nat, j: nat)
    ensures Shr(w, j) == w / Pow2(j)
  {
    if j > 0 {
      ShrIsDiv(w / 2, j - 1);
      DivDiv(w, Pow2(j - 1));
    }
  }

  lemma DivDiv(w: nat, p: nat)
    requires p > 0
    ensures w / (2 * p) == w / 2 / p
  {
    var q, r := w / 2 / p, w / 2 % p;
    assert w / 2 == q * p + r;
    assert w == 2 * p * q + (2 * r + w % 2);
    DivUnique(w, 2 * p, q, 2 * r + w % 2);
  }

  lemma DivUnique(n: nat, d: nat, q: nat, r: nat)
    requires d > 0 && r < d && n == d * q + r
    ensures n / d == q && n % d == r
  {
    var q', r' := n / d, n % d;
    assert n == d * q' + r';
    QuotientsAgree(d, q, r, q', r');
  }

  lemma QuotientsAgree(d: nat, q: nat, r: nat, q': nat, r': nat)
    requires r < d && r' < d && d * q + r == d * q' + r'
    ensures q == q'
  {
    if q < q' {
      MulGap(d, q, q');
    } else if q' < q {
      MulGap(d, q', q);
    }
  }

  lemma {:induction false} MulGap(d: nat, q: nat, q': nat)
    requires q < q'
    ensures d * q + d <= d * q'
    decreases q'
  {
    if q + 1 < q' {
      MulGap(d, q, q' - 1);
    }
    assert d * q' == d * (q' - 1) + d;
  }

  // w & (1 << n - 1)
  function Low(w: nat, n: nat): nat {
    if n == 0 then 0 else w % 2 + 2 * Low(w / 2, n - 1)
  }

  lemma {:induction false} LowBound(w: nat, n: nat)
    ensures Low(w, n) < Pow2(n)
  {
    if n > 0 {
      LowBound(w / 2, n - 1);
    }
  }

  lemma {:induction false} LowSame(w: nat, n: nat)
    requires w < Pow2(n)
    ensures Low(w, n) == w
  {
    if n > 0 {
      LowSame(w / 2, n - 1);
    }
  }

  lemma {:induction false} LowShr(w: nat, n: nat)
    ensures w == Low(w, n) + Pow2(n) * Shr(w, n)
  {
    if n > 0 {
      LowShr(w / 2, n - 1);
      assert Pow2(n) * Shr(w, n) == 2 * (Pow2(n - 1) * Shr(w / 2, n - 1));
    }
  }

  lemma {:induction false} ShrBound(w: nat, n: nat, k: nat)
    requires w < Pow2(n + k)
    ensures Shr(w, n) < Pow2(k)
  {
    if n > 0 {
      ShrBound(w / 2, n - 1, k);
    }
  }

  // w & (w - 1), the word with its lowest set bit cleared.
  function ClearLow(w: nat): (r: nat)
    requires w != 0
    ensures r < w
  {
    if w % 2 == 1 then w - 1 else 2 * ClearLow(w / 2)
  }

  lemma {:induction false} AndSelf(w: nat)
    ensures And(w, w) == w
  {
    if w != 0 {
      AndSelf(w / 2);
    }
  }

  lemma {:induction false} ClearLowIsAnd(w: nat)
    requires w != 0
    ensures ClearLow(w) == And(w, w - 1)
  {
    if w % 2 == 1 {
      AndSelf(w / 2);
    } else {
      ClearLowIsAnd(w / 2);
      assert (w - 1) / 2 == w / 2 - 1;
    }
  }
}
