// Arithmetic on 32-bit words: every operation of uint32 the hash uses, with its wrap-around
// (packages/houdini-core/plugin/fragmentArguments/hash.go).
module Words {
  type Word = w: nat | w < 0x1_0000_0000

  function Mul(a: Word, b: nat): Word { (a * b) % 0x1_0000_0000 }

  function Add(a: Word, b: Word): Word { (a + b) % 0x1_0000_0000 }

  // ---------------------------------------------------------------------------
  // Exclusive or
  // ---------------------------------------------------------------------------

  function Xor(a: nat, b: nat): nat
  {
    if a == 0 && b == 0 then 0 else (a % 2 + b % 2) % 2 + 2 * Xor(a / 2, b / 2)
  }

  function Power(n: nat): nat { if n == 0 then 1 else 2 * Power(n - 1) }

  lemma {:induction false} XorBound(a: nat, b: nat, n: nat)
    requires a < Power(n) && b < Power(n)
    ensures Xor(a, b) < Power(n)
  {
    if a != 0 || b != 0 { XorBound(a / 2, b / 2, n - 1); }
  }

  lemma Power32()
    ensures Power(32) == 0x1_0000_0000
  {
    assert Power(8) == 256;
    assert Power(16) == 256 * Power(8) by { PowerSum(8, 8); }
    assert Power(32) == Power(16) * Power(16) by { PowerSum(16, 16); }
  }

  lemma {:induction false} PowerSum(m: nat, n: nat)
    ensures Power(m + n) == Power(m) * Power(n)
  {
    if m > 0 { PowerSum(m - 1, n); }
  }

  /** Exclusive or of words is a word. */
  function XorWord(a: Word, b: Word): (r: Word)
    ensures r == Xor(a, b)
  {
    Power32();
    XorBound(a, b, 32);
    Xor(a, b)
  }

  lemma {:induction false} XorZero(a: nat)
    ensures Xor(a, 0) == a && Xor(0, a) == a
  {
    if a != 0 { XorZero(a / 2); }
  }

  lemma {:induction false} XorSelf(a: nat)
    ensures Xor(a, a) == 0
  {
    if a != 0 { XorSelf(a / 2); }
  }

  lemma XorParts(a: nat, b: nat)
    ensures Xor(a, b) % 2 == (a % 2 + b % 2) % 2 && Xor(a, b) / 2 == Xor(a / 2, b / 2)
  {}

  function Bit(w: nat, i: nat): nat { Down(w, i) % 2 }

  /** The bits of r are those of a and b added without carry. */
  ghost predicate IsXor(r: nat, a: nat, b: nat)
  {
    forall i: nat :: Bit(r, i) == (Bit(a, i) + Bit(b, i)) % 2
  }

  lemma XorIs(a: nat, b: nat)
    ensures IsXor(Xor(a, b), a, b)
  {
    forall i: nat ensures Bit(Xor(a, b), i) == (Bit(a, i) + Bit(b, i)) % 2 {
      DownXor(a, b, i);
      XorParts(Down(a, i), Down(b, i));
    }
  }

  /** Numbers with the same bits are equal. */
  lemma {:induction false} SameBits(x: nat, y: nat)
    requires forall i: nat :: Bit(x, i) == Bit(y, i)
    ensures x == y
    decreases x + y
  {
    if x + y > 0 {
      assert Bit(x, 0) == Bit(y, 0);
      forall i: nat ensures Bit(x / 2, i) == Bit(y / 2, i) {
        assert Bit(x, i + 1) == Bit(y, i + 1);
      }
      SameBits(x / 2, y / 2);
    }
  }

  lemma SumsAgree(a: nat, b: nat, c: nat, p: nat, q: nat, x: nat, y: nat)
    requires IsXor(p, a, b) && IsXor(q, b, c) && IsXor(x, p, c) && IsXor(y, a, q)
    ensures x == y
  {
    forall i: nat ensures Bit(x, i) == Bit(y, i) {
      assert Bit(x, i) == (Bit(p, i) + Bit(c, i)) % 2 && Bit(y, i) == (Bit(a, i) + Bit(q, i)) % 2;
      assert Bit(p, i) == (Bit(a, i) + Bit(b, i)) % 2 && Bit(q, i) == (Bit(b, i) + Bit(c, i)) % 2;
      assert Bit(a, i) < 2 && Bit(b, i) < 2 && Bit(c, i) < 2;
    }
    SameBits(x, y);
  }

  lemma XorAssociates(a: nat, b: nat, c: nat)
    ensures Xor(Xor(a, b), c) == Xor(a, Xor(b, c))
  {
    XorIs(a, b);
    XorIs(b, c);
    XorIs(Xor(a, b), c);
    XorIs(a, Xor(b, c));
    SumsAgree(a, b, c, Xor(a, b), Xor(b, c), Xor(Xor(a, b), c), Xor(a, Xor(b, c)));
  }

  lemma {:induction false} XorCommutes(a: nat, b: nat)
    ensures Xor(a, b) == Xor(b, a)
  {
    if a != 0 || b != 0 { XorCommutes(a / 2, b / 2); }
  }

  /** Doing it twice undoes it. */
  lemma XorTwice(a: nat, b: nat)
    ensures Xor(Xor(a, b), b) == a && Xor(b, Xor(b, a)) == a
  {
    XorAssociates(a, b, b);
    XorAssociates(b, b, a);
    XorSelf(b);
    XorZero(a);
  }

  lemma XorDoubled(a: nat, h: nat)
    ensures Xor(a, 2 * h) == a % 2 + 2 * Xor(a / 2, h) && Xor(2 * h, a) == a % 2 + 2 * Xor(h, a / 2)
  {
    hide Xor;
    var p, q := Xor(a, 2 * h), Xor(2 * h, a);
    XorParts(a, 2 * h);
    XorParts(2 * h, a);
    assert 2 * h % 2 == 0 && 2 * h / 2 == h;
    assert p == p % 2 + 2 * (p / 2) && q == q % 2 + 2 * (q / 2);
  }

  /** Where no bit meets another, exclusive or is the sum. */
  lemma {:induction false} XorApart(a: nat, b: nat, n: nat)
    requires a < Power(n)
    ensures Xor(a, b * Power(n)) == a + b * Power(n) && Xor(b * Power(n), a) == a + b * Power(n)
  {
    if n == 0 {
      XorZero(b);
    } else {
      var high := b * Power(n - 1);
      assert b * Power(n) == 2 * high;
      XorApart(a / 2, b, n - 1);
      XorDoubled(a, high);
    }
  }

  // ---------------------------------------------------------------------------
  // Shifts
  // ---------------------------------------------------------------------------

  /** w >> n: halved n times. */
  function Down(w: nat, n: nat): (r: nat)
    ensures r <= w
    decreases n
  {
    if n == 0 then w else Down(w / 2, n - 1)
  }

  lemma {:induction false} DownTwice(w: nat, m: nat, n: nat)
    ensures Down(Down(w, m), n) == Down(w, m + n)
    decreases m
  {
    if m > 0 { DownTwice(w / 2, m - 1, n); }
  }

  lemma {:induction false} DownXor(a: nat, b: nat, n: nat)
    ensures Down(Xor(a, b), n) == Xor(Down(a, n), Down(b, n))
    decreases n
  {
    if n > 0 {
      XorParts(a, b);
      DownXor(a / 2, b / 2, n - 1);
    }
  }

  lemma {:induction false} DownAll(w: nat, n: nat)
    requires w < Power(n)
    ensures Down(w, n) == 0
  {
    if n > 0 { DownAll(w / 2, n - 1); }
  }

  /** Nothing is left of a word after 32 halvings or more. */
  lemma WordGone(w: Word, n: nat)
    requires n >= 32
    ensures Down(w, n) == 0
  {
    Power32();
    DownAll(w, 32);
    DownTwice(w, 32, n - 32);
    DownAll(0, n - 32) by { PowerPositive(n - 32); }
  }

  lemma {:induction false} PowerPositive(n: nat)
    ensures Power(n) > 0
  {
    if n > 0 { PowerPositive(n - 1); }
  }

  /** w ^= w >> n. */
  function Folded(w: Word, n: nat): Word { XorWord(w, Down(w, n)) }

  /** Folding by at least half the width is its own inverse. */
  lemma FoldTwice(w: Word, n: nat)
    requires n >= 16
    ensures Folded(Folded(w, n), n) == w
  {
    var d := Down(w, n);
    DownXor(w, d, n);
    DownTwice(w, n, n);
    WordGone(w, n + n);
    XorZero(d);
    XorTwice(w, d);
  }

  /** Undoes folding by 13. */
  function Unfolded13(w: Word): Word { XorWord(XorWord(w, Down(w, 13)), Down(w, 26)) }

  lemma Fold13Undone(w: Word)
    ensures Unfolded13(Folded(w, 13)) == w && Folded(Unfolded13(w), 13) == w
  {
    var d, e := Down(w, 13), Down(w, 26);
    DownOfFolded(w);
    DownOfUnfolded(w);
    Cancels(w, d, e);
  }

  lemma DownOfFolded(w: Word)
    ensures Down(Xor(w, Down(w, 13)), 13) == Xor(Down(w, 13), Down(w, 26))
    ensures Down(Xor(w, Down(w, 13)), 26) == Down(w, 26)
  {
    var d := Down(w, 13);
    DownXor(w, d, 13);
    DownXor(w, d, 26);
    DownTwice(w, 13, 13);
    DownTwice(w, 13, 26);
    WordGone(w, 39);
    XorZero(Down(w, 26));
  }

  lemma DownOfUnfolded(w: Word)
    ensures Down(Xor(Xor(w, Down(w, 13)), Down(w, 26)), 13) == Xor(Down(w, 13), Down(w, 26))
  {
    var d, e := Down(w, 13), Down(w, 26);
    DownXor(Xor(w, d), e, 13);
    DownOfFolded(w);
    DownTwice(w, 26, 13);
    WordGone(w, 39);
    XorZero(Xor(d, e));
  }

  lemma Cancels(w: nat, d: nat, e: nat)
    ensures Xor(Xor(Xor(w, d), Xor(d, e)), e) == w
    ensures Xor(Xor(Xor(w, d), e), Xor(d, e)) == w
  {
    XorAssociates(w, d, Xor(d, e));
    XorTwice(e, d);
    XorTwice(w, e);
    XorAssociates(Xor(w, d), e, Xor(d, e));
    XorCommutes(d, e);
    XorTwice(d, e);
    XorTwice(w, d);
  }

  // ---------------------------------------------------------------------------
  // Products and rotations
  // ---------------------------------------------------------------------------

  /** Multiples of 2^32 do not count. */
  lemma WrapMultiple(x: int, m: int)
    ensures (x + 0x1_0000_0000 * m) % 0x1_0000_0000 == x % 0x1_0000_0000
  {
    assert (x + 0x1_0000_0000 * m) / 0x1_0000_0000 == x / 0x1_0000_0000 + m;
  }

  /** A constant that has an inverse modulo 2^32. */
  predicate Inverse(c: nat, d: nat) { c * d % 0x1_0000_0000 == 1 }

  lemma MulUndone(w: Word, c: nat, d: nat)
    requires Inverse(c, d)
    ensures Mul(Mul(w, c), d) == w
  {
    var q, e := w * c / 0x1_0000_0000, c * d / 0x1_0000_0000;
    assert Mul(w, c) * d == w * (c * d) - 0x1_0000_0000 * (q * d) by { Regroup(w, c, d, q); }
    assert w * (c * d) == w + 0x1_0000_0000 * (w * e) by { assert c * d == 1 + 0x1_0000_0000 * e; Spread(w, c * d, e); }
    WrapMultiple(w, w * e - q * d);
  }

  lemma Regroup(w: int, c: int, d: int, q: int)
    ensures (w * c - 0x1_0000_0000 * q) * d == w * (c * d) - 0x1_0000_0000 * (q * d)
  {}

  lemma Spread(w: int, p: int, e: int)
    requires p == 1 + 0x1_0000_0000 * e
    ensures w * p == w + 0x1_0000_0000 * (w * e)
  {}

  /** k*low + (k&0xffff)*high, with high the upper half of the constant. */
  function SplitMul(k: Word, low: nat, high: nat): Word { Add(Mul(k, low), Mul(k % 0x10000, high * 0x10000)) }

  /** The two halves make the product with the whole constant. */
  lemma SplitIsWhole(k: Word, low: nat, high: nat)
    ensures SplitMul(k, low, high) == Mul(k, high * 0x10000 + low)
  {
    var x, y, whole := k * low, (k % 0x10000) * (high * 0x10000), k * (high * 0x10000 + low);
    var q := k / 0x10000;
    assert whole == x + y + 0x1_0000_0000 * (q * high) by { Halves(k, q, k % 0x10000, low, high); }
    WrapMultiple(x + y, q * high);
    WrapMultiple(x % 0x1_0000_0000 + y % 0x1_0000_0000, x / 0x1_0000_0000 + y / 0x1_0000_0000);
  }

  lemma Halves(k: int, q: int, r: int, low: int, high: int)
    requires k == 0x10000 * q + r
    ensures k * (high * 0x10000 + low) == k * low + r * (high * 0x10000) + 0x1_0000_0000 * (q * high)
  {
    assert k * (high * 0x10000 + low) == k * low + k * (high * 0x10000);
    assert k * (high * 0x10000) == (0x10000 * q + r) * (high * 0x10000);
  }

  /** bits.RotateLeft32 by 15 and by 13. */
  function Rotated15(w: Word): Word { (w % 0x20000) * 0x8000 + w / 0x20000 }

  function Rotated13(w: Word): Word { (w % 0x80000) * 0x2000 + w / 0x80000 }

  function Back15(w: Word): Word { (w % 0x8000) * 0x20000 + w / 0x8000 }

  function Back13(w: Word): Word { (w % 0x2000) * 0x80000 + w / 0x2000 }

  lemma RotatedBack15(w: Word)
    ensures Back15(Rotated15(w)) == w && Rotated15(Back15(w)) == w
  {
    Turned15(w / 0x20000, w % 0x20000);
    TurnedBack15(w / 0x8000, w % 0x8000);
  }

  lemma Turned15(q: nat, r: nat)
    requires q < 0x8000 && r < 0x20000
    ensures (r * 0x8000 + q) / 0x8000 == r && (r * 0x8000 + q) % 0x8000 == q
  {}

  lemma TurnedBack15(q: nat, r: nat)
    requires q < 0x20000 && r < 0x8000
    ensures (r * 0x20000 + q) / 0x20000 == r && (r * 0x20000 + q) % 0x20000 == q
  {}

  lemma RotatedBack13(w: Word)
    ensures Back13(Rotated13(w)) == w && Rotated13(Back13(w)) == w
  {
    Turned13(w / 0x80000, w % 0x80000);
    TurnedBack13(w / 0x2000, w % 0x2000);
  }

  lemma Turned13(q: nat, r: nat)
    requires q < 0x2000 && r < 0x80000
    ensures (r * 0x2000 + q) / 0x2000 == r && (r * 0x2000 + q) % 0x2000 == q
  {}

  lemma TurnedBack13(q: nat, r: nat)
    requires q < 0x80000 && r < 0x2000
    ensures (r * 0x80000 + q) / 0x80000 == r && (r * 0x80000 + q) % 0x80000 == q
  {}

  // ---------------------------------------------------------------------------
  // What the shifts and turns do to each bit
  // ---------------------------------------------------------------------------

  lemma {:induction false} BitOfSum(x: nat, y: nat, n: nat, i: nat)
    requires y < Power(n)
    ensures Bit(x * Power(n) + y, i) == if i < n then Bit(y, i) else Bit(x, i - n)
    decreases n
  {
    if n > 0 {
      var high := x * Power(n - 1);
      assert x * Power(n) == 2 * high;
      if i > 0 { BitOfSum(x, y / 2, n - 1, i - 1); }
      Halved(high, y);
    }
  }

  lemma Halved(h: nat, y: nat)
    ensures (2 * h + y) / 2 == h + y / 2 && (2 * h + y) % 2 == y % 2
  {}

  /** Every bit moves up by n, and those that leave the word come in at the bottom. */
  ghost predicate IsTurned(r: Word, w: Word, n: nat)
    requires n <= 32
  {
    forall i: nat :: i < 32 ==> Bit(r, i) == if i < n then Bit(w, i + 32 - n) else Bit(w, i - n)
  }

  lemma TurnedBits(w: Word, r: Word, x: nat, y: nat, n: nat)
    requires n <= 32 && x < Power(32 - n) && y < Power(n) && w == y * Power(32 - n) + x && r == x * Power(n) + y
    ensures IsTurned(r, w, n)
  {
    hide Bit, Power;
    forall i: nat | i < 32 ensures Bit(r, i) == if i < n then Bit(w, i + 32 - n) else Bit(w, i - n) {
      BitOfSum(x, y, n, i);
      if i < n { BitOfSum(y, x, 32 - n, i + 32 - n); } else { BitOfSum(y, x, 32 - n, i - n); }
    }
  }

  lemma RotatedBits(w: Word)
    ensures IsTurned(Rotated15(w), w, 15) && IsTurned(Rotated13(w), w, 13)
  {
    hide Power, IsTurned;
    SomePowers();
    TurnedBits(w, Rotated15(w), w % 0x20000, w / 0x20000, 15);
    TurnedBits(w, Rotated13(w), w % 0x80000, w / 0x80000, 13);
  }

  lemma SomePowers()
    ensures Power(13) == 0x2000 && Power(15) == 0x8000 && Power(17) == 0x20000 && Power(19) == 0x80000
  {
    assert Power(6) == 64;
    assert Power(13) == 2 * (Power(6) * Power(6)) by { PowerSum(6, 6); }
    assert Power(15) == 4 * Power(13) && Power(17) == 4 * Power(15) && Power(19) == 4 * Power(17);
  }

  /** Bit i of a folded word is that of the word and that n places higher, added without carry. */
  lemma FoldedBits(w: Word, n: nat, i: nat)
    ensures Bit(Folded(w, n), i) == (Bit(w, i) + Bit(w, i + n)) % 2
  {
    XorIs(w, Down(w, n));
    DownTwice(w, n, i);
  }

  lemma AddUndone(w: Word)
    ensures Add(Add(w, 0xe6546b64), 0x19ab949c) == w && Add(Add(w, 0x19ab949c), 0xe6546b64) == w
  {}
}
