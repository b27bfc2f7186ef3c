/** The bubble level's square root, a binary digit at a time: apps/level.c, lines 81-91. */
module Level {

  const TOP: nat := 0x4000_0000

  ghost predicate IsRoot(r: int, v: int) { 0 <= r && r * r <= v < (r + 1) * (r + 1) }

  lemma RootIsUnique(a: int, b: int, v: int)
    requires IsRoot(a, v) && IsRoot(b, v)
    ensures a == b
  {
    if a < b { Squares(a + 1, b); }
    if b < a { Squares(b + 1, a); }
  }

  lemma Squares(a: int, b: int)
    requires 0 <= a <= b
    ensures a * a <= b * b
  {
    assert b * b - a * a == (b - a) * (b + a);
  }

  /** With the root so far x, a multiple of the digit, and the digit p: r holds 2xp and the remainder
      is v - x * x, so that r + p * p is what adding the digit would take. */
  ghost predicate Digit(v: int, rem: int, r: int, b: int, x: int, p: int) {
    && 0 < p && 0 <= x && b == p * p && r == 2 * x * p
    && rem == v - x * x && 0 <= rem && v < (x + 2 * p) * (x + 2 * p)
  }

  lemma TakeDigit(v: int, rem: int, r: int, b: int, x: int, p: int)
    requires Digit(v, rem, r, b, x, p)
    ensures 0 <= x && 0 < p && rem == v - x * x
    ensures if rem >= r + b then
        rem - (r + b) == v - (x + p) * (x + p) && (x + p) * (x + p) <= v < (x + p + p) * (x + p + p)
      else x * x <= v < (x + p) * (x + p)
    ensures r / 2 == x * p && r / 2 + b == (x + p) * p
  {
    assert (x + p) * (x + p) == x * x + 2 * (x * p) + p * p;
    assert 2 * x * p == 2 * (x * p);
    assert (x + p) * p == x * p + p * p;
    assert x + 2 * p == x + p + p;
  }

  /** On to the next digit, half of this one. */
  lemma Halve(v: int, x: int, p: int, h: int)
    requires 0 < h && p == 2 * h && 0 <= x && x * x <= v < (x + p) * (x + p)
    ensures Digit(v, v - x * x, x * p, h * h, x, h) && p * p / 4 == h * h
  {
    assert x * p == 2 * x * h;
    assert p * p == 4 * (h * h);
    assert x + 2 * h == x + p;
  }

  /** isqrt: the whole part of the square root, for every 32-bit v; 0 for one that is not positive. */
  method Isqrt(value: int) returns (r: int)
    requires value < 0x8000_0000
    ensures value <= 0 ==> r == 0
    ensures value >= 0 ==> IsRoot(r, value)
  {
    hide Digit, Place, IsRoot;
    var v, b := value, TOP;
    r := 0;
    if v <= 0 {
      ZeroIsRoot();
      return;
    }
    ghost var x, p := 0, 0x8000;
    TopIsPlace();
    while b > v
      invariant Place(b, p) && b > 0 && v < 4 * b
      decreases b
    {
      HalfPlace(b, p);
      b, p := b / 4, p / 2;
    }
    FirstDigit(v, b, p);
    while b != 0
      invariant if b == 0 then IsRoot(r, value) else Digit(value, v, r, b, x, p) && Place(b, p)
      invariant 0 <= b
      decreases b
    {
      TakeDigit(value, v, r, b, x, p);
      if v >= r + b {
        v := v - (r + b);
        r := r / 2 + b;
        x := x + p;
      } else {
        r := r / 2;
      }
      NextDigit(value, x, p, b);
      b, p := b / 4, p / 2;
    }
  }

  lemma ZeroIsRoot()
    ensures IsRoot(0, 0)
  {
  }

  /** A power of two. */
  predicate IsPower(p: int)
    decreases if p > 0 then p else 0
  {
    p == 1 || (p > 1 && p % 2 == 0 && IsPower(p / 2))
  }

  /** The digit p and its square. */
  predicate Place(b: int, p: int) { 0 < p && b == p * p && IsPower(p) }

  lemma TopIsPlace()
    ensures Place(TOP, 0x8000)
  {
    assert IsPower(0x10) && IsPower(0x100);
    assert IsPower(0x1000);
  }

  lemma HalfPlace(b: int, p: int)
    requires Place(b, p) && b > 1
    ensures Place(b / 4, p / 2) && 0 < b / 4 && b == 4 * (b / 4)
  {
    var h := p / 2;
    assert p != 1;
    assert b == 4 * (h * h) && h * h >= 1;
  }

  lemma FirstDigit(v: int, b: int, p: int)
    requires Place(b, p) && 0 <= v < 4 * b
    ensures Digit(v, v, 0, b, 0, p)
  {
    assert (2 * p) * (2 * p) == 4 * (p * p);
  }

  lemma NextDigit(v: int, x: int, p: int, b: int)
    requires Place(b, p) && 0 <= x && x * x <= v < (x + p) * (x + p)
    ensures if p == 1 then b / 4 == 0 && IsRoot(x * p, v)
            else b / 4 > 0 && Digit(v, v - x * x, x * p, b / 4, x, p / 2) && Place(b / 4, p / 2)
  {
    if p > 1 {
      assert p * p > 1;
      HalfPlace(b, p);
      Halve(v, x, p, p / 2);
    }
  }
}
