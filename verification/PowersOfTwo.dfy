/** Powers of two, their multiples, and what is odd: the arithmetic of a 16-bit counter that
    grows in equal steps. */
module PowersOfTwo {
  import opened PageSplit

  function Pow2(e: nat): (p: nat)
    ensures p >= 1
  {
    if e == 0 then 1 else 2 * Pow2(e - 1)
  }

  lemma Double(q: int, r: int, p: nat)
    requires q == 2 * r
    ensures q * p == r * (2 * p)
  {}

  lemma DoublePower(k: nat, q: int, m: nat, t: int, p: nat) returns (l: nat, r: int)
    requires m % 2 == 1 && k * m == t + q * p
    ensures l * m == t + r * (2 * p)
  {
    if q % 2 == 0 {
      l, r := k, q / 2;
      Double(q, r, p);
    } else {
      l, r := k + p, (q + m) / 2;
      Double(q + m, r, p);
      assert (k + p) * m == k * m + p * m;
      assert (q + m) * p == q * p + m * p;
    }
  }

  /** Multiples of an odd number reach everything modulo a power of two: where half the power
      leaves a remainder, as many more make it even. */
  lemma {:induction false} OddReaches(m: nat, t: int, e: nat) returns (k: nat, q: int)
    requires m % 2 == 1
    ensures k * m == t + q * Pow2(e)
  {
    if e == 0 {
      k, q := 0, -t;
    } else {
      k, q := OddReaches(m, t, e - 1);
      k, q := DoublePower(k, q, m, t, Pow2(e - 1));
    }
  }

  /** The power of two that fills the counter with multiples of `g`. */
  lemma FillsCounter(g: nat) returns (e: nat)
    requires g in {1, 2, 4, 8, 16, 32, 64, 128}
    ensures g * Pow2(e) == EEPROM_SIZE
  {
    assert Pow2(9) == 512 by { assert Pow2(5) == 32; }
    assert Pow2(13) == 0x2000;
    assert Pow2(16) == 0x1_0000;
    e := if g == 1 then 16 else if g == 2 then 15 else if g == 4 then 14 else if g == 8 then 13
    else if g == 16 then 12 else if g == 32 then 11 else if g == 64 then 10 else 9;
  }

  /** The greatest power of two that divides `w`, for `w` up to a page. */
  function TwoPart(w: nat): (g: nat)
    requires 1 <= w <= EEPROM_PAGE_SIZE
    ensures 1 <= g <= w
    ensures g in {1, 2, 4, 8, 16, 32, 64, 128}
  {
    if w % 128 == 0 then 128
    else if w % 64 == 0 then 64
    else if w % 32 == 0 then 32
    else if w % 16 == 0 then 16
    else if w % 8 == 0 then 8
    else if w % 4 == 0 then 4
    else if w % 2 == 0 then 2
    else 1
  }

  lemma OddPart(w: nat, g: nat)
    requires g >= 1 && w % g == 0 && w % (2 * g) != 0
    ensures w / g % 2 == 1
  {
    var q := w / g;
    assert w == q * g;
    if q % 2 == 0 {
      Double(q, q / 2, g);
      MultipleMod(q / 2, 2 * g);
    }
  }

  lemma TwoPartDivides(w: nat)
    requires 1 <= w <= EEPROM_PAGE_SIZE
    ensures w % TwoPart(w) == 0 && w / TwoPart(w) % 2 == 1
  {
    var g := TwoPart(w);
    if g < 128 {
      assert w % (2 * g) != 0;
      OddPart(w, g);
    }
  }

  lemma EvenFactor(m: nat, q: nat, p: nat)
    requires m % 2 == 1 && m * q == 2 * p
    ensures m * (q / 2) == p
  {
    var i, j := m / 2, q / 2;
    assert m * q == m * (2 * j) + m * (q % 2);
    assert m * (2 * j) == 2 * (m * j);
  }

  lemma {:induction false} OddFactor(m: nat, q: nat, e: nat)
    requires m % 2 == 1 && m * q == Pow2(e)
    ensures m == 1
  {
    if e == 0 {
      if m > 1 {
        MulUp(2, m - 2, q);
      }
    } else {
      EvenFactor(m, q, Pow2(e - 1));
      OddFactor(m, q / 2, e - 1);
    }
  }

  lemma PageIsPower()
    ensures Pow2(7) == EEPROM_PAGE_SIZE
  {
    assert Pow2(4) == 16;
  }

  lemma DivisorIsTwoPart(w: nat)
    requires 1 <= w <= EEPROM_PAGE_SIZE && EEPROM_PAGE_SIZE % w == 0
    ensures TwoPart(w) == w
  {
    hide TwoPart, Pow2;
    TwoPartDivides(w);
    PageIsPower();
    var g, h := TwoPart(w), EEPROM_PAGE_SIZE / w;
    var m := w / g;
    assert m * (g * h) == EEPROM_PAGE_SIZE by {
      assert w == m * g && EEPROM_PAGE_SIZE == w * h;
    }
    OddFactor(m, g * h, 7);
  }

  lemma SumDivides(a: nat, b: nat, g: nat)
    requires g >= 1 && a % g == 0 && b % g == 0
    ensures (a + b) % g == 0
  {
    assert a == a / g * g && b == b / g * g;
    assert a + b == (a / g + b / g) * g;
    MultipleMod(a / g + b / g, g);
  }

  lemma DifferenceDivides(a: nat, b: nat, g: nat)
    requires g >= 1 && a % g == 0 && b % g == 0 && b <= a
    ensures (a - b) % g == 0
  {
    var p, j, d := a / g, b / g, (a - b) / g;
    assert a == p * g && b == j * g && a - b == d * g + (a - b) % g;
    assert (d + j) * g == d * g + j * g;
    if (a - b) % g > 0 {
      NextMultiple(d + j, p, g);
    }
  }

  lemma BackFrom(a: nat, pages: nat, w: nat, g: nat)
    requires g in {1, 2, 4, 8, 16, 32, 64, 128} && w % g == 0 && a + w == EEPROM_PAGE_SIZE * pages
    ensures a % g == 0
  {
    var h := EEPROM_PAGE_SIZE / g;
    assert EEPROM_PAGE_SIZE == h * g;
    assert pages * (h * g) == pages * h * g;
    MultipleMod(pages * h, g);
    DifferenceDivides(EEPROM_PAGE_SIZE * pages, w, g);
  }

  lemma Scale(k: nat, g: nat, m: nat, t: nat, q: int, p: nat)
    requires k * m == t + q * p
    ensures k * (g * m) == g * t + q * (g * p)
  {
    assert k * (g * m) == g * (k * m);
    assert g * (t + q * p) == g * t + g * (q * p);
    assert g * (q * p) == q * (g * p);
  }

  lemma WholeRounds(n: nat, q: int, r: nat)
    requires n == r + q * EEPROM_SIZE && r < EEPROM_SIZE
    ensures n % 0x1_0000 == r
  {}
}
