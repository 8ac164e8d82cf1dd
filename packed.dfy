/**
 * The 128-bit packed board word shared by both bitboard games.
 *
 * A board is a `u128`; every cell takes two bits, and cell `k` sits at bit
 * offset `2k`.  A shift by `2k` bits is a multiplication or division by
 * `Pow4(k)`, `&` is the bitwise `And` below and `!` on a `u128` is
 * `Complement`.  The lemmas describe each operation cell by cell, which is
 * all the games need.
 */
module Packed {

  /** 4^n, so that `x << 2n == x * Pow4(n)` and `x >> 2n == x / Pow4(n)`. */
  function Pow4(n: nat): (r: nat)
    ensures r >= 1
  {
    if n == 0 then 1 else 4 * Pow4(n - 1)
  }

  /** Number of two-bit cells in a `u128`. */
  const WordCells: nat := 64

  /** 2^128: every `u128` is below it. */
  const WordBound: nat := 0x1_0000_0000_0000_0000_0000_0000_0000_0000

  /** The cell code at cell index `k`: `3 & (board >> 2k)`, peeled one cell at a time. */
  function Cell(b: nat, k: nat): (c: nat)
    ensures c < 4
    decreases k
  {
    if k == 0 then b % 4 else Cell(b / 4, k - 1)
  }

  /** `board >> 2s`. */
  function Shr(b: nat, s: nat): (r: nat)
    ensures r <= b
  {
    DivNonneg(b, Pow4(s));
    DivAtMost(b, Pow4(s));
    b / Pow4(s)
  }

  /** `v << 2s`. */
  function Shl(v: nat, s: nat): (r: nat)
  {
    MulNonneg(v, Pow4(s));
    v * Pow4(s)
  }

  /** Bitwise AND of two naturals. */
  function And(a: nat, m: nat): nat
    decreases a
  {
    if a == 0 then 0 else 2 * And(a / 2, m / 2) + (if a % 2 == 1 && m % 2 == 1 then 1 else 0)
  }

  /** Bitwise NOT of a `u128`. */
  function Complement(m: nat): nat
    requires m < WordBound
  {
    WordBound - 1 - m
  }

  /** The mask `!(3 << 2k)` that clears cell `k`. */
  function ClearMask(k: nat): nat
    requires k < WordCells
  {
    MaskFits(k);
    Complement(3 * Pow4(k))
  }

  /** `(board & !(3 << 2k)) + ((v as u128) << 2k)`: the word with cell `k` overwritten by `v`. */
  function Put(b: nat, k: nat, v: nat): nat
    requires k < WordCells
  {
    And(b, ClearMask(k)) + Shl(v, k)
  }

  // ---------------------------------------------------------------------------
  // Arithmetic facts

  lemma MulAtLeast(a: int, b: int)
    requires a >= 1 && b > 0
    ensures a * b >= b
  {
    assert a * b == (a - 1) * b + b;
  }

  lemma MulMono(a: int, b: int, c: int)
    requires a <= b && c >= 0
    ensures a * c <= b * c
  {
    assert b * c - a * c == (b - a) * c;
  }

  lemma MulNonneg(a: int, b: int)
    requires a >= 0 && b >= 0
    ensures a * b >= 0
  {
    if a > 0 && b > 0 {
      MulAtLeast(a, b);
    }
  }

  lemma DivNonneg(x: int, d: int)
    requires x >= 0 && d > 0
    ensures x / d >= 0
  {
    var q := x / d;
    assert x == q * d + x % d;
    if q < 0 {
      MulMono(q, -1, d);
    }
  }

  lemma DivAtMost(x: int, d: int)
    requires x >= 0 && d > 0
    ensures x / d <= x
  {
    var q := x / d;
    assert x == q * d + x % d;
    DivNonneg(x, d);
    if q > 0 {
      MulAtLeast(d, q);
      assert q * d == d * q;
    }
  }

  /** Euclidean division is determined by its quotient and remainder. */
  lemma DivModUnique(x: int, d: int, q: int, r: int)
    requires d > 0 && 0 <= r < d && x == q * d + r
    ensures x / d == q && x % d == r
  {
    var q', r' := x / d, x % d;
    assert x == q' * d + r';
    assert (q - q') * d == r' - r;
    if q > q' {
      MulAtLeast(q - q', d);
    } else if q < q' {
      MulAtLeast(q' - q, d);
    }
  }

  /** Two shifts right are one shift by their sum. */
  lemma DivDiv(x: nat, a: nat, c: nat)
    requires a > 0 && c > 0
    ensures x / (a * c) == (x / a) / c
  {
    var q := x / a;
    var r := x % a;
    var q2 := q / c;
    var r2 := q % c;
    var ac := a * c;
    assert x == q * a + r;
    assert q == q2 * c + r2;
    assert q * a == q2 * ac + r2 * a by {
      assert q * a == (q2 * c + r2) * a;
      assert (q2 * c + r2) * a == q2 * c * a + r2 * a;
      assert q2 * c * a == q2 * ac;
    }
    MulMono(r2, c - 1, a);
    assert (c - 1) * a + a == ac;
    DivModUnique(x, ac, q2, r2 * a + r);
  }

  lemma {:induction false} Pow4Add(m: nat, n: nat)
    ensures Pow4(m + n) == Pow4(m) * Pow4(n)
    decreases m
  {
    if m > 0 {
      Pow4Add(m - 1, n);
    }
  }

  lemma {:induction false} Pow4Mono(m: nat, n: nat)
    requires m <= n
    ensures Pow4(m) <= Pow4(n)
    decreases n
  {
    if m < n {
      Pow4Mono(m, n - 1);
    }
  }

  /** Doubling an exponent squares the power. */
  lemma Pow4Double(m: nat, p: nat)
    requires Pow4(m) == p
    ensures Pow4(2 * m) == p * p
  {
    Pow4Add(m, m);
  }

  /** The word bound is 4 to the number of cells. */
  lemma WordBoundCells(n: nat)
    requires n == WordCells
    ensures Pow4(n) == WordBound
  {
    assert Pow4(8) == 0x1_0000;
    Pow4Double(8, 0x1_0000);
    Pow4Double(16, 0x1_0000_0000);
    Pow4Double(32, 0x1_0000_0000_0000_0000);
  }

  lemma MaskFits(k: nat)
    requires k < WordCells
    ensures 3 * Pow4(k) < WordBound
  {
    var n := WordCells;
    Pow4Mono(k + 1, n);
    WordBoundCells(n);
  }

  // ---------------------------------------------------------------------------
  // Cells

  /** `Cell` is the low two bits of the word shifted right by `2k` bits. */
  lemma {:induction false} CellShr(b: nat, k: nat)
    ensures Cell(b, k) == Shr(b, k) % 4
    decreases k
  {
    if k > 0 {
      DivDiv(b, 4, Pow4(k - 1));
      CellShr(b / 4, k - 1);
    }
  }

  /** Shifting right by `2(n + 1)` bits is shifting by `2n` bits and then by two more. */
  lemma ShrStep(b: nat, n: nat)
    ensures Shr(b, n + 1) == Shr(b, n) / 4
  {
    assert Pow4(n + 1) == Pow4(n) * 4;
    DivDiv(b, Pow4(n), 4);
  }

  /** A word below `4^n` has no piece at cell `n` or beyond. */
  lemma {:induction false} CellAbove(b: nat, n: nat, k: nat)
    requires b < Pow4(n) && n <= k
    ensures Cell(b, k) == 0
    decreases k
  {
    if k > 0 {
      CellAbove(b / 4, if n > 0 then n - 1 else 0, k - 1);
    }
  }

  /** A word is determined by its cells. */
  lemma {:induction false} CellsEqual(a: nat, c: nat)
    requires forall k: nat :: Cell(a, k) == Cell(c, k)
    ensures a == c
    decreases a + c
  {
    assert a % 4 == Cell(a, 0) == Cell(c, 0) == c % 4;
    if a + c > 0 {
      forall k: nat
        ensures Cell(a / 4, k) == Cell(c / 4, k)
      {
        assert Cell(a, k + 1) == Cell(c, k + 1);
      }
      CellsEqual(a / 4, c / 4);
    }
  }

  /** A word whose cells from `n` up are all empty is below `4^n`. */
  lemma {:induction false} BelowFromCells(b: nat, n: nat)
    requires forall k: nat | n <= k :: Cell(b, k) == 0
    ensures b < Pow4(n)
    decreases n
  {
    if n == 0 {
      forall k: nat
        ensures Cell(b, k) == Cell(0, k)
      {
        CellOfDigit(0, k);
      }
      CellsEqual(b, 0);
    } else {
      forall k: nat | n - 1 <= k
        ensures Cell(b / 4, k) == 0
      {
        assert Cell(b, k + 1) == 0;
      }
      BelowFromCells(b / 4, n - 1);
    }
  }

  /** Cell `k` of `b * 4^s` is cell `k - s` of `b`: a left shift by `2s` bits. */
  lemma {:induction false} CellShiftUp(b: nat, s: nat, k: nat)
    ensures Cell(Shl(b, s), k) == if k < s then 0 else Cell(b, k - s)
    decreases s
  {
    if s > 0 {
      var x := Shl(b, s - 1);
      assert Shl(b, s) == 4 * x;
      if k > 0 {
        assert (4 * x) / 4 == x;
        CellShiftUp(b, s - 1, k - 1);
      }
    }
  }

  /** Cell `k` of `b >> 2s` is cell `k + s` of `b`. */
  lemma {:induction false} CellShiftDown(b: nat, s: nat, k: nat)
    ensures Cell(Shr(b, s), k) == Cell(b, k + s)
    decreases s
  {
    if s > 0 {
      var p := Pow4(s - 1);
      assert Pow4(s) == 4 * p;
      DivDiv(b, 4, p);
      assert Shr(b, s) == Shr(b / 4, s - 1);
      CellShiftDown(b / 4, s - 1, k);
    }
  }

  /** A small constant occupies cell 0 only. */
  lemma CellOfDigit(v: nat, k: nat)
    requires v < 4
    ensures Cell(v, k) == if k == 0 then v else 0
  {
    if k > 0 {
      CellAbove(v, 1, k);
    }
  }

  /** Adding two words whose cells never sum past 3 adds them cell by cell. */
  lemma {:induction false} CellAdd(a: nat, c: nat, k: nat)
    requires forall j | 0 <= j <= k :: Cell(a, j) + Cell(c, j) < 4
    ensures Cell(a + c, k) == Cell(a, k) + Cell(c, k)
    decreases k
  {
    assert a % 4 + c % 4 == Cell(a, 0) + Cell(c, 0) < 4;
    DivModUnique(a + c, 4, a / 4 + c / 4, a % 4 + c % 4);
    if k > 0 {
      forall j | 0 <= j <= k - 1
        ensures Cell(a / 4, j) + Cell(c / 4, j) < 4
      {
        assert Cell(a, j + 1) + Cell(c, j + 1) < 4;
      }
      CellAdd(a / 4, c / 4, k - 1);
    }
  }

  /** Subtracting from the all-ones word complements every cell. */
  lemma {:induction false} CellComplementOf(a: nat, n: nat, k: nat)
    requires a < Pow4(n) && k < n
    ensures Cell(Pow4(n) - 1 - a, k) == 3 - Cell(a, k)
    decreases n
  {
    var x := Pow4(n) - 1 - a;
    var p := Pow4(n - 1);
    assert Pow4(n) == 4 * p;
    var q, r := a / 4, a % 4;
    assert a == 4 * q + r;
    assert q < p;
    assert x == 4 * (p - 1 - q) + (3 - r);
    DivModUnique(x, 4, p - 1 - q, 3 - r);
    if k > 0 {
      CellComplementOf(q, n - 1, k - 1);
    }
  }

  // ---------------------------------------------------------------------------
  // Bitwise AND

  /** `a & m` is at most `a` and at most `m`. */
  lemma {:induction false} AndAtMost(a: nat, m: nat)
    ensures And(a, m) <= a && And(a, m) <= m
    decreases a
  {
    if a > 0 {
      AndAtMost(a / 2, m / 2);
    }
  }

  /** AND on one cell: a cell ANDed with 3 is kept, with 0 it is cleared. */
  lemma AndDigit(d: nat, e: nat)
    requires d < 4 && (e == 0 || e == 3)
    ensures And(d, e) == if e == 3 then d else 0
  {
    assert And(d / 2, e / 2) == if e == 3 then d / 2 else 0;
  }

  /** Splitting off the two low bits of a number one bit at a time. */
  lemma Quarter(a: nat)
    ensures a / 4 == (a / 2) / 2
    ensures (a % 4) / 2 == (a / 2) % 2 && (a % 4) % 2 == a % 2
  {
    var q, r := a / 2, a % 2;
    assert a == 4 * (q / 2) + (2 * (q % 2) + r);
    DivModUnique(a, 4, q / 2, 2 * (q % 2) + r);
    DivModUnique(a % 4, 2, q % 2, r);
  }

  /** The low cell of an AND is the AND of the low cells; the rest is the AND of the rest. */
  lemma AndBase4(a: nat, m: nat)
    ensures And(a, m) == 4 * And(a / 4, m / 4) + And(a % 4, m % 4)
    ensures And(a % 4, m % 4) < 4
  {
    Quarter(a);
    Quarter(m);
    if a > 0 {
      assert And(a / 2, m / 2) == 2 * And(a / 4, m / 4) + And((a / 2) % 2, (m / 2) % 2);
    }
    AndAtMost(a % 4, m % 4);
  }

  /** Every cell of `a & m` is the AND of the two cells. */
  lemma {:induction false} CellAnd(a: nat, m: nat, k: nat)
    ensures Cell(And(a, m), k) == And(Cell(a, k), Cell(m, k))
    decreases k
  {
    AndBase4(a, m);
    var r := And(a, m);
    DivModUnique(r, 4, And(a / 4, m / 4), And(a % 4, m % 4));
    if k > 0 {
      CellAnd(a / 4, m / 4, k - 1);
    }
  }

  // ---------------------------------------------------------------------------
  // Overwriting one cell

  /** The mask `!(3 << 2k)` has every cell set except cell `k`. */
  lemma CellOfClearMask(k: nat, j: nat)
    requires k < WordCells && j < WordCells
    ensures Cell(ClearMask(k), j) == if j == k then 0 else 3
  {
    MaskFits(k);
    var n := WordCells;
    WordBoundCells(n);
    CellComplementOf(3 * Pow4(k), n, j);
    CellShiftUp(3, k, j);
    if j >= k {
      CellOfDigit(3, j - k);
    }
  }

  /** Clearing cell `k` leaves every other cell as it was. */
  lemma ClearedCell(b: nat, k: nat, j: nat)
    requires b < WordBound && k < WordCells
    ensures Cell(And(b, ClearMask(k)), j) == if j == k then 0 else Cell(b, j)
  {
    if j < WordCells {
      CellAnd(b, ClearMask(k), j);
      CellOfClearMask(k, j);
      AndDigit(Cell(b, j), Cell(ClearMask(k), j));
    } else {
      AndAtMost(b, ClearMask(k));
      var n := WordCells;
      WordBoundCells(n);
      CellAbove(And(b, ClearMask(k)), n, j);
      CellAbove(b, n, j);
    }
  }

  /** `v << 2k` holds `v` in cell `k` and nothing elsewhere. */
  lemma PlacedCell(v: nat, k: nat, j: nat)
    requires v < 4
    ensures Cell(Shl(v, k), j) == if j == k then v else 0
  {
    CellShiftUp(v, k, j);
    if j >= k {
      CellOfDigit(v, j - k);
    }
  }

  /** `Put` is the cleared word plus the shifted code. */
  lemma PutSplit(b: nat, k: nat, v: nat)
    requires k < WordCells
    ensures Put(b, k, v) == And(b, ClearMask(k)) + Shl(v, k)
  {
  }

  /** The cleared word and the shifted code never overlap, so adding them adds cell by cell. */
  lemma PutNoCarry(b: nat, k: nat, v: nat, j: nat)
    requires b < WordBound && k < WordCells && v < 4
    ensures Cell(And(b, ClearMask(k)) + Shl(v, k), j) == Cell(And(b, ClearMask(k)), j) + Cell(Shl(v, k), j)
  {
    forall i | 0 <= i <= j
      ensures Cell(And(b, ClearMask(k)), i) + Cell(Shl(v, k), i) < 4
    {
      ClearedCell(b, k, i);
      PlacedCell(v, k, i);
    }
    CellAdd(And(b, ClearMask(k)), Shl(v, k), j);
  }

  /** Cell `j` of a word written with `Put`. */
  lemma PutCellAt(b: nat, k: nat, v: nat, j: nat)
    requires b < WordBound && k < WordCells && v < 4
    ensures Cell(Put(b, k, v), j) == if j == k then v else Cell(b, j)
  {
    PutSplit(b, k, v);
    PutNoCarry(b, k, v, j);
    ClearedCell(b, k, j);
    PlacedCell(v, k, j);
  }

  /** The cells of a word written with `Put`. */
  lemma PutCells(b: nat, k: nat, v: nat)
    requires b < WordBound && k < WordCells && v < 4
    ensures forall j: nat :: Cell(Put(b, k, v), j) == if j == k then v else Cell(b, j)
  {
    forall j: nat
      ensures Cell(Put(b, k, v), j) == if j == k then v else Cell(b, j)
    {
      PutCellAt(b, k, v, j);
    }
  }

  /** Writing a two-bit code into a `u128` cannot overflow it. */
  lemma PutBound(b: nat, k: nat, v: nat)
    requires b < WordBound && k < WordCells && v < 4
    ensures Put(b, k, v) < WordBound
  {
    var n := WordCells;
    WordBoundCells(n);
    forall j: nat | n <= j
      ensures Cell(Put(b, k, v), j) == 0
    {
      PutCellAt(b, k, v, j);
      CellAbove(b, n, j);
    }
    BelowFromCells(Put(b, k, v), n);
  }

  /**
   * Writing `v < 4` into cell `k` of a `u128` sets that cell to `v`, leaves every
   * other cell as it was, and cannot overflow the word.
   */
  lemma PutCell(b: nat, k: nat, v: nat)
    requires b < WordBound && k < WordCells && v < 4
    ensures Put(b, k, v) < WordBound
    ensures forall j: nat :: Cell(Put(b, k, v), j) == if j == k then v else Cell(b, j)
  {
    PutCells(b, k, v);
    PutBound(b, k, v);
  }

  /** Putting back the code a cell had before undoes a write to that cell. */
  lemma PutRestore(b: nat, k: nat, v: nat)
    requires b < WordBound && k < WordCells && v < 4
    ensures Put(Put(b, k, v), k, Cell(b, k)) == b
  {
    PutCell(b, k, v);
    var b1 := Put(b, k, v);
    PutCell(b1, k, Cell(b, k));
    CellsEqual(Put(b1, k, Cell(b, k)), b);
  }
}
