/**
 The order in which the compatibility set visits the slots of its table.

 A table has `cap` slots, `cap` a power of two, and `mask == cap - 1`; for such a mask
 `x & mask` is `x % cap` and `x >> 5` is `x / 32` (both floor, also for negative `x`).
 Probe step `n` starts at `Head(h, cap, n)`; when nine more slots fit behind the head, the
 step goes on through them.  `At(h, cap, n, j)` is the `j`th slot that step `n` visits (a head
 without a linear run counts ten times).
 */
module ProbePath {

  const LINEAR_PROBES := 9
  const PERTURB_DIVISOR := 32

  // ---------- the path ----------

  function Perturb(h: int, n: nat): int {
    if n == 0 then h else Perturb(h, n - 1) / PERTURB_DIVISOR
  }

  function Head(h: int, cap: nat, n: nat): (i: nat)
    requires 0 < cap
    ensures i < cap
  {
    if n == 0 then h % cap else NextHead(Head(h, cap, n - 1), Perturb(h, n), cap)
  }

  function NextHead(i: int, perturb: int, cap: nat): (r: nat)
    requires 0 < cap
    ensures r < cap
  {
    (i * 5 + 1 + perturb) % cap
  }

  function At(h: int, cap: nat, n: nat, j: nat): (s: nat)
    requires 0 < cap && j <= LINEAR_PROBES
    ensures s < cap
  {
    var i := Head(h, cap, n);
    if i + LINEAR_PROBES < cap then i + j else i
  }

  /** Visit `(m, i)` comes before visit `(n, j)`. */
  ghost predicate Before(m: nat, i: nat, n: nat, j: nat) {
    m < n || (m == n && i < j)
  }

  // ---------- powers of two ----------

  function Pow2(k: nat): (p: nat)
    ensures 0 < p
  {
    if k == 0 then 1 else 2 * Pow2(k - 1)
  }

  ghost predicate IsPow2(p: int) {
    exists k: nat :: p == Pow2(k)
  }

  // ---------- the map i -> 5i + 1 is one cycle modulo every power of two ----------

  /** `n` applications of `x -> 5x + 1`, without reduction. */
  ghost function Iter(x: nat, n: nat): nat {
    if n == 0 then x else 5 * Iter(x, n - 1) + 1
  }

  lemma {:induction false} IterFromZero(x: nat, n: nat)
    ensures Iter(x, n) == x + Iter(0, n) * (4 * x + 1)
  {
    if n == 0 {
    } else {
      IterFromZero(x, n - 1);
      var s, y := Iter(0, n - 1), 4 * x + 1;
      assert (5 * s + 1) * y == 5 * (s * y) + y;
    }
  }

  lemma {:induction false} IterSum(x: nat, m: nat, n: nat)
    ensures Iter(Iter(x, m), n) == Iter(x, m + n)
  {
    if n == 0 {
    } else {
      IterSum(x, m, n - 1);
    }
  }

  /** The first `2^k` iterations from zero add up to `2^k` times an odd number. */
  lemma {:induction false} IterPow2(k: nat) returns (odd: nat)
    ensures Iter(0, Pow2(k)) == Pow2(k) * (2 * odd + 1)
  {
    if k == 0 {
      assert Iter(0, 1) == 5 * Iter(0, 0) + 1;
      odd := 0;
    } else {
      var p := Pow2(k - 1);
      var a := IterPow2(k - 1);
      var s := Iter(0, p);
      IterSum(0, p, p);
      IterFromZero(s, p);
      odd := DoubledOdd(p, a, s);
    }
  }

  lemma DoubledOdd(p: nat, a: nat, s: nat) returns (odd: nat)
    requires s == p * (2 * a + 1)
    ensures s + s * (4 * s + 1) == (2 * p) * (2 * odd + 1)
  {
    odd := OddMultiple(p, a, s);
    assert s * (2 * s + 1) == odd * (2 * p) + p;
    assert s + s * (4 * s + 1) == 2 * (s * (2 * s + 1));
    assert (2 * p) * (2 * odd + 1) == 2 * (odd * (2 * p) + p);
  }

  /** An odd multiple of `p`, times an odd number, is an odd multiple of `p`. */
  lemma OddMultiple(p: nat, a: nat, b: nat) returns (c: nat)
    ensures (p * (2 * a + 1)) * (2 * b + 1) == c * (2 * p) + p
  {
    c := 2 * b * a + b + a;
    calc {
      (p * (2 * a + 1)) * (2 * b + 1);
      p * ((2 * a + 1) * (2 * b + 1));
      { assert (2 * a + 1) * (2 * b + 1) == 2 * c + 1; }
      p * (2 * c + 1);
      c * (2 * p) + p;
    }
  }

  lemma ModUnique(x: int, q: int, m: int, r: int)
    requires 0 < m && 0 <= r < m
    requires x == q * m + r
    ensures x % m == r
  {
    var d := x / m - q;
    assert x == (x / m) * m + x % m;
    assert d * m == r - x % m;
    assert d >= 1 ==> d * m >= m;
    assert d <= -1 ==> d * m <= -m;
  }

  lemma ModAddMultiple(x: int, c: int, m: int)
    requires 0 < m
    ensures (x + c * m) % m == x % m
  {
    var q := x / m;
    assert x == q * m + x % m;
    assert (q + c) * m == q * m + c * m;
    ModUnique(x + c * m, q + c, m, x % m);
  }

  /** `2^k` further iterations change the residue modulo `2^(k+1)` and only by `2^k`. */
  lemma HalfTurn(x: nat, k: nat)
    ensures Iter(x, Pow2(k)) % Pow2(k + 1) == (x + Pow2(k)) % Pow2(k + 1)
  {
    var p := Pow2(k);
    var a := IterPow2(k);
    IterFromZero(x, p);
    var c := OddMultiple(p, a, 2 * x);
    ModAddMultiple(x + p, c, 2 * p);
  }

  lemma ModHalves(x: nat, p: nat)
    requires 0 < p
    ensures x % (2 * p) == x % p || x % (2 * p) == x % p + p
  {
    var q, r := x / (2 * p), x % (2 * p);
    assert x == q * (2 * p) + r;
    assert q * (2 * p) == (2 * q) * p;
    if r < p {
      ModUnique(x, 2 * q, p, r);
    } else {
      assert (2 * q + 1) * p == (2 * q) * p + p;
      ModUnique(x, 2 * q + 1, p, r - p);
    }
  }

  lemma {:induction false} SingleCycle(k: nat, x: nat, target: nat) returns (n: nat)
    requires target < Pow2(k)
    ensures Iter(x, n) % Pow2(k) == target
  {
    if k == 0 {
      n := 0;
    } else {
      var p := Pow2(k - 1);
      var low := if target < p then target else target - p;
      n := SingleCycle(k - 1, x, low);
      var y := Iter(x, n);
      ModHalves(y, p);
      if y % (2 * p) != target {
        HalfTurn(y, k - 1);
        IterSum(x, n, p);
        n := n + p;
        AddHalf(y, p, target);
      }
    }
  }

  lemma AddHalf(y: nat, p: nat, target: nat)
    requires 0 < p && target < 2 * p
    requires y % (2 * p) == target + p || y % (2 * p) == target - p
    ensures (y + p) % (2 * p) == target
  {
    var q, r := y / (2 * p), y % (2 * p);
    assert y == q * (2 * p) + r;
    if r == target + p {
      assert (q + 1) * (2 * p) == q * (2 * p) + 2 * p;
      ModUnique(y + p, q + 1, 2 * p, target);
    } else {
      ModUnique(y + p, q, 2 * p, target);
    }
  }

  // ---------- the order of visits ----------

  lemma SmallMultiple(d: int, m: int, x: int)
    requires 0 < d && -d < x < d && d * m == x
    ensures m == 0
  {
    assert m >= 1 ==> d * m >= d;
    assert m <= -1 ==> d * m <= -d;
  }

  lemma QuotientIs(x: int, d: nat, q: int, r: int)
    requires 0 < d && 0 <= r < d && x == d * q + r
    ensures x / d == q
  {
    var q' := x / d;
    assert x == d * q' + x % d;
    SmallMultiple(d, q - q', x % d - r);
  }

  lemma TwoRemainders(a: nat, b: nat, p: int, s: nat, r: nat)
    requires s < b && r < a
    ensures a * (b * p + s) + r == (a * b) * p + (a * s + r)
    ensures 0 <= a * s + r < a * b
  {
    assert a * (b * p + s) == a * (b * p) + a * s;
    assert a * (b * p) == (a * b) * p;
    assert a * s <= a * (b - 1) == a * b - a;
  }

  lemma DivideTwice(x: int, a: nat, b: nat)
    requires 0 < a && 0 < b
    ensures (x / a) / b == x / (a * b)
  {
    var q, r := x / a, x % a;
    var p, s := q / b, q % b;
    assert x == a * q + r && q == b * p + s;
    TwoRemainders(a, b, p, s, r);
    QuotientIs(x, a * b, p, a * s + r);
  }

  /** The perturbation of step `n` is the hash shifted right by `5n` bits. */
  lemma {:induction false} PerturbIsShift(h: int, n: nat)
    ensures Perturb(h, n) == h / Pow2(5 * n)
  {
    if n == 0 {
    } else {
      PerturbIsShift(h, n - 1);
      var m := 5 * (n - 1);
      assert Pow2(m + 5) == Pow2(m) * 32 by {
        assert Pow2(m + 5) == 2 * Pow2(m + 4) && Pow2(m + 4) == 2 * Pow2(m + 3);
        assert Pow2(m + 3) == 2 * Pow2(m + 2) && Pow2(m + 2) == 2 * Pow2(m + 1);
      }
      DivideTwice(h, Pow2(m), 32);
      assert 5 * n == m + 5;
    }
  }

  /** The order in which slots are visited: a head, the nine slots behind it if they fit, then
      the next head. */
  lemma VisitOrder(h: int, cap: nat, n: nat, j: nat)
    requires 0 < cap && j <= 9
    ensures Head(h, cap, 0) == h % cap
    ensures Head(h, cap, n + 1) == (Head(h, cap, n) * 5 + 1 + h / Pow2(5 * (n + 1))) % cap
    ensures At(h, cap, n, j) == if Head(h, cap, n) + 9 <= cap - 1 then Head(h, cap, n) + j else Head(h, cap, n)
  {
    PerturbIsShift(h, n + 1);
  }

  // ---------- a non-negative hash reaches every slot, and keeps reaching it ----------

  /** For a non-negative hash the perturbation is used up after finitely many steps. */
  lemma {:induction false} PerturbVanishes(h: nat, n: nat)
    ensures 0 <= Perturb(h, n)
    ensures h <= n ==> Perturb(h, n) == 0
    ensures Perturb(h, n) + n <= h || Perturb(h, n) == 0
  {
    if n == 0 {
    } else {
      PerturbVanishes(h, n - 1);
    }
  }

  /** A probe step can be taken before or after reduction. */
  lemma ModStep(x: int, p: int, cap: nat)
    requires 0 < cap
    ensures NextHead(x % cap, p, cap) == (5 * x + 1 + p) % cap
  {
    var q, r := x / cap, x % cap;
    assert x == q * cap + r;
    assert 5 * x + 1 + p == (5 * r + 1 + p) + (5 * q) * cap;
    ModAddMultiple(5 * r + 1 + p, 5 * q, cap);
  }

  lemma {:induction false} UnperturbedHeads(h: nat, cap: nat, from: nat, m: nat)
    requires 0 < cap && h <= from
    ensures Head(h, cap, from + m) == Iter(Head(h, cap, from), m) % cap
  {
    var x := Head(h, cap, from);
    if m == 0 {
      ModUnique(x, 0, cap, x);
    } else {
      UnperturbedHeads(h, cap, from, m - 1);
      PerturbVanishes(h, from + m);
      calc {
        Head(h, cap, from + m);
        NextHead(Head(h, cap, from + m - 1), 0, cap);
        NextHead(Iter(x, m - 1) % cap, 0, cap);
        { ModStep(Iter(x, m - 1), 0, cap); }
        (5 * Iter(x, m - 1) + 1) % cap;
      }
    }
  }

  /** Every slot is the head of some probe step, however many steps are skipped first. */
  lemma HeadReaches(h: nat, k: nat, slot: nat, skip: nat) returns (n: nat)
    requires slot < Pow2(k)
    ensures skip <= n && Head(h, Pow2(k), n) == slot
  {
    var from := h + skip;
    var m := SingleCycle(k, Head(h, Pow2(k), from), slot);
    UnperturbedHeads(h, Pow2(k), from, m);
    n := from + m;
  }

  // ---------- a negative hash does not ----------

  ghost predicate Visits(h: int, cap: nat, slot: nat)
    requires 0 < cap
  {
    exists n: nat, j: nat :: j <= LINEAR_PROBES && At(h, cap, n, j) == slot
  }

  /** In tables of every size the path of this hash meets every slot, so that a lookup ends
      whichever slot is the empty one. */
  ghost predicate MeetsEverySlot(h: int) {
    forall k: nat, slot: nat :: 3 <= k && slot < Pow2(k) ==> Visits(h, Pow2(k), slot)
  }

  /** For a negative hash the perturbation settles at -1. */
  lemma {:induction false} PerturbSettles(h: int, n: nat)
    requires h < 0
    ensures Perturb(h, n) <= -1
    ensures -h <= n ==> Perturb(h, n) == -1
    ensures Perturb(h, n) - n >= h || Perturb(h, n) == -1
  {
    if n == 0 {
    } else {
      PerturbSettles(h, n - 1);
    }
  }

  /** The heads before reduction. */
  ghost function Unreduced(h: int, n: nat): int {
    if n == 0 then h else 5 * Unreduced(h, n - 1) + 1 + Perturb(h, n)
  }

  lemma {:induction false} HeadIsUnreduced(h: int, cap: nat, n: nat)
    requires 0 < cap
    ensures Head(h, cap, n) == Unreduced(h, n) % cap
  {
    if n == 0 {
    } else {
      HeadIsUnreduced(h, cap, n - 1);
      ModStep(Unreduced(h, n - 1), Perturb(h, n), cap);
    }
  }

  /** Unreduced heads of a negative hash only ever fall. */
  lemma {:induction false} UnreducedFalls(h: int, m: nat, n: nat)
    requires h < 0 && m <= n
    ensures Unreduced(h, n) <= Unreduced(h, m) < 0
    decreases n
  {
    if n == 0 {
    } else if m == n {
      UnreducedFalls(h, n - 1, n - 1);
      PerturbSettles(h, n);
    } else {
      UnreducedFalls(h, m, n - 1);
      PerturbSettles(h, n);
    }
  }

  lemma {:induction false} Pow2Exceeds(n: nat)
    ensures Pow2(n) > n
  {
    if n == 0 {
    } else {
      Pow2Exceeds(n - 1);
    }
  }

  lemma TwiceMultiple(q: int, p: int)
    ensures q * (2 * p) == 2 * (q * p)
  {
  }

  lemma FiveTimesEven(x: int, m: int)
    requires 5 * x == 2 * m
    ensures x == 2 * (x / 2) && 5 * (x / 2) == m
  {
  }

  /** Five times a residue is zero only for zero, modulo a power of two. */
  lemma {:induction false} FiveIsInvertible(x: int, k: nat)
    requires (5 * x) % Pow2(k) == 0
    ensures x % Pow2(k) == 0
    decreases k
  {
    if k == 0 {
    } else {
      var p := Pow2(k - 1);
      var q := (5 * x) / (2 * p);
      assert 5 * x == q * (2 * p);
      TwiceMultiple(q, p);
      FiveTimesEven(x, q * p);
      var half := x / 2;
      ModUnique(5 * half, q, p, 0);
      FiveIsInvertible(half, k - 1);
      var c := half / p;
      assert half == c * p;
      TwiceMultiple(c, p);
      ModUnique(x, c, 2 * p, 0);
    }
  }

  lemma SmallNegativeIsNotZero(x: int, m: int)
    requires 0 < -x < m
    ensures x % m != 0
  {
    assert x == (-1) * m + (x + m);
    ModUnique(x, -1, m, x + m);
  }

  /** In a table large enough for the first heads, no head of a negative hash is slot 0. */
  lemma {:induction false} SlotZeroIsNeverHead(h: int, k: nat, n: nat)
    requires h < 0 && Pow2(k) > -Unreduced(h, -h)
    ensures Head(h, Pow2(k), n) != 0
  {
    HeadIsUnreduced(h, Pow2(k), n);
    if n <= -h {
      UnreducedFalls(h, n, -h);
      SmallNegativeIsNotZero(Unreduced(h, n), Pow2(k));
    } else {
      SlotZeroIsNeverHead(h, k, n - 1);
      HeadIsUnreduced(h, Pow2(k), n - 1);
      PerturbSettles(h, n);
      var x := Unreduced(h, n - 1);
      assert Unreduced(h, n) == 5 * x;
      if (5 * x) % Pow2(k) == 0 {
        FiveIsInvertible(x, k);
      }
    }
  }

  /** Probing meets every slot of every table if and only if the hash is not negative. */
  lemma MeetsEverySlotIffNonNegative(h: int)
    ensures MeetsEverySlot(h) <==> h >= 0
  {
    if h >= 0 {
      forall k: nat, slot: nat | 3 <= k && slot < Pow2(k)
        ensures Visits(h, Pow2(k), slot)
      {
        var n := HeadReaches(h, k, slot, 0);
        assert At(h, Pow2(k), n, 0) == slot;
      }
    } else {
      var k := 3 - Unreduced(h, -h);
      UnreducedFalls(h, -h, -h);
      Pow2Exceeds(k);
      forall n: nat, j: nat | j <= LINEAR_PROBES
        ensures At(h, Pow2(k), n, j) != 0
      {
        SlotZeroIsNeverHead(h, k, n);
      }
      assert !Visits(h, Pow2(k), 0);
    }
  }

  /** Hash -8 in a table of eight slots: every visit is to slot 0. */
  lemma {:induction false} NegativeHashStaysAtSlotZero(n: nat, j: nat)
    requires j <= LINEAR_PROBES
    ensures At(-8, 8, n, j) == 0
  {
    NegativeHeadStays(n);
  }

  lemma {:induction false} NegativeHeadStays(n: nat)
    ensures Head(-8, 8, n) == 0
    ensures n > 0 ==> Perturb(-8, n) == -1
  {
    if n == 0 {
    } else {
      NegativeHeadStays(n - 1);
      assert Perturb(-8, n) == Perturb(-8, n - 1) / PERTURB_DIVISOR;
    }
  }
}
