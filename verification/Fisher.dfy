/** The one-sided Fisher test of the tool-deferral oracles, in exact integers: p is Tail / Choose. */
module Fisher {
  /** Python's comb(n, k): 0 when k exceeds n. */
  function Choose(n: nat, k: nat): (c: nat)
    ensures c == 0 <==> k > n
  {
    if k == 0 then 1
    else if n == 0 then 0
    else Choose(n - 1, k - 1) + Choose(n - 1, k)
  }

  /** One term of the sum: x successes fall to NEW, the rest to OLD. */
  function Term(oldN: nat, newN: nat, total: nat, x: nat): nat {
    if x <= total && total - x <= oldN then Choose(newN, x) * Choose(oldN, total - x) else 0
  }

  /** The sum of the terms up to and including `upto`. */
  function Tail(oldN: nat, newN: nat, total: nat, upto: nat): nat {
    Term(oldN, newN, total, upto) + if upto == 0 then 0 else Tail(oldN, newN, total, upto - 1)
  }

  /** The test's p-value as a fraction. */
  datatype Fraction = Fraction(num: nat, den: nat)

  function FisherOneSided(oldK: nat, oldN: nat, newK: nat, newN: nat): Fraction
    requires oldK <= oldN && newK <= newN
  {
    Fraction(Tail(oldN, newN, oldK + newK, newK), Choose(oldN + newN, oldK + newK))
  }

  datatype Verdict = UNMEASURED | PASS | FAIL

  const MIN_OLD := 5

  /** p < 0.05, without a division. */
  predicate Significant(p: Fraction) {
    20 * p.num < p.den
  }

  function Gate(oldK: nat, oldN: nat, newK: nat, newN: nat, minOld: nat): Verdict
    requires oldK <= oldN && newK <= newN
  {
    if oldK < minOld then UNMEASURED
    else if newK * oldN >= oldK * newN then PASS
    else if Significant(FisherOneSided(oldK, oldN, newK, newN)) then FAIL
    else PASS
  }

  // ----- Vandermonde -----

  /** Past min(total, newN) every term is zero. */
  lemma {:induction false} TailStops(oldN: nat, newN: nat, total: nat, upto: nat, more: nat)
    requires upto <= more && (upto >= newN || upto >= total)
    ensures Tail(oldN, newN, total, more) == Tail(oldN, newN, total, upto)
  {
    if upto < more {
      TailStops(oldN, newN, total, upto, more - 1);
    }
  }

  /** Pascal's rule for a term, on the NEW side. */
  lemma TermPascal(oldN: nat, newN: nat, total: nat, x: nat)
    requires newN > 0 && total > 0
    ensures Term(oldN, newN, total, x)
            == Term(oldN, newN - 1, total, x) + if x == 0 then 0 else Term(oldN, newN - 1, total - 1, x - 1)
  {
    if 0 < x <= total && total - x <= oldN {
      var rest := Choose(oldN, total - x);
      assert Choose(newN, x) == Choose(newN - 1, x - 1) + Choose(newN - 1, x);
      assert Choose(newN, x) * rest == Choose(newN - 1, x - 1) * rest + Choose(newN - 1, x) * rest;
    }
  }

  lemma {:induction false} TailPascal(oldN: nat, newN: nat, total: nat, upto: nat)
    requires newN > 0 && total > 0
    ensures Tail(oldN, newN, total, upto)
            == Tail(oldN, newN - 1, total, upto) + if upto == 0 then 0 else Tail(oldN, newN - 1, total - 1, upto - 1)
  {
    TermPascal(oldN, newN, total, upto);
    if upto > 0 {
      TailPascal(oldN, newN, total, upto - 1);
    }
  }

  /** The terms over all x add up to the denominator. */
  lemma {:induction false} Vandermonde(oldN: nat, newN: nat, total: nat)
    ensures Tail(oldN, newN, total, total) == Choose(oldN + newN, total)
  {
    if total == 0 {
      assert Tail(oldN, newN, 0, 0) == Choose(newN, 0) * Choose(oldN, 0);
    } else if newN == 0 {
      TailStops(oldN, 0, total, 0, total);
      assert Tail(oldN, 0, total, 0) == Term(oldN, 0, total, 0);
    } else {
      TailPascal(oldN, newN, total, total);
      Vandermonde(oldN, newN - 1, total);
      Vandermonde(oldN, newN - 1, total - 1);
    }
  }

  lemma {:induction false} TailGrows(oldN: nat, newN: nat, total: nat, upto: nat, more: nat)
    requires upto <= more
    ensures Tail(oldN, newN, total, upto) <= Tail(oldN, newN, total, more)
  {
    if upto < more {
      TailGrows(oldN, newN, total, upto, more - 1);
    }
  }

  lemma Positive(a: nat, b: nat)
    requires a > 0 && b > 0
    ensures a * b > 0
  {
  }

  /** p lies in (0, 1], and is 1 when NEW took every success it could. */
  lemma PIsAProbability(oldK: nat, oldN: nat, newK: nat, newN: nat)
    requires oldK <= oldN && newK <= newN
    ensures var p := FisherOneSided(oldK, oldN, newK, newN);
            0 < p.num <= p.den && (newK == newN || oldK == 0 ==> p.num == p.den)
  {
    var total := oldK + newK;
    Positive(Choose(newN, newK), Choose(oldN, oldK));
    assert Term(oldN, newN, total, newK) > 0;
    TailGrows(oldN, newN, total, newK, total);
    Vandermonde(oldN, newN, total);
    if newK == newN || oldK == 0 {
      TailStops(oldN, newN, total, newK, total);
    }
  }

  /** With the margins fixed, p never falls as NEW takes more of the successes. */
  lemma PGrowsWithNewSuccesses(oldK: nat, oldN: nat, newK: nat, newN: nat, moved: nat)
    requires moved <= oldK <= oldN && newK + moved <= newN
    ensures var p, q := FisherOneSided(oldK, oldN, newK, newN), FisherOneSided(oldK - moved, oldN, newK + moved, newN);
            p.den == q.den && p.num <= q.num && (moved > 0 ==> p.num < q.num)
  {
    var total := oldK + newK;
    if moved > 0 {
      TailGrows(oldN, newN, total, newK, newK + moved - 1);
      Positive(Choose(newN, newK + moved), Choose(oldN, oldK - moved));
    }
  }

  // ----- what the fraction counts -----

  ghost function Prefixed(b: bool, sets: set<seq<bool>>): set<seq<bool>> {
    set s | s in sets :: [b] + s
  }

  /** A labelling says of each turn whether it was a success; the NEW arm's turns come first. */
  ghost function Labellings(n: nat): set<seq<bool>> {
    if n == 0 then {[]}
    else Prefixed(true, Labellings(n - 1)) + Prefixed(false, Labellings(n - 1))
  }

  function Successes(s: seq<bool>): (k: nat)
    ensures k <= |s|
  {
    if s == [] then 0 else (if s[0] then 1 else 0) + Successes(s[1..])
  }

  lemma {:induction false} LabellingsAreAll(n: nat, s: seq<bool>)
    ensures s in Labellings(n) <==> |s| == n
  {
    if n > 0 {
      if |s| == n {
        LabellingsAreAll(n - 1, s[1..]);
        assert s == [s[0]] + s[1..];
        assert s in Prefixed(s[0], Labellings(n - 1));
      }
      if s in Labellings(n) {
        var t :| t in Labellings(n - 1) && (s == [true] + t || s == [false] + t);
        LabellingsAreAll(n - 1, t);
      }
    }
  }

  /** The labellings of `newN + oldN` turns with `total` successes, at most `cap` of them among the first `newN`. */
  ghost function Outcomes(newN: nat, oldN: nat, total: int, cap: int): set<seq<bool>> {
    set s | s in Labellings(newN + oldN) && |s| == newN + oldN && Successes(s) == total && Successes(s[..newN]) <= cap
  }

  /** The same count by recursion on the turns. */
  function Count(newN: nat, oldN: nat, total: int, cap: int): nat {
    if total < 0 || cap < 0 then 0
    else if newN == 0 then Choose(oldN, total)
    else Count(newN - 1, oldN, total - 1, cap - 1) + Count(newN - 1, oldN, total, cap)
  }

  lemma {:induction false} PrefixedSize(b: bool, sets: set<seq<bool>>)
    ensures |Prefixed(b, sets)| == |sets|
    decreases sets
  {
    if sets != {} {
      var s :| s in sets;
      PrefixedSize(b, sets - {s});
      forall t | t in sets - {s}
        ensures [b] + t != [b] + s
      {
        assert ([b] + t)[1..] == t && ([b] + s)[1..] == s;
      }
      assert Prefixed(b, sets) == Prefixed(b, sets - {s}) + {[b] + s};
    }
  }

  lemma SuccessesOfPrefix(s: seq<bool>, n: nat)
    requires 0 < n <= |s|
    ensures Successes(s[..n]) == (if s[0] then 1 else 0) + Successes(s[1..][..n - 1])
  {
    assert s[..n][1..] == s[1..][..n - 1];
  }

  lemma OutcomesSplit(newN: nat, oldN: nat, total: nat, cap: nat)
    requires newN > 0
    ensures Outcomes(newN, oldN, total, cap)
            == Prefixed(true, Outcomes(newN - 1, oldN, total - 1, cap - 1))
               + Prefixed(false, Outcomes(newN - 1, oldN, total, cap))
  {
    var yes, no := Outcomes(newN - 1, oldN, total - 1, cap - 1), Outcomes(newN - 1, oldN, total, cap);
    forall s
      ensures s in Outcomes(newN, oldN, total, cap) <==> s in Prefixed(true, yes) || s in Prefixed(false, no)
    {
      LabellingsAreAll(newN + oldN, s);
      if |s| == newN + oldN {
        LabellingsAreAll(newN - 1 + oldN, s[1..]);
        SuccessesOfPrefix(s, newN);
        assert s == [s[0]] + s[1..];
      }
      if s in Prefixed(true, yes) {
        var t :| t in yes && s == [true] + t;
        LabellingsAreAll(newN - 1 + oldN, t);
        assert s[1..] == t;
      }
      if s in Prefixed(false, no) {
        var t :| t in no && s == [false] + t;
        LabellingsAreAll(newN - 1 + oldN, t);
        assert s[1..] == t;
      }
    }
  }

  lemma SizeOfSplit(yes: set<seq<bool>>, no: set<seq<bool>>)
    ensures |Prefixed(true, yes) + Prefixed(false, no)| == |yes| + |no|
  {
    PrefixedSize(true, yes);
    PrefixedSize(false, no);
    forall s | s in Prefixed(true, yes)
      ensures s !in Prefixed(false, no)
    {
      assert s[0];
    }
    assert Prefixed(true, yes) !! Prefixed(false, no);
  }

  lemma OldOutcomesStep(oldN: nat, total: nat, cap: nat)
    requires oldN > 0
    ensures |Outcomes(0, oldN, total, cap)|
            == |Outcomes(0, oldN - 1, total - 1, cap)| + |Outcomes(0, oldN - 1, total, cap)|
  {
    OldOutcomesSplit(oldN, total, cap);
    SizeOfSplit(Outcomes(0, oldN - 1, total - 1, cap), Outcomes(0, oldN - 1, total, cap));
  }

  lemma OutcomesStep(newN: nat, oldN: nat, total: nat, cap: nat)
    requires newN > 0
    ensures |Outcomes(newN, oldN, total, cap)|
            == |Outcomes(newN - 1, oldN, total - 1, cap - 1)| + |Outcomes(newN - 1, oldN, total, cap)|
  {
    OutcomesSplit(newN, oldN, total, cap);
    SizeOfSplit(Outcomes(newN - 1, oldN, total - 1, cap - 1), Outcomes(newN - 1, oldN, total, cap));
  }

  lemma NoTurns(total: nat, cap: nat)
    ensures |Outcomes(0, 0, total, cap)| == if total == 0 then 1 else 0
  {
    assert Outcomes(0, 0, total, cap) == if total == 0 then {[]} else {};
  }

  lemma NoOutcomes(newN: nat, oldN: nat, total: int, cap: int)
    requires total < 0 || cap < 0
    ensures |Outcomes(newN, oldN, total, cap)| == 0
  {
    assert Outcomes(newN, oldN, total, cap) == {};
  }

  lemma {:induction false} OldOutcomesCounted(oldN: nat, total: nat, cap: nat)
    ensures |Outcomes(0, oldN, total, cap)| == Choose(oldN, total)
    decreases oldN
  {
    if oldN == 0 {
      NoTurns(total, cap);
    } else {
      OldOutcomesStep(oldN, total, cap);
      OldOutcomesCounted(oldN - 1, total, cap);
      if total == 0 {
        NoOutcomes(0, oldN - 1, -1, cap);
        ChooseZero(oldN);
        ChooseZero(oldN - 1);
      } else {
        OldOutcomesCounted(oldN - 1, total - 1, cap);
        Pascal(oldN, total);
      }
    }
  }

  lemma {:induction false} ChooseZero(n: nat)
    ensures Choose(n, 0) == 1
  {
  }

  lemma OldOutcomesSplit(oldN: nat, total: nat, cap: nat)
    requires oldN > 0
    ensures Outcomes(0, oldN, total, cap)
            == Prefixed(true, Outcomes(0, oldN - 1, total - 1, cap))
               + Prefixed(false, Outcomes(0, oldN - 1, total, cap))
  {
    var yes, no := Outcomes(0, oldN - 1, total - 1, cap), Outcomes(0, oldN - 1, total, cap);
    forall s
      ensures s in Outcomes(0, oldN, total, cap) <==> s in Prefixed(true, yes) || s in Prefixed(false, no)
    {
      LabellingsAreAll(oldN, s);
      if |s| == oldN {
        LabellingsAreAll(oldN - 1, s[1..]);
        assert s == [s[0]] + s[1..];
      }
      if s in Prefixed(true, yes) {
        var t :| t in yes && s == [true] + t;
        assert s[1..] == t;
      }
      if s in Prefixed(false, no) {
        var t :| t in no && s == [false] + t;
        assert s[1..] == t;
      }
    }
  }

  lemma OutcomesAdd(newN: nat, oldN: nat, total: nat, cap: nat, yes: nat, no: nat)
    requires newN > 0
    requires |Outcomes(newN - 1, oldN, total - 1, cap - 1)| == yes && |Outcomes(newN - 1, oldN, total, cap)| == no
    ensures |Outcomes(newN, oldN, total, cap)| == yes + no
  {
    OutcomesStep(newN, oldN, total, cap);
  }

  lemma {:induction false} OutcomesCounted(newN: nat, oldN: nat, total: int, cap: int)
    ensures |Outcomes(newN, oldN, total, cap)| == Count(newN, oldN, total, cap)
    decreases newN
  {
    if total < 0 || cap < 0 {
      NoOutcomes(newN, oldN, total, cap);
    } else if newN == 0 {
      OldOutcomesCounted(oldN, total, cap);
    } else {
      var yes, no := Count(newN - 1, oldN, total - 1, cap - 1), Count(newN - 1, oldN, total, cap);
      assert Count(newN, oldN, total, cap) == yes + no;
      OutcomesCounted(newN - 1, oldN, total - 1, cap - 1);
      OutcomesCounted(newN - 1, oldN, total, cap);
      OutcomesAdd(newN, oldN, total, cap, yes, no);
    }
  }

  lemma {:induction false} TailOfNone(oldN: nat, newN: nat, upto: nat)
    ensures Tail(oldN, newN, 0, upto) == 1
  {
    ChooseZero(oldN);
    ChooseZero(newN);
    if upto > 0 {
      TailOfNone(oldN, newN, upto - 1);
    }
  }

  lemma {:induction false} TailCounts(newN: nat, oldN: nat, total: nat, cap: nat)
    ensures Count(newN, oldN, total, cap) == Tail(oldN, newN, total, cap)
  {
    if newN == 0 {
      TailStops(oldN, 0, total, 0, cap);
      assert Tail(oldN, 0, total, 0) == Term(oldN, 0, total, 0) == Choose(oldN, total);
    } else {
      TailCounts(newN - 1, oldN, total, cap);
      if total == 0 {
        TailOfNone(oldN, newN, cap);
        TailOfNone(oldN, newN - 1, cap);
      } else {
        TailPascal(oldN, newN, total, cap);
        if cap > 0 {
          TailCounts(newN - 1, oldN, total - 1, cap - 1);
        }
      }
    }
  }

  /**
   * What p means: of all ways to hand the observed number of successes to the turns of both arms, the share in which
   * NEW gets no more of them than it did.
   */
  lemma PCountsLabellings(oldK: nat, oldN: nat, newK: nat, newN: nat)
    requires oldK <= oldN && newK <= newN
    ensures FisherOneSided(oldK, oldN, newK, newN).num == |Outcomes(newN, oldN, oldK + newK, newK)|
    ensures FisherOneSided(oldK, oldN, newK, newN).den == |Outcomes(newN, oldN, oldK + newK, newN)|
  {
    OutcomesAreTail(newN, oldN, oldK + newK, newK);
    AllOutcomes(newN, oldN, oldK + newK);
    PIsTail(oldK, oldN, newK, newN);
  }

  lemma {:induction false} PIsTail(oldK: nat, oldN: nat, newK: nat, newN: nat)
    requires oldK <= oldN && newK <= newN
    ensures FisherOneSided(oldK, oldN, newK, newN)
            == Fraction(Tail(oldN, newN, oldK + newK, newK), Choose(oldN + newN, oldK + newK))
  {
  }

  lemma {:induction false} AllOutcomes(newN: nat, oldN: nat, total: nat)
    ensures |Outcomes(newN, oldN, total, newN)| == Choose(oldN + newN, total)
  {
    OutcomesAreTail(newN, oldN, total, newN);
    WholeTail(oldN, newN, total);
  }

  lemma {:induction false} OutcomesAreTail(newN: nat, oldN: nat, total: nat, cap: nat)
    ensures |Outcomes(newN, oldN, total, cap)| == Tail(oldN, newN, total, cap)
  {
    OutcomesCounted(newN, oldN, total, cap);
    TailCounts(newN, oldN, total, cap);
  }

  lemma {:induction false} WholeTail(oldN: nat, newN: nat, total: nat)
    ensures Tail(oldN, newN, total, newN) == Choose(oldN + newN, total)
  {
    Vandermonde(oldN, newN, total);
    var least := if total < newN then total else newN;
    TailStops(oldN, newN, total, least, newN);
    TailStops(oldN, newN, total, least, total);
  }

  /**
   * The gate for any counts: unmeasured below the minimum of OLD turns; otherwise a failure exactly when NEW's share is
   * lower and in fewer than one in twenty labellings with these margins NEW gets no more successes than it did.
   */
  lemma GateExactly(oldK: nat, oldN: nat, newK: nat, newN: nat, minOld: nat)
    requires oldK <= oldN && newK <= newN
    ensures Gate(oldK, oldN, newK, newN, minOld)
            == if oldK < minOld then UNMEASURED
               else if newK * oldN < oldK * newN
                       && 20 * |Outcomes(newN, oldN, oldK + newK, newK)| < |Outcomes(newN, oldN, oldK + newK, newN)|
               then FAIL else PASS
  {
    PCountsLabellings(oldK, oldN, newK, newN);
  }

  // ----- NEW at zero -----

  function Pow2(k: nat): nat {
    if k == 0 then 1 else 2 * Pow2(k - 1)
  }

  lemma AbsorbStep(n: int, k: int, a: int, b: int, c: int, d: int)
    requires a == c + d && k * b == (n - 1) * d && (k - 1) * a == (n - 1) * c
    ensures k * (a + b) == n * a
  {
    Distribute(k, a, b);
    Distribute(n - 1, c, d);
    assert k * a == (k - 1) * a + a && n * a == (n - 1) * a + a;
  }

  lemma Pascal(n: nat, k: nat)
    requires n > 0 && k > 0
    ensures Choose(n, k) == Choose(n - 1, k - 1) + Choose(n - 1, k)
  {
  }

  /** Absorption: k * C(n, k) = n * C(n-1, k-1). */
  lemma {:induction false} Absorption(n: nat, k: nat)
    requires n > 0 && k > 0
    ensures k * Choose(n, k) == n * Choose(n - 1, k - 1)
  {
    Pascal(n, k);
    if n == 1 {
    } else if k == 1 {
      Absorption(n - 1, 1);
      ChooseZero(n - 1);
      ChooseZero(n - 2);
    } else {
      Absorption(n - 1, k);
      Absorption(n - 1, k - 1);
      Pascal(n - 1, k - 1);
      AbsorbStep(n, k, Choose(n - 1, k - 1), Choose(n - 1, k), Choose(n - 2, k - 2), Choose(n - 2, k - 1));
    }
  }

  lemma Distribute(a: int, b: int, c: int)
    ensures a * (b + c) == a * b + a * c
  {
  }

  lemma CancelFactor(q: int, a: int, b: int)
    requires q > 0
    ensures q * a <= q * b <==> a <= b
    ensures q * a < q * b <==> a < b
  {
  }

  lemma {:induction false} ChooseGrows(n: nat, m: nat, k: nat)
    requires n <= m
    ensures Choose(n, k) <= Choose(m, k)
  {
    if n < m {
      ChooseGrows(n, m - 1, k);
      ChooseZero(m - 1);
    }
  }

  /** Doubling the turns multiplies the ways to place k successes by at least 2^k. */
  lemma {:induction false} Doubling(n: nat, k: nat)
    ensures Pow2(k) * Choose(n, k) <= Choose(2 * n, k)
  {
    if k == 0 || n == 0 {
      ChooseZero(n);
      ChooseZero(2 * n);
      assert n == 0 && k > 0 ==> Pow2(k) * Choose(0, k) == 0;
    } else {
      Doubling(n - 1, k - 1);
      ChooseGrows(2 * n - 2, 2 * n - 1, k - 1);
      Absorption(n, k);
      Absorption(2 * n, k);
      DoublingStep(n, k, Choose(n, k), Choose(2 * n, k), Choose(n - 1, k - 1), Choose(2 * n - 1, k - 1), Pow2(k - 1));
    }
  }

  lemma DoublingStep(n: nat, k: nat, c: nat, d: nat, a: nat, b: nat, p: nat)
    requires k > 0
    requires k * c == n * a && k * d == 2 * n * b && p * a <= b
    ensures (2 * p) * c <= d
  {
    calc {
      k * ((2 * p) * c);
      { MulAssociative(k, 2 * p, c); MulAssociative(2 * p, k, c); }
      (2 * p) * (k * c);
      (2 * p) * (n * a);
      { MulAssociative(2 * p, n, a); MulAssociative(n, 2 * p, a); }
      n * ((2 * p) * a);
      { MulAssociative(2, p, a); }
      n * (2 * (p * a));
    }
    CancelLeast(n, 2 * (p * a), 2 * b);
    MulAssociative(n, 2, b);
    CancelFactor(k, (2 * p) * c, d);
  }

  lemma CancelLeast(q: nat, a: int, b: int)
    requires a <= b
    ensures q * a <= q * b
  {
  }

  lemma MulAssociative(a: int, b: int, c: int)
    ensures a * (b * c) == (a * b) * c
  {
  }

  lemma {:induction false} Pow2AtLeast32(k: nat)
    requires k >= 5
    ensures Pow2(k) >= 32
  {
    if k > 5 {
      Pow2AtLeast32(k - 1);
    } else {
      assert Pow2(5) == 2 * Pow2(4) && Pow2(4) == 2 * Pow2(3) && Pow2(3) == 8;
    }
  }

  lemma {:induction false} PAtZero(oldK: nat, oldN: nat, newN: nat)
    requires oldK <= oldN
    ensures FisherOneSided(oldK, oldN, 0, newN) == Fraction(Choose(oldN, oldK), Choose(oldN + newN, oldK))
  {
    ChooseZero(newN);
    assert Tail(oldN, newN, oldK, 0) == Choose(newN, 0) * Choose(oldN, oldK);
  }

  /** With arms of one size, p at NEW = 0 is at most 2^-oldK. */
  lemma {:induction false} PAtZeroHalves(oldK: nat, n: nat)
    requires oldK <= n
    ensures var p := FisherOneSided(oldK, n, 0, n); Pow2(oldK) * p.num <= p.den
  {
    PAtZero(oldK, n, n);
    Doubling(n, oldK);
    assert n + n == 2 * n;
  }

  /** A tool that vanished fails the gate once OLD reached it in five turns, if NEW had at least as many turns. */
  lemma VanishedToolFails(oldK: nat, oldN: nat, newN: nat, minOld: nat)
    requires 5 <= oldK <= oldN <= newN && minOld <= oldK
    ensures Gate(oldK, oldN, 0, newN, minOld) == FAIL
  {
    PAtZero(oldK, oldN, newN);
    Doubling(oldN, oldK);
    ChooseGrows(2 * oldN, oldN + newN, oldK);
    Pow2AtLeast32(oldK);
    var c := Choose(oldN, oldK);
    CancelFactor(c, 32, Pow2(oldK));
    assert c * Pow2(oldK) == Pow2(oldK) * c;
    Positive(oldK, newN);
  }

  lemma {:induction false} ChooseOne(n: nat)
    ensures Choose(n, 1) == n
  {
    if n > 0 {
      Absorption(n, 1);
      ChooseZero(n - 1);
    }
  }

  lemma {:induction false} ChooseTwo(n: nat)
    ensures 2 * Choose(n, 2) == n * (n - 1)
  {
    if n > 0 {
      Absorption(n, 2);
      ChooseOne(n - 1);
    }
  }

  lemma {:induction false} ChooseThree(n: nat)
    ensures 6 * Choose(n, 3) == n * ((n - 1) * (n - 2))
  {
    if n > 0 {
      Absorption(n, 3);
      ChooseTwo(n - 1);
      MulAssociative(2, n, Choose(n - 1, 2));
      MulAssociative(n, 2, Choose(n - 1, 2));
    }
  }

  lemma {:induction false} ChooseFour(n: nat)
    ensures 24 * Choose(n, 4) == n * ((n - 1) * ((n - 2) * (n - 3)))
  {
    if n > 0 {
      Absorption(n, 4);
      ChooseThree(n - 1);
      MulAssociative(6, n, Choose(n - 1, 3));
      MulAssociative(n, 6, Choose(n - 1, 3));
    }
  }

  lemma {:induction false} AtTwo(n: nat)
    requires n >= 2
    ensures 20 * Choose(n, 2) >= Choose(2 * n, 2)
  {
    ChooseTwo(n);
    ChooseTwo(2 * n);
    MulAssociative(n, 2, 2 * n - 1);
    MulAssociative(20, n, n - 1);
    MulAssociative(n, 20, n - 1);
    CancelFactor(n, 2 * (2 * n - 1), 20 * (n - 1));
  }

  /** Both sides share the factor n * (n - 1): compare what is left. */
  lemma FactorPairs(n: int)
    ensures 2 * n * (2 * n - 1) * ((2 * n - 2) * (2 * n - 3)) == (n * (n - 1)) * (4 * ((2 * n - 1) * (2 * n - 3)))
    ensures 2 * n * ((2 * n - 1) * (2 * n - 2)) == (n * (n - 1)) * (4 * (2 * n - 1))
    ensures 20 * (n * ((n - 1) * (n - 2))) == (n * (n - 1)) * (20 * (n - 2))
    ensures 20 * (n * ((n - 1) * ((n - 2) * (n - 3)))) == (n * (n - 1)) * (20 * ((n - 2) * (n - 3)))
  {
    MulAssociative(n, n - 1, n - 2);
    MulAssociative(n, n - 1, (n - 2) * (n - 3));
  }

  lemma {:induction false} AtThree(n: nat)
    requires n >= 3
    ensures 20 * Choose(n, 3) >= Choose(2 * n, 3)
  {
    ChooseThree(n);
    ChooseThree(2 * n);
    FactorPairs(n);
    Positive(n, n - 1);
    CancelFactor(n * (n - 1), 4 * (2 * n - 1), 20 * (n - 2));
  }

  lemma FifteenTurns(n: nat)
    requires n >= 4
    ensures 20 * ((n - 2) * (n - 3)) < 4 * ((2 * n - 1) * (2 * n - 3)) <==> n <= 15
  {
    assert (n - 2) * (n - 3) == n * n - 5 * n + 6;
    assert (2 * n - 1) * (2 * n - 3) == 4 * (n * n) - 8 * n + 3;
    if n <= 15 {
      assert (n - 2) * (15 - n) >= 0;
    } else {
      assert (n - 1) * (n - 16) >= 0;
    }
  }

  /** Two counts with the factor q in common compare as what is left of them. */
  lemma ByFactor(q: nat, a: int, b: int, x: int, y: int)
    requires q > 0 && 24 * (20 * a) == q * (20 * x) && 24 * b == q * y
    ensures 20 * a < b <==> 20 * x < y
  {
    CancelFactor(q, 20 * x, y);
  }

  lemma {:induction false} FourOf(n: nat)
    requires n >= 4
    ensures 24 * (20 * Choose(n, 4)) == (n * (n - 1)) * (20 * ((n - 2) * (n - 3)))
  {
    ChooseFour(n);
    FactorPairs(n);
  }

  lemma {:induction false} FourOfTwice(n: nat)
    requires n >= 4
    ensures 24 * Choose(2 * n, 4) == (n * (n - 1)) * (4 * ((2 * n - 1) * (2 * n - 3)))
  {
    ChooseFour(2 * n);
    FactorPairs(n);
    MulAssociative(2 * n, 2 * n - 1, (2 * n - 2) * (2 * n - 3));
  }

  lemma {:induction false} AtFour(n: nat)
    requires n >= 4
    ensures 20 * Choose(n, 4) < Choose(2 * n, 4) <==> n <= 15
  {
    FourOf(n);
    FourOfTwice(n);
    Positive(n, n - 1);
    ByFactor(n * (n - 1), Choose(n, 4), Choose(2 * n, 4), (n - 2) * (n - 3), 4 * ((2 * n - 1) * (2 * n - 3)));
    FifteenTurns(n);
  }

  // ----- arms of any two sizes -----

  /** The falling factorial n * (n - 1) * ... of k factors. */
  function Falling(n: nat, k: nat): (f: nat)
    requires k <= n
    ensures f > 0
  {
    if k == 0 then 1
    else
      Positive(n, Falling(n - 1, k - 1));
      n * Falling(n - 1, k - 1)
  }

  function Factorial(k: nat): (f: nat)
    ensures f > 0
  {
    if k == 0 then 1
    else
      Positive(k, Factorial(k - 1));
      k * Factorial(k - 1)
  }

  lemma Regroup(k: int, f: int, c: int, n: int, d: int)
    requires k * c == n * d
    ensures (k * f) * c == n * (f * d)
  {
    MulAssociative(k, f, c);
    MulAssociative(f, k, c);
    MulAssociative(n, f, d);
    MulAssociative(f, n, d);
    assert k * f == f * k && n * f == f * n;
  }

  lemma ProductGrows(a: nat, b: nat, n: nat, m: nat)
    requires a <= b && n <= m
    ensures n * a <= m * b
  {
    assert n * a <= n * b;
    assert n * b <= m * b;
  }

  lemma {:induction false} ChooseFalling(n: nat, k: nat)
    requires k <= n
    ensures Factorial(k) * Choose(n, k) == Falling(n, k)
  {
    if k > 0 {
      ChooseFalling(n - 1, k - 1);
      Absorption(n, k);
      Regroup(k, Factorial(k - 1), Choose(n, k), n, Choose(n - 1, k - 1));
    }
  }

  lemma CompareTimes(f: nat, a: nat, b: nat)
    requires f > 0
    ensures 20 * a < b <==> 20 * (f * a) < f * b
  {
    MulAssociative(20, f, a);
    MulAssociative(f, 20, a);
    CancelFactor(f, 20 * a, b);
  }

  /**
   * NEW = 0 is significant exactly when the falling factorial of all turns is over twenty times that of the OLD ones.
   */
  lemma {:induction false} ZeroSignificantExactly(oldK: nat, oldN: nat, newN: nat)
    requires oldK <= oldN
    ensures Significant(FisherOneSided(oldK, oldN, 0, newN)) <==> 20 * Falling(oldN, oldK) < Falling(oldN + newN, oldK)
  {
    PAtZero(oldK, oldN, newN);
    ChooseFalling(oldN, oldK);
    ChooseFalling(oldN + newN, oldK);
    CompareTimes(Factorial(oldK), Choose(oldN, oldK), Choose(oldN + newN, oldK));
  }

  lemma {:induction false} FewFactors(n: nat)
    ensures Falling(n, 0) == 1
    ensures n >= 1 ==> Falling(n, 1) == n
    ensures n >= 2 ==> Falling(n, 2) == n * (n - 1)
    ensures n >= 3 ==> Falling(n, 3) == n * ((n - 1) * (n - 2))
    ensures n >= 4 ==> Falling(n, 4) == n * ((n - 1) * ((n - 2) * (n - 3)))
  {
    if n >= 1 {
      assert Falling(n - 1, 0) == 1;
    }
    if n >= 2 {
      FewFactors(n - 1);
    }
  }

  /**
   * The module says that below five OLD turns not even NEW = 0 can reach p < 0.05. It can, at each count from one to
   * four, exactly when NEW had so many turns more; only a tool OLD never used cannot fall.
   */
  lemma {:induction false} ZeroBelowFive(oldK: nat, oldN: nat, newN: nat)
    requires oldK <= oldN && oldK < 5
    ensures Significant(FisherOneSided(oldK, oldN, 0, newN)) <==>
              var all := oldN + newN;
              match oldK
              case 0 => false
              case 1 => newN > 19 * oldN
              case 2 => 20 * (oldN * (oldN - 1)) < all * (all - 1)
              case 3 => 20 * (oldN * ((oldN - 1) * (oldN - 2))) < all * ((all - 1) * (all - 2))
              case _ =>
                20 * (oldN * ((oldN - 1) * ((oldN - 2) * (oldN - 3)))) < all * ((all - 1) * ((all - 2) * (all - 3)))
  {
    ZeroSignificantExactly(oldK, oldN, newN);
    FewFactors(oldN);
    FewFactors(oldN + newN);
  }

  lemma {:induction false} FallingGrows(n: nat, m: nat, k: nat)
    requires k <= n <= m
    ensures Falling(n, k) <= Falling(m, k)
  {
    if k > 0 {
      FallingGrows(n - 1, m - 1, k - 1);
      ProductGrows(Falling(n - 1, k - 1), Falling(m - 1, k - 1), n, m);
    }
  }

  lemma Exceeds(n: nat, all: nat, a: nat, b: nat)
    requires 0 < a <= b && 20 * n < all
    ensures 20 * (n * a) < all * b
  {
    MulAssociative(20, n, a);
    ProductGrows(a, b, 20 * n, all - 1);
    Distribute(b, all - 1, 1);
    assert all * b == b * all && (all - 1) * b == b * (all - 1);
  }

  /** Whatever OLD did, one turn or more: a NEW arm over nineteen times as long makes its zero significant. */
  lemma {:induction false} LongEnoughArm(oldK: nat, oldN: nat, newN: nat)
    requires 1 <= oldK <= oldN && newN > 19 * oldN
    ensures Significant(FisherOneSided(oldK, oldN, 0, newN))
  {
    ZeroSignificantExactly(oldK, oldN, newN);
    var all := oldN + newN;
    FallingGrows(oldN - 1, all - 1, oldK - 1);
    var a, b := Falling(oldN - 1, oldK - 1), Falling(all - 1, oldK - 1);
    Exceeds(oldN, all, a, b);
  }

  /** The smallest such input: one OLD turn of one against none of twenty NEW ones, p = 1/21. */
  lemma OneTurnIsHidden()
    ensures FisherOneSided(1, 1, 0, 20) == Fraction(1, 21)
    ensures Significant(FisherOneSided(1, 1, 0, 20)) && Gate(1, 1, 0, 20, MIN_OLD) == UNMEASURED
  {
    PAtZero(1, 1, 20);
    ChooseOne(1);
    ChooseOne(21);
  }

  /** Arms of one size: NEW = 0 is significant from five OLD turns on, and at four with at most fifteen turns an arm. */
  lemma WhenZeroIsSignificant(oldK: nat, n: nat)
    requires oldK <= n
    ensures Significant(FisherOneSided(oldK, n, 0, n)) <==> oldK >= 5 || (oldK == 4 && n <= 15)
  {
    PAtZero(oldK, n, n);
    assert n + n == 2 * n;
    if oldK >= 5 {
      VanishedToolFails(oldK, n, n, oldK);
    } else if oldK == 4 {
      AtFour(n);
    } else {
      ChooseZero(n);
      ChooseZero(2 * n);
      ChooseOne(n);
      ChooseOne(2 * n);
      if oldK == 2 {
        AtTwo(n);
      } else if oldK == 3 {
        AtThree(n);
      }
    }
  }

  /** Four of four OLD turns against none of four NEW ones gives p = 1/70, which the gate leaves unmeasured. */
  lemma FourIsHidden()
    ensures FisherOneSided(4, 4, 0, 4) == Fraction(1, 70)
    ensures Significant(FisherOneSided(4, 4, 0, 4)) && Gate(4, 4, 0, 4, MIN_OLD) == UNMEASURED
  {
    PAtZero(4, 4, 4);
    ChooseFour(4);
    ChooseFour(8);
  }
}
