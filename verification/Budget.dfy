/** The daily call budget: a date and a count, reset when a call comes in under another date. */
module Budget {
  /** What the budget file says: no record yet, one that cannot be read or restored, or a day and its count. */
  datatype Ledger = NoRecord | Corrupt | Record(day: int, count: int)

  function CountOn(l: Ledger, today: int): int {
    if l.Record? && l.day == today then l.count else 0
  }

  /** An unreadable budget denies; a record of another day does not count. */
  function Remaining(l: Ledger, today: int, cap: int): int {
    match l
    case Corrupt => 0
    case NoRecord => cap
    case Record(day, count) => if day != today then cap else if cap - count > 0 then cap - count else 0
  }

  /** A refused charge saves nothing, not even the new date. */
  function Charge(l: Ledger, today: int, cap: int): (Ledger, bool) {
    if l.Corrupt? || CountOn(l, today) >= cap then (l, false)
    else (Record(today, CountOn(l, today) + 1), true)
  }

  class BudgetFile {
    var ledger: Ledger

    constructor (ledger: Ledger)
      ensures this.ledger == ledger
    {
      this.ledger := ledger;
    }

    method GetRemaining(today: int, cap: int) returns (left: int)
      ensures left == Remaining(ledger, today, cap)
    {
      if ledger.Corrupt? {
        return 0;
      }
      if ledger.NoRecord? || ledger.day != today {
        return cap;
      }
      left := if cap - ledger.count > 0 then cap - ledger.count else 0;
    }

    method ConsumeCall(today: int, cap: int) returns (permitted: bool)
      modifies this
      ensures (ledger, permitted) == Charge(old(ledger), today, cap)
    {
      if ledger.Corrupt? {
        return false;
      }
      var count := if ledger.Record? && ledger.day == today then ledger.count else 0;
      if count >= cap {
        return false;
      }
      ledger := Record(today, count + 1);
      return true;
    }
  }

  /** Under the lock a charge succeeds exactly when the check before it left something, and leaves one less. */
  lemma CheckThenCharge(l: Ledger, today: int, cap: int)
    ensures Charge(l, today, cap).1 <==> Remaining(l, today, cap) > 0
    ensures Remaining(l, today, cap) > 0 ==>
              Remaining(Charge(l, today, cap).0, today, cap) == Remaining(l, today, cap) - 1
    ensures cap >= 0 ==> Remaining(l, today, cap) >= 0
  {
  }

  // ----- charges made under a sequence of dates -----

  function LedgerAfter(days: seq<int>, cap: int): Ledger {
    if days == [] then NoRecord else Charge(LedgerAfter(days[..|days| - 1], cap), days[|days| - 1], cap).0
  }

  /** How many of the attempts dated `day` were charged. */
  function Charged(days: seq<int>, cap: int, day: int): nat {
    if days == [] then 0
    else
      var before := days[..|days| - 1];
      var last := days[|days| - 1];
      Charged(before, cap, day) + if last == day && Charge(LedgerAfter(before, cap), last, cap).1 then 1 else 0
  }

  function Least(a: int, b: int): int {
    if a <= b then a else b
  }

  /** How many of the attempts are dated `day`. */
  function Attempts(days: seq<int>, day: int): nat {
    if days == [] then 0 else Attempts(days[..|days| - 1], day) + if days[|days| - 1] == day then 1 else 0
  }

  /** How many attempts dated `day` come last, in a row. */
  function Trailing(days: seq<int>, day: int): nat {
    if days == [] || days[|days| - 1] != day then 0 else Trailing(days[..|days| - 1], day) + 1
  }

  /** All attempts of the day follow one another. */
  ghost predicate OneBlock(days: seq<int>, day: int) {
    forall i, j, k :: 0 <= i < j < k < |days| && days[i] == day && days[k] == day ==> days[j] == day
  }

  /** The record counts the last attempts in a row under one date, up to the cap. */
  lemma {:induction false} LedgerCounts(days: seq<int>, cap: int, day: int)
    requires cap >= 1
    ensures !LedgerAfter(days, cap).Corrupt?
    ensures days != [] ==> LedgerAfter(days, cap).Record? && LedgerAfter(days, cap).day == days[|days| - 1]
    ensures CountOn(LedgerAfter(days, cap), day) == Least(cap, Trailing(days, day))
  {
    if days != [] {
      LedgerCounts(days[..|days| - 1], cap, day);
      LedgerCounts(days[..|days| - 1], cap, days[|days| - 1]);
    }
  }

  /** One more attempt under its own date is charged exactly while fewer than the cap stand directly before it. */
  lemma {:induction false} ChargedStep(days: seq<int>, cap: int, day: int)
    requires cap >= 1 && days != []
    ensures var before := days[..|days| - 1];
            Charged(days, cap, day)
            == Charged(before, cap, day) + if days[|days| - 1] == day && Trailing(before, day) < cap then 1 else 0
  {
    LedgerCounts(days[..|days| - 1], cap, days[|days| - 1]);
  }

  lemma {:induction false} NothingUnderZero(days: seq<int>, cap: int, day: int)
    requires cap <= 0
    ensures LedgerAfter(days, cap) == NoRecord && Charged(days, cap, day) == 0
  {
    if days != [] {
      NothingUnderZero(days[..|days| - 1], cap, day);
    }
  }

  lemma {:induction false} TrailingAmong(days: seq<int>, day: int)
    ensures Trailing(days, day) <= Attempts(days, day) <= |days|
    ensures Attempts(days, day) == 0 <==> day !in days
  {
    if days != [] {
      TrailingAmong(days[..|days| - 1], day);
      assert days == days[..|days| - 1] + [days[|days| - 1]];
    }
  }

  lemma {:induction false} OneBlockTrails(days: seq<int>, day: int)
    requires OneBlock(days, day) && days != [] && days[|days| - 1] == day
    ensures Attempts(days, day) == Trailing(days, day)
  {
    var before := days[..|days| - 1];
    TrailingAmong(before, day);
    if before != [] {
      if before[|before| - 1] == day {
        OneBlockTrails(before, day);
      } else {
        assert days[|before| - 1] != day;
        forall i | 0 <= i < |before|
          ensures before[i] != day
        {
          assert before[i] == days[i];
        }
      }
    }
  }

  /** A block stays one block exactly while nothing came between. */
  lemma {:induction false} OneBlockStep(days: seq<int>, day: int)
    requires days != []
    ensures var before := days[..|days| - 1];
            OneBlock(days, day)
            <==> OneBlock(before, day)
                 && (days[|days| - 1] == day ==> Attempts(before, day) == Trailing(before, day))
  {
    var before := days[..|days| - 1];
    TrailingAmong(before, day);
    if OneBlock(before, day) && days[|days| - 1] == day {
      if before != [] && before[|before| - 1] == day {
        OneBlockTrails(before, day);
      } else if day in before {
        var i :| 0 <= i < |before| && before[i] == day;
        assert days[i] == day && days[|before| - 1] != day && days[|before|] == day;
      }
    }
    if !OneBlock(before, day) {
      var i, j, k :| 0 <= i < j < k < |before| && before[i] == day && before[k] == day && before[j] != day;
      assert days[i] == day && days[k] == day && days[j] != day;
    }
  }

  /** Each interruption lets the count begin anew: the last block counts in full, and so does something before it. */
  lemma {:induction false} BlocksCount(days: seq<int>, cap: int, day: int)
    requires cap >= 1
    ensures Charged(days, cap, day) <= Attempts(days, day)
    ensures Charged(days, cap, day)
            >= Least(cap, Trailing(days, day)) + if Attempts(days, day) > Trailing(days, day) then 1 else 0
    ensures Attempts(days, day) <= cap ==> Charged(days, cap, day) == Attempts(days, day)
  {
    if days != [] {
      var before := days[..|days| - 1];
      BlocksCount(before, cap, day);
      ChargedStep(days, cap, day);
      TrailingAmong(before, day);
    }
  }

  lemma {:induction false} OneBlockCharged(days: seq<int>, cap: int, day: int)
    requires cap >= 1 && OneBlock(days, day)
    ensures Charged(days, cap, day) == Least(cap, Attempts(days, day))
  {
    if days != [] {
      OneBlockStep(days, day);
      OneBlockCharged(days[..|days| - 1], cap, day);
      ChargedStep(days, cap, day);
    }
  }

  lemma {:induction false} BlocksOvershoot(days: seq<int>, cap: int, day: int)
    requires cap >= 1 && !OneBlock(days, day)
    ensures Charged(days, cap, day) >= Least(cap + 1, Attempts(days, day))
  {
    var before := days[..|days| - 1];
    OneBlockStep(days, day);
    ChargedStep(days, cap, day);
    if OneBlock(before, day) {
      OneBlockCharged(before, cap, day);
      if before[|before| - 1] == day {
        OneBlockTrails(before, day);
      }
    } else {
      BlocksOvershoot(before, cap, day);
      NotOneBlockTrails(before, day);
      BlocksCount(before, cap, day);
    }
  }

  lemma {:induction false} NotOneBlockTrails(days: seq<int>, day: int)
    requires !OneBlock(days, day)
    ensures Attempts(days, day) > Trailing(days, day)
  {
    var before := days[..|days| - 1];
    OneBlockStep(days, day);
    TrailingAmong(before, day);
    if !OneBlock(before, day) {
      NotOneBlockTrails(before, day);
    }
  }

  /**
   * At every cap and for every day: the cap holds exactly when the day has no more attempts than the cap, or when they
   * all follow one another. Under a cap of nothing nothing is charged.
   */
  lemma {:induction false} CapHoldsExactly(days: seq<int>, cap: int, day: int)
    ensures cap <= 0 ==> Charged(days, cap, day) == 0
    ensures cap >= 1 ==>
              (Charged(days, cap, day) <= cap <==> Attempts(days, day) <= cap || OneBlock(days, day))
  {
    if cap <= 0 {
      NothingUnderZero(days, cap, day);
    } else {
      BlocksCount(days, cap, day);
      if OneBlock(days, day) {
        OneBlockCharged(days, cap, day);
      } else {
        BlocksOvershoot(days, cap, day);
      }
    }
  }

  /** No day comes back once another date has been used. */
  ghost predicate Contiguous(days: seq<int>) {
    forall i, j, k :: 0 <= i < j < k < |days| && days[i] == days[k] ==> days[j] == days[i]
  }

  /** So a run of dates keeps every cap for every day exactly when no date comes back after another was used. */
  lemma {:induction false} EveryCapHoldsExactly(days: seq<int>)
    ensures (forall cap: nat, day: int :: Charged(days, cap, day) <= cap) <==> Contiguous(days)
  {
    if Contiguous(days) {
      forall cap: nat, day: int
        ensures Charged(days, cap, day) <= cap
      {
        CapHoldsExactly(days, cap, day);
      }
    } else {
      var i, j, k :| 0 <= i < j < k < |days| && days[i] == days[k] && days[j] != days[i];
      var day := days[i];
      CapHoldsExactly(days, 1, day);
      assert !OneBlock(days, day);
      TwoAttempts(days, day, i, k);
    }
  }

  lemma {:induction false} TwoAttempts(days: seq<int>, day: int, i: nat, k: nat)
    requires i < k < |days| && days[i] == day && days[k] == day
    ensures Attempts(days, day) >= 2
  {
    var before := days[..|days| - 1];
    if k < |before| {
      TwoAttempts(before, day, i, k);
    } else {
      TrailingAmong(before, day);
      assert before[i] in before;
    }
  }

  lemma {:induction false} AttemptsInARow(n: nat, day: int)
    ensures Attempts(seq(n, _ => day), day) == n
  {
    if n > 0 {
      assert seq(n, _ => day)[..n - 1] == seq(n - 1, _ => day);
      AttemptsInARow(n - 1, day);
    }
  }

  /**
   * An overshooting run at every cap: the cap used up, one call of a run under another date - one that went on past
   * midnight, or the first after it - and the day is charged once more than it may be.
   */
  lemma {:induction false} ReturnOvershoots(cap: nat, day: int, other: int)
    requires cap >= 1 && other != day
    ensures Charged(seq(cap, _ => day) + [other, day], cap, day) == cap + 1
  {
    var row := seq(cap, _ => day);
    var days := row + [other, day];
    assert days[..cap + 1] == row + [other] && (row + [other])[..cap] == row;
    AttemptsInARow(cap, day);
    assert days[0] == day && days[cap] == other && days[cap + 1] == day;
    BlocksOvershoot(days, cap, day);
    BlocksCount(days, cap, day);
  }
}
