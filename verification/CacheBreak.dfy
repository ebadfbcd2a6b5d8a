/** The per-run cache-break verdict over one run's usage rows. */
module CacheBreak {
  import opened Wrappers

  /** A usage row; a field that is missing or of the wrong type is None. */
  datatype Row = Row(chat: bool, numTurns: Option<int>, read: Option<int>, creation: Option<int>, model: Option<string>)

  datatype Threshold = Percent(value: real) | NotANumber

  datatype Status = PASS | FAIL | UNMEASURED

  datatype Break = Break(row: nat, read: int, reference: Option<int>)

  const MIN_JUDGED_ROWS := 2

  /** What one pass over the rows has gathered. */
  datatype Tally = Tally(
    stable: Option<int>, runModel: Option<string>, judged: nat,
    multicall: seq<nat>, unusable: seq<nat>, breaks: seq<Break>)

  datatype Report = Report(status: Status, tally: Option<Tally>)

  predicate ValidThreshold(threshold: Threshold) {
    threshold.Percent? && 0.0 <= threshold.value < 100.0
  }

  function ChatRows(rows: seq<Row>): seq<Row> {
    if rows == [] then []
    else if rows[0].chat then [rows[0]] + ChatRows(rows[1..])
    else ChatRows(rows[1..])
  }

  /** The row reads more than t percent below `stable`. */
  predicate FarBelow(read: int, stable: int, t: real) {
    (read * 100) as real < stable as real * (100.0 - t)
  }

  predicate SingleCall(row: Row) {
    row.numTurns == Some(1)
  }

  /** A single call with a usable read and some cache activity. */
  predicate Usable(row: Row) {
    SingleCall(row) && row.read.Some? && row.read.value >= 0 && !(row.read.value == 0 && row.creation == Some(0))
  }

  const START := Tally(None, None, 0, [], [], [])

  /** One later chat row; `n` is its number counted from 1. */
  function Count(s: Tally, row: Row, n: nat, t: real): Tally {
    if !SingleCall(row) then s.(multicall := s.multicall + [n])
    else if !Usable(row) then s.(unusable := s.unusable + [n])
    else if row.model.Some? && s.runModel.Some? && row.model != s.runModel then s.(unusable := s.unusable + [n])
    else
      var read := row.read.value;
      var broke := read == 0 || (s.stable.Some? && FarBelow(read, s.stable.value, t));
      Tally(
        if read > 0 then (if s.stable.None? || read < s.stable.value then Some(read) else s.stable) else s.stable,
        if s.runModel.None? then row.model else s.runModel,
        s.judged + 1, s.multicall, s.unusable,
        if broke then s.breaks + [Break(n, read, s.stable)] else s.breaks)
  }

  /** The tally over chat rows 2 to n. */
  function Scan(chat: seq<Row>, n: nat, t: real): Tally
    requires n <= |chat|
  {
    if n <= 1 then START else Count(Scan(chat, n - 1, t), chat[n - 1], n, t)
  }

  function StatusOf(s: Tally): Status {
    if s.breaks != [] then FAIL
    else if s.unusable != [] then UNMEASURED
    else if s.judged < MIN_JUDGED_ROWS then UNMEASURED
    else PASS
  }

  function ChatVerdict(chat: seq<Row>, threshold: Threshold): Report {
    if !ValidThreshold(threshold) || |chat| < 2 then Report(UNMEASURED, None)
    else
      var s := Scan(chat, |chat|, threshold.value);
      Report(StatusOf(s), Some(s))
  }

  function ChatStatus(chat: seq<Row>, threshold: Threshold): Status {
    ChatVerdict(chat, threshold).status
  }

  function Verdict(rows: seq<Row>, threshold: Threshold): Report {
    ChatVerdict(ChatRows(rows), threshold)
  }

  method CheckCacheBreak(rows: seq<Row>, threshold: Threshold) returns (report: Report)
    ensures report == Verdict(rows, threshold)
  {
    if !(threshold.Percent? && 0.0 <= threshold.value < 100.0) {
      return Report(UNMEASURED, None);
    }
    var t := threshold.value;
    var chat := ChatRows(rows);
    if |chat| < 2 {
      return Report(UNMEASURED, None);
    }
    var stable, runModel, judged: nat := None, None, 0;
    var multicall: seq<nat>, unusable: seq<nat>, breaks := [], [], [];
    var idx := 1;
    while idx < |chat|
      invariant 1 <= idx <= |chat|
      invariant Tally(stable, runModel, judged, multicall, unusable, breaks) == Scan(chat, idx, t)
    {
      var n, cur := idx + 1, chat[idx];
      idx := idx + 1;
      if cur.numTurns != Some(1) {
        multicall := multicall + [n];
        continue;
      }
      if cur.read.None? || cur.read.value < 0 {
        unusable := unusable + [n];
        continue;
      }
      var rd := cur.read.value;
      if rd == 0 && cur.creation == Some(0) {
        unusable := unusable + [n];
        continue;
      }
      if cur.model.Some? {
        if runModel.None? {
          runModel := cur.model;
        } else if cur.model != runModel {
          unusable := unusable + [n];
          continue;
        }
      }
      judged := judged + 1;
      if rd == 0 || (stable.Some? && FarBelow(rd, stable.value, t)) {
        breaks := breaks + [Break(n, rd, stable)];
      }
      if rd > 0 {
        stable := if stable.None? || rd < stable.value then Some(rd) else stable;
      }
    }
    var s := Tally(stable, runModel, judged, multicall, unusable, breaks);
    report := Report(StatusOf(s), Some(s));
  }

  // ----- the rule, without a running minimum -----

  /** The model of the first usable later row among the first n that names one. */
  function FirstModel(chat: seq<Row>, n: nat): Option<string>
    requires n <= |chat|
  {
    if n <= 1 then None
    else
      var before := FirstModel(chat, n - 1);
      if before.Some? then before
      else if Usable(chat[n - 1]) then chat[n - 1].model
      else None
  }

  /** Row i (from 0) counts: a usable later row that names no model or the run's own. */
  ghost predicate Judged(chat: seq<Row>, i: nat) {
    && 1 <= i < |chat| && Usable(chat[i])
    && (chat[i].model.None? || chat[i].model == FirstModel(chat, |chat|))
  }

  ghost predicate PositiveBefore(chat: seq<Row>, j: nat, i: nat) {
    i < j && Judged(chat, i) && chat[i].read.value > 0
  }

  /** It reads nothing, or more than t percent below every earlier positive judged read, and there is one. */
  ghost predicate Broken(chat: seq<Row>, j: nat, t: real) {
    && Judged(chat, j)
    && (chat[j].read.value == 0
        || ((exists i: nat :: PositiveBefore(chat, j, i))
            && forall i: nat :: PositiveBefore(chat, j, i) ==> FarBelow(chat[j].read.value, chat[i].read.value, t)))
  }

  lemma {:induction false} FirstModelStays(chat: seq<Row>, n: nat, m: nat)
    requires n <= m <= |chat|
    ensures FirstModel(chat, n).Some? ==> FirstModel(chat, m) == FirstModel(chat, n)
  {
    if n < m {
      FirstModelStays(chat, n, m - 1);
    }
  }

  /** Whether a row is judged does not depend on later rows. */
  lemma {:induction false} JudgedLocally(chat: seq<Row>, i: nat)
    requires 1 <= i < |chat|
    ensures Judged(chat, i) <==>
              Usable(chat[i])
              && (chat[i].model.None? || FirstModel(chat, i).None? || FirstModel(chat, i) == chat[i].model)
  {
    FirstModelStays(chat, i, |chat|);
    FirstModelStays(chat, i + 1, |chat|);
    assert FirstModel(chat, i + 1) ==
           if FirstModel(chat, i).Some? then FirstModel(chat, i) else if Usable(chat[i]) then chat[i].model else None;
  }

  ghost predicate IsLeastPositive(chat: seq<Row>, n: nat, stable: Option<int>) {
    match stable
    case None => forall i: nat :: !PositiveBefore(chat, n, i)
    case Some(v) =>
      && (exists i: nat :: PositiveBefore(chat, n, i) && chat[i].read.value == v)
      && (forall i: nat :: PositiveBefore(chat, n, i) ==> v <= chat[i].read.value)
  }

  /** The running minimum is the least positive judged read so far. */
  lemma {:induction false} StableIsLeast(chat: seq<Row>, n: nat, t: real)
    requires n <= |chat|
    ensures Scan(chat, n, t).runModel == FirstModel(chat, n)
    ensures IsLeastPositive(chat, n, Scan(chat, n, t).stable)
  {
    if n > 1 {
      StableIsLeast(chat, n - 1, t);
      JudgedLocally(chat, n - 1);
      var was, now := Scan(chat, n - 1, t).stable, Scan(chat, n, t).stable;
      if now.Some? {
        if now != was {
          assert PositiveBefore(chat, n, n - 1) && chat[n - 1].read.value == now.value;
        } else {
          var i: nat :| PositiveBefore(chat, n - 1, i) && chat[i].read.value == now.value;
          assert PositiveBefore(chat, n, i);
        }
      }
      forall i: nat | PositiveBefore(chat, n, i)
        ensures now.Some? && now.value <= chat[i].read.value
      {
        if i < n - 1 {
          assert PositiveBefore(chat, n - 1, i);
        }
      }
    }
  }

  lemma FarBelowLarger(read: int, least: int, other: int, t: real)
    requires 0.0 <= t < 100.0 && least <= other && FarBelow(read, least, t)
    ensures FarBelow(read, other, t)
  {
    Scale(least as real, other as real, 100.0 - t);
  }

  lemma Scale(a: real, b: real, c: real)
    requires a <= b && c >= 0.0
    ensures a * c <= b * c
  {
  }

  /** Comparing with the running minimum is comparing with every earlier positive judged read. */
  lemma {:induction false} BrokenByLeast(chat: seq<Row>, j: nat, t: real)
    requires 0.0 <= t < 100.0 && Judged(chat, j)
    ensures var s := Scan(chat, j, t).stable;
            Broken(chat, j, t) <==> chat[j].read.value == 0 || (s.Some? && FarBelow(chat[j].read.value, s.value, t))
  {
    StableIsLeast(chat, j, t);
    var s := Scan(chat, j, t).stable;
    var read := chat[j].read.value;
    if s.Some? {
      var least: nat :| PositiveBefore(chat, j, least) && chat[least].read.value == s.value;
      if FarBelow(read, s.value, t) {
        forall i: nat | PositiveBefore(chat, j, i)
          ensures FarBelow(read, chat[i].read.value, t)
        {
          FarBelowLarger(read, s.value, chat[i].read.value, t);
        }
      }
    }
  }

  /** The broken rows among the first n, in order, each with the minimum it was held against. */
  ghost function BrokenRows(chat: seq<Row>, n: nat, t: real): seq<Break>
    requires n <= |chat|
  {
    if n == 0 then []
    else
      BrokenRows(chat, n - 1, t) +
      if Broken(chat, n - 1, t) then [Break(n, chat[n - 1].read.value, Scan(chat, n - 1, t).stable)] else []
  }

  ghost predicate BrokenBelow(chat: seq<Row>, n: nat, t: real) {
    exists j: nat :: j < n && Broken(chat, j, t)
  }

  lemma {:induction false} OneMoreBroken(chat: seq<Row>, n: nat, t: real)
    ensures BrokenBelow(chat, n + 1, t) <==> BrokenBelow(chat, n, t) || Broken(chat, n, t)
  {
    if BrokenBelow(chat, n, t) {
      var j: nat :| j < n && Broken(chat, j, t);
      assert j < n + 1 && Broken(chat, j, t);
    }
  }

  lemma {:induction false} SomeRowBroken(chat: seq<Row>, n: nat, t: real)
    requires n <= |chat|
    ensures BrokenRows(chat, n, t) != [] <==> BrokenBelow(chat, n, t)
  {
    if n > 0 {
      SomeRowBroken(chat, n - 1, t);
      OneMoreBroken(chat, n - 1, t);
    }
  }

  ghost predicate AnyBroken(chat: seq<Row>, t: real) {
    exists j: nat :: Broken(chat, j, t)
  }

  lemma {:induction false} AnyRowBroken(chat: seq<Row>, t: real)
    ensures BrokenRows(chat, |chat|, t) != [] <==> AnyBroken(chat, t)
  {
    SomeRowBroken(chat, |chat|, t);
    if j: nat :| Broken(chat, j, t) {
      assert j < |chat| && Broken(chat, j, t);
    }
  }

  lemma {:induction false} BreaksListed(chat: seq<Row>, n: nat, t: real)
    requires n <= |chat| && 0.0 <= t < 100.0
    ensures Scan(chat, n, t).breaks == BrokenRows(chat, n, t)
  {
    if n > 1 {
      BreaksListed(chat, n - 1, t);
      JudgedLocally(chat, n - 1);
      StableIsLeast(chat, n - 1, t);
      if Judged(chat, n - 1) {
        BrokenByLeast(chat, n - 1, t);
      }
    } else if n == 1 {
      assert BrokenRows(chat, 0, t) == [];
      assert !Judged(chat, 0);
    }
  }

  lemma {:induction false} ScanFails(chat: seq<Row>, t: real)
    requires 0.0 <= t < 100.0
    ensures StatusOf(Scan(chat, |chat|, t)) == FAIL <==> AnyBroken(chat, t)
  {
    BreaksListed(chat, |chat|, t);
    AnyRowBroken(chat, t);
  }

  lemma {:induction false} NothingBroken(chat: seq<Row>, t: real)
    requires |chat| < 2
    ensures !AnyBroken(chat, t)
  {
    forall j: nat
      ensures !Broken(chat, j, t)
    {
    }
  }

  /**
   * The verdict is FAIL exactly when some judged row reads zero or more than t percent below every earlier positive
   * judged read; and the breaks it lists are those rows, in order.
   */
  lemma {:induction false} FailsExactly(rows: seq<Row>, threshold: Threshold)
    ensures var report := Verdict(rows, threshold);
            report.status == FAIL <==> ValidThreshold(threshold) && AnyBroken(ChatRows(rows), threshold.value)
    ensures Verdict(rows, threshold).tally.Some? ==>
              Verdict(rows, threshold).tally.value.breaks
                == BrokenRows(ChatRows(rows), |ChatRows(rows)|, threshold.value)
  {
    var chat := ChatRows(rows);
    if ValidThreshold(threshold) && |chat| >= 2 {
      ScanFails(chat, threshold.value);
      BreaksListed(chat, |chat|, threshold.value);
    } else if ValidThreshold(threshold) {
      NothingBroken(chat, threshold.value);
    }
  }

  // ----- more rows -----

  lemma {:induction false} ChatRowsAppend(a: seq<Row>, b: seq<Row>)
    ensures ChatRows(a + b) == ChatRows(a) + ChatRows(b)
  {
    if a == [] {
      assert a + b == b;
    } else {
      ChatRowsAppend(a[1..], b);
      assert (a + b)[1..] == a[1..] + b;
    }
  }

  lemma {:induction false} FirstModelOfLonger(chat: seq<Row>, longer: seq<Row>, n: nat)
    requires n <= |chat| && chat <= longer
    ensures FirstModel(longer, n) == FirstModel(chat, n)
  {
    if n > 1 {
      FirstModelOfLonger(chat, longer, n - 1);
    }
  }

  lemma JudgedInLonger(chat: seq<Row>, longer: seq<Row>, i: nat)
    requires chat <= longer && i < |chat|
    ensures Judged(chat, i) <==> Judged(longer, i)
  {
    if i >= 1 {
      JudgedLocally(chat, i);
      JudgedLocally(longer, i);
      FirstModelOfLonger(chat, longer, i);
    }
  }

  /** Rows added to a run never undo a FAIL. */
  lemma AppendingKeepsFail(rows: seq<Row>, more: seq<Row>, threshold: Threshold)
    requires Verdict(rows, threshold).status == FAIL
    ensures Verdict(rows + more, threshold).status == FAIL
  {
    FailsExactly(rows, threshold);
    FailsExactly(rows + more, threshold);
    ChatRowsAppend(rows, more);
    var chat, longer, t := ChatRows(rows), ChatRows(rows + more), threshold.value;
    var j: nat :| Broken(chat, j, t);
    forall i: nat | i <= j
      ensures Judged(chat, i) <==> Judged(longer, i)
    {
      JudgedInLonger(chat, longer, i);
    }
    if chat[j].read.value != 0 {
      var i: nat :| PositiveBefore(chat, j, i);
      assert PositiveBefore(longer, j, i);
      forall i: nat | PositiveBefore(longer, j, i)
        ensures FarBelow(longer[j].read.value, longer[i].read.value, t)
      {
        assert PositiveBefore(chat, j, i);
      }
    }
    assert Broken(longer, j, t);
  }

  /** A stricter threshold never turns a FAIL into anything else. */
  lemma StricterKeepsFail(rows: seq<Row>, loose: real, strict: real)
    requires 0.0 <= strict <= loose < 100.0
    requires Verdict(rows, Percent(loose)).status == FAIL
    ensures Verdict(rows, Percent(strict)).status == FAIL
  {
    FailsExactly(rows, Percent(loose));
    FailsExactly(rows, Percent(strict));
    var j: nat :| Broken(ChatRows(rows), j, loose);
    BrokenStricter(ChatRows(rows), j, loose, strict);
  }

  lemma BrokenStricter(chat: seq<Row>, j: nat, loose: real, strict: real)
    requires 0.0 <= strict <= loose < 100.0 && Broken(chat, j, loose)
    ensures Broken(chat, j, strict)
  {
    if chat[j].read.value != 0 {
      forall i: nat | PositiveBefore(chat, j, i)
        ensures FarBelow(chat[j].read.value, chat[i].read.value, strict)
      {
        assert FarBelow(chat[j].read.value, chat[i].read.value, loose);
        Scale(100.0 - loose, 100.0 - strict, chat[i].read.value as real);
      }
    }
  }

  // ----- fewer multi-call rows -----

  /** The tally without row numbers: all the status is read from. */
  ghost predicate SameCore(s: Tally, u: Tally) {
    && s.stable == u.stable && s.runModel == u.runModel && s.judged == u.judged
    && (s.unusable == [] <==> u.unusable == []) && (s.breaks == [] <==> u.breaks == [])
  }

  lemma {:induction false} ScanOfPrefix(chat: seq<Row>, longer: seq<Row>, n: nat, t: real)
    requires n <= |chat| && chat <= longer
    ensures Scan(longer, n, t) == Scan(chat, n, t)
  {
    if n > 1 {
      ScanOfPrefix(chat, longer, n - 1, t);
    }
  }

  lemma {:induction false} WithoutOneRow(a: seq<Row>, r: Row, b: seq<Row>, n: nat, t: real)
    requires a != [] && !SingleCall(r) && n <= |b|
    ensures SameCore(Scan(a + [r] + b, |a| + 1 + n, t), Scan(a + b, |a| + n, t))
  {
    if n == 0 {
      ScanOfPrefix(a, a + b, |a|, t);
      ScanOfPrefix(a, a + [r] + b, |a|, t);
      assert (a + [r] + b)[|a|] == r;
    } else {
      WithoutOneRow(a, r, b, n - 1, t);
      assert (a + [r] + b)[|a| + n] == b[n - 1] == (a + b)[|a| + n - 1];
    }
  }

  /**
   * Deleting a multi-call row, or one that is not a chat row, anywhere after the first chat row leaves the status as it
   * is; repeated, so does deleting any number of them.
   */
  lemma {:induction false} DroppingMultiCallKeepsStatus(a: seq<Row>, r: Row, b: seq<Row>, threshold: Threshold)
    requires ChatRows(a) != [] && (!SingleCall(r) || !r.chat)
    ensures Verdict(a + [r] + b, threshold).status == Verdict(a + b, threshold).status
  {
    ChatRowsAppend(a, b);
    ChatRowsAround(a, r, b);
    if r.chat {
      DroppingKeepsCore(ChatRows(a), r, ChatRows(b), threshold);
    }
  }

  lemma {:induction false} ChatRowsAround(a: seq<Row>, r: Row, b: seq<Row>)
    ensures ChatRows(a + [r] + b) == if r.chat then ChatRows(a) + [r] + ChatRows(b) else ChatRows(a) + ChatRows(b)
  {
    ChatRowsAppend(a + [r], b);
    ChatRowsAppend(a, [r]);
    assert ChatRows([r]) == if r.chat then [r] else [];
  }

  lemma DroppingKeepsCore(a: seq<Row>, r: Row, b: seq<Row>, threshold: Threshold)
    requires a != [] && !SingleCall(r)
    ensures ChatStatus(a + [r] + b, threshold) == ChatStatus(a + b, threshold)
  {
    if ValidThreshold(threshold) {
      WithoutOneRow(a, r, b, |b|, threshold.value);
    }
  }

  // ----- a pass -----

  /** A pass at a zero threshold means no read ever dropped: the final minimum is the very first judged read. */
  lemma {:induction false} PassAtZeroNeverDrops(rows: seq<Row>, first: nat)
    requires Verdict(rows, Percent(0.0)).status == PASS
    requires Judged(ChatRows(rows), first) && forall i: nat :: i < first ==> !Judged(ChatRows(rows), i)
    ensures Verdict(rows, Percent(0.0)).tally.value.stable == ChatRows(rows)[first].read
    ensures forall i: nat :: Judged(ChatRows(rows), i) ==>
            ChatRows(rows)[i].read.value >= ChatRows(rows)[first].read.value > 0
  {
    var chat := ChatRows(rows);
    FailsExactly(rows, Percent(0.0));
    StableIsLeast(chat, |chat|, 0.0);
    var opening := chat[first].read.value;
    assert !Broken(chat, first, 0.0);
    assert PositiveBefore(chat, |chat|, first);
    forall i: nat | Judged(chat, i)
      ensures chat[i].read.value >= opening
    {
      NoDropBefore(chat, first, i);
    }
  }

  /** With no broken row, no judged row reads less than the first judged one. */
  lemma {:induction false} NoDropBefore(chat: seq<Row>, first: nat, j: nat)
    requires forall i: nat :: !Broken(chat, i, 0.0)
    requires Judged(chat, first) && forall i: nat :: i < first ==> !Judged(chat, i)
    requires Judged(chat, j)
    ensures chat[j].read.value >= chat[first].read.value
    decreases j
  {
    assert !Broken(chat, first, 0.0) && !Broken(chat, j, 0.0);
    if j != first {
      assert PositiveBefore(chat, j, first);
      var i: nat :| PositiveBefore(chat, j, i) && !FarBelow(chat[j].read.value, chat[i].read.value, 0.0);
      NoDropBefore(chat, first, i);
    }
  }

  // ----- the other verdicts -----

  /** The numbers, from 1, of the later rows among the first n that make more than one call. */
  function MultiCallRows(chat: seq<Row>, n: nat): seq<nat>
    requires n <= |chat|
  {
    if n <= 1 then [] else MultiCallRows(chat, n - 1) + if SingleCall(chat[n - 1]) then [] else [n]
  }

  /** Of those that make one call and are not judged. */
  ghost function UnjudgedRows(chat: seq<Row>, n: nat): seq<nat>
    requires n <= |chat|
  {
    if n <= 1 then []
    else UnjudgedRows(chat, n - 1) + if SingleCall(chat[n - 1]) && !Judged(chat, n - 1) then [n] else []
  }

  ghost function JudgedCount(chat: seq<Row>, n: nat): nat
    requires n <= |chat|
  {
    if n <= 1 then 0 else JudgedCount(chat, n - 1) + if Judged(chat, n - 1) then 1 else 0
  }

  /** Every later row is listed in its place: as judged, as a multi-call row or as unusable. */
  lemma {:induction false} ScanLists(chat: seq<Row>, n: nat, t: real)
    requires n <= |chat|
    ensures var s := Scan(chat, n, t);
            && s.judged == JudgedCount(chat, n)
            && s.multicall == MultiCallRows(chat, n)
            && s.unusable == UnjudgedRows(chat, n)
  {
    if n > 1 {
      ScanLists(chat, n - 1, t);
      StableIsLeast(chat, n - 1, t);
      JudgedLocally(chat, n - 1);
    }
  }

  /** A single call whose row cannot be judged. */
  ghost predicate AnyUnjudged(chat: seq<Row>) {
    exists i: nat :: UnjudgedAt(chat, i)
  }

  ghost predicate UnjudgedAt(chat: seq<Row>, i: nat) {
    1 <= i < |chat| && SingleCall(chat[i]) && !Judged(chat, i)
  }

  lemma {:induction false} UnjudgedListed(chat: seq<Row>, n: nat)
    requires n <= |chat|
    ensures UnjudgedRows(chat, n) != [] <==> exists i: nat :: i < n && UnjudgedAt(chat, i)
  {
    if n > 1 {
      UnjudgedListed(chat, n - 1);
      if UnjudgedAt(chat, n - 1) {
        assert n - 1 < n;
      }
      if i: nat :| i < n - 1 && UnjudgedAt(chat, i) {
        assert i < n && UnjudgedAt(chat, i);
      }
    }
  }

  /**
   * The whole verdict, for every log and threshold: unmeasured without a usable threshold or two chat rows; else FAIL
   * when a row is broken, unmeasured when a single call could not be judged or fewer than two were, and PASS otherwise.
   */
  lemma {:induction false} StatusExactly(rows: seq<Row>, threshold: Threshold)
    ensures var chat := ChatRows(rows);
            Verdict(rows, threshold).status
            == if !(threshold.Percent? && 0.0 <= threshold.value < 100.0) || |chat| < 2 then UNMEASURED
               else if AnyBroken(chat, threshold.value) then FAIL
               else if AnyUnjudged(chat) || JudgedCount(chat, |chat|) < 2 then UNMEASURED
               else PASS
  {
    var chat := ChatRows(rows);
    if ValidThreshold(threshold) && |chat| >= 2 {
      ScanFails(chat, threshold.value);
      BreaksListed(chat, |chat|, threshold.value);
      ScanLists(chat, |chat|, threshold.value);
      UnjudgedListed(chat, |chat|);
      if i: nat :| UnjudgedAt(chat, i) {
        assert i < |chat|;
      }
    }
  }

  /**
   * What it takes to judge a row, in its own fields: a later row of one call with a read of zero or more that is not an
   * all-zero record, and whose model, if it names one, is the run's.
   */
  lemma {:induction false} JudgedExactly(chat: seq<Row>, i: nat)
    ensures Judged(chat, i)
            <==> && 1 <= i < |chat| && chat[i].numTurns == Some(1)
                 && chat[i].read.Some? && chat[i].read.value >= 0
                 && (chat[i].read.value > 0 || chat[i].creation != Some(0))
                 && (chat[i].model.None? || chat[i].model == FirstModel(chat, |chat|))
  {
  }
}
