/** The resumable backfill over the sampled windows: its triggers, one run, and sequences of runs. */
module Backfill {
  import opened Wrappers
  import opened Budget
  import Sampling

  /** Major, minor, patch, 0 for a pre-release else 1, pre-release number. */
  datatype SchemaKey = SchemaKey(major: nat, minor: nat, patch: nat, release: nat, pre: nat)

  /** A version text and its sort key, if it parses. */
  datatype Version = Version(text: string, key: Option<SchemaKey>)

  datatype Status = Running | Deferred | Complete

  datatype Kind = Full | Supplementary

  /** The cursor is the id of the last merged window; none is the empty text. */
  datatype State = State(
    startedAt: int, totalWindows: nat, sampledWindows: nat, processed: int, emitted: int, status: Status,
    cursor: Option<nat>, version: Version, kind: Kind, categories: Option<set<string>>)

  const MIN_TURNS := 10

  // ----- triggers -----

  predicate Older(a: SchemaKey, b: SchemaKey) {
    if a.major != b.major then a.major < b.major
    else if a.minor != b.minor then a.minor < b.minor
    else if a.patch != b.patch then a.patch < b.patch
    else if a.release != b.release then a.release < b.release
    else a.pre < b.pre
  }

  predicate UnfinishedSupplementary(saved: Option<State>) {
    saved.Some? && saved.value.kind == Supplementary && saved.value.status != Complete
  }

  predicate ShouldRunFull(turns: nat, saved: Option<State>) {
    if turns < MIN_TURNS then false
    else if saved.Some? && saved.value.status == Complete then false
    else !UnfinishedSupplementary(saved)
  }

  /** An unparseable version is re-run on any difference. */
  predicate Outdated(found: Version, current: Version) {
    if found.key.None? || current.key.None? then found.text != current.text
    else Older(found.key.value, current.key.value)
  }

  predicate ShouldRunSupplementary(saved: Option<State>, current: Version) {
    if UnfinishedSupplementary(saved) then true
    else if saved.None? || saved.value.status != Complete then false
    else Outdated(saved.value.version, current)
  }

  /** At a start never both passes are due; and the supplementary one only on a completed or supplementary record. */
  lemma NeverBoth(turns: nat, saved: Option<State>, current: Version)
    ensures !(ShouldRunFull(turns, saved) && ShouldRunSupplementary(saved, current))
    ensures ShouldRunSupplementary(saved, current) ==>
              saved.Some? && (saved.value.status == Complete || saved.value.kind == Supplementary)
  {
  }

  /** Age is a strict order: of two versions that differ in key exactly one is older. */
  lemma OlderIsStrict(a: SchemaKey, b: SchemaKey, c: SchemaKey)
    ensures !Older(a, a)
    ensures Older(a, b) && Older(b, c) ==> Older(a, c)
    ensures a != b ==> (Older(a, b) <==> !Older(b, a))
    ensures a.major < b.major ==> Older(a, b)
    ensures a.major == b.major && a.minor < b.minor ==> Older(a, b)
    ensures a.major == b.major && a.minor == b.minor && a.patch < b.patch ==> Older(a, b)
    ensures (a.major, a.minor, a.patch) == (b.major, b.minor, b.patch) ==>
              (a.release < b.release ==> Older(a, b)) && (a.release == b.release && a.pre < b.pre ==> Older(a, b))
  {
  }

  // ----- one run -----

  datatype Outcome = Answered(candidates: nat) | Refused | Failed

  /** What a run meets at one window: the user chatting, the background slot, and what the detector would say. */
  datatype Moment = Moment(active: bool, slot: bool, outcome: Outcome)

  /** What a run is given: the sampled windows' ids in order, today's date and cap, and what it will meet. */
  datatype Setting = Setting(
    ids: seq<nat>, total: nat, today: int, now: int, cap: int, version: Version,
    categories: Option<set<string>>, meets: nat -> Moment)

  /** What persists; `merges` is the history of window positions handed to the learner. */
  datatype Disk = Disk(saved: Option<State>, ledger: Ledger, merges: seq<nat>, crystallised: nat)

  /** Where a run ended; `finished` says that it went through all the windows and was written off as complete. */
  datatype Ended = Ended(disk: Disk, state: State, attempted: nat, succeeded: nat, charged: nat, finished: bool)

  /** The position after the window with this id; 0 when there is none. */
  function CursorIndex(ids: seq<nat>, cursor: Option<nat>): (i: nat)
    ensures i <= |ids|
  {
    if cursor.None? then 0
    else
      var at := Find(ids, cursor.value);
      if at < |ids| then at + 1 else 0
  }

  function Find(ids: seq<nat>, id: nat): (i: nat)
    ensures i <= |ids|
    ensures i < |ids| ==> ids[i] == id
    ensures forall j :: 0 <= j < i ==> ids[j] != id
  {
    if ids == [] then 0 else if ids[0] == id then 0 else 1 + Find(ids[1..], id)
  }

  /** The loop from window i on. */
  function Loop(s: Setting, i: nat, disk: Disk, state: State, attempted: nat, succeeded: nat, charged: nat): Ended
    requires i <= |s.ids|
    decreases |s.ids| - i
  {
    if i == |s.ids| then
      if attempted > 0 && succeeded == 0 then Ended(disk, state, attempted, succeeded, charged, false)
      else
        var done := state.(status := Complete);
        Ended(disk.(saved := Some(done), crystallised := disk.crystallised + 1), done,
              attempted, succeeded, charged, true)
    else
      var m := s.meets(i);
      if m.active || !m.slot then Ended(disk, state, attempted, succeeded, charged, false)
      else if Remaining(disk.ledger, s.today, s.cap) <= 0 then
        var deferred := state.(status := Deferred);
        Ended(disk.(saved := Some(deferred)), deferred, attempted, succeeded, charged, false)
      else
        var (ledger, ok) := Charge(disk.ledger, s.today, s.cap);
        var paid := charged + if ok then 1 else 0;
        match m.outcome
        case Refused => Ended(disk, state, attempted + 1, succeeded, charged, false)
        case Failed =>
          Loop(s, i + 1, disk.(ledger := ledger, saved := Some(state)), state, attempted + 1, succeeded, paid)
        case Answered(candidates) =>
          var next := state.(processed := state.processed + 1, emitted := state.emitted + candidates,
                             cursor := Some(s.ids[i]));
          Loop(s, i + 1, disk.(ledger := ledger, merges := disk.merges + [i], saved := Some(next)), next,
               attempted + 1, succeeded + 1, paid)
  }

  /** Does this call pick up an unfinished supplementary pass? */
  predicate Resumes(saved: Option<State>, supplementary: bool) {
    supplementary && UnfinishedSupplementary(saved)
  }

  function StartIndex(s: Setting, saved: Option<State>, supplementary: bool): (i: nat)
    ensures i <= |s.ids|
  {
    if saved.None? || (supplementary && !Resumes(saved, supplementary)) then 0
    else CursorIndex(s.ids, saved.value.cursor)
  }

  function StartState(s: Setting, saved: Option<State>, supplementary: bool): State {
    var keep := saved.Some? && (!supplementary || Resumes(saved, supplementary));
    var categories :=
      if Resumes(saved, supplementary) && saved.value.categories.Some? && saved.value.categories.value != {}
      then saved.value.categories else s.categories;
    State(if saved.Some? then saved.value.startedAt else s.now, s.total, |s.ids|,
          if saved.Some? then saved.value.processed else 0,
          if saved.Some? then saved.value.emitted else 0,
          Running, if keep then saved.value.cursor else None, s.version,
          if supplementary then Supplementary else Full,
          if supplementary then categories else None)
  }

  function Run(s: Setting, disk: Disk, supplementary: bool): Ended {
    if !supplementary && disk.saved.Some? && disk.saved.value.status == Complete
    then Ended(disk, disk.saved.value, 0, 0, 0, false)
    else Loop(s, StartIndex(s, disk.saved, supplementary), disk, StartState(s, disk.saved, supplementary), 0, 0, 0)
  }

  /** What a start of the app does: whichever pass is due, if any. */
  function Startup(s: Setting, turns: nat, disk: Disk): Disk {
    if ShouldRunFull(turns, disk.saved) then Run(s, disk, false).disk
    else if ShouldRunSupplementary(disk.saved, s.version) then Run(s, disk, true).disk
    else disk
  }

  class Backfiller {
    var saved: Option<State>
    const budget: BudgetFile
    ghost var merges: seq<nat>
    var crystallised: nat

    ghost function Contents(): Disk
      reads this, budget
    {
      Disk(saved, budget.ledger, merges, crystallised)
    }

    constructor (saved: Option<State>, budget: BudgetFile)
      ensures this.saved == saved && this.budget == budget && merges == [] && crystallised == 0
    {
      this.saved, this.budget, merges, crystallised := saved, budget, [], 0;
    }

    method RunBackfill(s: Setting, supplementary: bool) returns (state: State, ghost ended: Ended)
      modifies this, budget
      ensures ended == Run(s, old(Contents()), supplementary)
      ensures Contents() == ended.disk && state == ended.state
    {
      ended := Run(s, Contents(), supplementary);
      if !supplementary && saved.Some? && saved.value.status == Complete {
        return saved.value, ended;
      }
      state := StartState(s, saved, supplementary);
      var attempted, succeeded := 0, 0;
      ghost var charged := 0;
      var i := StartIndex(s, saved, supplementary);
      while i < |s.ids|
        invariant i <= |s.ids|
        invariant ended == Loop(s, i, Contents(), state, attempted, succeeded, charged)
      {
        var m := s.meets(i);
        if m.active {
          return;
        }
        if !m.slot {
          return;
        }
        var left := budget.GetRemaining(s.today, s.cap);
        if left <= 0 {
          state := state.(status := Deferred);
          saved := Some(state);
          return;
        }
        attempted := attempted + 1;
        match m.outcome {
          case Refused =>
            return;
          case Failed =>
            var ok := budget.ConsumeCall(s.today, s.cap);
            charged := charged + if ok then 1 else 0;
            saved := Some(state);
          case Answered(candidates) =>
            var ok := budget.ConsumeCall(s.today, s.cap);
            charged := charged + if ok then 1 else 0;
            succeeded := succeeded + 1;
            merges := merges + [i];
            state := state.(processed := state.processed + 1, emitted := state.emitted + candidates,
                            cursor := Some(s.ids[i]));
            saved := Some(state);
        }
        i := i + 1;
      }
      if attempted > 0 && succeeded == 0 {
        return;
      }
      crystallised := crystallised + 1;
      state := state.(status := Complete);
      saved := Some(state);
    }
  }

  // ----- what one run keeps -----

  ghost predicate Increasing(s: seq<nat>) {
    |s| > 1 ==> s[|s| - 2] < s[|s| - 1] && Increasing(s[..|s| - 1])
  }

  lemma {:induction false} IncreasingPairs(s: seq<nat>)
    requires Increasing(s)
    ensures forall i, j :: 0 <= i < j < |s| ==> s[i] < s[j]
  {
    if |s| > 1 {
      IncreasingPairs(s[..|s| - 1]);
    }
  }

  ghost predicate DistinctIds(ids: seq<nat>) {
    forall i, j :: 0 <= i < j < |ids| ==> ids[i] != ids[j]
  }

  /** The cursor names the last window merged in this pass. */
  ghost predicate CursorAtLast(ids: seq<nat>, cursor: Option<nat>, merges: seq<nat>) {
    && (merges != [] ==> merges[|merges| - 1] < |ids|)
    && cursor == if merges == [] then None else Some(ids[merges[|merges| - 1]])
  }

  /** The record agrees with the history of merges, counted on from `base`. */
  ghost predicate Agrees(ids: seq<nat>, state: State, merges: seq<nat>, base: int) {
    && Increasing(merges)
    && CursorAtLast(ids, state.cursor, merges)
    && state.processed == base + |merges|
  }

  lemma {:induction false} FindUnique(ids: seq<nat>, i: nat)
    requires DistinctIds(ids) && i < |ids|
    ensures Find(ids, ids[i]) == i
  {
  }

  /** Where the record says to resume is behind every window merged so far. */
  lemma {:induction false} ResumesBehind(ids: seq<nat>, cursor: Option<nat>, merges: seq<nat>)
    requires DistinctIds(ids) && Increasing(merges) && CursorAtLast(ids, cursor, merges)
    ensures merges != [] ==> CursorIndex(ids, cursor) == merges[|merges| - 1] + 1
  {
    if merges != [] {
      FindUnique(ids, merges[|merges| - 1]);
    }
  }

  lemma AgreesOneMore(ids: seq<nat>, state: State, merges: seq<nat>, base: int, i: nat, candidates: nat)
    requires Agrees(ids, state, merges, base) && i < |ids| && (merges != [] ==> merges[|merges| - 1] < i)
    ensures Agrees(ids,
                   state.(processed := state.processed + 1, emitted := state.emitted + candidates,
                          cursor := Some(ids[i])),
                   merges + [i], base)
  {
    assert (merges + [i])[..|merges|] == merges;
  }

  /** Whatever happens in the loop: merges go on in order, and the record keeps up with them. */
  lemma {:induction false} LoopKeeps(s: Setting, i: nat, disk: Disk, state: State, a: nat, b: nat, c: nat, base: int)
    requires i <= |s.ids| && Agrees(s.ids, state, disk.merges, base)
    requires disk.merges != [] ==> disk.merges[|disk.merges| - 1] < i
    ensures var e := Loop(s, i, disk, state, a, b, c);
            Agrees(s.ids, e.state, e.disk.merges, base)
    decreases |s.ids| - i
  {
    if i < |s.ids| {
      var m := s.meets(i);
      if !m.active && m.slot && Remaining(disk.ledger, s.today, s.cap) > 0 {
        var (ledger, ok) := Charge(disk.ledger, s.today, s.cap);
        var paid := c + if ok then 1 else 0;
        match m.outcome {
          case Refused =>
          case Failed =>
            LoopKeeps(s, i + 1, disk.(ledger := ledger, saved := Some(state)), state, a + 1, b, paid, base);
          case Answered(candidates) =>
            var next := state.(processed := state.processed + 1, emitted := state.emitted + candidates,
                               cursor := Some(s.ids[i]));
            AgreesOneMore(s.ids, state, disk.merges, base, i, candidates);
            LoopKeeps(s, i + 1, disk.(ledger := ledger, merges := disk.merges + [i], saved := Some(next)), next,
                      a + 1, b + 1, paid, base);
        }
      }
    }
  }

  /** A run that stops leaves its own record on disk, or has done nothing at all; only a finished one is complete. */
  lemma {:induction false} LoopSaves(s: Setting, i: nat, disk: Disk, state: State, a: nat, b: nat, c: nat)
    requires i <= |s.ids| && state.status == Running
    ensures var e := Loop(s, i, disk, state, a, b, c);
            && disk.merges <= e.disk.merges
            && e.state.kind == state.kind && e.state.version == state.version
            && (e.disk.saved == Some(e.state)
                || (e.disk.saved == disk.saved && e.disk.merges == disk.merges && e.state == state))
            && (e.finished <==> e.state.status == Complete)
            && (e.finished ==> e.disk.saved == Some(e.state))
    decreases |s.ids| - i
  {
    if i < |s.ids| {
      var m := s.meets(i);
      if !m.active && m.slot && Remaining(disk.ledger, s.today, s.cap) > 0 {
        var (ledger, ok) := Charge(disk.ledger, s.today, s.cap);
        var paid := c + if ok then 1 else 0;
        match m.outcome {
          case Refused =>
          case Failed =>
            LoopSaves(s, i + 1, disk.(ledger := ledger, saved := Some(state)), state, a + 1, b, paid);
          case Answered(candidates) =>
            var next := state.(processed := state.processed + 1, emitted := state.emitted + candidates,
                               cursor := Some(s.ids[i]));
            LoopSaves(s, i + 1, disk.(ledger := ledger, merges := disk.merges + [i], saved := Some(next)), next,
                      a + 1, b + 1, paid);
        }
      }
    }
  }

  /** Calls not refused are charged one each, and a day's count never passes the cap it is charged under. */
  lemma {:induction false} CallsArePaid(s: Setting, i: nat, disk: Disk, state: State, a: nat, b: nat, c: nat)
    requires i <= |s.ids|
    ensures var e := Loop(s, i, disk, state, a, b, c);
            && e.charged - c <= e.attempted - a <= e.charged - c + 1
            && e.succeeded - b <= e.charged - c
            && CountOn(e.disk.ledger, s.today) == CountOn(disk.ledger, s.today) + (e.charged - c)
            && (CountOn(disk.ledger, s.today) <= s.cap ==> CountOn(e.disk.ledger, s.today) <= s.cap)
            && |e.disk.merges| == |disk.merges| + (e.succeeded - b)
    decreases |s.ids| - i
  {
    if i < |s.ids| {
      var m := s.meets(i);
      if !m.active && m.slot && Remaining(disk.ledger, s.today, s.cap) > 0 {
        var ledger := Charge(disk.ledger, s.today, s.cap).0;
        CheckThenCharge(disk.ledger, s.today, s.cap);
        match m.outcome {
          case Refused =>
          case Failed =>
            CallsArePaid(s, i + 1, disk.(ledger := ledger, saved := Some(state)), state, a + 1, b, c + 1);
          case Answered(candidates) =>
            var next := state.(processed := state.processed + 1, emitted := state.emitted + candidates,
                               cursor := Some(s.ids[i]));
            CallsArePaid(s, i + 1, disk.(ledger := ledger, merges := disk.merges + [i], saved := Some(next)), next,
                         a + 1, b + 1, c + 1);
        }
      }
    }
  }

  /** A run is written off as complete only if some call succeeded or none was attempted. */
  lemma {:induction false} CompleteNeedsASuccess(s: Setting, i: nat, disk: Disk, state: State, a: nat, b: nat, c: nat)
    requires i <= |s.ids|
    ensures var e := Loop(s, i, disk, state, a, b, c); e.finished ==> e.attempted == 0 || e.succeeded > 0
    decreases |s.ids| - i
  {
    if i < |s.ids| {
      var m := s.meets(i);
      if !m.active && m.slot && Remaining(disk.ledger, s.today, s.cap) > 0 {
        var ledger := Charge(disk.ledger, s.today, s.cap).0;
        CheckThenCharge(disk.ledger, s.today, s.cap);
        match m.outcome {
          case Refused =>
          case Failed =>
            CompleteNeedsASuccess(s, i + 1, disk.(ledger := ledger, saved := Some(state)), state, a + 1, b, c + 1);
          case Answered(candidates) =>
            var next := state.(processed := state.processed + 1, emitted := state.emitted + candidates,
                               cursor := Some(s.ids[i]));
            CompleteNeedsASuccess(s, i + 1,
                                  disk.(ledger := ledger, merges := disk.merges + [i], saved := Some(next)), next,
                                  a + 1, b + 1, c + 1);
        }
      }
    }
  }

  ghost predicate AllFailFrom(s: Setting, i: nat) {
    forall k: nat :: i <= k < |s.ids| ==> s.meets(k) == Moment(false, true, Failed)
  }

  /**
   * When every window left fails, the run keeps its cursor and stays unfinished: the next one tries the same windows.
   */
  lemma {:induction false} FailingTailRetries(s: Setting, i: nat, disk: Disk, state: State, a: nat, c: nat)
    requires i <= |s.ids| && AllFailFrom(s, i) && state.status == Running && (i < |s.ids| || a > 0)
    ensures var e := Loop(s, i, disk, state, a, 0, c);
            !e.finished && e.state.cursor == state.cursor && e.state.status != Complete && e.disk.merges == disk.merges
    decreases |s.ids| - i
  {
    if i < |s.ids| && Remaining(disk.ledger, s.today, s.cap) > 0 {
      var ledger := Charge(disk.ledger, s.today, s.cap).0;
      CheckThenCharge(disk.ledger, s.today, s.cap);
      FailingTailRetries(s, i + 1, disk.(ledger := ledger, saved := Some(state)), state, a + 1, c + 1);
    }
  }

  // ----- sequences of starts over an unchanged history -----

  /** A start, and the budget record it finds: other callers may have charged it since the last one. */
  datatype Begun = Begun(setting: Setting, ledger: Ledger)

  /** The same buffer and version at every start; date, cap, budget and what each run meets are free. */
  ghost predicate SameHistory(starts: seq<Begun>, ids: seq<nat>, version: Version) {
    forall k :: 0 <= k < |starts| ==> starts[k].setting.ids == ids && starts[k].setting.version == version
  }

  function AfterStarts(starts: seq<Begun>, turns: nat, disk: Disk): Disk {
    if starts == [] then disk
    else
      var last := starts[|starts| - 1];
      Startup(last.setting, turns, AfterStarts(starts[..|starts| - 1], turns, disk).(ledger := last.ledger))
  }

  /** A pass begins with no record, or with a complete one of an older version. */
  ghost predicate Begins(saved: Option<State>, version: Version) {
    saved.Some? ==> saved.value.status == Complete && Outdated(saved.value.version, version)
  }

  function Base(saved: Option<State>): int {
    if saved.Some? then saved.value.processed else 0
  }

  /** Between starts: nothing saved yet, or a record of this pass that agrees with its merges. */
  ghost predicate Between(begin: Option<State>, disk: Disk, ids: seq<nat>, version: Version) {
    || (disk.saved == begin && disk.merges == [])
    || (disk.saved.Some?
        && disk.saved.value.version == version
        && disk.saved.value.kind == (if begin.Some? then Supplementary else Full)
        && Agrees(ids, disk.saved.value, disk.merges, Base(begin)))
  }

  lemma SameVersionNotOutdated(v: Version)
    ensures !Outdated(v, v)
  {
  }

  lemma StartKeeps(begin: Option<State>, s: Setting, turns: nat, disk: Disk)
    requires Begins(begin, s.version) && DistinctIds(s.ids)
    requires Between(begin, disk, s.ids, s.version)
    ensures Between(begin, Startup(s, turns, disk), s.ids, s.version)
    ensures disk.merges <= Startup(s, turns, disk).merges
  {
    SameVersionNotOutdated(s.version);
    var full := ShouldRunFull(turns, disk.saved);
    if full || ShouldRunSupplementary(disk.saved, s.version) {
      var i, state := StartIndex(s, disk.saved, !full), StartState(s, disk.saved, !full);
      if disk.saved.Some? && disk.saved != begin {
        ResumesBehind(s.ids, disk.saved.value.cursor, disk.merges);
      }
      LoopKeeps(s, i, disk, state, 0, 0, 0, Base(begin));
      LoopSaves(s, i, disk, state, 0, 0, 0);
    }
  }

  /**
   * Over any number of starts, each stopped by whatever it meets and each finding the budget as other callers left it,
   * the windows of a pass are merged in sample order and never twice, and the processed count is what it was before the
   * pass plus one per merge.
   */
  lemma {:induction false} MergedOnceInOrder(starts: seq<Begun>, turns: nat, begin: Option<State>, ledger: Ledger,
                                             ids: seq<nat>, version: Version)
    requires SameHistory(starts, ids, version) && DistinctIds(ids) && Begins(begin, version)
    ensures var disk := AfterStarts(starts, turns, Disk(begin, ledger, [], 0));
            && Between(begin, disk, ids, version)
            && (forall i, j :: 0 <= i < j < |disk.merges| ==> disk.merges[i] < disk.merges[j])
            && (disk.merges != [] ==> disk.saved.Some? && disk.saved.value.processed == Base(begin) + |disk.merges|)
  {
    if starts != [] {
      var before, last := starts[..|starts| - 1], starts[|starts| - 1];
      MergedOnceInOrder(before, turns, begin, ledger, ids, version);
      var found := AfterStarts(before, turns, Disk(begin, ledger, [], 0)).(ledger := last.ledger);
      StartKeeps(begin, last.setting, turns, found);
    }
    IncreasingPairs(AfterStarts(starts, turns, Disk(begin, ledger, [], 0)).merges);
  }

  /**
   * What is due, over any starts. While a pass is not complete each start runs it: the supplementary one after a
   * complete record of an older version, otherwise the full one, as soon as there are ten turns. Once it is complete
   * none is due.
   */
  lemma {:induction false} DueUntilComplete(starts: seq<Begun>, turns: nat, begin: Option<State>, ledger: Ledger,
                                            ids: seq<nat>, version: Version)
    requires SameHistory(starts, ids, version) && DistinctIds(ids) && Begins(begin, version)
    ensures var saved := AfterStarts(starts, turns, Disk(begin, ledger, [], 0)).saved;
            var complete := saved.Some? && saved.value.status == Complete && saved.value.version == version;
            && (ShouldRunFull(turns, saved) <==> !complete && begin.None? && turns >= 10)
            && (ShouldRunSupplementary(saved, version) <==> !complete && begin.Some?)
  {
    MergedOnceInOrder(starts, turns, begin, ledger, ids, version);
    SameVersionNotOutdated(version);
  }

  /** An older version is outdated; and so is any other where one of the two does not parse. */
  lemma OutdatedExactly(found: Version, current: Version)
    ensures Outdated(found, current)
            <==> if found.key.Some? && current.key.Some?
                 then found.key != current.key && !Older(current.key.value, found.key.value)
                 else found.text != current.text
  {
  }

  // ----- what a complete pass has covered -----

  /** A call of the model on one window, and what came of it. */
  datatype Call = Call(window: nat, outcome: Outcome)

  /** The calls of the loop from window i on. */
  function Calls(s: Setting, i: nat, ledger: Ledger): (calls: seq<Call>)
    requires i <= |s.ids|
    ensures i + |calls| <= |s.ids|
    ensures forall j :: 0 <= j < |calls| ==> calls[j].window == i + j
    ensures forall j :: 0 <= j < |calls| - 1 ==> !calls[j].outcome.Refused?
    decreases |s.ids| - i
  {
    if i == |s.ids| then []
    else
      var m := s.meets(i);
      if m.active || !m.slot || Remaining(ledger, s.today, s.cap) <= 0 then []
      else if m.outcome.Refused? then [Call(i, Refused)]
      else [Call(i, m.outcome)] + Calls(s, i + 1, Charge(ledger, s.today, s.cap).0)
  }

  /** The calls a start of the app makes. */
  function StartCalls(s: Setting, turns: nat, disk: Disk): seq<Call> {
    var full := ShouldRunFull(turns, disk.saved);
    if full || ShouldRunSupplementary(disk.saved, s.version)
    then Calls(s, StartIndex(s, disk.saved, !full), disk.ledger) else []
  }

  ghost predicate AnsweredIn(calls: seq<Call>, k: nat) {
    exists j :: 0 <= j < |calls| && calls[j].window == k && calls[j].outcome.Answered?
  }

  ghost predicate FailedIn(calls: seq<Call>, k: nat) {
    exists j :: 0 <= j < |calls| && calls[j] == Call(k, Failed)
  }

  ghost predicate CalledIn(calls: seq<Call>, k: nat) {
    exists j :: 0 <= j < |calls| && calls[j].window == k
  }

  ghost predicate SomeAnswered(calls: seq<Call>) {
    exists j :: 0 <= j < |calls| && calls[j].outcome.Answered?
  }

  lemma OneCallMore(c: Call, rest: seq<Call>, k: nat)
    ensures AnsweredIn([c] + rest, k) <==> (c.window == k && c.outcome.Answered?) || AnsweredIn(rest, k)
    ensures SomeAnswered([c] + rest) <==> c.outcome.Answered? || SomeAnswered(rest)
  {
    var calls := [c] + rest;
    assert calls[0] == c;
    forall j | 0 <= j < |rest|
      ensures calls[j + 1] == rest[j]
    {
    }
  }

  /** What the loop merges is what its calls answered, and it finishes only when no window was left uncalled. */
  lemma {:induction false} LoopCalls(s: Setting, i: nat, disk: Disk, state: State, a: nat, b: nat, c: nat, k: nat)
    requires i <= |s.ids|
    ensures var e, calls := Loop(s, i, disk, state, a, b, c), Calls(s, i, disk.ledger);
            && (k in e.disk.merges <==> k in disk.merges || AnsweredIn(calls, k))
            && (e.finished ==>
                  && i + |calls| == |s.ids|
                  && (forall j :: 0 <= j < |calls| ==> !calls[j].outcome.Refused?)
                  && (a + |calls| > 0 ==> b > 0 || SomeAnswered(calls)))
    decreases |s.ids| - i
  {
    if i < |s.ids| {
      var m := s.meets(i);
      if !m.active && m.slot && Remaining(disk.ledger, s.today, s.cap) > 0 {
        var (ledger, ok) := Charge(disk.ledger, s.today, s.cap);
        var paid := c + if ok then 1 else 0;
        OneCallMore(Call(i, m.outcome), Calls(s, i + 1, ledger), k);
        match m.outcome {
          case Refused =>
          case Failed =>
            LoopCalls(s, i + 1, disk.(ledger := ledger, saved := Some(state)), state, a + 1, b, paid, k);
          case Answered(candidates) =>
            var next := state.(processed := state.processed + 1, emitted := state.emitted + candidates,
                               cursor := Some(s.ids[i]));
            LoopCalls(s, i + 1, disk.(ledger := ledger, merges := disk.merges + [i], saved := Some(next)), next,
                      a + 1, b + 1, paid, k);
        }
      }
    }
  }

  /** The calls of each start. */
  function CallLog(starts: seq<Begun>, turns: nat, disk: Disk): (log: seq<seq<Call>>)
    ensures |log| == |starts|
  {
    if starts == [] then []
    else
      var before, last := starts[..|starts| - 1], starts[|starts| - 1];
      CallLog(before, turns, disk)
      + [StartCalls(last.setting, turns, AfterStarts(before, turns, disk).(ledger := last.ledger))]
  }

  /** The start whose call on a window was its last: it failed, while that start was answered on another window. */
  ghost predicate GivenUpAt(log: seq<seq<Call>>, k: nat, n: nat) {
    && n < |log| && FailedIn(log[n], k) && SomeAnswered(log[n])
    && forall m :: n < m < |log| ==> !CalledIn(log[m], k)
  }

  ghost predicate GivenUp(log: seq<seq<Call>>, k: nat) {
    exists n: nat :: GivenUpAt(log, k, n)
  }

  lemma OneStartMore(log: seq<seq<Call>>, calls: seq<Call>, k: nat)
    ensures GivenUp(log + [calls], k)
            <==> (FailedIn(calls, k) && SomeAnswered(calls)) || (GivenUp(log, k) && !CalledIn(calls, k))
  {
    var longer := log + [calls];
    if FailedIn(calls, k) && SomeAnswered(calls) {
      assert GivenUpAt(longer, k, |log|);
    } else if GivenUp(log, k) && !CalledIn(calls, k) {
      var n: nat :| GivenUpAt(log, k, n);
      assert GivenUpAt(longer, k, n);
    }
    if GivenUp(longer, k) {
      var n: nat :| GivenUpAt(longer, k, n);
      if n < |log| {
        assert longer[|log|] == calls;
        forall m | n < m < |log|
          ensures !CalledIn(log[m], k)
        {
          assert longer[m] == log[m];
        }
        assert GivenUpAt(log, k, n);
      }
    }
  }

  ghost predicate PassComplete(disk: Disk, version: Version) {
    disk.saved.Some? && disk.saved.value.status == Complete && disk.saved.value.version == version
  }

  /** The window after the last one merged. */
  function NextWindow(merges: seq<nat>): nat {
    if merges == [] then 0 else merges[|merges| - 1] + 1
  }

  /** Every window the pass has left behind was merged or given up, and never both. */
  ghost predicate Covered(disk: Disk, log: seq<seq<Call>>, ids: seq<nat>, version: Version) {
    && (forall k :: 0 <= k < (if PassComplete(disk, version) then |ids| else NextWindow(disk.merges)) ==>
          k in disk.merges || GivenUp(log, k))
    && (forall k: nat :: GivenUp(log, k) ==> k !in disk.merges)
  }

  /** A start works on from behind the last window merged. */
  lemma StartsBehind(begin: Option<State>, s: Setting, turns: nat, disk: Disk)
    requires Begins(begin, s.version) && DistinctIds(s.ids) && Between(begin, disk, s.ids, s.version)
    requires ShouldRunFull(turns, disk.saved) || ShouldRunSupplementary(disk.saved, s.version)
    ensures StartIndex(s, disk.saved, !ShouldRunFull(turns, disk.saved)) == NextWindow(disk.merges)
    ensures !PassComplete(disk, s.version)
  {
    SameVersionNotOutdated(s.version);
    if !(disk.saved == begin && disk.merges == []) {
      ResumesBehind(s.ids, disk.saved.value.cursor, disk.merges);
    }
  }

  /**
   * What a start that runs a pass leaves: its merges are the answers, and it completes only over windows all called.
   */
  lemma StartAnswers(begin: Option<State>, s: Setting, turns: nat, disk: Disk, k: nat)
    requires Begins(begin, s.version) && DistinctIds(s.ids) && Between(begin, disk, s.ids, s.version)
    requires ShouldRunFull(turns, disk.saved) || ShouldRunSupplementary(disk.saved, s.version)
    ensures var after, calls := Startup(s, turns, disk), StartCalls(s, turns, disk);
            && (forall j :: 0 <= j < |calls| ==> calls[j].window == NextWindow(disk.merges) + j)
            && (forall j :: 0 <= j < |calls| - 1 ==> !calls[j].outcome.Refused?)
            && (k in after.merges <==> k in disk.merges || AnsweredIn(calls, k))
            && (PassComplete(after, s.version) ==>
                  && NextWindow(disk.merges) + |calls| == |s.ids|
                  && (forall j :: 0 <= j < |calls| ==> !calls[j].outcome.Refused?)
                  && (|calls| > 0 ==> SomeAnswered(calls)))
  {
    var full := ShouldRunFull(turns, disk.saved);
    StartsBehind(begin, s, turns, disk);
    var i, state := StartIndex(s, disk.saved, !full), StartState(s, disk.saved, !full);
    LoopSaves(s, i, disk, state, 0, 0, 0);
    LoopCalls(s, i, disk, state, 0, 0, 0, k);
  }

  /** A window of a start's calls from first to answered is answered or failed. */
  lemma CalledWindow(calls: seq<Call>, first: nat, k: nat)
    requires forall j :: 0 <= j < |calls| ==> calls[j].window == first + j
    ensures CalledIn(calls, k) <==> first <= k < first + |calls|
    ensures AnsweredIn(calls, k) <==> first <= k < first + |calls| && calls[k - first].outcome.Answered?
    ensures FailedIn(calls, k) <==> first <= k < first + |calls| && calls[k - first].outcome == Failed
    ensures AnsweredIn(calls, k) ==> SomeAnswered(calls)
  {
    if first <= k < first + |calls| {
      assert calls[k - first].window == k;
    }
  }

  lemma {:induction false} BeforeNext(merges: seq<nat>, k: nat)
    requires Increasing(merges) && k in merges
    ensures k < NextWindow(merges)
  {
    IncreasingPairs(merges);
  }

  lemma StartLeaves(begin: Option<State>, s: Setting, turns: nat, disk: Disk, log: seq<seq<Call>>, k: nat)
    requires Begins(begin, s.version) && DistinctIds(s.ids) && Between(begin, disk, s.ids, s.version)
    requires ShouldRunFull(turns, disk.saved) || ShouldRunSupplementary(disk.saved, s.version)
    requires Covered(disk, log, s.ids, s.version)
    ensures var after, longer := Startup(s, turns, disk), log + [StartCalls(s, turns, disk)];
            && (k < (if PassComplete(after, s.version) then |s.ids| else NextWindow(after.merges)) ==>
                  k in after.merges || GivenUp(longer, k))
            && (GivenUp(longer, k) ==> k !in after.merges)
  {
    var after, calls, first := Startup(s, turns, disk), StartCalls(s, turns, disk), NextWindow(disk.merges);
    StartsBehind(begin, s, turns, disk);
    StartAnswers(begin, s, turns, disk, k);
    CalledWindow(calls, first, k);
    OneStartMore(log, calls, k);
    if k in disk.merges {
      BeforeNext(disk.merges, k);
    }
    if !PassComplete(after, s.version) && first <= k < NextWindow(after.merges) {
      var last := after.merges[|after.merges| - 1];
      StartAnswers(begin, s, turns, disk, last);
      if last in disk.merges {
        BeforeNext(disk.merges, last);
      }
      CalledWindow(calls, first, last);
    }
  }

  lemma StartCovers(begin: Option<State>, s: Setting, turns: nat, disk: Disk, log: seq<seq<Call>>)
    requires Begins(begin, s.version) && DistinctIds(s.ids) && Between(begin, disk, s.ids, s.version)
    requires Covered(disk, log, s.ids, s.version)
    ensures Covered(Startup(s, turns, disk), log + [StartCalls(s, turns, disk)], s.ids, s.version)
  {
    if ShouldRunFull(turns, disk.saved) || ShouldRunSupplementary(disk.saved, s.version) {
      forall k: nat
        ensures var after, longer := Startup(s, turns, disk), log + [StartCalls(s, turns, disk)];
                && (k < (if PassComplete(after, s.version) then |s.ids| else NextWindow(after.merges)) ==>
                      k in after.merges || GivenUp(longer, k))
                && (GivenUp(longer, k) ==> k !in after.merges)
      {
        StartLeaves(begin, s, turns, disk, log, k);
      }
    } else {
      forall k: nat
        ensures GivenUp(log + [[]], k) <==> GivenUp(log, k)
      {
        OneStartMore(log, [], k);
      }
    }
  }

  /**
   * Over any number of starts: once the pass is complete, the windows it did not merge are exactly those whose last
   * call failed, in a start that the model answered on another window; no window goes uncalled or is left out after a
   * refusal.
   */
  lemma {:induction false} CompleteCovers(starts: seq<Begun>, turns: nat, begin: Option<State>, ledger: Ledger,
                                          ids: seq<nat>, version: Version)
    requires SameHistory(starts, ids, version) && DistinctIds(ids) && Begins(begin, version)
    ensures var start := Disk(begin, ledger, [], 0);
            var disk, log := AfterStarts(starts, turns, start), CallLog(starts, turns, start);
            && Covered(disk, log, ids, version)
            && (PassComplete(disk, version) ==> forall k :: 0 <= k < |ids| ==> (k !in disk.merges <==> GivenUp(log, k)))
  {
    var start := Disk(begin, ledger, [], 0);
    if starts != [] {
      var before, last := starts[..|starts| - 1], starts[|starts| - 1];
      CompleteCovers(before, turns, begin, ledger, ids, version);
      MergedOnceInOrder(before, turns, begin, ledger, ids, version);
      var found := AfterStarts(before, turns, start).(ledger := last.ledger);
      StartCovers(begin, last.setting, turns, found, CallLog(before, turns, start));
    } else {
      SameVersionNotOutdated(version);
    }
  }

  // ----- what a pass reports -----

  function CandidatesOf(outcome: Outcome): nat {
    match outcome
    case Answered(candidates) => candidates
    case _ => 0
  }

  /** The candidates of all answers. */
  function Emitted(calls: seq<Call>): nat {
    if calls == [] then 0
    else Emitted(calls[..|calls| - 1])
         + CandidatesOf(calls[|calls| - 1].outcome)
  }

  lemma {:induction false} EmittedFirst(c: Call, rest: seq<Call>)
    ensures Emitted([c] + rest) == Emitted(rest) + CandidatesOf(c.outcome)
  {
    if rest == [] {
      assert [c][..0] == [] && [c] + rest == [c];
    } else {
      EmittedFirst(c, rest[..|rest| - 1]);
      assert ([c] + rest)[..|rest|] == [c] + rest[..|rest| - 1];
    }
  }

  lemma {:induction false} EmittedStep(s: Setting, i: nat, ledger: Ledger)
    requires i < |s.ids|
    ensures var m := s.meets(i);
            Emitted(Calls(s, i, ledger))
            == if m.active || !m.slot || Remaining(ledger, s.today, s.cap) <= 0 || m.outcome.Refused? then 0
               else CandidatesOf(m.outcome) + Emitted(Calls(s, i + 1, Charge(ledger, s.today, s.cap).0))
  {
    var m := s.meets(i);
    if !m.active && m.slot && Remaining(ledger, s.today, s.cap) > 0 {
      if m.outcome.Refused? {
        EmittedFirst(Call(i, Refused), []);
      } else {
        EmittedFirst(Call(i, m.outcome), Calls(s, i + 1, Charge(ledger, s.today, s.cap).0));
      }
    }
  }

  /** The candidates of the answers from window i on. */
  function EmittedFrom(s: Setting, i: nat, ledger: Ledger): nat
    requires i <= |s.ids|
    decreases |s.ids| - i
  {
    if i == |s.ids| then 0
    else
      var m := s.meets(i);
      if m.active || !m.slot || Remaining(ledger, s.today, s.cap) <= 0 || m.outcome.Refused? then 0
      else CandidatesOf(m.outcome) + EmittedFrom(s, i + 1, Charge(ledger, s.today, s.cap).0)
  }

  lemma {:induction false} EmittedFromCalls(s: Setting, i: nat, ledger: Ledger)
    requires i <= |s.ids|
    ensures EmittedFrom(s, i, ledger) == Emitted(Calls(s, i, ledger))
    decreases |s.ids| - i
  {
    if i < |s.ids| {
      EmittedStep(s, i, ledger);
      EmittedFromCalls(s, i + 1, Charge(ledger, s.today, s.cap).0);
    }
  }

  /** A run reports the candidates of its answers on top of those before. */
  lemma {:induction false} LoopEmits(s: Setting, i: nat, disk: Disk, state: State, a: nat, b: nat, c: nat)
    requires i <= |s.ids|
    ensures Loop(s, i, disk, state, a, b, c).state.emitted == state.emitted + EmittedFrom(s, i, disk.ledger)
    decreases |s.ids| - i
  {
    if i < |s.ids| {
      var m := s.meets(i);
      if !m.active && m.slot && Remaining(disk.ledger, s.today, s.cap) > 0 {
        var (ledger, ok) := Charge(disk.ledger, s.today, s.cap);
        var paid := c + if ok then 1 else 0;
        match m.outcome {
          case Refused =>
          case Failed =>
            LoopEmits(s, i + 1, disk.(ledger := ledger, saved := Some(state)), state, a + 1, b, paid);
          case Answered(candidates) =>
            var next := state.(processed := state.processed + 1, emitted := state.emitted + candidates,
                               cursor := Some(s.ids[i]));
            LoopEmits(s, i + 1, disk.(ledger := ledger, merges := disk.merges + [i], saved := Some(next)), next,
                       a + 1, b + 1, paid);
        }
      }
    }
  }

  /** It crystallises once if it finishes, and keeps when it began and what it looks for. */
  lemma {:induction false} LoopKeepsFields(s: Setting, i: nat, disk: Disk, state: State, a: nat, b: nat, c: nat)
    requires i <= |s.ids|
    ensures var e := Loop(s, i, disk, state, a, b, c);
            && e.disk.crystallised == disk.crystallised + (if e.finished then 1 else 0)
            && e.state.categories == state.categories && e.state.startedAt == state.startedAt
    decreases |s.ids| - i
  {
    if i < |s.ids| {
      var m := s.meets(i);
      if !m.active && m.slot && Remaining(disk.ledger, s.today, s.cap) > 0 {
        var (ledger, ok) := Charge(disk.ledger, s.today, s.cap);
        var paid := c + if ok then 1 else 0;
        match m.outcome {
          case Refused =>
          case Failed =>
            LoopKeepsFields(s, i + 1, disk.(ledger := ledger, saved := Some(state)), state, a + 1, b, paid);
          case Answered(candidates) =>
            var next := state.(processed := state.processed + 1, emitted := state.emitted + candidates,
                               cursor := Some(s.ids[i]));
            LoopKeepsFields(s, i + 1, disk.(ledger := ledger, merges := disk.merges + [i], saved := Some(next)), next,
                       a + 1, b + 1, paid);
        }
      }
    }
  }

  /** The candidates of all answers of all starts. */
  function EmittedInAll(log: seq<seq<Call>>): nat {
    if log == [] then 0 else EmittedInAll(log[..|log| - 1]) + Emitted(log[|log| - 1])
  }

  function EmittedOf(saved: Option<State>): int {
    if saved.Some? then saved.value.emitted else 0
  }

  lemma {:induction false} NothingMerged(s: Setting, i: nat, disk: Disk, state: State, a: nat, b: nat, c: nat)
    requires i <= |s.ids| && Loop(s, i, disk, state, a, b, c).disk.merges == disk.merges && state.status == Running
    ensures Emitted(Calls(s, i, disk.ledger)) == 0
    decreases |s.ids| - i
  {
    if i < |s.ids| {
      var m := s.meets(i);
      if !m.active && m.slot && Remaining(disk.ledger, s.today, s.cap) > 0 {
        var (ledger, ok) := Charge(disk.ledger, s.today, s.cap);
        var paid := c + if ok then 1 else 0;
        match m.outcome {
          case Refused => EmittedFirst(Call(i, Refused), []);
          case Failed =>
            NothingMerged(s, i + 1, disk.(ledger := ledger, saved := Some(state)), state, a + 1, b, paid);
            EmittedFirst(Call(i, Failed), Calls(s, i + 1, ledger));
          case Answered(candidates) =>
            var next := state.(processed := state.processed + 1, emitted := state.emitted + candidates,
                               cursor := Some(s.ids[i]));
            LoopSaves(s, i + 1, disk.(ledger := ledger, merges := disk.merges + [i], saved := Some(next)), next,
                      a + 1, b + 1, paid);
        }
      }
    }
  }

  /**
   * One start: the record counts the candidates of its answers, and the pass crystallises exactly when it completes.
   */
  lemma StartTotals(s: Setting, turns: nat, disk: Disk)
    ensures var after := Startup(s, turns, disk);
            && EmittedOf(after.saved) == EmittedOf(disk.saved) + Emitted(StartCalls(s, turns, disk))
            && after.crystallised
               == disk.crystallised + (if after.saved != disk.saved && PassComplete(after, s.version) then 1 else 0)
  {
    var full := ShouldRunFull(turns, disk.saved);
    if full || ShouldRunSupplementary(disk.saved, s.version) {
      SameVersionNotOutdated(s.version);
      var i, state := StartIndex(s, disk.saved, !full), StartState(s, disk.saved, !full);
      LoopSaves(s, i, disk, state, 0, 0, 0);
      LoopEmits(s, i, disk, state, 0, 0, 0);
      EmittedFromCalls(s, i, disk.ledger);
      LoopKeepsFields(s, i, disk, state, 0, 0, 0);
      if Loop(s, i, disk, state, 0, 0, 0).disk.merges == disk.merges {
        NothingMerged(s, i, disk, state, 0, 0, 0);
      }
    }
  }

  /** Over any starts the record counts the candidates of all answers. */
  lemma {:induction false} EmittedExactly(starts: seq<Begun>, turns: nat, disk: Disk)
    ensures EmittedOf(AfterStarts(starts, turns, disk).saved)
            == EmittedOf(disk.saved) + EmittedInAll(CallLog(starts, turns, disk))
  {
    if starts != [] {
      var before, last := starts[..|starts| - 1], starts[|starts| - 1];
      EmittedExactly(before, turns, disk);
      StartTotals(last.setting, turns, AfterStarts(before, turns, disk).(ledger := last.ledger));
    }
  }

  /** A resumed supplementary pass keeps the categories it began with. */
  lemma CategoriesKept(s: Setting, turns: nat, disk: Disk)
    requires disk.saved.Some? && disk.saved.value.kind == Supplementary && disk.saved.value.status != Complete
    requires disk.saved.value.categories.Some? && disk.saved.value.categories.value != {}
    ensures var after := Startup(s, turns, disk).saved;
            after.Some? && after.value.kind == Supplementary && after.value.categories == disk.saved.value.categories
  {
    var i, state := StartIndex(s, disk.saved, true), StartState(s, disk.saved, true);
    LoopKeepsFields(s, i, disk, state, 0, 0, 0);
    LoopSaves(s, i, disk, state, 0, 0, 0);
  }

  /** A record keeps the time the first pass began, and only a supplementary pass names categories. */
  lemma StartTimeKept(s: Setting, turns: nat, disk: Disk)
    ensures var after := Startup(s, turns, disk).saved;
            && (disk.saved.Some? ==> after.Some? && after.value.startedAt == disk.saved.value.startedAt)
            && (disk.saved.None? && after.Some? ==> after.value.startedAt == s.now)
            && (after.Some? && after != disk.saved && after.value.kind == Full ==> after.value.categories == None)
    ensures var after := Startup(s, turns, disk).saved;
            (disk.saved.None? || disk.saved.value.status == Complete) && after.Some? && after != disk.saved ==>
              after.value.kind == Full || after.value.categories == s.categories
  {
    var full := ShouldRunFull(turns, disk.saved);
    var i, state := StartIndex(s, disk.saved, !full), StartState(s, disk.saved, !full);
    LoopKeepsFields(s, i, disk, state, 0, 0, 0);
    LoopSaves(s, i, disk, state, 0, 0, 0);
  }

  /** Once a pass is complete at the current version, no start does anything more. */
  lemma CompleteIsFinal(s: Setting, turns: nat, disk: Disk)
    requires disk.saved.Some? && disk.saved.value.status == Complete && disk.saved.value.version == s.version
    ensures Startup(s, turns, disk) == disk
  {
    SameVersionNotOutdated(s.version);
  }

  /** The sample a run works on has distinct windows, whatever share of the buffer is asked for. */
  lemma {:induction false} SampledIdsDistinct(tokens: seq<set<string>>, target: nat)
    ensures DistinctIds(Sampling.Sample(Sampling.Clusters(tokens, |tokens|), |tokens|, target))
  {
    Sampling.SampleSize(tokens, target);
  }
}
