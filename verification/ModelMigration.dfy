/** Folding saved per-persona models into the install's settings: interleaved processes, crashes, picks and imports. */
module ModelMigration {
  import opened ModelChoice
  import opened SettingValues
  import opened Wrappers

  type Pid = nat

  datatype File = Damaged | Fine(config: Config)

  /**
   * Where a process is. `Locked` holds the migration lock; `Holding` has seen under it that there is no marker;
   * `Marking` has written the settings. `Clearing` knows whether a decision exists and whom it considered; `Applying`
   * and `Rewriting` have read their persona's file.
   */
  datatype Phase =
    | Begin
    | Scanning(left: seq<Name>, found: seq<Candidate>)
    | Wanting(found: seq<Candidate>)
    | Locked(found: seq<Candidate>)
    | Holding(found: seq<Candidate>)
    | Marking(found: seq<Candidate>)
    | Clearing(decided: bool, considered: set<Name>)
    | Applying(config: Config)
    | Rewriting(config: Config)

  /** A process started for one persona, or for none. */
  datatype Proc = Proc(persona: Option<Name>, phase: Phase)

  /**
   * What became of a saved value that a late persona applied: it is the default, it was written, or a choice beat it.
   */
  datatype Fate = IsDefault | Taken | Beaten

  datatype Record = Record(name: Name, job: Job, value: string, fate: Fate)

  /** The marker holds the personas the decision considered; `history` is what late personas' values became. */
  datatype World = World(
    jobs: Jobs, marker: Option<set<Name>>, lock: Option<Pid>, files: map<Name, File>, procs: map<Pid, Proc>,
    history: seq<Record>)

  datatype Step =
    | Start(pid: Pid, persona: Option<Name>)
    | LookForMarker(pid: Pid, readable: bool, names: seq<Name>)
    | ScanNext(pid: Pid, readable: bool)
    | TakeLock(pid: Pid)
    | GiveUpLock(pid: Pid)
    | LookAgain(pid: Pid, readable: bool)
    | WriteSettings(pid: Pid, done: bool)
    | WriteMarker(pid: Pid, done: bool)
    | ReadOwn(pid: Pid)
    | ApplyLate(pid: Pid, done: bool)
    | RewriteOwn(pid: Pid)
    | Crash(pid: Pid)
    | UserPicks(job: Job, value: Value)
    | FileArrives(name: Name, file: File)

  // ----- steps -----

  /** A recorded decision's personas; nobody, when the marker cannot be read. */
  function Considered(w: World, readable: bool): set<Name> {
    if readable && w.marker.Some? then w.marker.value else {}
  }

  function Names(found: seq<Candidate>): set<Name> {
    set i | 0 <= i < |found| :: found[i].name
  }

  function FateOf(jobs: Jobs, job: Job, value: string): Fate {
    if ResolveChoice(value) == Some(ShippedDefault(job)) then IsDefault
    else if Chosen(jobs, job) then Beaten
    else Taken
  }

  const IN_ORDER := [Chat, Generative, Classifier, Housekeeping, Compaction, SelfModel, Detector]

  function Records(jobs: Jobs, name: Name, saved: map<Job, string>, order: seq<Job>): seq<Record> {
    if order == [] then []
    else
      Records(jobs, name, saved, order[..|order| - 1])
      + (var job := order[|order| - 1];
         if job in saved then [Record(name, job, saved[job], FateOf(jobs, job, saved[job]))] else [])
  }

  /** A persona's own values as the one candidate of a late write. */
  function Late(name: Name, c: Config): seq<Candidate> {
    [Candidate(name, ValidLegacy(c), 0)]
  }

  function Scanned(found: seq<Candidate>, name: Name, files: map<Name, File>, readable: bool): seq<Candidate> {
    if !readable || name !in files || files[name].Damaged? then found
    else
      var c := CandidateFrom(name, files[name].config);
      if c.Some? then found + [c.value] else found
  }

  /**
   * What a process does to the world in one step: it ends, goes on to a phase, and on the way takes or frees the lock,
   * writes job settings, records the decision, or rewrites its persona's file.
   */
  datatype Deed =
    | Nothing
    | Leaves
    | Goes(phase: Phase)
    | Locks(phase: Phase)
    | Frees(phase: Phase)
    | Sets(phase: Phase, candidates: seq<Candidate>, more: seq<Record>)
    | Decides(phase: Phase, names: set<Name>)
    | Rewrites(name: Name, config: Config)

  function DeedReadingOwn(w: World, name: Name, decided: bool, considered: set<Name>): Deed {
    if name !in w.files || w.files[name].Damaged? || !HasLegacy(w.files[name].config) then Leaves
    else
      var c := w.files[name].config;
      var applicable := c.claude && ValidLegacy(c) != map[];
      if applicable && !decided then Leaves
      else if applicable && name !in considered then Goes(Applying(c))
      else Goes(Rewriting(c))
  }

  /** The step of a process in its phase; a step for another phase does nothing. */
  function DeedOf(w: World, step: Step, p: Proc): Deed {
    if step.Crash? then Leaves
    else
      match p.phase
      case Begin =>
        if !step.LookForMarker? then Nothing
        else Goes(if w.marker.Some? then Clearing(true, Considered(w, step.readable)) else Scanning(step.names, []))
      case Scanning(left, found) =>
        if !step.ScanNext? then Nothing
        else if left != [] then Goes(Scanning(left[1..], Scanned(found, left[0], w.files, step.readable)))
        else Goes(if found == [] then Clearing(false, {}) else Wanting(NewestFirst(found)))
      case Wanting(found) =>
        if step.TakeLock? && w.lock.None? then Locks(Locked(found))
        else if step.GiveUpLock? then Goes(Clearing(false, {}))
        else Nothing
      case Locked(found) =>
        if !step.LookAgain? then Nothing
        else if w.marker.Some? then Frees(Clearing(true, Considered(w, step.readable)))
        else Goes(Holding(found))
      case Holding(found) =>
        if !step.WriteSettings? then Nothing
        else if step.done || Updates(found) == map[] then Sets(Marking(found), found, [])
        else Frees(Clearing(false, {}))
      case Marking(found) =>
        if !step.WriteMarker? then Nothing
        else if step.done then Decides(Clearing(true, Names(found)), Names(found))
        else Frees(Clearing(false, {}))
      case Clearing(decided, considered) =>
        if !step.ReadOwn? then Nothing
        else if p.persona.None? then Leaves
        else DeedReadingOwn(w, p.persona.value, decided, considered)
      case Applying(c) =>
        if !step.ApplyLate? then Nothing
        else if p.persona.None? || !(step.done || Updates(Late(p.persona.value, c)) == map[]) then Leaves
        else Sets(Rewriting(c), Late(p.persona.value, c), Records(w.jobs, p.persona.value, ValidLegacy(c), IN_ORDER))
      case Rewriting(c) =>
        if !step.RewriteOwn? then Nothing
        else if p.persona.None? then Leaves
        else Rewrites(p.persona.value, c)
  }

  function Do(w: World, pid: Pid, d: Deed): World
    requires pid in w.procs
  {
    var gone := w.procs - {pid};
    var freed := if w.lock == Some(pid) then None else w.lock;
    match d
    case Nothing => w
    case Leaves => w.(procs := gone, lock := freed)
    case Goes(phase) => w.(procs := w.procs[pid := w.procs[pid].(phase := phase)])
    case Locks(phase) => w.(procs := w.procs[pid := w.procs[pid].(phase := phase)], lock := Some(pid))
    case Frees(phase) => w.(procs := w.procs[pid := w.procs[pid].(phase := phase)], lock := None)
    case Sets(phase, candidates, more) =>
      w.(procs := w.procs[pid := w.procs[pid].(phase := phase)], jobs := SetJobModels(w.jobs, Updates(candidates)),
         history := w.history + more)
    case Decides(phase, names) =>
      w.(procs := w.procs[pid := w.procs[pid].(phase := phase)], lock := None, marker := Some(names))
    case Rewrites(name, config) => w.(files := w.files[name := Fine(Cleared(config))], procs := gone, lock := freed)
  }

  /** A step that does not fit where its process is changes nothing. */
  function Next(w: World, step: Step): World {
    match step
    case Start(pid, persona) => if pid in w.procs then w else w.(procs := w.procs[pid := Proc(persona, Begin)])
    case UserPicks(job, value) => w.(jobs := w.jobs[job := value])
    case FileArrives(name, file) => w.(files := w.files[name := file])
    case _ => if step.pid in w.procs then Do(w, step.pid, DeedOf(w, step, w.procs[step.pid])) else w
  }

  function After(w: World, steps: seq<Step>): World {
    if steps == [] then w else Next(After(w, steps[..|steps| - 1]), steps[|steps| - 1])
  }

  predicate ActedBy(step: Step, pid: Pid) {
    !step.Start? && !step.UserPicks? && !step.FileArrives? && step.pid == pid
  }

  // ----- what the user chose stays -----

  lemma DoKeepsChosen(w: World, pid: Pid, d: Deed, job: Job)
    requires pid in w.procs && Chosen(w.jobs, job)
    ensures SettingOf(Do(w, pid, d).jobs, job) == SettingOf(w.jobs, job)
  {
    if d.Sets? {
      WinnersWritten(w.jobs, d.candidates, job);
    }
  }

  /** No step of a migration changes the setting of a job that differs from its shipped default. */
  lemma ChosenStays(w: World, step: Step, job: Job)
    requires Chosen(w.jobs, job) && !step.UserPicks?
    ensures SettingOf(Next(w, step).jobs, job) == SettingOf(w.jobs, job)
  {
    if !step.Start? && !step.FileArrives? && step.pid in w.procs {
      DoKeepsChosen(w, step.pid, DeedOf(w, step, w.procs[step.pid]), job);
    }
  }

  /** So over any run a chosen setting changes only by the user's own next pick of that job. */
  lemma {:induction false} ChosenStaysOverRuns(w: World, steps: seq<Step>, job: Job)
    requires Chosen(w.jobs, job)
    requires forall k :: 0 <= k < |steps| && steps[k].UserPicks? ==> steps[k].job != job
    ensures SettingOf(After(w, steps).jobs, job) == SettingOf(w.jobs, job)
  {
    if steps != [] {
      var before, step := steps[..|steps| - 1], steps[|steps| - 1];
      ChosenStaysOverRuns(w, before, job);
      if !step.UserPicks? {
        ChosenStays(After(w, before), step, job);
      }
    }
  }

  // ----- one decision -----

  predicate UnderLock(phase: Phase) {
    phase.Locked? || phase.Holding? || phase.Marking?
  }

  predicate Deciding(phase: Phase) {
    phase.Holding? || phase.Marking?
  }

  /** A process under the migration lock holds it, and one about to write the decision knows that there is none. */
  ghost predicate LockedRight(w: World, pid: Pid)
    requires pid in w.procs
  {
    && (UnderLock(w.procs[pid].phase) ==> w.lock == Some(pid))
    && (Deciding(w.procs[pid].phase) ==> w.marker.None?)
  }

  ghost predicate LockInv(w: World) {
    forall pid :: pid in w.procs ==> LockedRight(w, pid)
  }

  ghost predicate Fresh(w: World) {
    w.procs == map[] && w.lock == None
  }

  /** What the lock discipline asks of a deed. */
  ghost predicate Disciplined(w: World, pid: Pid, d: Deed) {
    match d
    case Goes(phase) => (UnderLock(phase) ==> w.lock == Some(pid)) && (Deciding(phase) ==> w.marker.None?)
    case Locks(phase) => w.lock.None? && !Deciding(phase)
    case Frees(phase) => w.lock == Some(pid) && !UnderLock(phase)
    case Sets(phase, _, _) => (UnderLock(phase) ==> w.lock == Some(pid)) && (Deciding(phase) ==> w.marker.None?)
    case Decides(phase, _) => w.lock == Some(pid) && w.marker.None? && !UnderLock(phase)
    case _ => true
  }

  lemma DeedsAreDisciplined(w: World, step: Step, pid: Pid)
    requires pid in w.procs && LockedRight(w, pid)
    ensures Disciplined(w, pid, DeedOf(w, step, w.procs[pid]))
  {
  }

  lemma DoKeepsLock(w: World, pid: Pid, d: Deed)
    requires pid in w.procs && LockInv(w) && Disciplined(w, pid, d)
    ensures LockInv(Do(w, pid, d))
    ensures w.marker.Some? ==> Do(w, pid, d).marker == w.marker
  {
    assert LockedRight(w, pid);
    forall other | other in Do(w, pid, d).procs
      ensures LockedRight(Do(w, pid, d), other)
    {
      assert other in w.procs && LockedRight(w, other);
    }
  }

  lemma LockInvKept(w: World, step: Step)
    requires LockInv(w)
    ensures LockInv(Next(w, step))
    ensures w.marker.Some? ==> Next(w, step).marker == w.marker
  {
    match step
    case Start(_, _) =>
      forall pid | pid in Next(w, step).procs
        ensures LockedRight(Next(w, step), pid)
      {
        if pid in w.procs {
          assert LockedRight(w, pid);
        }
      }
    case UserPicks(_, _) => OutsideKeepsLock(w, Next(w, step));
    case FileArrives(_, _) => OutsideKeepsLock(w, Next(w, step));
    case _ =>
      if step.pid in w.procs {
        assert LockedRight(w, step.pid);
        DeedsAreDisciplined(w, step, step.pid);
        DoKeepsLock(w, step.pid, DeedOf(w, step, w.procs[step.pid]));
      }
  }

  lemma OutsideKeepsLock(w: World, after: World)
    requires LockInv(w) && after.procs == w.procs && after.lock == w.lock && after.marker == w.marker
    ensures LockInv(after)
  {
    forall pid | pid in after.procs
      ensures LockedRight(after, pid)
    {
      assert LockedRight(w, pid);
    }
  }

  /** Whoever starts, stops or races, the decision is recorded at most once, and what it says never changes. */
  lemma {:induction false} MarkerWrittenOnce(w: World, steps: seq<Step>)
    requires LockInv(w)
    ensures LockInv(After(w, steps))
    ensures w.marker.Some? ==> After(w, steps).marker == w.marker
  {
    if steps != [] {
      MarkerWrittenOnce(w, steps[..|steps| - 1]);
      LockInvKept(After(w, steps[..|steps| - 1]), steps[|steps| - 1]);
    }
  }

  // ----- the lock is given back -----

  /** A process that is under way with the lock. */
  ghost predicate Uses(w: World, pid: Pid) {
    pid in w.procs && UnderLock(w.procs[pid].phase)
  }

  ghost predicate LockUsed(w: World) {
    w.lock.Some? ==> Uses(w, w.lock.value)
  }

  /** What giving back asks of a deed. */
  ghost predicate GivesBack(w: World, pid: Pid, d: Deed) {
    match d
    case Goes(phase) => w.lock == Some(pid) ==> UnderLock(phase)
    case Locks(phase) => UnderLock(phase)
    case Frees(phase) => w.lock == Some(pid)
    case Sets(phase, _, _) => w.lock == Some(pid) ==> UnderLock(phase)
    case Decides(phase, _) => w.lock == Some(pid)
    case _ => true
  }

  lemma DeedsGiveBack(w: World, step: Step, pid: Pid)
    requires pid in w.procs && LockedRight(w, pid) && LockUsed(w)
    ensures GivesBack(w, pid, DeedOf(w, step, w.procs[pid]))
  {
  }

  lemma DoGivesBack(w: World, pid: Pid, d: Deed)
    requires pid in w.procs && LockUsed(w) && GivesBack(w, pid, d)
    ensures LockUsed(Do(w, pid, d))
  {
  }

  /**
   * In every reachable state the lock is free or held by a process at work under it: no end or crash leaves it behind.
   */
  lemma {:induction false} LockNeverLeaks(w: World, steps: seq<Step>)
    requires Fresh(w)
    ensures LockUsed(After(w, steps))
  {
    if steps != [] {
      var front, step := steps[..|steps| - 1], steps[|steps| - 1];
      LockNeverLeaks(w, front);
      MarkerWrittenOnce(w, front);
      var was := After(w, front);
      if !step.Start? && !step.UserPicks? && !step.FileArrives? && step.pid in was.procs {
        assert LockedRight(was, step.pid);
        DeedsGiveBack(was, step, step.pid);
        DoGivesBack(was, step.pid, DeedOf(was, step, was.procs[step.pid]));
      }
    }
  }

  // ----- what a process knows: a claim about its own phase that only grows with the marker and the history -----

  /** What every step does to the parts such claims speak of. */
  ghost predicate Grows(w: World, after: World) {
    (w.marker.Some? ==> after.marker == w.marker) && w.history <= after.history
  }

  lemma NextGrows(w: World, step: Step)
    requires LockInv(w)
    ensures Grows(w, Next(w, step))
  {
    LockInvKept(w, step);
  }

  lemma DoOthers(w: World, pid: Pid, d: Deed, other: Pid)
    requires pid in w.procs && other != pid
    ensures other in Do(w, pid, d).procs <==> other in w.procs
    ensures other in w.procs ==> Do(w, pid, d).procs[other] == w.procs[other]
  {
  }

  /** A process that does not act in a step is where it was, and a new one is at its beginning. */
  lemma Bystander(w: World, step: Step, pid: Pid)
    requires !ActedBy(step, pid)
    ensures pid in w.procs ==> pid in Next(w, step).procs && Next(w, step).procs[pid] == w.procs[pid]
    ensures pid !in w.procs && pid in Next(w, step).procs ==> Next(w, step).procs[pid].phase == Begin
  {
    if !step.Start? && !step.UserPicks? && !step.FileArrives? && step.pid in w.procs {
      DoOthers(w, step.pid, DeedOf(w, step, w.procs[step.pid]), pid);
    }
  }

  // ----- what the decision writes -----

  predicate HasFound(phase: Phase) {
    phase.Scanning? || phase.Wanting? || phase.Locked? || phase.Holding? || phase.Marking?
  }

  /**
   * The candidate is what a Claude persona's file says: its valid values, and when it was last opened or else written.
   */
  ghost predicate Describes(x: Candidate, c: Config) {
    && c.claude && x.saved == ValidLegacy(c) != map[]
    && x.stamp == if c.lastOpened.Some? then c.lastOpened.value else c.mtime
  }

  /** At position q of the run the process comes to this persona in its scan. */
  ghost predicate ScansAt(w: World, steps: seq<Step>, q: nat, pid: Pid, name: Name) {
    && q < |steps| && steps[q].ScanNext? && steps[q].pid == pid
    && var was := After(w, steps[..q]);
       pid in was.procs && was.procs[pid].phase.Scanning? && was.procs[pid].phase.left != []
       && was.procs[pid].phase.left[0] == name
  }

  /** And could read there a file with this candidate. */
  ghost predicate FindsAt(w: World, steps: seq<Step>, q: nat, pid: Pid, x: Candidate) {
    && ScansAt(w, steps, q, pid, x.name) && steps[q].readable
    && var files := After(w, steps[..q]).files;
       x.name in files && files[x.name].Fine? && Describes(x, files[x.name].config)
  }

  ghost predicate FoundInRun(w: World, steps: seq<Step>, pid: Pid, x: Candidate) {
    exists q: nat :: FindsAt(w, steps, q, pid, x)
  }

  ghost predicate AllFoundInRun(w: World, steps: seq<Step>, pid: Pid, found: seq<Candidate>) {
    forall x :: x in found ==> FoundInRun(w, steps, pid, x)
  }

  /** The scan came to this persona, and if its file then held a candidate the scan has it. */
  ghost predicate ScannedAt(w: World, steps: seq<Step>, q: nat, pid: Pid, name: Name, found: seq<Candidate>) {
    && ScansAt(w, steps, q, pid, name)
    && forall x: Candidate :: x.name == name && FindsAt(w, steps, q, pid, x) ==> x in found
  }

  ghost predicate ScannedInRun(w: World, steps: seq<Step>, pid: Pid, name: Name, found: seq<Candidate>) {
    exists q: nat :: ScannedAt(w, steps, q, pid, name, found)
  }

  /** Every persona listed at the process's look was scanned, or still is to be. */
  ghost predicate ListedAt(w: World, steps: seq<Step>, l: nat, pid: Pid, left: seq<Name>, found: seq<Candidate>) {
    && l < |steps| && steps[l].LookForMarker? && steps[l].pid == pid
    && forall k :: 0 <= k < |steps[l].names| ==>
         steps[l].names[k] in left || ScannedInRun(w, steps, pid, steps[l].names[k], found)
  }

  ghost predicate AllScanned(w: World, steps: seq<Step>, pid: Pid, left: seq<Name>, found: seq<Candidate>) {
    exists l: nat :: ListedAt(w, steps, l, pid, left, found)
  }

  /** The process holds the migration lock, and no decision is recorded. */
  ghost predicate UndecidedAt(w: World, steps: seq<Step>, n: nat, pid: Pid) {
    n <= |steps| && After(w, steps[..n]).lock == Some(pid) && After(w, steps[..n]).marker.None?
  }

  ghost predicate AllDecided(before: Jobs, after: Jobs, found: seq<Candidate>) {
    forall job :: JobDecided(before, after, found, job)
  }

  /** The write of the settings at position s, under the lock that has been held ever since. */
  ghost predicate WroteAt(w: World, steps: seq<Step>, s: nat, pid: Pid, found: seq<Candidate>) {
    && s < |steps| && steps[s].WriteSettings? && steps[s].pid == pid
    && AllDecided(After(w, steps[..s]).jobs, After(w, steps[..s + 1]).jobs, found)
    && forall n :: s <= n <= |steps| ==> UndecidedAt(w, steps, n, pid)
  }

  ghost predicate WroteInRun(w: World, steps: seq<Step>, pid: Pid, found: seq<Candidate>) {
    exists s: nat :: WroteAt(w, steps, s, pid, found)
  }

  /** What a process on its way to the decision has behind it. */
  ghost predicate OnItsWay(w: World, steps: seq<Step>, pid: Pid, phase: Phase) {
    HasFound(phase) ==>
      && AllFoundInRun(w, steps, pid, phase.found)
      && AllScanned(w, steps, pid, if phase.Scanning? then phase.left else [], phase.found)
      && (!phase.Scanning? ==> phase.found != [] && NewestAhead(phase.found))
      && (phase.Marking? ==> WroteInRun(w, steps, pid, phase.found))
  }

  lemma {:induction false} FindsLonger(w: World, steps: seq<Step>, q: nat, pid: Pid, x: Candidate)
    requires steps != [] && q < |steps| - 1
    ensures ScansAt(w, steps, q, pid, x.name) <==> ScansAt(w, steps[..|steps| - 1], q, pid, x.name)
    ensures FindsAt(w, steps, q, pid, x) <==> FindsAt(w, steps[..|steps| - 1], q, pid, x)
  {
    assert steps[..|steps| - 1][..q] == steps[..q];
  }

  lemma {:induction false} FoundLonger(w: World, steps: seq<Step>, pid: Pid, found: seq<Candidate>)
    requires steps != [] && AllFoundInRun(w, steps[..|steps| - 1], pid, found)
    ensures AllFoundInRun(w, steps, pid, found)
  {
    var front := steps[..|steps| - 1];
    forall x | x in found
      ensures FoundInRun(w, steps, pid, x)
    {
      assert FoundInRun(w, front, pid, x);
      var q: nat :| FindsAt(w, front, q, pid, x);
      FindsLonger(w, steps, q, pid, x);
    }
  }

  lemma {:induction false} ScannedLonger(w: World, steps: seq<Step>, pid: Pid, name: Name, found: seq<Candidate>,
                                         more: seq<Candidate>)
    requires steps != [] && ScannedInRun(w, steps[..|steps| - 1], pid, name, found)
    requires forall x :: x in found ==> x in more
    ensures ScannedInRun(w, steps, pid, name, more)
  {
    var q: nat :| ScannedAt(w, steps[..|steps| - 1], q, pid, name, found);
    FindsLonger(w, steps, q, pid, Candidate(name, map[], 0));
    forall x: Candidate | x.name == name && FindsAt(w, steps, q, pid, x)
      ensures x in more
    {
      FindsLonger(w, steps, q, pid, x);
    }
    assert ScannedAt(w, steps, q, pid, name, more);
  }

  lemma {:induction false} ListLonger(w: World, steps: seq<Step>, pid: Pid, left: seq<Name>, found: seq<Candidate>,
                                      left': seq<Name>, more: seq<Candidate>)
    requires steps != [] && AllScanned(w, steps[..|steps| - 1], pid, left, found)
    requires forall x :: x in found ==> x in more
    requires forall name :: name in left ==> name in left' || ScannedInRun(w, steps, pid, name, more)
    ensures AllScanned(w, steps, pid, left', more)
  {
    var front := steps[..|steps| - 1];
    var l: nat :| ListedAt(w, front, l, pid, left, found);
    forall k | 0 <= k < |steps[l].names|
      ensures steps[l].names[k] in left' || ScannedInRun(w, steps, pid, steps[l].names[k], more)
    {
      if steps[l].names[k] !in left {
        assert ScannedInRun(w, front, pid, front[l].names[k], found);
        ScannedLonger(w, steps, pid, steps[l].names[k], found, more);
      }
    }
    assert ListedAt(w, steps, l, pid, left', more);
  }

  lemma {:induction false} WroteLonger(w: World, steps: seq<Step>, s: nat, pid: Pid, found: seq<Candidate>)
    requires steps != [] && WroteAt(w, steps[..|steps| - 1], s, pid, found) && UndecidedAt(w, steps, |steps|, pid)
    ensures WroteAt(w, steps, s, pid, found)
  {
    var front := steps[..|steps| - 1];
    assert front[..s] == steps[..s] && front[..s + 1] == steps[..s + 1];
    forall n | s <= n <= |steps|
      ensures UndecidedAt(w, steps, n, pid)
    {
      if n <= |front| {
        assert UndecidedAt(w, front, n, pid) && front[..n] == steps[..n];
      }
    }
  }

  lemma {:induction false} NextIsDo(w: World, step: Step, pid: Pid)
    requires pid in w.procs && ActedBy(step, pid)
    ensures Next(w, step) == Do(w, pid, DeedOf(w, step, w.procs[pid]))
  {
  }

  /** How a process comes to a phase with candidates. */
  lemma PhaseDeed(w: World, step: Step, p: Proc)
    ensures var d := DeedOf(w, step, p);
            (d.Goes? || d.Locks? || d.Frees? || d.Sets? || d.Decides?) && HasFound(d.phase) ==>
              || (step.LookForMarker? && d.phase == Scanning(step.names, []))
              || (&& step.ScanNext? && p.phase.Scanning? && p.phase.left != []
                  && d.phase == Scanning(p.phase.left[1..],
                                         Scanned(p.phase.found, p.phase.left[0], w.files, step.readable)))
              || (&& p.phase.Scanning? && p.phase.left == [] && p.phase.found != []
                  && d.phase == Wanting(NewestFirst(p.phase.found)))
              || (p.phase.Wanting? && d.phase == Locked(p.phase.found))
              || (p.phase.Locked? && d.phase == Holding(p.phase.found))
              || (&& p.phase.Holding? && step.WriteSettings? && d == Sets(Marking(p.phase.found), p.phase.found, []))
  {
  }

  lemma {:induction false} PhaseStep(w: World, step: Step, pid: Pid)
    requires pid in w.procs && ActedBy(step, pid)
    requires pid in Next(w, step).procs && HasFound(Next(w, step).procs[pid].phase)
    ensures var p, q := w.procs[pid].phase, Next(w, step).procs[pid].phase;
            || q == p
            || (step.LookForMarker? && q == Scanning(step.names, []))
            || (&& step.ScanNext? && p.Scanning? && p.left != []
                && q == Scanning(p.left[1..], Scanned(p.found, p.left[0], w.files, step.readable)))
            || (p.Scanning? && p.left == [] && p.found != [] && q == Wanting(NewestFirst(p.found)))
            || (p.Wanting? && q == Locked(p.found))
            || (p.Locked? && q == Holding(p.found))
            || (&& p.Holding? && step.WriteSettings? && q == Marking(p.found)
                && Next(w, step).jobs == SetJobModels(w.jobs, Updates(p.found)))
  {
    NextIsDo(w, step, pid);
    PhaseDeed(w, step, w.procs[pid]);
  }

  lemma ScannedFinds(found: seq<Candidate>, name: Name, files: map<Name, File>, readable: bool, x: Candidate)
    ensures x in Scanned(found, name, files, readable)
            <==> x in found || (&& readable && x.name == name && name in files && files[name].Fine?
                                && Describes(x, files[name].config))
  {
    if readable && name in files && files[name].Fine? {
      var c := files[name].config;
      assert x.name == name && Describes(x, c) <==> CandidateFrom(name, c) == Some(x);
    }
  }

  lemma {:induction false} ScanOnItsWay(w: World, steps: seq<Step>, pid: Pid, left: seq<Name>, found: seq<Candidate>)
    requires steps != [] && steps[|steps| - 1].ScanNext? && steps[|steps| - 1].pid == pid
    requires var was := After(w, steps[..|steps| - 1]);
             && pid in was.procs && was.procs[pid].phase == Scanning(left, found) && left != []
             && OnItsWay(w, steps[..|steps| - 1], pid, was.procs[pid].phase)
    ensures var was, step := After(w, steps[..|steps| - 1]), steps[|steps| - 1];
            OnItsWay(w, steps, pid, Scanning(left[1..], Scanned(found, left[0], was.files, step.readable)))
  {
    var q := |steps| - 1;
    var was, step := After(w, steps[..q]), steps[q];
    var more := Scanned(found, left[0], was.files, step.readable);
    FoundLonger(w, steps, pid, found);
    forall x | x in more
      ensures FoundInRun(w, steps, pid, x)
    {
      ScannedFinds(found, left[0], was.files, step.readable, x);
      if x in found {
        assert FoundInRun(w, steps, pid, x);
      } else {
        assert FindsAt(w, steps, q, pid, x);
      }
    }
    forall x: Candidate
      ensures x in found ==> x in more
      ensures x.name == left[0] && FindsAt(w, steps, q, pid, x) ==> x in more
    {
      ScannedFinds(found, left[0], was.files, step.readable, x);
    }
    assert ScannedAt(w, steps, q, pid, left[0], more);
    assert left == [left[0]] + left[1..];
    ListLonger(w, steps, pid, left, found, left[1..], more);
  }

  lemma {:induction false} FoundIsValid(w: World, steps: seq<Step>, pid: Pid, x: Candidate, job: Job)
    requires FoundInRun(w, steps, pid, x) && job in x.saved
    ensures IsValidModel(x.saved[job])
  {
    var q: nat :| FindsAt(w, steps, q, pid, x);
    var c := After(w, steps[..q]).files[x.name].config;
    assert SavedFor(c, job) == Some(x.saved[job]);
  }

  lemma {:induction false} FoundDecides(w: World, steps: seq<Step>, pid: Pid, found: seq<Candidate>, jobs: Jobs)
    requires AllFoundInRun(w, steps, pid, found) && NewestAhead(found)
    ensures AllDecided(jobs, SetJobModels(jobs, Updates(found)), found)
  {
    forall k, job | 0 <= k < |found| && job in found[k].saved
      ensures IsValidModel(found[k].saved[job])
    {
      FoundIsValid(w, steps, pid, found[k], job);
    }
    forall job
      ensures JobDecided(jobs, SetJobModels(jobs, Updates(found)), found, job)
    {
      WinnersDecide(jobs, found, job);
    }
  }

  lemma {:induction false} WriteOnItsWay(w: World, steps: seq<Step>, pid: Pid, found: seq<Candidate>)
    requires steps != [] && steps[|steps| - 1].WriteSettings? && steps[|steps| - 1].pid == pid
    requires UndecidedAt(w, steps, |steps| - 1, pid) && UndecidedAt(w, steps, |steps|, pid)
    requires AllFoundInRun(w, steps, pid, found) && NewestAhead(found)
    requires After(w, steps).jobs == SetJobModels(After(w, steps[..|steps| - 1]).jobs, Updates(found))
    ensures WroteInRun(w, steps, pid, found)
  {
    var s := |steps| - 1;
    assert steps[..|steps|] == steps;
    FoundDecides(w, steps, pid, found, After(w, steps[..s]).jobs);
    assert WroteAt(w, steps, s, pid, found);
  }

  /** A phase with the same candidates keeps what is behind them. */
  lemma {:induction false} SameFound(w: World, steps: seq<Step>, pid: Pid, p: Phase, q: Phase)
    requires steps != [] && HasFound(p) && HasFound(q) && OnItsWay(w, steps[..|steps| - 1], pid, p)
    requires if p == q then true else !p.Scanning? && !q.Scanning? && p.found == q.found && !q.Marking?
    requires q.Marking? ==> UndecidedAt(w, steps, |steps|, pid)
    ensures OnItsWay(w, steps, pid, q)
  {
    FoundLonger(w, steps, pid, p.found);
    var left := if p.Scanning? then p.left else [];
    ListLonger(w, steps, pid, left, p.found, left, p.found);
    if q.Marking? {
      var s: nat :| WroteAt(w, steps[..|steps| - 1], s, pid, p.found);
      WroteLonger(w, steps, s, pid, p.found);
    }
  }

  lemma {:induction false} LookOnItsWay(w: World, steps: seq<Step>, pid: Pid)
    requires steps != [] && steps[|steps| - 1].LookForMarker? && steps[|steps| - 1].pid == pid
    ensures OnItsWay(w, steps, pid, Scanning(steps[|steps| - 1].names, []))
  {
    assert ListedAt(w, steps, |steps| - 1, pid, steps[|steps| - 1].names, []);
  }

  lemma {:induction false} SortOnItsWay(w: World, steps: seq<Step>, pid: Pid, found: seq<Candidate>)
    requires steps != [] && found != [] && OnItsWay(w, steps[..|steps| - 1], pid, Scanning([], found))
    ensures OnItsWay(w, steps, pid, Wanting(NewestFirst(found)))
  {
    SortedAhead(found);
    FoundLonger(w, steps, pid, found);
    ListLonger(w, steps, pid, [], found, [], NewestFirst(found));
  }

  lemma {:induction false} OnItsWayOverRuns(w: World, steps: seq<Step>, pid: Pid)
    requires Fresh(w)
    ensures pid in After(w, steps).procs ==> OnItsWay(w, steps, pid, After(w, steps).procs[pid].phase)
  {
    if steps != [] {
      var front, step := steps[..|steps| - 1], steps[|steps| - 1];
      OnItsWayOverRuns(w, front, pid);
      MarkerWrittenOnce(w, front);
      MarkerWrittenOnce(w, steps);
      var was, now := After(w, front), After(w, steps);
      assert steps[..|steps|] == steps;
      if pid in now.procs && HasFound(now.procs[pid].phase) {
        assert LockedRight(now, pid);
        if !ActedBy(step, pid) {
          Bystander(was, step, pid);
          SameFound(w, steps, pid, was.procs[pid].phase, now.procs[pid].phase);
        } else {
          ActorOnItsWay(w, steps, pid);
        }
      }
    }
  }

  lemma {:induction false} ActorOnItsWay(w: World, steps: seq<Step>, pid: Pid)
    requires steps != [] && ActedBy(steps[|steps| - 1], pid)
    requires LockInv(After(w, steps[..|steps| - 1])) && LockInv(After(w, steps))
    requires pid in After(w, steps).procs && HasFound(After(w, steps).procs[pid].phase)
    requires pid in After(w, steps[..|steps| - 1]).procs
    requires OnItsWay(w, steps[..|steps| - 1], pid, After(w, steps[..|steps| - 1]).procs[pid].phase)
    ensures OnItsWay(w, steps, pid, After(w, steps).procs[pid].phase)
  {
    var was, step, now := After(w, steps[..|steps| - 1]), steps[|steps| - 1], After(w, steps);
    assert steps[..|steps|] == steps;
    assert LockedRight(was, pid) && LockedRight(now, pid);
    PhaseStep(was, step, pid);
    var p, q := was.procs[pid].phase, now.procs[pid].phase;
    if step.LookForMarker? && q == Scanning(step.names, []) {
      LookOnItsWay(w, steps, pid);
    } else if q == p {
      SameFound(w, steps, pid, p, q);
    } else if p.Scanning? && p.left != [] {
      ScanOnItsWay(w, steps, pid, p.left, p.found);
    } else if p.Scanning? {
      SortOnItsWay(w, steps, pid, p.found);
    } else if p.Holding? {
      SameFound(w, steps, pid, p, p);
      WriteOnItsWay(w, steps, pid, p.found);
    } else {
      SameFound(w, steps, pid, p, q);
    }
  }

  /** A marker appears only by the hand of a process that is about to record its candidates. */
  lemma StepMarks(w: World, step: Step)
    requires w.marker.None? && Next(w, step).marker.Some?
    ensures step.WriteMarker? && step.done && step.pid in w.procs && w.procs[step.pid].phase.Marking?
    ensures Next(w, step).marker == Some(Names(w.procs[step.pid].phase.found))
  {
  }

  /**
   * A decision of the run: at position d a process records the candidates it found; before, at s, it wrote the
   * settings, and it held the migration lock from there on.
   */
  ghost predicate DecidesAt(w: World, steps: seq<Step>, s: nat, d: nat, pid: Pid, found: seq<Candidate>) {
    && s < d < |steps| && steps[d] == WriteMarker(pid, true) && found != []
    && After(w, steps[..d]).marker.None?
    && After(w, steps[..d + 1]).marker == Some(set x | x in found :: x.name)
    && WroteAt(w, steps[..d], s, pid, found)
    && AllFoundInRun(w, steps[..d], pid, found)
    && AllScanned(w, steps[..d], pid, [], found)
  }

  /**
   * Where the marker appears in a run, there a decision was made: by one process under the lock, from exactly the
   * candidates it had read among all the personas listed to it; and every job was decided by a newest of them.
   */
  lemma {:induction false} MarkerTellsTheDecision(w: World, steps: seq<Step>, d: nat)
    returns (s: nat, pid: Pid, found: seq<Candidate>)
    requires Fresh(w) && d < |steps|
    requires After(w, steps[..d]).marker.None? && After(w, steps[..d + 1]).marker.Some?
    ensures DecidesAt(w, steps, s, d, pid, found)
  {
    OneMoreStep(w, steps, d);
    var was := After(w, steps[..d]);
    StepMarks(was, steps[d]);
    pid := steps[d].pid;
    found := was.procs[pid].phase.found;
    OnItsWayOverRuns(w, steps[..d], pid);
    s :| WroteAt(w, steps[..d], s, pid, found);
    assert Names(found) == set x | x in found :: x.name;
  }

  /** A marker that was not there at the start appeared at some point of the run. */
  lemma {:induction false} MarkerAppears(w: World, steps: seq<Step>) returns (d: nat)
    requires LockInv(w) && w.marker.None? && After(w, steps).marker.Some?
    ensures d < |steps| && After(w, steps[..d]).marker.None?
            && After(w, steps[..d + 1]).marker == After(w, steps).marker
  {
    var front := steps[..|steps| - 1];
    assert steps[..|steps|] == steps;
    if After(w, front).marker.Some? {
      d := MarkerAppears(w, front);
      MarkerWrittenOnce(w, front);
      LockInvKept(After(w, front), steps[|steps| - 1]);
      assert front[..d] == steps[..d] && front[..d + 1] == steps[..d + 1];
    } else {
      d := |front|;
    }
  }

  /**
   * What a decision makes of one candidate's value for a job: it was written, is the shipped default, was beaten by the
   * user's choice, or by another candidate that is not older.
   */
  ghost predicate ValueDecided(before: Jobs, after: Jobs, found: seq<Candidate>, x: Candidate, job: Job)
    requires job in x.saved
  {
    var id := ResolveChoice(x.saved[job]);
    || (id.Some? && SettingOf(after, job) == Some(Str(id.value)))
    || (SameSetting(before, after, job) && (id == Some(ShippedDefault(job)) || Chosen(before, job)))
    || exists k :: 0 <= k < |found| && found[k] != x && job in found[k].saved && !Newer(x, found[k])
  }

  lemma DecidedFate(before: Jobs, after: Jobs, found: seq<Candidate>, x: Candidate, job: Job)
    requires x in found && job in x.saved && JobDecided(before, after, found, job)
    ensures ValueDecided(before, after, found, x, job)
  {
    var i :| 0 <= i < |found| && found[i] == x;
    assert job in found[i].saved;
    if !Chosen(before, job) {
      var k :| 0 <= k < |found| && NewestHolder(found, found[k], job)
        && var id := ResolveChoice(found[k].saved[job]);
           if id == Some(ShippedDefault(job)) then SameSetting(before, after, job)
           else id.Some? && SettingOf(after, job) == Some(Str(id.value));
      assert !Newer(found[i], found[k]);
    }
  }

  /** A decision of the run considered the persona, and dealt with this value of it if that is what it found. */
  ghost predicate DecidedInRun(w: World, steps: seq<Step>, name: Name, job: Job, value: string) {
    exists s: nat, d: nat, pid: Pid, found: seq<Candidate>, x: Candidate ::
      && DecidesAt(w, steps, s, d, pid, found) && x in found && x.name == name
      && (job in x.saved && x.saved[job] == value ==>
            ValueDecided(After(w, steps[..s]).jobs, After(w, steps[..s + 1]).jobs, found, x, job))
  }

  lemma {:induction false} ConsideredIsDecided(w: World, steps: seq<Step>, name: Name, job: Job, value: string)
    requires Fresh(w) && w.marker.None?
    requires After(w, steps).marker.Some? && name in After(w, steps).marker.value
    ensures DecidedInRun(w, steps, name, job, value)
  {
    var d := MarkerAppears(w, steps);
    var s, pid, found := MarkerTellsTheDecision(w, steps, d);
    assert steps[..d][..s] == steps[..s] && steps[..d][..s + 1] == steps[..s + 1];
    var x :| x in found && x.name == name;
    if job in x.saved {
      DecidedFate(After(w, steps[..s]).jobs, After(w, steps[..s + 1]).jobs, found, x, job);
    }
  }

  // ----- considered personas -----

  /** A look at the marker that finds one. */
  predicate FindsMarker(w: World, step: Step, pid: Pid) {
    && (step.LookForMarker? || step.LookAgain?) && step.pid == pid && pid in w.procs && w.marker.Some?
    && if step.LookForMarker? then w.procs[pid].phase.Begin? else w.procs[pid].phase.Locked?
  }

  /** Past its look at the marker, before its end. */
  predicate Informed(w: World, pid: Pid) {
    pid in w.procs && (w.procs[pid].phase.Clearing? || w.procs[pid].phase.Applying? || w.procs[pid].phase.Rewriting?)
  }

  /** The look that found the marker could not read it. */
  predicate LooksBlind(w: World, step: Step, pid: Pid) {
    FindsMarker(w, step, pid) && !step.readable
  }

  ghost predicate BlindAt(w: World, steps: seq<Step>, pid: Pid, k: nat) {
    && k < |steps| && LooksBlind(After(w, steps[..k]), steps[k], pid)
    && forall j :: k < j <= |steps| ==> Informed(After(w, steps[..j]), pid)
  }

  /** The process goes by a marker it found and could not read. */
  ghost predicate Blind(w: World, steps: seq<Step>, pid: Pid) {
    exists k: nat :: BlindAt(w, steps, pid, k)
  }

  lemma {:induction false} BlindStep(w: World, steps: seq<Step>, pid: Pid)
    requires steps != []
    ensures var front, step := steps[..|steps| - 1], steps[|steps| - 1];
            Blind(w, steps, pid)
            <==> Informed(After(w, steps), pid) && (Blind(w, front, pid) || LooksBlind(After(w, front), step, pid))
  {
    var front, step := steps[..|steps| - 1], steps[|steps| - 1];
    assert steps[..|steps|] == steps;
    forall j | 0 <= j <= |front|
      ensures front[..j] == steps[..j]
    {
    }
    if Blind(w, steps, pid) {
      var k: nat :| BlindAt(w, steps, pid, k);
      assert Informed(After(w, steps[..|steps|]), pid);
      if k < |front| {
        assert BlindAt(w, front, pid, k);
      }
    }
    if Informed(After(w, steps), pid) {
      if Blind(w, front, pid) {
        var k: nat :| BlindAt(w, front, pid, k);
        BlindLonger(w, steps, pid, k);
      } else if LooksBlind(After(w, front), step, pid) {
        assert BlindAt(w, steps, pid, |front|);
      }
    }
  }

  lemma {:induction false} BlindLonger(w: World, steps: seq<Step>, pid: Pid, k: nat)
    requires steps != [] && BlindAt(w, steps[..|steps| - 1], pid, k) && Informed(After(w, steps), pid)
    ensures BlindAt(w, steps, pid, k)
  {
    var front := steps[..|steps| - 1];
    assert steps[..|steps|] == steps && front[..k] == steps[..k];
    forall j | k < j <= |steps|
      ensures Informed(After(w, steps[..j]), pid)
    {
      if j <= |front| {
        assert front[..j] == steps[..j];
      }
    }
  }

  /** What a process believes about the decision is so, unless it is blind: then it takes nobody for considered. */
  ghost predicate Sees(marker: Option<set<Name>>, p: Proc, blind: bool) {
    && (blind ==> marker.Some?)
    && (p.phase.Clearing? ==>
          if p.phase.decided then (if blind then p.phase.considered == {} else marker == Some(p.phase.considered))
          else !blind && p.phase.considered == {})
    && (p.phase.Applying? && p.persona.Some? ==> marker.Some? && (p.persona.value in marker.value ==> blind))
  }

  lemma ReadingDeedSees(w: World, step: Step, p: Proc, blind: bool)
    requires p.phase.Clearing? && Sees(w.marker, p, blind)
    ensures var d := DeedOf(w, step, p);
            && (d.Nothing? || d.Leaves? || (d.Goes? && (d.phase.Applying? || d.phase.Rewriting?)))
            && (d.Goes? ==> Sees(w.marker, Proc(p.persona, d.phase), blind))
  {
  }

  /** Before its look a process is not blind; the look decides. */
  lemma EarlyDeedSees(w: World, step: Step, pid: Pid)
    requires pid in w.procs && !Informed(w, pid) && ActedBy(step, pid) && LockedRight(w, pid)
    ensures var p := w.procs[pid];
            var d := DeedOf(w, step, p);
            && !d.Rewrites?
            && (d.Goes? || d.Locks? || d.Frees? || d.Sets? ==>
                  && !d.phase.Applying? && (LooksBlind(w, step, pid) ==> d.phase.Clearing?)
                  && Sees(w.marker, Proc(p.persona, d.phase), d.phase.Clearing? && LooksBlind(w, step, pid)))
            && (d.Decides? ==> d.phase == Clearing(true, d.names) && !LooksBlind(w, step, pid))
            && (d.Nothing? || d.Leaves? ==> !LooksBlind(w, step, pid))
  {
  }

  lemma DeedSees(w: World, step: Step, pid: Pid, blind: bool)
    requires pid in w.procs && Sees(w.marker, w.procs[pid], blind) && LockedRight(w, pid) && ActedBy(step, pid)
    requires blind ==> Informed(w, pid)
    ensures var after := Next(w, step);
            pid in after.procs ==>
              Sees(after.marker, after.procs[pid], Informed(after, pid) && (blind || LooksBlind(w, step, pid)))
  {
    if !Informed(w, pid) {
      EarlyDeedSees(w, step, pid);
    } else if w.procs[pid].phase.Clearing? {
      ReadingDeedSees(w, step, w.procs[pid], blind);
    } else {
      ActingDeed(w, step, w.procs[pid]);
    }
  }

  lemma ActingDeed(w: World, step: Step, p: Proc)
    requires p.phase.Applying? || p.phase.Rewriting?
    ensures var d := DeedOf(w, step, p); d.Nothing? || d.Leaves? || d.Rewrites? || (d.Sets? && d.phase.Rewriting?)
  {
  }

  lemma SeesKept(w: World, step: Step, pid: Pid, blind: bool)
    requires LockInv(w) && (pid in w.procs ==> Sees(w.marker, w.procs[pid], blind)) && (blind ==> Informed(w, pid))
    ensures var after := Next(w, step);
            pid in after.procs ==>
              Sees(after.marker, after.procs[pid], Informed(after, pid) && (blind || LooksBlind(w, step, pid)))
  {
    NextGrows(w, step);
    if !ActedBy(step, pid) {
      Bystander(w, step, pid);
    } else if pid in w.procs {
      assert LockedRight(w, pid);
      DeedSees(w, step, pid, blind);
    }
  }

  lemma {:induction false} SeesOverRuns(w: World, steps: seq<Step>, pid: Pid)
    requires Fresh(w)
    ensures LockInv(After(w, steps))
    ensures Blind(w, steps, pid) ==> Informed(After(w, steps), pid)
    ensures pid in After(w, steps).procs ==>
            Sees(After(w, steps).marker, After(w, steps).procs[pid], Blind(w, steps, pid))
  {
    if steps != [] {
      var front := steps[..|steps| - 1];
      SeesOverRuns(w, front, pid);
      BlindStep(w, steps, pid);
      LockInvKept(After(w, front), steps[|steps| - 1]);
      SeesKept(After(w, front), steps[|steps| - 1], pid, Blind(w, front, pid));
    }
  }

  /**
   * Over any run, what a process that has looked for the marker does with its persona's file: nothing, if there is
   * none, it is damaged or has nothing left over; with a valid Claude value in it, nothing before a decision is known,
   * only clear it if the persona was considered - unless it could not read the marker it found - and otherwise apply it
   * first.
   */
  lemma {:induction false} ReadsItsFileExactly(w: World, steps: seq<Step>, pid: Pid, name: Name)
    requires Fresh(w)
    requires var now := After(w, steps);
             pid in now.procs && now.procs[pid].persona == Some(name) && now.procs[pid].phase.Clearing?
    ensures var now, read := After(w, steps), Next(After(w, steps), ReadOwn(pid));
            && read.files == now.files && read.jobs == now.jobs && read.history == now.history
            && if name !in now.files || now.files[name].Damaged? || !HasLegacy(now.files[name].config)
               then pid !in read.procs
               else
                 var c := now.files[name].config;
                 if !(c.claude && ValidLegacy(c) != map[])
                 then HasRead(read, pid, name, c) && read.procs[pid].phase.Rewriting?
                 else if !now.procs[pid].phase.decided then pid !in read.procs
                 else
                   && HasRead(read, pid, name, c) && now.marker.Some?
                   && (read.procs[pid].phase.Applying? <==> name !in now.marker.value || Blind(w, steps, pid))
  {
    SeesOverRuns(w, steps, pid);
    var now := After(w, steps);
    var p := now.procs[pid];
    assert DeedOf(now, ReadOwn(pid), p) == DeedReadingOwn(now, name, p.phase.decided, p.phase.considered);
  }

  /**
   * So a process whose persona the decision considered, and whose file holds a valid Claude value, goes on to apply it
   * exactly if the look that found the marker could not read it; otherwise it only clears the file.
   */
  lemma {:induction false} ConsideredAppliesExactly(w: World, steps: seq<Step>, pid: Pid, name: Name, c: Config)
    requires Fresh(w)
    requires var now := After(w, steps);
             && pid in now.procs && now.procs[pid].persona == Some(name)
             && now.procs[pid].phase.Clearing? && now.procs[pid].phase.decided
             && now.marker.Some? && name in now.marker.value
             && name in now.files && now.files[name] == Fine(c) && c.claude && ValidLegacy(c) != map[]
    ensures var read := Next(After(w, steps), ReadOwn(pid));
            pid in read.procs
            && read.procs[pid] == Proc(Some(name), if Blind(w, steps, pid) then Applying(c) else Rewriting(c))
  {
    ReadsItsFileExactly(w, steps, pid, name);
    ValidIsLegacy(c);
  }

  lemma ValidIsLegacy(c: Config)
    requires ValidLegacy(c) != map[]
    ensures HasLegacy(c)
  {
    var job :| job in ValidLegacy(c);
    assert SavedFor(c, job).Some?;
  }

  /** Only a process about to record the decision or applying its persona's values writes settings. */
  lemma QuietDeed(w: World, step: Step, p: Proc)
    requires !p.phase.Holding? && !p.phase.Applying?
    ensures !DeedOf(w, step, p).Sets?
  {
  }

  lemma DoQuietly(w: World, pid: Pid, d: Deed)
    requires pid in w.procs && !d.Sets?
    ensures Do(w, pid, d).jobs == w.jobs && Do(w, pid, d).history == w.history
  {
  }

  /**
   * Once the decision is recorded a process for a persona it considered never writes a setting, whatever step it takes,
   * unless it goes by a marker it found and could not read.
   */
  lemma {:induction false} ConsideredNeverApplies(w: World, steps: seq<Step>, pid: Pid, step: Step)
    requires Fresh(w) && !Blind(w, steps, pid) && ActedBy(step, pid)
    requires var now := After(w, steps);
             && pid in now.procs && now.procs[pid].persona.Some?
             && now.marker.Some? && now.procs[pid].persona.value in now.marker.value
    ensures Next(After(w, steps), step).jobs == After(w, steps).jobs
    ensures Next(After(w, steps), step).history == After(w, steps).history
  {
    SeesOverRuns(w, steps, pid);
    var now := After(w, steps);
    assert LockedRight(now, pid);
    QuietDeed(now, step, now.procs[pid]);
    DoQuietly(now, pid, DeedOf(now, step, now.procs[pid]));
  }

  // ----- what was recorded -----

  ghost predicate Recorded(history: seq<Record>, name: Name, job: Job, value: string) {
    exists k: nat :: RecordAt(history, name, job, value, k)
  }

  ghost predicate RecordAt(history: seq<Record>, name: Name, job: Job, value: string, k: nat) {
    k < |history| && history[k].name == name && history[k].job == job && history[k].value == value
  }

  lemma {:induction false} RecordsName(jobs: Jobs, name: Name, saved: map<Job, string>, order: seq<Job>, job: Job)
    requires job in saved && job in order
    ensures exists k: nat :: RecordAt(Records(jobs, name, saved, order), name, job, saved[job], k)
  {
    var front, l := order[..|order| - 1], order[|order| - 1];
    var before := Records(jobs, name, saved, front);
    assert order == front + [l];
    if l == job {
      assert RecordAt(Records(jobs, name, saved, order), name, job, saved[job], |before|);
    } else {
      RecordsName(jobs, name, saved, front, job);
      var k: nat :| RecordAt(before, name, job, saved[job], k);
      assert RecordAt(Records(jobs, name, saved, order), name, job, saved[job], k);
    }
  }

  lemma {:induction false} RecordsOnlySaved(jobs: Jobs, name: Name, saved: map<Job, string>, order: seq<Job>, k: nat)
    requires k < |Records(jobs, name, saved, order)|
    ensures var r := Records(jobs, name, saved, order)[k]; r.name == name && r.job in saved && r.value == saved[r.job]
  {
    var front := order[..|order| - 1];
    if k < |Records(jobs, name, saved, front)| {
      RecordsOnlySaved(jobs, name, saved, front, k);
    }
  }

  lemma RecordedInParts(a: seq<Record>, b: seq<Record>, name: Name, job: Job, value: string)
    ensures Recorded(a + b, name, job, value) <==> Recorded(a, name, job, value) || Recorded(b, name, job, value)
  {
    if Recorded(a + b, name, job, value) {
      var k: nat :| RecordAt(a + b, name, job, value, k);
      if k < |a| {
        assert RecordAt(a, name, job, value, k);
      } else {
        assert RecordAt(b, name, job, value, k - |a|);
      }
    }
    if Recorded(a, name, job, value) {
      var k: nat :| RecordAt(a, name, job, value, k);
      assert RecordAt(a + b, name, job, value, k);
    }
    if Recorded(b, name, job, value) {
      var k: nat :| RecordAt(b, name, job, value, k);
      assert RecordAt(a + b, name, job, value, |a| + k);
    }
  }

  lemma {:induction false} RecordedLate(jobs: Jobs, late: Name, c: Config, name: Name, job: Job, value: string)
    ensures Recorded(Records(jobs, late, ValidLegacy(c), IN_ORDER), name, job, value)
            <==> late == name && SavedFor(c, job) == Some(value)
  {
    var more := Records(jobs, late, ValidLegacy(c), IN_ORDER);
    if Recorded(more, name, job, value) {
      var k: nat :| RecordAt(more, name, job, value, k);
      RecordsOnlySaved(jobs, late, ValidLegacy(c), IN_ORDER, k);
    }
    if late == name && SavedFor(c, job) == Some(value) {
      assert job in IN_ORDER;
      RecordsName(jobs, late, ValidLegacy(c), IN_ORDER, job);
    }
  }

  /** What one step adds to the history: nothing, or the values a process applies. */
  lemma StepRecords(w: World, step: Step)
    ensures var after := Next(w, step);
            || after.history == w.history
            || (&& step.ApplyLate? && step.pid in w.procs && w.procs[step.pid].phase.Applying?
               && w.procs[step.pid].persona.Some?
                && var p := w.procs[step.pid];
                   after.history == w.history + Records(w.jobs, p.persona.value, ValidLegacy(p.phase.config), IN_ORDER))
  {
    if !step.Start? && !step.UserPicks? && !step.FileArrives? && step.pid in w.procs {
      DeedRecords(w, step, w.procs[step.pid]);
    }
  }

  lemma DeedRecords(w: World, step: Step, p: Proc)
    ensures var d := DeedOf(w, step, p);
            d.Sets? && d.more != [] ==>
              && step.ApplyLate? && p.phase.Applying? && p.persona.Some?
              && d.more == Records(w.jobs, p.persona.value, ValidLegacy(p.phase.config), IN_ORDER)
  {
  }

  /** A process that has read its file goes from applying to rewriting only by recording what it read. */
  lemma {:induction false} OwnStep(w: World, step: Step, pid: Pid, name: Name, c: Config)
    requires HasRead(w, pid, name, c) && HasRead(Next(w, step), pid, name, c)
    ensures var from, to := w.procs[pid].phase, Next(w, step).procs[pid].phase;
            || (from == to && (ActedBy(step, pid) ==> Next(w, step).history == w.history))
            || (from.Applying? && to.Rewriting?
                && Next(w, step).history == w.history + Records(w.jobs, name, ValidLegacy(c), IN_ORDER))
  {
    if !ActedBy(step, pid) {
      Bystander(w, step, pid);
    } else {
      OwnDeed(w, step, pid, name, c);
    }
  }

  lemma {:induction false} OwnDeed(w: World, step: Step, pid: Pid, name: Name, c: Config)
    requires HasRead(w, pid, name, c) && ActedBy(step, pid)
    ensures var d := DeedOf(w, step, w.procs[pid]);
            || d.Nothing? || d.Leaves? || d.Rewrites?
            || (w.procs[pid].phase.Applying?
                && d == Sets(Rewriting(c), Late(name, c), Records(w.jobs, name, ValidLegacy(c), IN_ORDER)))
  {
  }

  // ----- no valid value leaves its file unaccounted for -----

  /** The process has read c as its persona's file and has still to rewrite it. */
  ghost predicate HasRead(w: World, pid: Pid, name: Name, c: Config) {
    pid in w.procs && (w.procs[pid] == Proc(Some(name), Applying(c)) || w.procs[pid] == Proc(Some(name), Rewriting(c)))
  }

  ghost predicate HeldAt(w: World, steps: seq<Step>, n: nat, pid: Pid, name: Name, c: Config) {
    n <= |steps| && HasRead(After(w, steps[..n]), pid, name, c)
  }

  /**
   * At position k of the run this very process read c as its persona's file, which the file then said, and it has held
   * it since.
   */
  ghost predicate ReadAt(w: World, steps: seq<Step>, k: nat, pid: Pid, name: Name, c: Config) {
    && k < |steps| && steps[k] == ReadOwn(pid)
    && (var was := After(w, steps[..k]);
        && pid in was.procs && was.procs[pid].phase.Clearing?
        && name in was.files && was.files[name] == Fine(c))
    && forall j :: k < j <= |steps| ==> HeldAt(w, steps, j, pid, name, c)
  }

  /** How much was recorded before the process read its file. */
  ghost function RecordedBefore(w: World, steps: seq<Step>, k: nat): nat
    requires k <= |steps|
  {
    |After(w, steps[..k]).history|
  }

  function Dropped(history: seq<Record>, n: nat): seq<Record> {
    if n <= |history| then history[n..] else []
  }

  /** The persona was considered by the decision, or this very value of it was applied since. */
  ghost predicate AccountedSince(w: World, base: nat, name: Name, job: Job, value: string) {
    (w.marker.Some? && name in w.marker.value) || Recorded(Dropped(w.history, base), name, job, value)
  }

  lemma NewlyReads(w: World, step: Step, pid: Pid, name: Name, c: Config)
    requires !HasRead(w, pid, name, c) && HasRead(Next(w, step), pid, name, c)
    ensures step == ReadOwn(pid) && pid in w.procs && w.procs[pid].phase.Clearing? && w.procs[pid].persona == Some(name)
    ensures name in w.files && w.files[name] == Fine(c)
  {
    if !ActedBy(step, pid) {
      Bystander(w, step, pid);
    }
  }

  lemma {:induction false} StillRead(w: World, steps: seq<Step>, k: nat, pid: Pid, name: Name, c: Config)
    requires steps != [] && ReadAt(w, steps[..|steps| - 1], k, pid, name, c) && HasRead(After(w, steps), pid, name, c)
    ensures ReadAt(w, steps, k, pid, name, c)
  {
    var front := steps[..|steps| - 1];
    assert steps[..|steps|] == steps && front[..k] == steps[..k];
    forall j | k < j <= |steps|
      ensures HeldAt(w, steps, j, pid, name, c)
    {
      if j <= |front| {
        assert front[..j] == steps[..j] && HeldAt(w, front, j, pid, name, c);
      }
    }
  }

  /** A process that has read a file read it at some point of the run. */
  lemma {:induction false} ReadSomewhere(w: World, steps: seq<Step>, pid: Pid, name: Name, c: Config) returns (k: nat)
    requires Fresh(w) && HasRead(After(w, steps), pid, name, c)
    ensures ReadAt(w, steps, k, pid, name, c)
  {
    var front, step := steps[..|steps| - 1], steps[|steps| - 1];
    if HasRead(After(w, front), pid, name, c) {
      k := ReadSomewhere(w, front, pid, name, c);
      StillRead(w, steps, k, pid, name, c);
    } else {
      NewlyReads(After(w, front), step, pid, name, c);
      k := |front|;
      assert steps[..|steps|] == steps;
    }
  }

  /** Once the process rewrites, the value it read in a Claude file is accounted for. */
  ghost predicate Owed(w: World, base: nat, pid: Pid, name: Name, c: Config, job: Job, value: string) {
    && HasRead(w, pid, name, c) && base <= |w.history|
    && (w.procs[pid].phase.Rewriting? && c.claude && SavedFor(c, job) == Some(value) ==>
          AccountedSince(w, base, name, job, value))
  }

  lemma RecordedGrows(w: World, after: World, base: nat, name: Name, job: Job, value: string)
    requires Grows(w, after) && base <= |w.history| && AccountedSince(w, base, name, job, value)
    ensures AccountedSince(after, base, name, job, value)
  {
    var more := after.history[|w.history|..];
    assert after.history[base..] == w.history[base..] + more;
    RecordedInParts(w.history[base..], more, name, job, value);
  }

  lemma {:induction false} AppliedIsAccounted(w: World, after: World, base: nat, name: Name, c: Config, job: Job,
                                              value: string)
    requires base <= |w.history| && after.history == w.history + Records(w.jobs, name, ValidLegacy(c), IN_ORDER)
    requires SavedFor(c, job) == Some(value)
    ensures AccountedSince(after, base, name, job, value)
  {
    var more := Records(w.jobs, name, ValidLegacy(c), IN_ORDER);
    assert after.history[base..] == w.history[base..] + more;
    RecordedInParts(w.history[base..], more, name, job, value);
    RecordedLate(w.jobs, name, c, name, job, value);
  }

  lemma {:induction false} StepOwed(w: World, step: Step, base: nat, pid: Pid, name: Name, c: Config, job: Job,
                                    value: string)
    requires LockInv(w) && Owed(w, base, pid, name, c, job, value) && HasRead(Next(w, step), pid, name, c)
    ensures Owed(Next(w, step), base, pid, name, c, job, value)
  {
    NextGrows(w, step);
    OwnStep(w, step, pid, name, c);
    var after := Next(w, step);
    if w.procs[pid].phase != after.procs[pid].phase {
      if SavedFor(c, job) == Some(value) {
        AppliedIsAccounted(w, after, base, name, c, job, value);
      }
    } else if AccountedSince(w, base, name, job, value) {
      RecordedGrows(w, after, base, name, job, value);
    }
  }

  /** Where a process stands that has just read its persona's file. */
  lemma JustRead(w: World, pid: Pid, name: Name, c: Config, job: Job, value: string, blind: bool)
    requires pid in w.procs && w.procs[pid].phase.Clearing? && Sees(w.marker, w.procs[pid], blind)
    requires HasRead(Next(w, ReadOwn(pid)), pid, name, c)
    ensures var read := Next(w, ReadOwn(pid));
            && read.history == w.history && read.marker == w.marker
            && (read.procs[pid].phase.Applying? ==> c.claude)
            && (read.procs[pid].phase.Rewriting? && c.claude && SavedFor(c, job) == Some(value) ==>
                  w.marker.Some? && name in w.marker.value)
  {
    var p := w.procs[pid];
    assert p.persona == Some(name);
    assert DeedOf(w, ReadOwn(pid), p) == DeedReadingOwn(w, name, p.phase.decided, p.phase.considered);
    if SavedFor(c, job) == Some(value) {
      assert job in ValidLegacy(c);
    }
  }

  lemma {:induction false} OneMoreStep(w: World, steps: seq<Step>, n: nat)
    requires n < |steps|
    ensures After(w, steps[..n + 1]) == Next(After(w, steps[..n]), steps[n])
  {
    assert steps[..n + 1][..n] == steps[..n];
  }

  lemma {:induction false} ReadingSees(w: World, steps: seq<Step>, k: nat, pid: Pid, name: Name, c: Config, job: Job,
                                       value: string)
    requires Fresh(w) && ReadAt(w, steps, k, pid, name, c)
    ensures var was, read := After(w, steps[..k]), After(w, steps[..k + 1]);
            && HasRead(read, pid, name, c) && read.history == was.history && read.marker == was.marker
            && (read.procs[pid].phase.Applying? ==> c.claude)
            && (read.procs[pid].phase.Rewriting? && c.claude && SavedFor(c, job) == Some(value) ==>
                  read.marker.Some? && name in read.marker.value)
  {
    SeesOverRuns(w, steps[..k], pid);
    OneMoreStep(w, steps, k);
    assert HeldAt(w, steps, k + 1, pid, name, c);
    JustRead(After(w, steps[..k]), pid, name, c, job, value, Blind(w, steps[..k], pid));
  }

  lemma {:induction false} OwedFirst(w: World, steps: seq<Step>, k: nat, pid: Pid, name: Name, c: Config, job: Job,
                                     value: string)
    requires Fresh(w) && ReadAt(w, steps, k, pid, name, c)
    ensures Owed(After(w, steps[..k + 1]), RecordedBefore(w, steps, k), pid, name, c, job, value)
  {
    ReadingSees(w, steps, k, pid, name, c, job, value);
  }

  lemma {:induction false} OwedNext(w: World, steps: seq<Step>, n: nat, base: nat, pid: Pid, name: Name, c: Config,
                                    job: Job, value: string)
    requires LockInv(w) && 0 < n <= |steps| && HeldAt(w, steps, n, pid, name, c)
    requires Owed(After(w, steps[..n - 1]), base, pid, name, c, job, value)
    ensures Owed(After(w, steps[..n]), base, pid, name, c, job, value)
  {
    MarkerWrittenOnce(w, steps[..n - 1]);
    OneMoreStep(w, steps, n - 1);
    StepOwed(After(w, steps[..n - 1]), steps[n - 1], base, pid, name, c, job, value);
  }

  lemma {:induction false} OwedOverRuns(w: World, steps: seq<Step>, k: nat, n: nat, pid: Pid, name: Name, c: Config,
                                        job: Job, value: string)
    requires Fresh(w) && ReadAt(w, steps, k, pid, name, c) && k < n <= |steps|
    ensures Owed(After(w, steps[..n]), RecordedBefore(w, steps, k), pid, name, c, job, value)
    decreases n
  {
    if n == k + 1 {
      OwedFirst(w, steps, k, pid, name, c, job, value);
    } else {
      OwedOverRuns(w, steps, k, n - 1, pid, name, c, job, value);
      OwedNext(w, steps, n, RecordedBefore(w, steps, k), pid, name, c, job, value);
    }
  }

  lemma OnlyRewritesTouchFiles(w: World, step: Step)
    requires !step.FileArrives?
    ensures || Next(w, step).files == w.files
            || (&& step.RewriteOwn? && step.pid in w.procs && w.procs[step.pid].phase.Rewriting?
               && w.procs[step.pid].persona.Some?
                && var p := w.procs[step.pid];
                   Next(w, step).files == w.files[p.persona.value := Fine(Cleared(p.phase.config))])
  {
  }

  /**
   * Over any run, a step that takes a valid saved Claude value out of a persona's file is that persona's own rewrite,
   * by a process that read the file at some point of the run; and if what it read there was a Claude file with that
   * value for that job, the value was applied after that read, or the persona was considered - by a decision of this
   * run that dealt with its value for the job, or by one made before.
   */
  lemma {:induction false} RemovedOnlyWhenAccounted(w: World, steps: seq<Step>, step: Step, name: Name, job: Job)
    requires Fresh(w) && !step.FileArrives?
    requires var now := After(w, steps);
             && name in now.files && now.files[name].Fine? && now.files[name].config.claude
             && SavedFor(now.files[name].config, job).Some?
    ensures var now, next := After(w, steps), Next(After(w, steps), step);
            var value := SavedFor(now.files[name].config, job);
            || (name in next.files && next.files[name] == now.files[name])
            || (&& step.RewriteOwn? && step.pid in now.procs && now.procs[step.pid].persona == Some(name)
                && now.procs[step.pid].phase.Rewriting?
                && var read := now.procs[step.pid].phase.config;
                   && next.files == now.files[name := Fine(Cleared(read))]
                   && exists k: nat :: ReadAt(w, steps, k, step.pid, name, read)
                        && (read.claude && SavedFor(read, job) == value ==>
                              || Recorded(Dropped(now.history, RecordedBefore(w, steps, k)), name, job, value.value)
                              || (w.marker.Some? && name in w.marker.value)
                              || DecidedInRun(w, steps, name, job, value.value)))
  {
    var now := After(w, steps);
    OnlyRewritesTouchFiles(now, step);
    if Next(now, step).files != now.files && now.procs[step.pid].persona == Some(name) {
      var read, value := now.procs[step.pid].phase.config, SavedFor(now.files[name].config, job).value;
      var k := ReadSomewhere(w, steps, step.pid, name, read);
      OwedOverRuns(w, steps, k, |steps|, step.pid, name, read, job, value);
      assert steps[..|steps|] == steps;
      MarkerWrittenOnce(w, steps);
      if w.marker.None? && now.marker.Some? && name in now.marker.value {
        ConsideredIsDecided(w, steps, name, job, value);
      }
    }
  }

  // ----- exactly when a rewrite loses a value -----

  predicate AppliesAnother(w: World, step: Step, pid: Pid, name: Name) {
    step.ApplyLate? && step.pid != pid && step.pid in w.procs && w.procs[step.pid].persona == Some(name)
  }

  ghost predicate AnotherAt(w: World, steps: seq<Step>, n: nat, pid: Pid, name: Name) {
    n < |steps| && AppliesAnother(After(w, steps[..n]), steps[n], pid, name)
  }

  /** Since the read no other process of the persona has applied its values. */
  ghost predicate NoneAppliesAnother(w: World, steps: seq<Step>, k: nat, pid: Pid, name: Name) {
    forall j :: k < j < |steps| ==> !AnotherAt(w, steps, j, pid, name)
  }

  /** While its reader still applies, the value is not recorded anew; once it rewrites, it is if it was read there. */
  ghost predicate Pending(w: World, base: nat, pid: Pid, name: Name, c: Config, job: Job, value: string) {
    && HasRead(w, pid, name, c) && base <= |w.history|
    && (w.procs[pid].phase.Applying? ==> c.claude && !Recorded(w.history[base..], name, job, value))
    && (w.procs[pid].phase.Rewriting? ==>
          (Recorded(w.history[base..], name, job, value) <==> c.claude && SavedFor(c, job) == Some(value)))
  }

  lemma PendingAtRead(w: World, pid: Pid, name: Name, c: Config, job: Job, value: string)
    requires HasRead(w, pid, name, c) && (w.procs[pid].phase.Applying? ==> c.claude)
    requires w.procs[pid].phase.Rewriting? ==> !(c.claude && SavedFor(c, job) == Some(value))
    ensures Pending(w, |w.history|, pid, name, c, job, value)
  {
    assert w.history[|w.history|..] == [];
  }

  lemma {:induction false} StepPending(w: World, step: Step, base: nat, pid: Pid, name: Name, c: Config, job: Job,
                                       value: string)
    requires Pending(w, base, pid, name, c, job, value) && HasRead(Next(w, step), pid, name, c)
    requires !AppliesAnother(w, step, pid, name)
    ensures Pending(Next(w, step), base, pid, name, c, job, value)
  {
    OwnStep(w, step, pid, name, c);
    StepRecords(w, step);
    var after := Next(w, step);
    if after.history != w.history {
      var p := w.procs[step.pid];
      var more := Records(w.jobs, p.persona.value, ValidLegacy(p.phase.config), IN_ORDER);
      assert after.history[base..] == w.history[base..] + more;
      RecordedInParts(w.history[base..], more, name, job, value);
      RecordedLate(w.jobs, p.persona.value, p.phase.config, name, job, value);
    } else if w.procs[pid].phase != after.procs[pid].phase {
      NothingRecorded(w, name, c, job, value);
    }
  }

  lemma {:induction false} NothingRecorded(w: World, name: Name, c: Config, job: Job, value: string)
    requires w.history == w.history + Records(w.jobs, name, ValidLegacy(c), IN_ORDER)
    ensures SavedFor(c, job) != Some(value)
  {
    RecordedLate(w.jobs, name, c, name, job, value);
    assert |Records(w.jobs, name, ValidLegacy(c), IN_ORDER)| == 0;
  }

  lemma {:induction false} PendingFirst(w: World, steps: seq<Step>, k: nat, pid: Pid, name: Name, c: Config, job: Job,
                                        value: string)
    requires Fresh(w) && ReadAt(w, steps, k, pid, name, c)
    requires !(After(w, steps[..k + 1]).marker.Some? && name in After(w, steps[..k + 1]).marker.value)
    ensures Pending(After(w, steps[..k + 1]), RecordedBefore(w, steps, k), pid, name, c, job, value)
  {
    ReadingSees(w, steps, k, pid, name, c, job, value);
    PendingAtRead(After(w, steps[..k + 1]), pid, name, c, job, value);
  }

  lemma {:induction false} PendingNext(w: World, steps: seq<Step>, n: nat, base: nat, pid: Pid, name: Name, c: Config,
                                       job: Job,
                                       value: string)
    requires 0 < n <= |steps| && Pending(After(w, steps[..n - 1]), base, pid, name, c, job, value)
    requires HeldAt(w, steps, n, pid, name, c) && !AnotherAt(w, steps, n - 1, pid, name)
    ensures Pending(After(w, steps[..n]), base, pid, name, c, job, value)
  {
    OneMoreStep(w, steps, n - 1);
    StepPending(After(w, steps[..n - 1]), steps[n - 1], base, pid, name, c, job, value);
  }

  lemma {:induction false} PendingOverRuns(w: World, steps: seq<Step>, k: nat, n: nat, pid: Pid, name: Name, c: Config,
                                           job: Job,
                                           value: string)
    requires Fresh(w) && ReadAt(w, steps, k, pid, name, c) && k < n <= |steps|
            && NoneAppliesAnother(w, steps, k, pid, name)
    requires !(After(w, steps[..k + 1]).marker.Some? && name in After(w, steps[..k + 1]).marker.value)
    ensures Pending(After(w, steps[..n]), RecordedBefore(w, steps, k), pid, name, c, job, value)
    decreases n
  {
    if n == k + 1 {
      PendingFirst(w, steps, k, pid, name, c, job, value);
    } else {
      PendingOverRuns(w, steps, k, n - 1, pid, name, c, job, value);
      PendingNext(w, steps, n, RecordedBefore(w, steps, k), pid, name, c, job, value);
    }
  }

  lemma {:induction false} MarkerBetween(w: World, steps: seq<Step>, n: nat)
    requires LockInv(w) && n <= |steps|
    ensures var was, now := After(w, steps[..n]), After(w, steps);
            was.marker.Some? ==> now.marker == was.marker
    decreases |steps| - n
  {
    if n < |steps| {
      MarkerWrittenOnce(w, steps[..n]);
      OneMoreStep(w, steps, n);
      LockInvKept(After(w, steps[..n]), steps[n]);
      MarkerBetween(w, steps, n + 1);
    } else {
      assert steps[..n] == steps;
    }
  }

  /**
   * The exact condition. A process reads its persona's file, the world goes on, and the process rewrites the file. For
   * a persona the decision did not consider, of which no other process has applied anything since the read, a value is
   * accounted for after the rewrite - considered, or applied since the read - exactly if the file read was a Claude one
   * with that very value for the job. Whatever else the file says by then is lost, imported again or not.
   */
  lemma {:induction false} LostExactly(w: World, steps: seq<Step>, k: nat, pid: Pid, name: Name, c: Config, job: Job,
                                       value: string)
    requires Fresh(w) && ReadAt(w, steps, k, pid, name, c) && NoneAppliesAnother(w, steps, k, pid, name)
    requires var now := After(w, steps);
             && pid in now.procs && now.procs[pid].phase.Rewriting?
             && !(now.marker.Some? && name in now.marker.value)
    ensures var end := Next(After(w, steps), RewriteOwn(pid));
            && name in end.files && end.files[name] == Fine(Cleared(c))
            && (AccountedSince(end, RecordedBefore(w, steps, k), name, job, value)
                <==> c.claude && SavedFor(c, job) == Some(value))
  {
    assert steps[..|steps|] == steps;
    assert HeldAt(w, steps, |steps|, pid, name, c);
    MarkerBetween(w, steps, k + 1);
    PendingOverRuns(w, steps, k, |steps|, pid, name, c, job, value);
    Rewritten(After(w, steps), pid, name, c);
  }

  lemma Rewritten(w: World, pid: Pid, name: Name, c: Config)
    requires pid in w.procs && w.procs[pid] == Proc(Some(name), Rewriting(c))
    ensures var end := Next(w, RewriteOwn(pid));
            end.jobs == w.jobs && end.files == w.files[name := Fine(Cleared(c))] && end.history == w.history
              && end.marker == w.marker
  {
  }

  /** A late application does to the settings what it records: the value is the default, is taken, or is beaten. */
  lemma LateFate(w: World, name: Name, c: Config, job: Job)
    requires SavedFor(c, job).Some?
    ensures var value := SavedFor(c, job).value;
            var after, fate := SetJobModels(w.jobs, Updates(Late(name, c))), FateOf(w.jobs, job, value);
            && ResolveChoice(value).Some?
            && (fate == Taken <==> !Chosen(w.jobs, job) && ResolveChoice(value) != Some(ShippedDefault(job)))
            && SettingOf(after, job)
               == if fate == Taken then Some(Str(ResolveChoice(value).value)) else SettingOf(w.jobs, job)
  {
    OnlyCandidate(w.jobs, Late(name, c)[0], job);
  }

  /** What a record says its step did to the setting of its job. */
  ghost predicate TellsTheTruth(before: Jobs, after: Jobs, r: Record) {
    var id := ResolveChoice(r.value);
    && id.Some?
    && match r.fate
       case Taken => !Chosen(before, r.job) && SettingOf(after, r.job) == Some(Str(id.value))
       case Beaten => Chosen(before, r.job) && SameSetting(before, after, r.job)
       case IsDefault => id.value == ShippedDefault(r.job) && SameSetting(before, after, r.job)
  }

  lemma {:induction false} RecordsFate(jobs: Jobs, name: Name, saved: map<Job, string>, order: seq<Job>, k: nat)
    requires k < |Records(jobs, name, saved, order)|
    ensures var r := Records(jobs, name, saved, order)[k]; r.fate == FateOf(jobs, r.job, r.value)
  {
    var front := order[..|order| - 1];
    if k < |Records(jobs, name, saved, front)| {
      RecordsFate(jobs, name, saved, front, k);
    }
  }

  /** Every record a step adds to the history tells what that very step did. */
  lemma {:induction false} RecordsTellTheTruth(w: World, step: Step, k: nat)
    requires |w.history| <= k < |Next(w, step).history|
    ensures TellsTheTruth(w.jobs, Next(w, step).jobs, Next(w, step).history[k])
  {
    StepRecords(w, step);
    var p := w.procs[step.pid];
    var name, c := p.persona.value, p.phase.config;
    var more := Records(w.jobs, name, ValidLegacy(c), IN_ORDER);
    RecordsOnlySaved(w.jobs, name, ValidLegacy(c), IN_ORDER, k - |w.history|);
    RecordsFate(w.jobs, name, ValidLegacy(c), IN_ORDER, k - |w.history|);
    var r := more[k - |w.history|];
    assert Next(w, step).history[k] == r;
    LateFate(w, name, c, r.job);
    AppliesSets(w, step);
  }

  lemma {:induction false} AppliesSets(w: World, step: Step)
    requires Next(w, step).history != w.history
    requires step.ApplyLate? && step.pid in w.procs && w.procs[step.pid].phase.Applying?
            && w.procs[step.pid].persona.Some?
    ensures var p := w.procs[step.pid];
            Next(w, step).jobs == SetJobModels(w.jobs, Updates(Late(p.persona.value, p.phase.config)))
  {
    NextIsDo(w, step, step.pid);
    var d := DeedOf(w, step, w.procs[step.pid]);
    ApplyingDeed(w, step, w.procs[step.pid]);
    if d.Sets? {
      DoSets(w, step.pid, d.phase, d.candidates, d.more);
    } else {
      DoQuietly(w, step.pid, d);
    }
  }

  lemma {:induction false} ApplyingDeed(w: World, step: Step, p: Proc)
    requires step.ApplyLate? && p.phase.Applying? && p.persona.Some?
    ensures var d := DeedOf(w, step, p);
            d.Leaves? || (d.Sets? && d.candidates == Late(p.persona.value, p.phase.config))
  {
  }

  lemma FailedDeed(w: World, step: Step, p: Proc)
    requires (step.WriteSettings? || step.ApplyLate?) && !step.done
    ensures var d := DeedOf(w, step, p); d.Sets? ==> Updates(d.candidates) == map[]
  {
  }

  /** A write of the settings that does not reach the disk changes no setting. */
  lemma {:induction false} FailedWriteChangesNothing(w: World, step: Step)
    requires (step.WriteSettings? || step.ApplyLate?) && !step.done
    ensures Next(w, step).jobs == w.jobs
  {
    if step.pid in w.procs {
      FailedDeed(w, step, w.procs[step.pid]);
      NextIsDo(w, step, step.pid);
      var d := DeedOf(w, step, w.procs[step.pid]);
      if d.Sets? {
        DoSets(w, step.pid, d.phase, d.candidates, d.more);
        assert Written(w.jobs, map[]) == map[];
      } else {
        DoQuietly(w, step.pid, d);
      }
    }
  }

  /**
   * Where a start breaks off, nothing else changes: killed, it is gone and holds no lock; without the lock, or with no
   * candidate among the personas, it goes on to its own persona's file knowing of no decision.
   */
  lemma {:induction false} BreaksOff(w: World, pid: Pid, readable: bool)
    requires pid in w.procs
    ensures Next(w, Crash(pid)) == w.(procs := w.procs - {pid}, lock := if w.lock == Some(pid) then None else w.lock)
    ensures var p := w.procs[pid];
            var on := w.(procs := w.procs[pid := Proc(p.persona, Clearing(false, {}))]);
            && (p.phase.Wanting? ==> Next(w, GiveUpLock(pid)) == on)
            && (p.phase == Scanning([], []) ==> Next(w, ScanNext(pid, readable)) == on)
  {
    NextIsDo(w, Crash(pid), pid);
    NextIsDo(w, GiveUpLock(pid), pid);
    NextIsDo(w, ScanNext(pid, readable), pid);
  }

  /** A cleared file has nothing left to migrate and is otherwise the same. */
  lemma ClearedKeepsTheRest(c: Config)
    ensures var cleared := Cleared(c);
            && !HasLegacy(cleared) && (forall job :: SavedFor(cleared, job) == None)
            && cleared.claude == c.claude && cleared.lastOpened == c.lastOpened && cleared.mtime == c.mtime
            && cleared.rest == c.rest
  {
  }

  // ----- where the guarantees stop -----

  lemma {:induction false} AfterThree(w: World, a: Step, b: Step, c: Step)
    ensures After(w, [a, b, c]) == Next(Next(Next(w, a), b), c)
  {
    assert [a, b, c][..2] == [a, b] && [a, b][..1] == [a] && [a][..0] == [];
    assert After(w, [a]) == Next(w, a);
    assert After(w, [a, b]) == Next(After(w, [a]), b);
  }

  function OneProc(w: World, pid: Pid, p: Proc): World {
    w.(procs := map[pid := p])
  }

  lemma Looks(w: World, pid: Pid, name: Name, readable: bool)
    requires Fresh(w) && w.marker.Some?
    ensures Next(Next(w, Start(pid, Some(name))), LookForMarker(pid, readable, []))
            == OneProc(w, pid, Proc(Some(name), Clearing(true, Considered(w, readable))))
  {
    assert Next(w, Start(pid, Some(name))) == OneProc(w, pid, Proc(Some(name), Begin));
  }

  lemma Reads(w: World, pid: Pid, name: Name, considered: set<Name>, c: Config)
    requires name in w.files && w.files[name] == Fine(c) && HasLegacy(c)
    ensures var applies := c.claude && ValidLegacy(c) != map[] && name !in considered;
            Next(OneProc(w, pid, Proc(Some(name), Clearing(true, considered))), ReadOwn(pid))
            == OneProc(w, pid, Proc(Some(name), if applies then Applying(c) else Rewriting(c)))
  {
  }

  /** One process alone with a recorded decision, up to where it has read its persona's file. */
  lemma {:induction false} UpToItsFile(w: World, pid: Pid, name: Name, readable: bool, c: Config)
    requires Fresh(w) && w.marker.Some? && name in w.files && w.files[name] == Fine(c) && HasLegacy(c)
    ensures var applies := c.claude && ValidLegacy(c) != map[] && name !in Considered(w, readable);
            After(w, [Start(pid, Some(name)), LookForMarker(pid, readable, []), ReadOwn(pid)])
            == OneProc(w, pid, Proc(Some(name), if applies then Applying(c) else Rewriting(c)))
  {
    AfterThree(w, Start(pid, Some(name)), LookForMarker(pid, readable, []), ReadOwn(pid));
    Looks(w, pid, name, readable);
    Reads(w, pid, name, Considered(w, readable), c);
  }

  lemma {:induction false} DeedApplying(w: World, pid: Pid, name: Name, c: Config)
    ensures DeedOf(w, ApplyLate(pid, true), Proc(Some(name), Applying(c)))
            == Sets(Rewriting(c), Late(name, c), Records(w.jobs, name, ValidLegacy(c), IN_ORDER))
    ensures DeedOf(w, ApplyLate(pid, true), Proc(Some(name), Rewriting(c))) == Nothing
  {
  }

  lemma DoSets(w: World, pid: Pid, phase: Phase, candidates: seq<Candidate>, more: seq<Record>)
    requires pid in w.procs
    ensures var after := Do(w, pid, Sets(phase, candidates, more));
            && after.jobs == SetJobModels(w.jobs, Updates(candidates)) && after.history == w.history + more
            && after.procs == w.procs[pid := w.procs[pid].(phase := phase)]
            && after.marker == w.marker && after.files == w.files && after.lock == w.lock
  {
  }

  /** A process that applies sets its persona's values and records them; one that only rewrites does nothing yet. */
  lemma {:induction false} Applied(w: World, pid: Pid, name: Name, c: Config)
    requires HasRead(w, pid, name, c)
    ensures var after := Next(w, ApplyLate(pid, true));
            && after.procs == w.procs[pid := Proc(Some(name), Rewriting(c))]
            && after.marker == w.marker && after.files == w.files && after.lock == w.lock
            && (if w.procs[pid].phase.Applying?
                then && after.jobs == SetJobModels(w.jobs, Updates(Late(name, c)))
                     && after.history == w.history + Records(w.jobs, name, ValidLegacy(c), IN_ORDER)
                else after.jobs == w.jobs && after.history == w.history)
  {
    DeedApplying(w, pid, name, c);
    var d := DeedOf(w, ApplyLate(pid, true), w.procs[pid]);
    if d.Sets? {
      DoSets(w, pid, d.phase, d.candidates, d.more);
    } else {
      assert w.procs[pid := w.procs[pid]] == w.procs;
    }
  }

  /**
   * Over any run: a marker that could not be read counts as one that considered nobody. The value of a persona the
   * decision considered is then taken over a setting at its default, which a process that read the marker leaves alone.
   */
  lemma {:induction false} UnreadableMarkerApplies(w: World, steps: seq<Step>, pid: Pid, name: Name, c: Config,
                                                   job: Job)
    requires Fresh(w)
    requires var now := After(w, steps);
             && pid in now.procs && now.procs[pid].persona == Some(name)
             && now.procs[pid].phase.Clearing? && now.procs[pid].phase.decided
             && now.marker.Some? && name in now.marker.value
             && name in now.files && now.files[name] == Fine(c) && c.claude
             && SavedFor(c, job).Some? && FateOf(now.jobs, job, SavedFor(c, job).value) == Taken
    ensures var now := After(w, steps);
            var end := Next(Next(now, ReadOwn(pid)), ApplyLate(pid, true));
            var taken := ResolveChoice(SavedFor(c, job).value);
            && taken.Some?
            && SettingOf(end.jobs, job)
               == if Blind(w, steps, pid) then Some(Str(taken.value)) else SettingOf(now.jobs, job)
  {
    assert job in ValidLegacy(c);
    ConsideredAppliesExactly(w, steps, pid, name, c);
    var now := After(w, steps);
    ReadingOnly(now, pid);
    Applied(Next(now, ReadOwn(pid)), pid, name, c);
    LateFate(now, name, c, job);
  }

  lemma ReadingOnly(w: World, pid: Pid)
    ensures Next(w, ReadOwn(pid)).jobs == w.jobs && Next(w, ReadOwn(pid)).history == w.history
  {
    if pid in w.procs {
      ReadingDeed(w, pid, w.procs[pid]);
    }
  }

  lemma ReadingDeed(w: World, pid: Pid, p: Proc)
    ensures !DeedOf(w, ReadOwn(pid), p).Sets?
  {
  }

  /** The shortest such run: started, and looked where the marker was. */
  lemma {:induction false} BlindFromTheStart(w: World, pid: Pid, name: Name, readable: bool)
    requires Fresh(w) && w.marker.Some?
    ensures var steps := [Start(pid, Some(name)), LookForMarker(pid, readable, [])];
            && After(w, steps) == OneProc(w, pid, Proc(Some(name), Clearing(true, Considered(w, readable))))
            && (Blind(w, steps, pid) <==> !readable)
  {
    var steps := [Start(pid, Some(name)), LookForMarker(pid, readable, [])];
    assert steps[..0] == [] && steps[..1] == [steps[0]] && steps[..1][..0] == [];
    assert After(w, steps[..1]) == Next(w, steps[0]);
    Looks(w, pid, name, readable);
    BlindStep(w, steps, pid);
    BlindStep(w, steps[..1], pid);
  }

  /**
   * While a process holds what it read, a file that arrives is overwritten, and its value lost if another was read
   * there.
   */
  lemma {:induction false} ArrivalWhileHeld(held: World, pid: Pid, name: Name, read: Config, c: Config, job: Job)
    requires HasRead(held, pid, name, read) && !(held.marker.Some? && name in held.marker.value)
    requires c.claude && SavedFor(c, job).Some? && !(read.claude && SavedFor(read, job) == SavedFor(c, job))
    requires held.procs[pid].phase.Applying? ==> read.claude
    ensures var arrived := Next(Next(held, ApplyLate(pid, true)), FileArrives(name, Fine(c)));
            var end := Next(arrived, RewriteOwn(pid));
            && name in arrived.files && arrived.files[name] == Fine(c)
            && name in end.files && end.files[name] == Fine(Cleared(read))
            && (held.procs[pid].phase.Rewriting? ==> end.jobs == held.jobs)
            && !AccountedSince(end, |held.history|, name, job, SavedFor(c, job).value)
  {
    Applied(held, pid, name, read);
    var applied := Next(held, ApplyLate(pid, true));
    Rewritten(applied.(files := applied.files[name := Fine(c)]), pid, name, read);
    if held.procs[pid].phase.Applying? {
      var more := Records(held.jobs, name, ValidLegacy(read), IN_ORDER);
      assert (held.history + more)[|held.history|..] == more;
      RecordedLate(held.jobs, name, read, name, job, SavedFor(c, job).value);
    }
  }

  /**
   * A run that loses a value, whatever was recorded before it: a file that arrives between the read and the rewrite of
   * its persona's clearing is overwritten, its value for a job unseen, if the file read had another there.
   */
  lemma {:induction false} ArrivalInBetweenIsLost(w: World, pid: Pid, name: Name, read: Config, c: Config, job: Job)
    requires Fresh(w) && w.marker.Some? && name !in w.marker.value && name in w.files && w.files[name] == Fine(read)
    requires HasLegacy(read) && c.claude && SavedFor(c, job).Some?
    requires !(read.claude && SavedFor(read, job) == SavedFor(c, job))
    ensures var held := After(w, [Start(pid, Some(name)), LookForMarker(pid, true, []), ReadOwn(pid)]);
            var arrived := Next(Next(held, ApplyLate(pid, true)), FileArrives(name, Fine(c)));
            var end := Next(arrived, RewriteOwn(pid));
            && name in arrived.files && arrived.files[name] == Fine(c)
            && name in end.files && end.files[name] == Fine(Cleared(read))
            && (!read.claude || ValidLegacy(read) == map[] ==> end.jobs == w.jobs)
            && !AccountedSince(end, |w.history|, name, job, SavedFor(c, job).value)
  {
    UpToItsFile(w, pid, name, true, read);
    ArrivalWhileHeld(After(w, [Start(pid, Some(name)), LookForMarker(pid, true, []), ReadOwn(pid)]), pid, name, read, c,
                     job);
  }

  // ----- that it all goes through when nothing disturbs it -----

  function LoneProc(w: World, pid: Pid, name: Name, phase: Phase): World {
    w.(procs := map[pid := Proc(Some(name), phase)])
  }

  lemma {:induction false} LoneGoes(w: World, pid: Pid, name: Name, phase: Phase, step: Step, next: Phase)
    requires ActedBy(step, pid) && DeedOf(LoneProc(w, pid, name, phase), step, Proc(Some(name), phase)) == Goes(next)
    ensures Next(LoneProc(w, pid, name, phase), step) == LoneProc(w, pid, name, next)
  {
  }

  lemma {:induction false} LoneScan(w: World, pid: Pid, name: Name, c: Config, x: Candidate)
    requires Fresh(w) && w.marker.None? && name in w.files && w.files[name] == Fine(c)
            && CandidateFrom(name, c) == Some(x)
    ensures After(w, [Start(pid, Some(name)), LookForMarker(pid, true, [name]), ScanNext(pid, true)])
            == LoneProc(w, pid, name, Scanning([], [x]))
  {
    AfterThree(w, Start(pid, Some(name)), LookForMarker(pid, true, [name]), ScanNext(pid, true));
    assert Next(w, Start(pid, Some(name))) == LoneProc(w, pid, name, Begin);
    LoneGoes(w, pid, name, Begin, LookForMarker(pid, true, [name]), Scanning([name], []));
    assert [name][1..] == [] && [] + [x] == [x];
    LoneGoes(w, pid, name, Scanning([name], []), ScanNext(pid, true), Scanning([], [x]));
  }

  lemma {:induction false} LoneLocks(w: World, pid: Pid, name: Name, found: seq<Candidate>)
    requires w.lock == None
    ensures Next(LoneProc(w, pid, name, Wanting(found)), TakeLock(pid))
            == LoneProc(w.(lock := Some(pid)), pid, name, Locked(found))
  {
  }

  lemma {:induction false} LoneLock(w: World, pid: Pid, name: Name, x: Candidate)
    requires w.marker.None? && w.lock == None
    ensures After(LoneProc(w, pid, name, Scanning([], [x])), [ScanNext(pid, true), TakeLock(pid), LookAgain(pid, true)])
            == LoneProc(w.(lock := Some(pid)), pid, name, Holding([x]))
  {
    AfterThree(LoneProc(w, pid, name, Scanning([], [x])), ScanNext(pid, true), TakeLock(pid), LookAgain(pid, true));
    assert NewestFirst([x]) == [x];
    LoneGoes(w, pid, name, Scanning([], [x]), ScanNext(pid, true), Wanting([x]));
    LoneLocks(w, pid, name, [x]);
    LoneGoes(w.(lock := Some(pid)), pid, name, Locked([x]), LookAgain(pid, true), Holding([x]));
  }

  lemma {:induction false} LoneSets(w: World, pid: Pid, name: Name, found: seq<Candidate>)
    ensures Next(LoneProc(w, pid, name, Holding(found)), WriteSettings(pid, true))
            == LoneProc(w.(jobs := SetJobModels(w.jobs, Updates(found))), pid, name, Marking(found))
  {
    var held := LoneProc(w, pid, name, Holding(found));
    HoldingDeed(held, pid, name, found);
    NextIsDo(held, WriteSettings(pid, true), pid);
    DoLoneSets(w, pid, name, found);
  }

  lemma {:induction false} DoLoneSets(w: World, pid: Pid, name: Name, found: seq<Candidate>)
    ensures Do(LoneProc(w, pid, name, Holding(found)), pid, Sets(Marking(found), found, []))
            == LoneProc(w.(jobs := SetJobModels(w.jobs, Updates(found))), pid, name, Marking(found))
  {
    var held := LoneProc(w, pid, name, Holding(found));
    DoSets(held, pid, Marking(found), found, []);
    OnlyProc(pid, Proc(Some(name), Holding(found)), Proc(Some(name), Marking(found)));
    assert held.history + [] == held.history;
  }

  lemma OnlyProc(pid: Pid, p: Proc, q: Proc)
    ensures map[pid := p][pid := q] == map[pid := q]
  {
  }

  lemma HoldingDeed(w: World, pid: Pid, name: Name, found: seq<Candidate>)
    ensures DeedOf(w, WriteSettings(pid, true), Proc(Some(name), Holding(found))) == Sets(Marking(found), found, [])
  {
  }

  lemma MarkingDeed(w: World, pid: Pid, name: Name, found: seq<Candidate>)
    ensures DeedOf(w, WriteMarker(pid, true), Proc(Some(name), Marking(found)))
            == Decides(Clearing(true, Names(found)), Names(found))
  {
  }

  lemma {:induction false} LoneDecides(w: World, pid: Pid, name: Name, found: seq<Candidate>)
    ensures Next(LoneProc(w, pid, name, Marking(found)), WriteMarker(pid, true))
            == LoneProc(w, pid, name, Clearing(true, Names(found))).(marker := Some(Names(found)), lock := None)
  {
    var marking := LoneProc(w, pid, name, Marking(found));
    MarkingDeed(marking, pid, name, found);
    NextIsDo(marking, WriteMarker(pid, true), pid);
  }

  lemma NamesOfOne(found: seq<Candidate>, x: Candidate)
    requires found == [x]
    ensures Names(found) == {x.name}
  {
    assert found[0].name == x.name;
  }

  lemma {:induction false} LoneWrite(w: World, pid: Pid, name: Name, x: Candidate)
    ensures var end := Next(Next(LoneProc(w, pid, name, Holding([x])), WriteSettings(pid, true)),
                            WriteMarker(pid, true));
            && end.jobs == SetJobModels(w.jobs, Updates([x])) && end.marker == Some({x.name}) && end.lock == None
  {
    NamesOfOne([x], x);
    LoneSets(w, pid, name, [x]);
    LoneDecides(w.(jobs := SetJobModels(w.jobs, Updates([x]))), pid, name, [x]);
  }

  /**
   * A process alone, started for a Claude persona with a valid value, decides: it finds the persona, takes the lock,
   * writes its values where the settings are at their defaults, and records it as considered.
   */
  lemma {:induction false} DecisionGoesThrough(w: World, pid: Pid, name: Name, c: Config)
    requires Fresh(w) && w.marker.None? && name in w.files && w.files[name] == Fine(c)
    requires c.claude && ValidLegacy(c) != map[]
    ensures var scanned := After(w, [Start(pid, Some(name)), LookForMarker(pid, true, [name]), ScanNext(pid, true)]);
            var holds := After(scanned, [ScanNext(pid, true), TakeLock(pid), LookAgain(pid, true)]);
            var end := Next(Next(holds, WriteSettings(pid, true)), WriteMarker(pid, true));
            && end.marker == Some({name}) && end.lock == None
            && forall job :: SavedFor(c, job).Some? && !Chosen(w.jobs, job) ==>
                 var id := ResolveChoice(SavedFor(c, job).value);
                 id.Some? && (SettingOf(end.jobs, job)
                              == if id == Some(ShippedDefault(job)) then SettingOf(w.jobs, job)
                                 else Some(Str(id.value)))
  {
    var x := CandidateFrom(name, c).value;
    LoneScan(w, pid, name, c, x);
    LoneLock(w, pid, name, x);
    LoneWrite(w.(lock := Some(pid)), pid, name, x);
    forall job | SavedFor(c, job).Some? && !Chosen(w.jobs, job)
      ensures var id := ResolveChoice(SavedFor(c, job).value);
              id.Some? && (SettingOf(SetJobModels(w.jobs, Updates([x])), job)
                           == if id == Some(ShippedDefault(job)) then SettingOf(w.jobs, job) else Some(Str(id.value)))
    {
      OnlyCandidate(w.jobs, x, job);
    }
  }

  /**
   * A process alone, started for a Claude persona the decision did not know, applies its values and clears its file.
   */
  lemma {:induction false} LateGoesThrough(w: World, pid: Pid, name: Name, c: Config, job: Job)
    requires Fresh(w) && w.marker.Some? && name !in w.marker.value && name in w.files && w.files[name] == Fine(c)
    requires c.claude && SavedFor(c, job).Some?
    ensures var held := After(w, [Start(pid, Some(name)), LookForMarker(pid, true, []), ReadOwn(pid)]);
            var applied := Next(held, ApplyLate(pid, true));
            var end := Next(applied, RewriteOwn(pid));
            var value := SavedFor(c, job).value;
            && name in end.files && end.files[name] == Fine(Cleared(c))
            && Recorded(Dropped(end.history, |w.history|), name, job, value)
            && (FateOf(w.jobs, job, value) == Taken ==>
                  ResolveChoice(value).Some? && SettingOf(end.jobs, job) == Some(Str(ResolveChoice(value).value)))
  {
    assert job in ValidLegacy(c);
    ValidIsLegacy(c);
    UpToItsFile(w, pid, name, true, c);
    var held := OneProc(w, pid, Proc(Some(name), Applying(c)));
    Applied(held, pid, name, c);
    var applied := Next(held, ApplyLate(pid, true));
    Rewritten(applied, pid, name, c);
    AppliedIsAccounted(w, applied, |w.history|, name, c, job, SavedFor(c, job).value);
    LateFate(w, name, c, job);
  }
}
