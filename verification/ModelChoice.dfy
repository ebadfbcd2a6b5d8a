/** The model settings, one per job, and how saved per-persona choices become updates of them. */
module ModelChoice {
  import opened BootPass
  import opened SettingsFile
  import opened SettingValues
  import opened Wrappers

  datatype Job = Chat | Generative | Classifier | Housekeeping | Compaction | SelfModel | Detector

  const OPUS_CHOICE := "claude-opus-5"
  const MODEL_ID_MAX_LENGTH := 64
  const ID_PREFIX := "claude-"

  function ShippedDefault(job: Job): string {
    match job
    case Chat => "claude-sonnet-5"
    case Generative => "claude-sonnet-5"
    case Detector => "claude-haiku-4-5"
    case _ => "haiku"
  }

  predicate IdChar(c: char) {
    'a' <= c <= 'z' || '0' <= c <= '9' || c == '.' || c == '-'
  }

  predicate IsFullId(value: string) {
    |ID_PREFIX| < |value| <= MODEL_ID_MAX_LENGTH && ID_PREFIX <= value
    && forall i :: |ID_PREFIX| <= i < |value| ==> IdChar(value[i])
  }

  predicate IsValidModel(value: string) {
    value == "sonnet" || value == "opus" || value == "haiku" || IsFullId(value)
  }

  function ResolveChoice(value: string): (id: Option<string>)
    ensures id.Some? <==> IsValidModel(value)
  {
    if value == "sonnet" then Some(ShippedDefault(Chat))
    else if value == "opus" then Some(OPUS_CHOICE)
    else if IsValidModel(value) then Some(value)
    else None
  }

  /**
   * What counts as a model: one of three names, or "claude-" and up to 57 lower-case letters, digits, dots and dashes.
   */
  lemma ModelsExactly(value: string)
    ensures IsValidModel(value)
            <==> || value == "sonnet" || value == "opus" || value == "haiku"
                 || (&& 8 <= |value| <= 64 && value[..7] == "claude-"
                     && forall i :: 7 <= i < |value| ==>
                          'a' <= value[i] <= 'z' || '0' <= value[i] <= '9' || value[i] == '.' || value[i] == '-')
    ensures ResolveChoice("sonnet") == Some("claude-sonnet-5") && ResolveChoice("opus") == Some("claude-opus-5")
    ensures ResolveChoice("haiku") == Some("haiku")
    ensures value != "sonnet" && value != "opus" ==>
              ResolveChoice(value) == if IsValidModel(value) then Some(value) else None
  {
  }

  /** The shipped defaults are what the three names stand for. */
  lemma ShippedDefaultsExactly(job: Job)
    ensures ShippedDefault(job)
            == if job == Chat || job == Generative then "claude-sonnet-5"
               else if job == Detector then "claude-haiku-4-5" else "haiku"
  {
  }

  // ----- a persona's saved choices -----

  /** A saved text; none when the JSON value is not a text. */
  type Saved = Option<string>

  /**
   * The part of a persona's file that matters, each legacy key present or not; a `tier_models` that is no table is an
   * empty one, and names in it that are no job are left out. `rest` is everything else.
   */
  datatype Config = Config(
    claude: bool, model: Option<Saved>, tiers: Option<map<Job, Saved>>, derived: bool, lastOpened: Option<int>,
    mtime: int, rest: int)

  predicate HasLegacy(c: Config) {
    c.model.Some? || c.tiers.Some? || c.derived
  }

  function Cleared(c: Config): Config {
    c.(model := None, tiers := None, derived := false)
  }

  function Usable(saved: Saved): Option<string> {
    if saved.Some? && IsValidModel(saved.value) then saved else None
  }

  /** The valid saved value for a job: chat's under its own key, never under the table of the others. */
  function SavedFor(c: Config, job: Job): (value: Option<string>)
    ensures value.Some? ==> IsValidModel(value.value)
  {
    if job == Chat then if c.model.Some? then Usable(c.model.value) else None
    else if c.tiers.Some? && job in c.tiers.value then Usable(c.tiers.value[job])
    else None
  }

  const JOBS := {Chat, Generative, Classifier, Housekeeping, Compaction, SelfModel, Detector}

  function ValidLegacy(c: Config): (saved: map<Job, string>)
    ensures forall job ::
              && (job in saved <==> SavedFor(c, job).Some?)
              && (job in saved ==> saved[job] == SavedFor(c, job).value)
  {
    map job | job in JOBS && SavedFor(c, job).Some? :: SavedFor(c, job).value
  }

  /**
   * The chat model is saved under the old key of its own, every other job's in the table; what is no model is not
   * there.
   */
  lemma SavedExactly(c: Config, job: Job, value: string)
    ensures SavedFor(c, job) == Some(value)
            <==> IsValidModel(value)
                 && if job == Chat then c.model == Some(Some(value))
                    else c.tiers.Some? && job in c.tiers.value && c.tiers.value[job] == Some(value)
  {
  }

  /** Personas are numbered in the alphabetical order of their names. */
  type Name = nat

  datatype Candidate = Candidate(name: Name, saved: map<Job, string>, stamp: int)

  function CandidateFrom(name: Name, c: Config): Option<Candidate> {
    if c.claude && ValidLegacy(c) != map[]
    then Some(Candidate(name, ValidLegacy(c), if c.lastOpened.Some? then c.lastOpened.value else c.mtime)) else None
  }

  // ----- the winner -----

  predicate Newer(a: Candidate, b: Candidate) {
    a.stamp > b.stamp || (a.stamp == b.stamp && a.name < b.name)
  }

  function Insert(c: Candidate, sorted: seq<Candidate>): seq<Candidate> {
    if sorted == [] || Newer(c, sorted[0]) then [c] + sorted else [sorted[0]] + Insert(c, sorted[1..])
  }

  function NewestFirst(found: seq<Candidate>): seq<Candidate> {
    if found == [] then [] else Insert(found[0], NewestFirst(found[1..]))
  }

  /** The value of the first candidate that holds one for the job. */
  function FirstHolder(candidates: seq<Candidate>, job: Job): Option<string> {
    if candidates == [] then None
    else
      var before := FirstHolder(candidates[..|candidates| - 1], job);
      var c := candidates[|candidates| - 1];
      if before.Some? then before else if job in c.saved then Some(c.saved[job]) else None
  }

  /** What to write for a job: the first holder's value resolved, unless it is the shipped default. */
  function UpdateFor(candidates: seq<Candidate>, job: Job): Option<string> {
    var value := FirstHolder(candidates, job);
    if value.None? then None
    else
      var id := ResolveChoice(value.value);
      if id.None? || id.value == ShippedDefault(job) then None else id
  }

  function Updates(candidates: seq<Candidate>): (updates: map<Job, string>)
    ensures forall job :: (job in updates <==> UpdateFor(candidates, job).Some?)
                          && (job in updates ==> updates[job] == UpdateFor(candidates, job).value)
  {
    map job | job in JOBS && UpdateFor(candidates, job).Some? :: UpdateFor(candidates, job).value
  }

  method WinnerUpdates(candidates: seq<Candidate>) returns (updates: map<Job, string>)
    ensures updates == Updates(candidates)
  {
    var chosen: map<Job, string> := map[];
    var i := 0;
    while i < |candidates|
      invariant i <= |candidates|
      invariant forall job :: (job in chosen <==> FirstHolder(candidates[..i], job).Some?)
                              && (job in chosen ==> chosen[job] == FirstHolder(candidates[..i], job).value)
    {
      assert candidates[..i + 1][..i] == candidates[..i];
      chosen := candidates[i].saved + chosen;
      i := i + 1;
    }
    assert candidates[..|candidates|] == candidates;
    updates := map[];
    var jobs := chosen.Keys;
    while jobs != {}
      invariant jobs <= chosen.Keys
      invariant forall job :: job in updates <==> job in chosen.Keys - jobs && UpdateFor(candidates, job).Some?
      invariant forall job :: job in updates ==> updates[job] == UpdateFor(candidates, job).value
      decreases |jobs|
    {
      var job :| job in jobs;
      jobs := jobs - {job};
      var id := ResolveChoice(chosen[job]);
      if id.Some? && id.value != ShippedDefault(job) {
        updates := updates[job := id.value];
      }
    }
  }

  ghost predicate DistinctNames(found: seq<Candidate>) {
    forall i, j :: 0 <= i < j < |found| ==> found[i].name != found[j].name
  }

  ghost predicate Descending(sorted: seq<Candidate>) {
    forall i, j :: 0 <= i < j < |sorted| ==> Newer(sorted[i], sorted[j])
  }

  lemma {:induction false} InsertKeeps(c: Candidate, sorted: seq<Candidate>)
    requires Descending(sorted) && forall i :: 0 <= i < |sorted| ==> sorted[i].name != c.name
    ensures Descending(Insert(c, sorted))
    ensures multiset(Insert(c, sorted)) == multiset(sorted) + multiset{c}
  {
    if sorted != [] && !Newer(c, sorted[0]) {
      InsertKeeps(c, sorted[1..]);
      assert sorted == [sorted[0]] + sorted[1..];
      var rest := Insert(c, sorted[1..]);
      forall j | 0 <= j < |rest|
        ensures Newer(sorted[0], rest[j])
      {
        assert rest[j] in multiset(rest);
        if rest[j] != c {
          assert rest[j] in sorted[1..];
        }
      }
    }
  }

  lemma {:induction false} SortedNewestFirst(found: seq<Candidate>)
    requires DistinctNames(found)
    ensures Descending(NewestFirst(found)) && multiset(NewestFirst(found)) == multiset(found)
  {
    if found != [] {
      SortedNewestFirst(found[1..]);
      assert found == [found[0]] + found[1..];
      var rest := NewestFirst(found[1..]);
      forall i | 0 <= i < |rest|
        ensures rest[i].name != found[0].name
      {
        assert rest[i] in multiset(found[1..]);
      }
      InsertKeeps(found[0], rest);
    }
  }

  lemma {:induction false} FirstHolderAt(candidates: seq<Candidate>, job: Job, i: nat)
    requires i < |candidates| && job in candidates[i].saved
    requires forall k :: 0 <= k < i ==> job !in candidates[k].saved
    ensures FirstHolder(candidates, job) == Some(candidates[i].saved[job])
  {
    if i < |candidates| - 1 {
      FirstHolderAt(candidates[..|candidates| - 1], job, i);
    } else {
      NoHolder(candidates[..i], job);
    }
  }

  lemma {:induction false} NoHolder(candidates: seq<Candidate>, job: Job)
    requires forall k :: 0 <= k < |candidates| ==> job !in candidates[k].saved
    ensures FirstHolder(candidates, job) == None
  {
    if candidates != [] {
      NoHolder(candidates[..|candidates| - 1], job);
    }
  }

  /**
   * For each job the most recently opened candidate that holds a value for it wins, the first in the alphabet on a tie.
   */
  lemma {:induction false} NewestHolderWins(found: seq<Candidate>, winner: Candidate, job: Job)
    requires DistinctNames(found) && winner in found && job in winner.saved
    requires forall k :: 0 <= k < |found| && job in found[k].saved && found[k] != winner ==> Newer(winner, found[k])
    ensures FirstHolder(NewestFirst(found), job) == Some(winner.saved[job])
  {
    SortedNewestFirst(found);
    var sorted := NewestFirst(found);
    assert winner in multiset(sorted);
    var i :| 0 <= i < |sorted| && sorted[i] == winner;
    forall k | 0 <= k < i
      ensures job !in sorted[k].saved
    {
      assert Newer(sorted[k], winner);
      assert sorted[k] in multiset(found);
    }
    FirstHolderAt(sorted, job, i);
  }

  // ----- writing the job settings -----

  /** What the settings file says per job; a missing job runs on its shipped default. */
  type Jobs = map<Job, Value>

  function SettingOf(jobs: Jobs, job: Job): Option<Value> {
    if job in jobs then Some(jobs[job]) else None
  }

  /** Differs from the shipped default, so it is the user's choice. */
  predicate Chosen(jobs: Jobs, job: Job) {
    job in jobs && jobs[job] != Str(ShippedDefault(job))
  }

  /** The guarded write of a job: the rule of the settings writer for its entry. */
  predicate Takes(jobs: Jobs, job: Job, target: string) {
    Puts(SettingOf(jobs, job), Some(Item("", Str(ShippedDefault(job)), "")), Str(target), true)
  }

  /** The updates that are written, resolved; a text that is not a model would be refused, and no caller passes one. */
  function Written(jobs: Jobs, updates: map<Job, string>): (written: map<Job, string>)
    ensures forall job :: job in written <==> job in updates && ResolveChoice(updates[job]).Some?
                                              && Takes(jobs, job, ResolveChoice(updates[job]).value)
    ensures forall job :: job in written ==> written[job] == ResolveChoice(updates[job]).value
  {
    map job | job in updates && ResolveChoice(updates[job]).Some? && Takes(jobs, job, ResolveChoice(updates[job]).value)
      :: ResolveChoice(updates[job]).value
  }

  function SetJobModels(jobs: Jobs, updates: map<Job, string>): (after: Jobs)
    ensures forall job :: SettingOf(after, job)
                          == if job in Written(jobs, updates) then Some(Str(Written(jobs, updates)[job]))
                             else SettingOf(jobs, job)
  {
    jobs + map job | job in Written(jobs, updates) :: Str(Written(jobs, updates)[job])
  }

  lemma TakesMeans(jobs: Jobs, job: Job, target: string)
    ensures Takes(jobs, job, target) <==> !Chosen(jobs, job) && target != ShippedDefault(job)
  {
  }

  lemma ResolvedStays(value: string)
    requires IsValidModel(value)
    ensures ResolveChoice(ResolveChoice(value).value) == ResolveChoice(value)
  {
    assert IsFullId(ShippedDefault(Chat)) && IsFullId(OPUS_CHOICE);
  }

  /**
   * Writing the winners: a job the user chose keeps its value, a job at its default takes the winner's, and where the
   * winner's value is the default itself nothing is written.
   */
  lemma WinnersWritten(jobs: Jobs, candidates: seq<Candidate>, job: Job)
    ensures var update := UpdateFor(candidates, job);
            && (job in Written(jobs, Updates(candidates)) <==> update.Some? && !Chosen(jobs, job))
            && SettingOf(SetJobModels(jobs, Updates(candidates)), job)
               == if update.Some? && !Chosen(jobs, job) then Some(Str(update.value)) else SettingOf(jobs, job)
  {
    var update := UpdateFor(candidates, job);
    if update.Some? {
      var value := FirstHolder(candidates, job).value;
      ResolvedStays(value);
      TakesMeans(jobs, job, update.value);
    }
  }

  lemma OnlyUpdate(c: Candidate, job: Job)
    requires job in c.saved
    ensures var id := ResolveChoice(c.saved[job]);
            UpdateFor([c], job) == if id == Some(ShippedDefault(job)) then None else id
  {
    FirstHolderAt([c], job, 0);
  }

  /** Writing a single candidate's values. */
  lemma OnlyCandidate(jobs: Jobs, c: Candidate, job: Job)
    requires job in c.saved && ResolveChoice(c.saved[job]).Some?
    ensures var id := ResolveChoice(c.saved[job]);
            SettingOf(SetJobModels(jobs, Updates([c])), job)
            == if id != Some(ShippedDefault(job)) && !Chosen(jobs, job) then Some(Str(id.value))
               else SettingOf(jobs, job)
  {
    WinnersWritten(jobs, [c], job);
    OnlyUpdate(c, job);
  }

  // ----- the winner, without knowing that names are distinct -----

  /** Nothing later in the order is newer. */
  ghost predicate NewestAhead(sorted: seq<Candidate>) {
    forall i, j :: 0 <= i < j < |sorted| ==> !Newer(sorted[j], sorted[i])
  }

  lemma {:induction false} InsertAhead(c: Candidate, sorted: seq<Candidate>)
    requires NewestAhead(sorted)
    ensures NewestAhead(Insert(c, sorted))
    ensures forall x :: x in Insert(c, sorted) <==> x == c || x in sorted
  {
    if sorted != [] && !Newer(c, sorted[0]) {
      InsertAhead(c, sorted[1..]);
      assert sorted == [sorted[0]] + sorted[1..];
      var rest := Insert(c, sorted[1..]);
      forall j | 0 <= j < |rest|
        ensures !Newer(rest[j], sorted[0])
      {
        assert rest[j] in rest;
        if rest[j] != c {
          var k :| 0 <= k < |sorted[1..]| && sorted[1..][k] == rest[j];
          assert sorted[k + 1] == rest[j];
        }
      }
    }
  }

  lemma {:induction false} SortedAhead(found: seq<Candidate>)
    ensures NewestAhead(NewestFirst(found))
    ensures forall x :: x in NewestFirst(found) <==> x in found
  {
    if found != [] {
      SortedAhead(found[1..]);
      assert found == [found[0]] + found[1..];
      InsertAhead(found[0], NewestFirst(found[1..]));
    }
  }

  /** Among the candidates that hold a value for the job none is newer than this one. */
  ghost predicate NewestHolder(found: seq<Candidate>, winner: Candidate, job: Job) {
    && winner in found && job in winner.saved
    && forall k :: 0 <= k < |found| && job in found[k].saved ==> !Newer(found[k], winner)
  }

  lemma {:induction false} FirstOfSorted(sorted: seq<Candidate>, job: Job) returns (i: nat)
    requires NewestAhead(sorted) && exists k :: 0 <= k < |sorted| && job in sorted[k].saved
    ensures i < |sorted| && NewestHolder(sorted, sorted[i], job)
            && FirstHolder(sorted, job) == Some(sorted[i].saved[job])
  {
    i := 0;
    while job !in sorted[i].saved
      invariant i < |sorted|
      invariant forall k :: 0 <= k < i ==> job !in sorted[k].saved
      decreases |sorted| - i
    {
      i := i + 1;
    }
    FirstHolderAt(sorted, job, i);
  }

  ghost predicate SameSetting(before: Jobs, after: Jobs, job: Job) {
    SettingOf(after, job) == SettingOf(before, job)
  }

  /**
   * What a decision makes of a job: a chosen one and one nobody holds a value for stay; any other takes the resolved
   * value of a newest holder, unless that is the shipped default.
   */
  ghost predicate JobDecided(before: Jobs, after: Jobs, found: seq<Candidate>, job: Job) {
    if Chosen(before, job) || (forall k :: 0 <= k < |found| ==> job !in found[k].saved)
    then SameSetting(before, after, job)
    else
      exists k :: 0 <= k < |found| && NewestHolder(found, found[k], job)
        && var id := ResolveChoice(found[k].saved[job]);
           if id == Some(ShippedDefault(job)) then SameSetting(before, after, job)
           else id.Some? && SettingOf(after, job) == Some(Str(id.value))
  }

  /** Writing the winners of a list that is newest first decides every job so, if all it holds are models. */
  lemma {:induction false} WinnersDecide(jobs: Jobs, found: seq<Candidate>, job: Job)
    requires NewestAhead(found)
    requires forall k :: 0 <= k < |found| && job in found[k].saved ==> IsValidModel(found[k].saved[job])
    ensures JobDecided(jobs, SetJobModels(jobs, Updates(found)), found, job)
  {
    WinnersWritten(jobs, found, job);
    if forall k :: 0 <= k < |found| ==> job !in found[k].saved {
      NoHolder(found, job);
    } else {
      var i := FirstOfSorted(found, job);
    }
  }
}
