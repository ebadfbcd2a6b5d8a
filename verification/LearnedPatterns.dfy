/**
 * The learned-pattern store: an append-only log read as last entry wins, its counters, and once-only crystallisation.
 */
module LearnedPatterns {
  import opened Wrappers

  type Stamp = int

  datatype Maturity = Immature | Forming | Known | Falsified

  datatype Pattern = Pattern(
    id: string, category: string, canonicalKey: string, description: string, count: int, maturity: Maturity,
    firstSeen: Stamp, lastConfirmed: Stamp, lastAddressed: Option<Stamp>, crystallisedAt: Option<Stamp>,
    falsifiedAt: Option<Stamp>, examples: seq<string>)

  datatype Evidence = Evidence(quote: string, turnId: string)

  datatype Candidate = Candidate(category: string, canonicalKey: string, description: string, evidence: seq<Evidence>)

  datatype Turn = Turn(id: string, content: string)

  /** Text normalisation and the pattern-id hash, which the model leaves open. */
  datatype Env = Env(normalise: string -> string, patternId: (string, string) -> string)

  /** A row of the log; None is a row that does not load as a pattern. */
  type Log = seq<Option<Pattern>>

  const FORMING_MIN := 3
  const KNOWN_MIN := 10
  const FALSIFIED_MAX := 3
  const EXAMPLES_CAP := 5

  // ----- reading the log -----

  function Replay(log: Log): map<string, Pattern> {
    if log == [] then map[]
    else
      var before := Replay(log[..|log| - 1]);
      match log[|log| - 1]
      case None => before
      case Some(p) => before[p.id := p]
  }

  /** The ids in the order they first appeared. */
  function Order(log: Log): seq<string> {
    if log == [] then []
    else
      var before := Order(log[..|log| - 1]);
      match log[|log| - 1]
      case None => before
      case Some(p) => if p.id in before then before else before + [p.id]
  }

  // ----- grounding -----

  /** The last turn of the slice with this id. */
  function TurnOf(slice: seq<Turn>, id: string): Option<Turn> {
    if slice == [] then None
    else if slice[|slice| - 1].id == id then Some(slice[|slice| - 1])
    else TurnOf(slice[..|slice| - 1], id)
  }

  predicate OccursAt(hay: string, needle: string, i: int) {
    0 <= i <= |hay| - |needle| && hay[i..i + |needle|] == needle
  }

  predicate Contains(hay: string, needle: string) {
    exists i :: 0 <= i <= |hay| && OccursAt(hay, needle, i)
  }

  predicate Quoted(env: Env, ev: Evidence, slice: seq<Turn>) {
    var turn := TurnOf(slice, ev.turnId);
    turn.Some? && Contains(env.normalise(turn.value.content), env.normalise(ev.quote))
  }

  predicate Grounded(env: Env, c: Candidate, slice: seq<Turn>) {
    && !(c.category == "relational" && |c.evidence| < 2)
    && c.evidence != []
    && forall i :: 0 <= i < |c.evidence| ==> Quoted(env, c.evidence[i], slice)
  }

  /** The gate as the store runs it: evidence by evidence, stopping at the first quote that is not in its turn. */
  method ValidateGrounded(env: Env, c: Candidate, slice: seq<Turn>) returns (grounded: bool)
    ensures grounded == Grounded(env, c, slice)
  {
    if c.category == "relational" && |c.evidence| < 2 {
      return false;
    }
    if c.evidence == [] {
      return false;
    }
    var i := 0;
    while i < |c.evidence|
      invariant i <= |c.evidence|
      invariant forall k :: 0 <= k < i ==> Quoted(env, c.evidence[k], slice)
    {
      var turn := TurnOf(slice, c.evidence[i].turnId);
      if turn.None? || !Contains(env.normalise(turn.value.content), env.normalise(c.evidence[i].quote)) {
        return false;
      }
      i := i + 1;
    }
    return true;
  }

  // ----- what each operation appends -----

  function MaturityFor(count: int): Maturity {
    if count >= KNOWN_MIN then Known else if count >= FORMING_MIN then Forming else Immature
  }

  function Quotes(evidence: seq<Evidence>): (quotes: seq<string>)
    ensures |quotes| == |evidence|
    ensures forall i :: 0 <= i < |quotes| ==> quotes[i] == evidence[i].quote
  {
    seq(|evidence|, i requires 0 <= i < |evidence| => evidence[i].quote)
  }

  function Latest(examples: seq<string>): seq<string> {
    if |examples| <= EXAMPLES_CAP then examples else examples[|examples| - EXAMPLES_CAP..]
  }

  function Confirmed(prev: Option<Pattern>, id: string, c: Candidate, now: Stamp): Pattern {
    match prev
    case Some(p) =>
      Pattern(id, p.category, p.canonicalKey, c.description, p.count + 1, MaturityFor(p.count + 1), p.firstSeen, now,
              p.lastAddressed, p.crystallisedAt, None, Latest(p.examples + Quotes(c.evidence)))
    case None =>
      Pattern(id, c.category, c.canonicalKey, c.description, 1, Immature, now, now, None, None, None,
              Quotes(c.evidence))
  }

  function Find(known: map<string, Pattern>, id: string): Option<Pattern> {
    if id in known then Some(known[id]) else None
  }

  function IdOf(env: Env, c: Candidate): string {
    env.patternId(c.category, c.canonicalKey)
  }

  function Contradicted(p: Pattern, now: Stamp): Pattern {
    var count := if p.count - 1 > 0 then p.count - 1 else 0;
    var maturity := if count < FALSIFIED_MAX then Falsified else MaturityFor(count);
    p.(count := count, maturity := maturity,
       falsifiedAt := if maturity == Falsified && p.maturity != Falsified then Some(now) else p.falsifiedAt)
  }

  datatype Event = Event(patternId: string, category: string, description: string, ts: Stamp)

  predicate Crosses(p: Pattern) {
    p.maturity == Known && p.crystallisedAt.None?
  }

  /** One attempt to append to the log. */
  datatype Touch =
    | Confirm(c: Candidate, slice: seq<Turn>, now: Stamp)
    | Contradict(id: string, now: Stamp)
    | Address(id: string, now: Stamp)
    | Crystallise(id: string, now: Stamp)

  /** The row an attempt appends, if any, given what the log says. */
  function Row(env: Env, known: map<string, Pattern>, t: Touch): Option<Pattern> {
    match t
    case Confirm(c, slice, now) =>
      if Grounded(env, c, slice) then Some(Confirmed(Find(known, IdOf(env, c)), IdOf(env, c), c, now)) else None
    case Contradict(id, now) => if id in known then Some(Contradicted(known[id], now)) else None
    case Address(id, now) => if id in known then Some(known[id].(lastAddressed := Some(now))) else None
    case Crystallise(id, now) =>
      if id in known && Crosses(known[id]) then Some(known[id].(crystallisedAt := Some(now))) else None
  }

  /** The log after one attempt that reads the whole log afresh, and the feed event it emits, if any. */
  function Touched(env: Env, log: Log, t: Touch): (Log, seq<Event>) {
    match Row(env, Replay(log), t)
    case None => (log, [])
    case Some(p) => (log + [Some(p)], if t.Crystallise? then [Event(p.id, p.category, p.description, t.now)] else [])
  }

  /** The log and the events so far, one attempt later. */
  function Then(env: Env, so: (Log, seq<Event>), t: Touch): (Log, seq<Event>) {
    (Touched(env, so.0, t).0, so.1 + Touched(env, so.0, t).1)
  }

  function After(env: Env, log: Log, ts: seq<Touch>): (Log, seq<Event>) {
    if ts == [] then (log, []) else Then(env, After(env, log, ts[..|ts| - 1]), ts[|ts| - 1])
  }

  function Confirms(cs: seq<Candidate>, slice: seq<Turn>, now: Stamp): (ts: seq<Touch>)
    ensures |ts| == |cs|
  {
    seq(|cs|, i requires 0 <= i < |cs| => Confirm(cs[i], slice, now))
  }

  function Addresses(ids: seq<string>, now: Stamp): (ts: seq<Touch>)
    ensures |ts| == |ids|
  {
    seq(|ids|, i requires 0 <= i < |ids| => Address(ids[i], now))
  }

  function Crystallisations(ids: seq<string>, now: Stamp): (ts: seq<Touch>)
    ensures |ts| == |ids|
  {
    seq(|ids|, i requires 0 <= i < |ids| => Crystallise(ids[i], now))
  }

  function Rejected(env: Env, cs: seq<Candidate>, slice: seq<Turn>): seq<Candidate> {
    if cs == [] then []
    else Rejected(env, cs[..|cs| - 1], slice) + if Grounded(env, cs[|cs| - 1], slice) then [] else [cs[|cs| - 1]]
  }

  // ----- facts about the log -----

  ghost predicate Distinct(ids: seq<string>) {
    forall i, j :: 0 <= i < j < |ids| ==> ids[i] != ids[j]
  }

  /** A pattern is filed under its own id, and the order lists every id once. */
  lemma {:induction false} ReplayIds(log: Log)
    ensures forall id :: id in Replay(log) ==> Replay(log)[id].id == id
    ensures Distinct(Order(log))
    ensures forall id :: id in Order(log) <==> id in Replay(log)
  {
    if log != [] {
      ReplayIds(log[..|log| - 1]);
    }
  }

  lemma {:induction false} ReplayAppend(log: Log, p: Pattern)
    ensures Replay(log + [Some(p)]) == Replay(log)[p.id := p]
  {
    assert (log + [Some(p)])[..|log|] == log;
  }

  lemma {:induction false} TouchReplay(env: Env, log: Log, t: Touch)
    ensures var row := Row(env, Replay(log), t);
            Replay(Touched(env, log, t).0) == if row.Some? then Replay(log)[row.value.id := row.value] else Replay(log)
    ensures forall id :: id in Replay(log) ==> Replay(log)[id].id == id
  {
    ReplayIds(log);
    var row := Row(env, Replay(log), t);
    if row.Some? {
      ReplayAppend(log, row.value);
    }
  }

  lemma {:induction false} OneMoreTouch(env: Env, log: Log, ts: seq<Touch>, i: nat)
    requires i < |ts|
    ensures After(env, log, ts[..i + 1]) == Then(env, After(env, log, ts[..i]), ts[i])
  {
    assert ts[..i + 1][..i] == ts[..i];
  }

  /** The patterns named from position i on still are what the one read at the start found. */
  ghost predicate AsRead(log: Log, order: seq<string>, byId: map<string, Pattern>, i: nat) {
    forall k :: i <= k < |order| ==>
      order[k] in byId && order[k] in Replay(log) && Replay(log)[order[k]] == byId[order[k]]
  }

  lemma CrystalliseStep(env: Env, log: Log, order: seq<string>, byId: map<string, Pattern>, i: nat, now: Stamp)
    requires i < |order| && Distinct(order) && AsRead(log, order, byId, i)
    ensures var (after, more) := Touched(env, log, Crystallise(order[i], now));
            var p := byId[order[i]];
            && AsRead(after, order, byId, i + 1)
            && after == (if Crosses(p) then log + [Some(p.(crystallisedAt := Some(now)))] else log)
            && more == if Crosses(p) then [Event(p.id, p.category, p.description, now)] else []
  {
    var p := byId[order[i]];
    assert Replay(log)[order[i]] == p;
    ReplayIds(log);
    ReplayAppend(log, p.(crystallisedAt := Some(now)));
  }

  lemma {:induction false} OneMoreRejected(env: Env, cs: seq<Candidate>, slice: seq<Turn>, i: nat)
    requires i < |cs|
    ensures Rejected(env, cs[..i + 1], slice)
            == Rejected(env, cs[..i], slice) + if Grounded(env, cs[i], slice) then [] else [cs[i]]
  {
    assert cs[..i + 1][..i] == cs[..i];
  }

  /** Where the merge loop stands after i candidates: the map in memory is what the file would replay to. */
  ghost predicate MergedSoFar(env: Env, start: Log, cs: seq<Candidate>, slice: seq<Turn>, now: Stamp, i: nat,
                              log: Log, existing: map<string, Pattern>)
  {
    i <= |cs| && log == After(env, start, Confirms(cs, slice, now)[..i]).0 && existing == Replay(log)
  }

  lemma MergeOneMore(env: Env, start: Log, cs: seq<Candidate>, slice: seq<Turn>, now: Stamp, i: nat,
                     log: Log, existing: map<string, Pattern>)
    requires i < |cs| && MergedSoFar(env, start, cs, slice, now, i, log, existing)
    ensures var c, id := cs[i], IdOf(env, cs[i]);
            var updated := Confirmed(Find(existing, id), id, c, now);
            if Grounded(env, c, slice)
            then MergedSoFar(env, start, cs, slice, now, i + 1, log + [Some(updated)], existing[id := updated])
            else MergedSoFar(env, start, cs, slice, now, i + 1, log, existing)
  {
    OneMoreTouch(env, start, Confirms(cs, slice, now), i);
    TouchReplay(env, log, Confirm(cs[i], slice, now));
  }

  /** Where the addressing loop stands: the map read at the start is off by the very stamp being written, if at all. */
  ghost predicate AddressedSoFar(env: Env, start: Log, ids: seq<string>, byId: map<string, Pattern>, now: Stamp, i: nat,
                                 log: Log) {
    && i <= |ids| && log == After(env, start, Addresses(ids, now)[..i]).0
    && Replay(log).Keys == byId.Keys
    && forall id :: id in byId ==>
         byId[id].id == id && (Replay(log)[id] == byId[id] || Replay(log)[id] == byId[id].(lastAddressed := Some(now)))
  }

  lemma AddressOneMore(env: Env, start: Log, ids: seq<string>, byId: map<string, Pattern>, now: Stamp, i: nat, log: Log)
    requires i < |ids| && AddressedSoFar(env, start, ids, byId, now, i, log)
    ensures AddressedSoFar(env, start, ids, byId, now, i + 1,
                           if ids[i] in byId then log + [Some(byId[ids[i]].(lastAddressed := Some(now)))] else log)
  {
    OneMoreTouch(env, start, Addresses(ids, now), i);
    TouchReplay(env, log, Address(ids[i], now));
  }

  lemma {:induction false} AddressedAll(env: Env, start: Log, ids: seq<string>, byId: map<string, Pattern>, now: Stamp,
                                        log: Log)
    requires AddressedSoFar(env, start, ids, byId, now, |ids|, log)
    ensures log == After(env, start, Addresses(ids, now)).0
  {
    assert Addresses(ids, now)[..|ids|] == Addresses(ids, now);
  }

  lemma {:induction false} NothingAddressed(env: Env, start: Log, ids: seq<string>, now: Stamp)
    ensures AddressedSoFar(env, start, ids, Replay(start), now, 0, start)
    ensures ids == [] ==> After(env, start, Addresses(ids, now)).0 == start
  {
    ReplayIds(start);
  }

  /** Where the crystallisation loop stands after i patterns. */
  ghost predicate MarkedSoFar(env: Env, start: Log, order: seq<string>, byId: map<string, Pattern>, now: Stamp, i: nat,
                              log: Log, events: seq<Event>)
  {
    && i <= |order| && Distinct(order) && AsRead(log, order, byId, i)
    && (log, events) == After(env, start, Crystallisations(order, now)[..i])
  }

  lemma {:induction false} NothingMarked(env: Env, start: Log, byId: map<string, Pattern>, now: Stamp)
    requires byId == Replay(start)
    ensures MarkedSoFar(env, start, Order(start), byId, now, 0, start, [])
  {
    ReplayIds(start);
  }

  lemma MarkOneMore(env: Env, start: Log, order: seq<string>, byId: map<string, Pattern>, now: Stamp, i: nat,
                    log: Log, events: seq<Event>)
    requires i < |order| && MarkedSoFar(env, start, order, byId, now, i, log, events)
    ensures var p := byId[order[i]];
            MarkedSoFar(env, start, order, byId, now, i + 1,
                        if Crosses(p) then log + [Some(p.(crystallisedAt := Some(now)))] else log,
                        if Crosses(p) then events + [Event(p.id, p.category, p.description, now)] else events)
  {
    OneMoreTouch(env, start, Crystallisations(order, now), i);
    CrystalliseStep(env, log, order, byId, i, now);
    assert events + [] == events;
  }

  // ----- the store -----

  class LearnedStore {
    const env: Env
    var log: Log
    var rejections: seq<Candidate>

    constructor (env: Env)
      ensures this.env == env && log == [] && rejections == []
    {
      this.env := env;
      log, rejections := [], [];
    }

    method Read() returns (byId: map<string, Pattern>, order: seq<string>)
      ensures byId == Replay(log) && order == Order(log)
    {
      byId, order := map[], [];
      var i := 0;
      while i < |log|
        invariant i <= |log|
        invariant byId == Replay(log[..i]) && order == Order(log[..i])
      {
        assert log[..i + 1][..i] == log[..i];
        if log[i].Some? {
          var p := log[i].value;
          byId := byId[p.id := p];
          if p.id !in order {
            order := order + [p.id];
          }
        }
        i := i + 1;
      }
      assert log[..|log|] == log;
    }

    /** One read at the start; afterwards the map in memory is kept beside the file and never re-read. */
    method Merge(candidates: seq<Candidate>, slice: seq<Turn>, now: Stamp)
      modifies this
      ensures log == After(env, old(log), Confirms(candidates, slice, now)).0
      ensures rejections == old(rejections) + Rejected(env, candidates, slice)
    {
      var existing, _ := Read();
      ghost var start, rows := log, log;
      var i := 0;
      while i < |candidates|
        invariant i <= |candidates| && log == rows
        invariant MergedSoFar(env, start, candidates, slice, now, i, rows, existing)
        invariant rejections == old(rejections) + Rejected(env, candidates[..i], slice)
      {
        var c := candidates[i];
        MergeOneMore(env, start, candidates, slice, now, i, rows, existing);
        OneMoreRejected(env, candidates, slice, i);
        var grounded := ValidateGrounded(env, c, slice);
        if !grounded {
          rejections := rejections + [c];
        } else {
          var pid := IdOf(env, c);
          var updated := Confirmed(Find(existing, pid), pid, c, now);
          log := log + [Some(updated)];
          existing := existing[pid := updated];
        }
        rows := log;
        i := i + 1;
      }
      assert candidates[..|candidates|] == candidates;
      assert Confirms(candidates, slice, now)[..|candidates|] == Confirms(candidates, slice, now);
    }

    method ApplyContradiction(id: string, now: Stamp)
      modifies this
      ensures log == Touched(env, old(log), Contradict(id, now)).0 && rejections == old(rejections)
    {
      var byId, _ := Read();
      if id !in byId {
        return;
      }
      log := log + [Some(Contradicted(byId[id], now))];
    }

    /** The map is read once and, unlike in Merge, not kept up: the rows are those of a fresh read all the same. */
    method MarkAddressed(ids: seq<string>, now: Stamp)
      modifies this
      ensures log == After(env, old(log), Addresses(ids, now)).0 && rejections == old(rejections)
    {
      ghost var start, rows := log, log;
      NothingAddressed(env, start, ids, now);
      if ids == [] {
        return;
      }
      var byId, _ := Read();
      var i := 0;
      while i < |ids|
        invariant i <= |ids| && log == rows && rejections == old(rejections)
        invariant AddressedSoFar(env, start, ids, byId, now, i, rows)
      {
        AddressOneMore(env, start, ids, byId, now, i, rows);
        if ids[i] in byId {
          log := log + [Some(byId[ids[i]].(lastAddressed := Some(now)))];
        }
        rows := log;
        i := i + 1;
      }
      AddressedAll(env, start, ids, byId, now, rows);
    }

    method CheckCrystallisations(now: Stamp) returns (events: seq<Event>)
      modifies this
      ensures (log, events) == After(env, old(log), Crystallisations(Order(old(log)), now))
      ensures rejections == old(rejections)
    {
      var byId, order := Read();
      ghost var start, rows := log, log;
      NothingMarked(env, start, byId, now);
      events := [];
      var i := 0;
      while i < |order|
        invariant i <= |order| && log == rows && rejections == old(rejections)
        invariant MarkedSoFar(env, start, order, byId, now, i, rows, events)
      {
        var p := byId[order[i]];
        MarkOneMore(env, start, order, byId, now, i, rows, events);
        if p.maturity == Known && p.crystallisedAt.None? {
          log := log + [Some(p.(crystallisedAt := Some(now)))];
          events := events + [Event(p.id, p.category, p.description, now)];
        }
        rows := log;
        i := i + 1;
      }
      assert Crystallisations(order, now)[..|order|] == Crystallisations(order, now);
    }
  }
}
