/** What holds over the whole life of the learned patterns, however confirmations, contradictions and passes come. */
module PatternLife {
  import opened LearnedPatterns
  import opened Wrappers

  // ----- batches -----

  lemma ThenAssociates(env: Env, log: Log, events: seq<Event>, more: seq<Event>, t: Touch)
    ensures Then(env, (log, events + more), t)
            == (Then(env, (log, more), t).0, events + Then(env, (log, more), t).1)
  {
    var last := Touched(env, log, t).1;
    assert events + more + last == events + (more + last);
  }

  /** Attempts made in two parts are the attempts made in one go. */
  lemma {:induction false} AfterInParts(env: Env, log: Log, a: seq<Touch>, b: seq<Touch>)
    ensures var first := After(env, log, a);
            var second := After(env, first.0, b);
            After(env, log, a + b) == (second.0, first.1 + second.1)
  {
    if b == [] {
      assert a + b == a;
      assert After(env, log, a).1 + [] == After(env, log, a).1;
    } else {
      var front, t := b[..|b| - 1], b[|b| - 1];
      AfterInParts(env, log, a, front);
      assert (a + b)[..|a + b| - 1] == a + front;
      var first := After(env, log, a);
      var second := After(env, first.0, front);
      ThenAssociates(env, second.0, first.1, second.1, t);
    }
  }

  lemma ConfirmsInParts(a: seq<Candidate>, b: seq<Candidate>, slice: seq<Turn>, now: Stamp)
    ensures Confirms(a + b, slice, now) == Confirms(a, slice, now) + Confirms(b, slice, now)
  {
  }

  /** Merging a batch leaves the file that merging its parts one after another leaves. */
  lemma {:induction false} MergeInParts(env: Env, log: Log, a: seq<Candidate>, b: seq<Candidate>, slice: seq<Turn>,
                                        now: Stamp)
    ensures After(env, log, Confirms(a + b, slice, now)).0
            == After(env, After(env, log, Confirms(a, slice, now)).0, Confirms(b, slice, now)).0
  {
    ConfirmsInParts(a, b, slice, now);
    AfterInParts(env, log, Confirms(a, slice, now), Confirms(b, slice, now));
  }

  // ----- the life of a pattern -----

  function LogOf(env: Env, ts: seq<Touch>): Log {
    After(env, [], ts).0
  }

  function EventsOf(env: Env, ts: seq<Touch>): seq<Event> {
    After(env, [], ts).1
  }

  function Life(env: Env, ts: seq<Touch>): map<string, Pattern> {
    Replay(LogOf(env, ts))
  }

  /** What has changed one pattern's count so far: true for a confirmation, false for a contradiction. */
  function History(env: Env, ts: seq<Touch>, id: string): seq<bool> {
    if ts == [] then []
    else
      var before := History(env, ts[..|ts| - 1], id);
      match ts[|ts| - 1]
      case Confirm(c, slice, _) => if Grounded(env, c, slice) && IdOf(env, c) == id then before + [true] else before
      case Contradict(named, _) => if named == id && before != [] then before + [false] else before
      case _ => before
  }

  function CountOf(history: seq<bool>): (n: nat) {
    if history == [] then 0
    else
      var before := CountOf(history[..|history| - 1]);
      if history[|history| - 1] then before + 1 else if before > 0 then before - 1 else 0
  }

  function MaturityOf(history: seq<bool>): Maturity
    requires history != []
  {
    if !history[|history| - 1] && CountOf(history) < FALSIFIED_MAX then Falsified else MaturityFor(CountOf(history))
  }

  ghost predicate Tells(p: Pattern, history: seq<bool>) {
    && history != []
    && p.count == CountOf(history)
    && p.maturity == MaturityOf(history)
    && (p.falsifiedAt.Some? <==> p.maturity == Falsified)
  }

  lemma ConfirmedTells(prev: Option<Pattern>, id: string, c: Candidate, now: Stamp, history: seq<bool>)
    requires if prev.Some? then Tells(prev.value, history) else history == []
    ensures Tells(Confirmed(prev, id, c, now), history + [true])
  {
    assert (history + [true])[..|history|] == history;
  }

  lemma ContradictedTells(p: Pattern, now: Stamp, history: seq<bool>)
    requires Tells(p, history)
    ensures Tells(Contradicted(p, now), history + [false])
  {
    assert (history + [false])[..|history|] == history;
  }

  /** A pattern's count, maturity and falsification mark are functions of its own confirmations and contradictions. */
  lemma {:induction false} PatternTellsItsHistory(env: Env, ts: seq<Touch>, id: string)
    ensures id in Life(env, ts) <==> History(env, ts, id) != []
    ensures id in Life(env, ts) ==> Life(env, ts)[id].id == id && Tells(Life(env, ts)[id], History(env, ts, id))
  {
    if ts != [] {
      var before := ts[..|ts| - 1];
      PatternTellsItsHistory(env, before, id);
      var log, t := LogOf(env, before), ts[|ts| - 1];
      TouchReplay(env, log, t);
      var known, history := Replay(log), History(env, before, id);
      if t.Confirm? && Grounded(env, t.c, t.slice) && IdOf(env, t.c) == id {
        ConfirmedTells(Find(known, id), id, t.c, t.now, history);
      } else if t.Contradict? && t.id == id && id in known {
        ContradictedTells(known[id], t.now, history);
      }
    }
  }

  /**
   * Known means a count of ten or more, forming three to nine; below three a pattern is falsified exactly when the last
   * change of its count was a contradiction; and it bears a falsification time exactly while it is falsified.
   */
  lemma {:induction false} MaturityMeansCount(env: Env, ts: seq<Touch>, id: string)
    requires id in Life(env, ts)
    ensures var p, history := Life(env, ts)[id], History(env, ts, id);
            && history != []
            && (p.maturity == Known <==> p.count >= 10)
            && (p.maturity == Forming <==> 3 <= p.count <= 9)
            && (p.maturity == Falsified <==> p.count < 3 && !history[|history| - 1])
            && (p.falsifiedAt.Some? <==> p.maturity == Falsified)
  {
    PatternTellsItsHistory(env, ts, id);
  }

  /** What no operation ever changes about a pattern once it is there. */
  ghost predicate SameOrigin(p: Pattern, q: Pattern) {
    p.firstSeen == q.firstSeen && p.category == q.category && p.canonicalKey == q.canonicalKey
    && (p.crystallisedAt.Some? ==> q.crystallisedAt == p.crystallisedAt)
  }

  lemma {:induction false} TouchKeepsOrigin(env: Env, log: Log, t: Touch, id: string)
    requires id in Replay(log)
    ensures id in Replay(Touched(env, log, t).0)
    ensures SameOrigin(Replay(log)[id], Replay(Touched(env, log, t).0)[id])
    ensures t.Contradict? || t.Address? || t.Crystallise? ==>
              Replay(Touched(env, log, t).0)[id].examples == Replay(log)[id].examples
  {
    TouchReplay(env, log, t);
  }

  /** First-seen time, category, key and, once set, the crystallisation time never change, from any log on. */
  lemma {:induction false} OriginKept(env: Env, log: Log, ts: seq<Touch>, id: string)
    requires id in Replay(log)
    ensures id in Replay(After(env, log, ts).0)
    ensures SameOrigin(Replay(log)[id], Replay(After(env, log, ts).0)[id])
  {
    if ts != [] {
      OriginKept(env, log, ts[..|ts| - 1], id);
      TouchKeepsOrigin(env, After(env, log, ts[..|ts| - 1]).0, ts[|ts| - 1], id);
    }
  }

  // ----- once-only crystallisation -----

  lemma {:induction false} CrystallisedIsAnnounced(env: Env, ts: seq<Touch>, id: string)
    ensures (exists k :: 0 <= k < |EventsOf(env, ts)| && EventsOf(env, ts)[k].patternId == id)
            <==> id in Life(env, ts) && Life(env, ts)[id].crystallisedAt.Some?
  {
    if ts != [] {
      var before, t := ts[..|ts| - 1], ts[|ts| - 1];
      CrystallisedIsAnnounced(env, before, id);
      var log, known := LogOf(env, before), Life(env, before);
      ReplayIds(log);
      if id in known {
        TouchKeepsOrigin(env, log, t, id);
      }
      var events, more := EventsOf(env, before), Touched(env, log, t).1;
      assert EventsOf(env, ts) == events + more;
      assert forall k :: 0 <= k < |events| ==> (events + more)[k] == events[k];
      TouchReplay(env, log, t);
      if more != [] {
        assert (events + more)[|events|].patternId == t.id;
      }
    }
  }

  /** Over a whole run no pattern is announced twice. */
  lemma {:induction false} AnnouncedOnce(env: Env, ts: seq<Touch>)
    ensures forall k, l :: 0 <= k < l < |EventsOf(env, ts)| ==>
              EventsOf(env, ts)[k].patternId != EventsOf(env, ts)[l].patternId
  {
    if ts != [] {
      var before, t := ts[..|ts| - 1], ts[|ts| - 1];
      AnnouncedOnce(env, before);
      ReplayIds(LogOf(env, before));
      var more := Touched(env, LogOf(env, before), t).1;
      assert EventsOf(env, ts) == EventsOf(env, before) + more;
      if more != [] {
        CrystallisedIsAnnounced(env, before, t.id);
        assert more[0].patternId == t.id;
      }
    }
  }

  /** An announcement is made for a pattern that is known at that moment, with ten confirmations or more behind it. */
  lemma {:induction false} AnnouncedWhenKnown(env: Env, ts: seq<Touch>, t: Touch)
    requires Touched(env, LogOf(env, ts), t).1 != []
    ensures t.Crystallise? && t.id in Life(env, ts)
    ensures Life(env, ts)[t.id].maturity == Known && CountOf(History(env, ts, t.id)) >= 10
    ensures Touched(env, LogOf(env, ts), t).1
            == [Event(t.id, Life(env, ts)[t.id].category, Life(env, ts)[t.id].description, t.now)]
  {
    PatternTellsItsHistory(env, ts, t.id);
  }

  // ----- grounded examples -----

  ghost predicate HasTurn(slice: seq<Turn>, id: string, at: nat) {
    at < |slice| && slice[at].id == id && forall k :: at < k < |slice| ==> slice[k].id != id
  }

  ghost predicate QuotedIn(env: Env, ev: Evidence, slice: seq<Turn>, at: nat, from: nat) {
    && HasTurn(slice, ev.turnId, at)
    && var hay, needle := env.normalise(slice[at].content), env.normalise(ev.quote);
       from + |needle| <= |hay| && hay[from..from + |needle|] == needle
  }

  ghost predicate QuotedSomewhere(env: Env, ev: Evidence, slice: seq<Turn>) {
    exists at: nat, from: nat :: QuotedIn(env, ev, slice, at, from)
  }

  lemma {:induction false} TurnOfIsLast(slice: seq<Turn>, id: string, at: nat)
    requires HasTurn(slice, id, at)
    ensures TurnOf(slice, id) == Some(slice[at])
  {
    if at < |slice| - 1 {
      assert HasTurn(slice[..|slice| - 1], id, at);
      TurnOfIsLast(slice[..|slice| - 1], id, at);
    }
  }

  lemma {:induction false} TurnOfThere(slice: seq<Turn>, id: string) returns (at: nat)
    requires TurnOf(slice, id).Some?
    ensures HasTurn(slice, id, at) && TurnOf(slice, id) == Some(slice[at])
  {
    if slice[|slice| - 1].id == id {
      at := |slice| - 1;
    } else {
      at := TurnOfThere(slice[..|slice| - 1], id);
    }
  }

  lemma {:induction false} QuotedMeans(env: Env, ev: Evidence, slice: seq<Turn>)
    ensures Quoted(env, ev, slice) <==> QuotedSomewhere(env, ev, slice)
  {
    if Quoted(env, ev, slice) {
      var at := TurnOfThere(slice, ev.turnId);
      var hay, needle := env.normalise(slice[at].content), env.normalise(ev.quote);
      var from: nat :| from <= |hay| && OccursAt(hay, needle, from);
      assert QuotedIn(env, ev, slice, at, from);
    }
    if at: nat, from: nat :| QuotedIn(env, ev, slice, at, from) {
      TurnOfIsLast(slice, ev.turnId, at);
      assert OccursAt(env.normalise(slice[at].content), env.normalise(ev.quote), from);
    }
  }

  /**
   * When a candidate is accepted: it has evidence, two pieces if it is relational, and every quote stands word for
   * word, after normalisation, in the last turn of the slice with the id it names.
   */
  lemma {:induction false} GroundedExactly(env: Env, c: Candidate, slice: seq<Turn>)
    ensures Grounded(env, c, slice)
            <==> && |c.evidence| >= (if c.category == "relational" then 2 else 1)
                 && forall i :: 0 <= i < |c.evidence| ==> QuotedSomewhere(env, c.evidence[i], slice)
  {
    forall i | 0 <= i < |c.evidence|
      ensures Quoted(env, c.evidence[i], slice) <==> QuotedSomewhere(env, c.evidence[i], slice)
    {
      QuotedMeans(env, c.evidence[i], slice);
    }
  }


  /** An accepted confirmation of this pattern. */
  predicate Accepts(env: Env, t: Touch, id: string) {
    t.Confirm? && Grounded(env, t.c, t.slice) && IdOf(env, t.c) == id
  }

  ghost predicate GroundedAt(env: Env, t: Touch, quote: string, k: nat) {
    && t.Confirm? && k < |t.c.evidence| && t.c.evidence[k].quote == quote
    && Quoted(env, t.c.evidence[k], t.slice)
  }

  ghost predicate GroundedBy(env: Env, t: Touch, quote: string) {
    exists k: nat :: GroundedAt(env, t, quote, k)
  }

  lemma ConfirmedExamples(env: Env, prev: Option<Pattern>, t: Touch, quote: string)
    requires t.Confirm? && Grounded(env, t.c, t.slice)
    requires quote in Confirmed(prev, IdOf(env, t.c), t.c, t.now).examples
    ensures (prev.Some? && quote in prev.value.examples) || GroundedBy(env, t, quote)
  {
    var quotes := Quotes(t.c.evidence);
    if quote in quotes {
      var k: nat :| k < |quotes| && quotes[k] == quote;
      assert GroundedAt(env, t, quote, k);
    }
  }

  /** A touch that is no accepted confirmation of a pattern neither brings it in nor changes its examples. */
  lemma {:induction false} OtherTouch(env: Env, ts: seq<Touch>, id: string)
    requires ts != [] && !Accepts(env, ts[|ts| - 1], id)
    ensures var before, now := Life(env, ts[..|ts| - 1]), Life(env, ts);
            (id in now <==> id in before) && (id in now ==> now[id].examples == before[id].examples)
  {
    var log, t := LogOf(env, ts[..|ts| - 1]), ts[|ts| - 1];
    ReplayIds(log);
    TouchReplay(env, log, t);
  }

  lemma {:induction false} AcceptedTouch(env: Env, ts: seq<Touch>, id: string)
    requires ts != [] && Accepts(env, ts[|ts| - 1], id)
    ensures var before, t := Life(env, ts[..|ts| - 1]), ts[|ts| - 1];
            id in Life(env, ts) && Life(env, ts)[id] == Confirmed(Find(before, id), id, t.c, t.now)
  {
    TouchReplay(env, LogOf(env, ts[..|ts| - 1]), ts[|ts| - 1]);
  }

  /**
   * Every example a pattern holds was brought in by an accepted confirmation of that pattern, and was then found word
   * for word (after normalisation) in the turn it named.
   */
  lemma {:induction false} ExamplesGrounded(env: Env, ts: seq<Touch>, id: string, quote: string)
    requires id in Life(env, ts) && quote in Life(env, ts)[id].examples
    ensures exists i :: 0 <= i < |ts| && Accepts(env, ts[i], id) && GroundedBy(env, ts[i], quote)
  {
    var before, t := ts[..|ts| - 1], ts[|ts| - 1];
    if Accepts(env, t, id) {
      AcceptedTouch(env, ts, id);
      ConfirmedExamples(env, Find(Life(env, before), id), t, quote);
    } else {
      OtherTouch(env, ts, id);
    }
    if Accepts(env, t, id) && GroundedBy(env, t, quote) {
      assert GroundedBy(env, ts[|ts| - 1], quote);
    } else {
      ExamplesGrounded(env, before, id, quote);
      var i :| 0 <= i < |before| && Accepts(env, before[i], id) && GroundedBy(env, before[i], quote);
      assert Accepts(env, ts[i], id) && GroundedBy(env, ts[i], quote);
    }
  }

  // ----- the cap on examples -----

  function Confirmations(env: Env, ts: seq<Touch>, id: string): nat {
    if ts == [] then 0 else Confirmations(env, ts[..|ts| - 1], id) + if Accepts(env, ts[|ts| - 1], id) then 1 else 0
  }

  /** All quotes ever accepted for a pattern, in order. */
  function AllQuotes(env: Env, ts: seq<Touch>, id: string): seq<string> {
    if ts == [] then []
    else
      AllQuotes(env, ts[..|ts| - 1], id)
      + if Accepts(env, ts[|ts| - 1], id) then Quotes(ts[|ts| - 1].c.evidence) else []
  }

  lemma LatestOfLatest(a: seq<string>, b: seq<string>)
    ensures Latest(Latest(a) + b) == Latest(a + b)
  {
    if |a| > EXAMPLES_CAP {
      var cut := |a| - EXAMPLES_CAP;
      assert a + b == a[..cut] + (a[cut..] + b);
      assert Latest(Latest(a) + b) == (a[cut..] + b)[|b|..];
      assert Latest(a + b) == (a + b)[cut + |b|..];
    }
  }

  /** What a pattern keeps of all that was accepted for it. */
  function Kept(confirmations: nat, quotes: seq<string>): seq<string> {
    if confirmations == 1 then quotes else Latest(quotes)
  }

  lemma {:induction false} ExamplesAreKept(env: Env, ts: seq<Touch>, id: string)
    ensures id in Life(env, ts) <==> Confirmations(env, ts, id) > 0
    ensures id !in Life(env, ts) ==> AllQuotes(env, ts, id) == []
    ensures id in Life(env, ts) ==>
              Life(env, ts)[id].examples == Kept(Confirmations(env, ts, id), AllQuotes(env, ts, id))
  {
    if ts != [] {
      var before, t := ts[..|ts| - 1], ts[|ts| - 1];
      ExamplesAreKept(env, before, id);
      if Accepts(env, t, id) {
        AcceptedTouch(env, ts, id);
        LatestOfLatest(AllQuotes(env, before, id), Quotes(t.c.evidence));
        assert [] + Quotes(t.c.evidence) == Quotes(t.c.evidence);
      } else {
        OtherTouch(env, ts, id);
        assert AllQuotes(env, before, id) + [] == AllQuotes(env, before, id);
      }
    }
  }

  /**
   * Over a whole life: a pattern holds the latest five of all quotes accepted for it, unless it was confirmed once
   * only, when it holds all it came with. So it holds more than five exactly then, if it came with more.
   */
  lemma {:induction false} ExamplesCapped(env: Env, ts: seq<Touch>, id: string)
    requires id in Life(env, ts)
    ensures var p, once, quotes := Life(env, ts)[id], Confirmations(env, ts, id) == 1, AllQuotes(env, ts, id);
            && p.examples == (if once || |quotes| <= 5 then quotes else quotes[|quotes| - 5..])
            && (|p.examples| > 5 <==> once && |quotes| > 5)
  {
    ExamplesAreKept(env, ts, id);
  }

  lemma WholeIsContained(text: string)
    ensures Contains(text, text)
  {
    assert OccursAt(text, text, 0);
  }

  lemma {:induction false} OneTouch(env: Env, t: Touch, id: string)
    requires Accepts(env, t, id)
    ensures id in Life(env, [t]) && Life(env, [t])[id] == Confirmed(None, id, t.c, t.now)
  {
    assert [t][..0] == [];
    AcceptedTouch(env, [t], id);
  }

  /**
   * Such a life, for any quote and any number of them: one confirmation that quotes one turn n times leaves all n
   * examples. With six the pattern holds one more than the cap.
   */
  lemma {:induction false} FirstConfirmationKeepsAll(env: Env, category: string, key: string, quote: string, n: nat,
                                                     now: Stamp)
    requires n >= 2
    ensures var c := Candidate(category, key, "", seq(n, _ => Evidence(quote, "t")));
            var ts := [Confirm(c, [Turn("t", quote)], now)];
            && IdOf(env, c) in Life(env, ts)
            && Life(env, ts)[IdOf(env, c)].examples == seq(n, _ => quote)
            && (n == 6 ==> |Life(env, ts)[IdOf(env, c)].examples| == 6 > EXAMPLES_CAP)
  {
    var c := Candidate(category, key, "", seq(n, _ => Evidence(quote, "t")));
    var t := Confirm(c, [Turn("t", quote)], now);
    WholeIsContained(env.normalise(quote));
    assert TurnOf([Turn("t", quote)], "t") == Some(Turn("t", quote));
    OneTouch(env, t, IdOf(env, c));
  }

  // ----- a pass over all patterns -----

  ghost predicate Announces(events: seq<Event>, id: string) {
    exists k :: 0 <= k < |events| && events[k].patternId == id
  }

  /** Known, and not announced yet. */
  predicate Due(known: map<string, Pattern>, id: string) {
    id in known && known[id].maturity == Known && known[id].crystallisedAt.None?
  }

  lemma AnnouncesOneMore(events: seq<Event>, more: seq<Event>, id: string)
    requires |more| <= 1
    ensures Announces(events + more, id) <==> Announces(events, id) || (more != [] && more[0].patternId == id)
  {
    if more != [] {
      assert (events + more)[|events|] == more[0];
    } else {
      assert events + more == events;
    }
    if k :| 0 <= k < |events| && events[k].patternId == id {
      assert (events + more)[k].patternId == id;
    }
  }

  lemma {:induction false} PassOne(env: Env, log: Log, id: string, now: Stamp, other: string)
    ensures var (after, events) := Touched(env, log, Crystallise(id, now));
            var was, later := Replay(log), Replay(after);
            && |events| <= 1 && (events != [] <==> Due(was, id)) && (events != [] ==> events[0].patternId == id)
            && (other in later <==> other in was)
            && (other in was ==>
                  later[other]
                    == if other == id && Due(was, id) then was[other].(crystallisedAt := Some(now)) else was[other])
  {
    ReplayIds(log);
    TouchReplay(env, log, Crystallise(id, now));
  }

  /** The passes over the first ids of a list, each id once. */
  lemma {:induction false} PassSoFar(env: Env, log: Log, ids: seq<string>, now: Stamp, id: string)
    requires Distinct(ids)
    ensures var (after, events) := After(env, log, Crystallisations(ids, now));
            var was, later := Replay(log), Replay(after);
            && (Announces(events, id) <==> id in ids && Due(was, id))
            && (id in later <==> id in was)
            && (id in was ==>
                  later[id] == if id in ids && Due(was, id) then was[id].(crystallisedAt := Some(now)) else was[id])
  {
    if ids != [] {
      var n := |ids| - 1;
      var front, last := ids[..n], ids[n];
      PassSoFar(env, log, front, now, id);
      PassSoFar(env, log, front, now, last);
      assert ids == front + [last];
      assert Crystallisations(ids, now)[..n] == Crystallisations(front, now);
      var (before, events) := After(env, log, Crystallisations(front, now));
      PassOne(env, before, last, now, id);
      AnnouncesOneMore(events, Touched(env, before, Crystallise(last, now)).1, id);
      assert last !in front;
    }
  }

  /**
   * A pass announces exactly the patterns that are known and not announced yet, marks those, and leaves all others
   * alone.
   */
  lemma {:induction false} PassAnnouncesAllDue(env: Env, log: Log, now: Stamp, id: string)
    ensures var (after, events) := After(env, log, Crystallisations(Order(log), now));
            var was, later := Replay(log), Replay(after);
            && (Announces(events, id) <==> Due(was, id))
            && (id in later <==> id in was)
            && (id in was ==> later[id] == if Due(was, id) then was[id].(crystallisedAt := Some(now)) else was[id])
  {
    ReplayIds(log);
    PassSoFar(env, log, Order(log), now, id);
  }

  // ----- the times and texts of a pattern -----

  function FirstAccepted(env: Env, ts: seq<Touch>, id: string): (i: Option<nat>)
    ensures i.Some? ==> i.value < |ts| && Accepts(env, ts[i.value], id)
    ensures i.Some? ==> forall k :: 0 <= k < i.value ==> !Accepts(env, ts[k], id)
    ensures i.None? ==> forall k :: 0 <= k < |ts| ==> !Accepts(env, ts[k], id)
  {
    if ts == [] then None
    else
      var before := FirstAccepted(env, ts[..|ts| - 1], id);
      if before.Some? then before else if Accepts(env, ts[|ts| - 1], id) then Some(|ts| - 1) else None
  }

  function LastAccepted(env: Env, ts: seq<Touch>, id: string): (i: Option<nat>)
    ensures i.Some? ==> i.value < |ts| && Accepts(env, ts[i.value], id)
    ensures i.Some? ==> forall k :: i.value < k < |ts| ==> !Accepts(env, ts[k], id)
    ensures i.None? ==> forall k :: 0 <= k < |ts| ==> !Accepts(env, ts[k], id)
  {
    if ts == [] then None
    else if Accepts(env, ts[|ts| - 1], id) then Some(|ts| - 1)
    else LastAccepted(env, ts[..|ts| - 1], id)
  }

  /** When the pattern was last marked as addressed, once it was there. */
  function LastAddressed(env: Env, ts: seq<Touch>, id: string): Option<Stamp> {
    if ts == [] || FirstAccepted(env, ts[..|ts| - 1], id).None? then None
    else
      var t := ts[|ts| - 1];
      if t.Address? && t.id == id then Some(t.now) else LastAddressed(env, ts[..|ts| - 1], id)
  }

  /** Since when the pattern has been falsified: the contradiction that made it so, with no confirmation since. */
  function FalsifiedSince(env: Env, ts: seq<Touch>, id: string): Option<Stamp> {
    if ts == [] then None
    else
      var front, t := ts[..|ts| - 1], ts[|ts| - 1];
      var before, history := FalsifiedSince(env, front, id), History(env, ts, id);
      if Accepts(env, t, id) then None
      else if before.None? && t.Contradict? && t.id == id && history != [] && MaturityOf(history) == Falsified
      then Some(t.now)
      else if history != [] && MaturityOf(history) != Falsified then None
      else before
  }

  /** What one touch does to the pattern of this id. */
  lemma {:induction false} TouchLife(env: Env, ts: seq<Touch>, id: string)
    requires ts != []
    ensures var before, after, t := Life(env, ts[..|ts| - 1]), Life(env, ts), ts[|ts| - 1];
            if Accepts(env, t, id) then id in after && after[id] == Confirmed(Find(before, id), id, t.c, t.now)
            else
              && (id in after <==> id in before)
              && (id in after ==>
                    after[id] == match t
                                 case Contradict(named, now) =>
                                   if named == id then Contradicted(before[id], now) else before[id]
                                 case Address(named, now) =>
                                   if named == id then before[id].(lastAddressed := Some(now)) else before[id]
                                 case Crystallise(named, now) =>
                                   if named == id && Crosses(before[id]) then before[id].(crystallisedAt := Some(now))
                                   else before[id]
                                 case Confirm(_, _, _) => before[id])
  {
    var log, t := LogOf(env, ts[..|ts| - 1]), ts[|ts| - 1];
    ReplayIds(log);
    TouchReplay(env, log, t);
  }

  /** First seen and filed as the first accepted confirmation said; described and last confirmed as the latest did. */
  lemma {:induction false} ConfirmedExactly(env: Env, ts: seq<Touch>, id: string)
    ensures id in Life(env, ts) <==> FirstAccepted(env, ts, id).Some?
    ensures id in Life(env, ts) ==>
              var p, first, last := Life(env, ts)[id], FirstAccepted(env, ts, id), LastAccepted(env, ts, id);
              && p.firstSeen == ts[first.value].now
              && p.category == ts[first.value].c.category && p.canonicalKey == ts[first.value].c.canonicalKey
              && last.Some? && p.description == ts[last.value].c.description && p.lastConfirmed == ts[last.value].now
  {
    if ts != [] {
      ConfirmedExactly(env, ts[..|ts| - 1], id);
      TouchLife(env, ts, id);
    }
  }

  /** Last addressed when it was, and falsified since it was. */
  lemma {:induction false} MarkedExactly(env: Env, ts: seq<Touch>, id: string)
    ensures id in Life(env, ts) ==>
              && Life(env, ts)[id].lastAddressed == LastAddressed(env, ts, id)
              && Life(env, ts)[id].falsifiedAt == FalsifiedSince(env, ts, id)
    ensures id !in Life(env, ts) ==> FalsifiedSince(env, ts, id) == None && LastAddressed(env, ts, id) == None
  {
    if ts != [] {
      MarkedExactly(env, ts[..|ts| - 1], id);
      ConfirmedExactly(env, ts[..|ts| - 1], id);
      PatternTellsItsHistory(env, ts[..|ts| - 1], id);
      PatternTellsItsHistory(env, ts, id);
      TouchLife(env, ts, id);
    }
  }
}
