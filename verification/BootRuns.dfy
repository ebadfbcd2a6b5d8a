/** What whole boot passes, and runs of them over changing registries, do to a settings file. */
module BootRuns {
  import opened BootPass
  import opened SettingsDocument
  import opened SettingValues
  import opened Wrappers

  ghost predicate DistinctKeys(registry: Registry) {
    forall i, j :: 0 <= i < j < |registry| ==> registry[i].key != registry[j].key
  }

  function ItemFor(registry: Registry, key: Key): (item: Option<Item>)
    ensures item.Some? ==> item.value in registry && item.value.key == key
    ensures item.None? ==> forall k :: 0 <= k < |registry| ==> registry[k].key != key
  {
    if registry == [] then None
    else if registry[|registry| - 1].key == key then Some(registry[|registry| - 1])
    else ItemFor(registry[..|registry| - 1], key)
  }

  // ----- the pass, setting by setting -----

  /** The pass treats each registered setting on its own and leaves what the file says about every other key alone. */
  lemma {:induction false} SyncView(doc: Doc, registry: Registry, key: Key)
    requires DistinctKeys(registry)
    ensures var item := ItemFor(registry, key);
            ViewOf(Sync(doc, registry), key)
              == if item.Some? then SyncedView(ViewOf(doc, key), item.value) else ViewOf(doc, key)
  {
    if registry != [] {
      var before := registry[..|registry| - 1];
      SyncView(doc, before, key);
      SyncOneView(Sync(doc, before), registry[|registry| - 1], key);
    }
  }

  // ----- twice is once -----

  lemma {:induction false} SettledOne(doc: Doc, item: Item)
    requires SyncedView(ViewOf(doc, item.key), item) == ViewOf(doc, item.key)
    ensures SyncOne(doc, item) == doc
  {
    EqualIsEquivalence(item.default, item.default, item.default);
  }

  ghost predicate Settled(doc: Doc, registry: Registry) {
    forall k :: 0 <= k < |registry| ==>
      SyncedView(ViewOf(doc, registry[k].key), registry[k]) == ViewOf(doc, registry[k].key)
  }

  lemma {:induction false} SettledStays(doc: Doc, registry: Registry)
    requires Settled(doc, registry)
    ensures Sync(doc, registry) == doc
  {
    if registry != [] {
      SettledStays(doc, registry[..|registry| - 1]);
      SettledOne(doc, registry[|registry| - 1]);
    }
  }

  lemma {:induction false} ItemForEach(registry: Registry, k: nat)
    requires DistinctKeys(registry) && k < |registry|
    ensures ItemFor(registry, registry[k].key) == Some(registry[k])
  {
    if k < |registry| - 1 {
      ItemForEach(registry[..|registry| - 1], k);
    }
  }

  lemma {:induction false} SyncSettles(doc: Doc, registry: Registry)
    requires DistinctKeys(registry)
    ensures Settled(Sync(doc, registry), registry)
  {
    forall k | 0 <= k < |registry|
      ensures var v := ViewOf(Sync(doc, registry), registry[k].key); SyncedView(v, registry[k]) == v
    {
      SyncView(doc, registry, registry[k].key);
      ItemForEach(registry, k);
      SyncedViewTwice(ViewOf(doc, registry[k].key), registry[k]);
    }
  }

  /** A second pass with the same registry leaves every line of the file as it is. */
  lemma {:induction false} SyncTwice(doc: Doc, registry: Registry)
    requires DistinctKeys(registry)
    ensures Sync(Sync(doc, registry), registry) == Sync(doc, registry)
  {
    SyncSettles(doc, registry);
    SettledStays(Sync(doc, registry), registry);
  }

  // ----- values -----

  /**
   * Only a missing entry or one still equal to the default the file records gets a new value; every other is untouched.
   */
  lemma {:induction false} SyncValue(doc: Doc, registry: Registry, key: Key)
    requires DistinctKeys(registry)
    ensures var item, v := ItemFor(registry, key), ViewOf(doc, key);
            ValueOf(Sync(doc, registry), key)
            == if item.Some? && Writable(item.value.default)
                  && (v.Absent?
                      || (&& v.Single? && Known(v.above).Some?
                          && Equal(v.setting, Known(v.above).value)
                          && !Equal(Known(v.above).value, item.value.default)))
               then Some(item.value.default) else ValueOf(doc, key)
  {
    SyncView(doc, registry, key);
  }

  /** So an entry's value changes only if the file recorded it as a default that is no longer the registered one. */
  lemma {:induction false} ChangedOnlyIfSuperseded(doc: Doc, registry: Registry, key: Key)
    requires DistinctKeys(registry) && ValueOf(doc, key).Some?
    requires ValueOf(Sync(doc, registry), key) != ValueOf(doc, key)
    ensures var item, v := ItemFor(registry, key), ViewOf(doc, key);
            && item.Some? && v.Single? && Known(v.above).Some?
            && Equal(v.setting, Known(v.above).value) && !Equal(Known(v.above).value, item.value.default)
            && !Equal(v.setting, item.value.default)
            && ValueOf(Sync(doc, registry), key) == Some(item.value.default)
  {
    SyncValue(doc, registry, key);
    var item, v := ItemFor(registry, key).value, ViewOf(doc, key);
    EqualIsEquivalence(v.setting, Known(v.above).value, item.default);
    EqualIsEquivalence(Known(v.above).value, v.setting, item.default);
  }

  lemma {:induction false} IntendedValue(doc: Doc, registry: Registry, key: Key)
    ensures ValueOf(Sync(doc, registry), key)
            == if key in Intends(doc, registry) then Some(Intends(doc, registry)[key]) else ValueOf(doc, key)
  {
    if registry != [] {
      var before := registry[..|registry| - 1];
      IntendedValue(doc, before, key);
      SyncOneView(Sync(doc, before), registry[|registry| - 1], key);
    }
  }

  /** What the pass reports as intended is what reading the file back shows: the check before the write cannot fail. */
  lemma {:induction false} SyncReadsBack(doc: Doc, registry: Registry)
    ensures Values(Sync(doc, registry)) == Values(doc) + Intends(doc, registry)
  {
    forall key
      ensures Find(Values(Sync(doc, registry)), key) == Find(Values(doc) + Intends(doc, registry), key)
    {
      IntendedValue(doc, registry, key);
    }
    SameFinds(Values(Sync(doc, registry)), Values(doc) + Intends(doc, registry));
  }

  lemma SameFinds<T>(a: map<Key, T>, b: map<Key, T>)
    requires forall key :: Find(a, key) == Find(b, key)
    ensures a == b
  {
    forall key
      ensures key in a <==> key in b
      ensures key in a ==> a[key] == b[key]
    {
      assert Find(a, key) == Find(b, key);
    }
  }

  // ----- the comments above one setting -----

  lemma Counted(a: Doc, x: Line, b: Doc, l: Line)
    ensures multiset(a + [x] + b)[l] == multiset(a)[l] + (if l == x then 1 else 0) + multiset(b)[l]
  {
  }

  lemma CountedLast(a: Doc, l: Line)
    requires a != []
    ensures multiset(a)[l] == multiset(a[..|a| - 1])[l] + if l == a[|a| - 1] then 1 else 0
  {
    assert a == a[..|a| - 1] + [a[|a| - 1]];
  }

  lemma FrontLoses(run: Doc, item: Item, l: Line)
    ensures multiset(Before(run))[l]
            <= multiset(Fronted(run, item))[l]
              + if Replaceable(Before(run)) && l == Before(run)[|Before(run)| - 1] then 1 else 0
  {
    if Replaceable(Before(run)) {
      CountedLast(Before(run), l);
    }
  }

  lemma {:induction false} RunCount(run: Doc, l: Line)
    ensures var r := RecordedDefault(run);
            multiset(run)[l]
              == multiset(Before(run))[l] + (if r.Some? && l == run[r.value.at] then 1 else 0)
                 + multiset(Behind(run))[l]
  {
    RunParts(run);
    var r := RecordedDefault(run);
    if r.Some? {
      Counted(Before(run), run[r.value.at], Behind(run), l);
    }
  }

  lemma SyncedCount(run: Doc, item: Item, l: Line)
    ensures multiset(SyncedAbove(run, item))[l] >= multiset(Fronted(run, item))[l] + multiset(Behind(run))[l]
  {
    CommentsKept(run, item);
    Counted(Fronted(run, item), Recorded(Some(Recording(run, item.default))), Behind(run), l);
  }

  /**
   * Of the comments above a setting a pass takes away no line but the recorded default and, at most once, the line
   * above it, when that looks like a description and the line before it does not.
   */
  lemma {:induction false} CommentsLost(run: Doc, item: Item, l: Line)
    ensures var r := RecordedDefault(run);
            multiset(run)[l]
            <= multiset(SyncedAbove(run, item))[l]
               + (if r.Some? && l == run[r.value.at] then 1 else 0)
               + (if Replaceable(Before(run)) && l == Before(run)[|Before(run)| - 1] then 1 else 0)
  {
    RunCount(run, l);
    SyncedCount(run, item, l);
    FrontLoses(run, item, l);
  }

  /** A comment of at most a hundred characters that begins with a capital and ends with a period. */
  predicate OneSentence(l: Line) {
    && l.Note? && 0 < |l.text| <= 100
    && 'A' <= l.text[0] && l.text[0] <= 'Z' && l.text[|l.text| - 1] == '.'
  }

  /**
   * The line a pass takes for the description it may replace: a sentence directly above the recorded default, with no
   * sentence above it.
   */
  predicate TakenForDescription(run: Doc, l: Line) {
    && RecordedDefault(run).Some?
    && var before := Before(run);
       before != [] && l == before[|before| - 1] && OneSentence(l)
         && (|before| >= 2 ==> !OneSentence(before[|before| - 2]))
  }

  lemma Sentences(l: Line)
    ensures OneSentence(l) <==> LooksLikeDescription(l)
  {
  }

  lemma {:induction false} TakenMeans(run: Doc, l: Line)
    ensures TakenForDescription(run, l)
            <==> RecordedDefault(run).Some? && Replaceable(Before(run)) && l == Before(run)[|Before(run)| - 1]
  {
    var before := Before(run);
    if before != [] {
      Sentences(before[|before| - 1]);
      if |before| >= 2 {
        Sentences(before[|before| - 2]);
      }
    }
  }

  lemma FrontCount(run: Doc, item: Item, l: Line)
    requires l != Note(item.description, true)
    ensures var swaps := item.description != "" && Note(item.description, true) !in Marked(run, item.default);
            multiset(Fronted(run, item))[l]
            == multiset(Before(run))[l] - if swaps && TakenForDescription(run, l) then 1 else 0
  {
    TakenMeans(run, l);
    if Replaceable(Before(run)) {
      CountedLast(Before(run), l);
    }
  }

  lemma {:induction false} MarkedHas(run: Doc, default: Value, l: Line)
    requires !l.Recorded?
    ensures l in Marked(run, default) <==> l in run
  {
    MarkedShape(run, default);
    RunParts(run);
  }

  /**
   * Exactly when a comment line that is no recorded default is lost: it stands directly above the recorded default, it
   * looks like a description and the line above it does not, and the registered description is nowhere in the run. So a
   * user's own note of that shape goes too.
   */
  lemma {:induction false} NoteLostExactly(run: Doc, item: Item, l: Line)
    requires !l.Recorded?
    ensures multiset(SyncedAbove(run, item))[l] < multiset(run)[l]
            <==> item.description != "" && Note(item.description, true) !in run && TakenForDescription(run, l)
  {
    TakenMeans(run, l);
    var wanted := Note(item.description, true);
    CommentsKept(run, item);
    Counted(Fronted(run, item), Recorded(Some(Recording(run, item.default))), Behind(run), l);
    RunCount(run, l);
    MarkedHas(run, item.default, wanted);
    if l == wanted {
      if l in run {
        assert Fronted(run, item) == Before(run);
      } else {
        assert multiset(run)[l] == 0;
      }
    } else {
      FrontCount(run, item, l);
    }
  }

  /** Such a run: the user's one note above a recorded default that has lost its description, or never had one. */
  lemma {:induction false} OwnNoteReplaced(run: Doc, item: Item, default: Value)
    requires run == [Note("Slower than this and the fan starts.", true), Recorded(Some(default))]
    requires item.description == "Seconds between two checks."
    ensures SyncedAbove(run, item) == [Note(item.description, true), Recorded(Some(Recording(run, item.default)))]
  {
    RecordedIs(run, 1);
    assert Before(run) == [run[0]] && Behind(run) == [];
    CommentsKept(run, item);
    MarkedHas(run, item.default, Note(item.description, true));
    assert Note(item.description, true) != run[0];
  }

  // ----- the user's own lines -----

  ghost predicate Describes(registry: Registry, l: Line) {
    exists k :: 0 <= k < |registry| && l == Note(registry[k].description, true)
  }

  /**
   * Not written by the app: no recorded default, no description nor a line shaped like one, no registered entry, not
   * blank.
   */
  ghost predicate Own(l: Line, registry: Registry) {
    match l
    case Note(_, _) => !LooksLikeDescription(l) && !Describes(registry, l)
    case Recorded(_) => false
    case Entry(key, _, _, _) => ItemFor(registry, key).None?
    case Blank => false
    case _ => true
  }

  ghost function OwnLines(doc: Doc, registry: Registry): Doc {
    if doc == [] then []
    else OwnLines(doc[..|doc| - 1], registry) + if Own(doc[|doc| - 1], registry) then [doc[|doc| - 1]] else []
  }

  lemma {:induction false} OwnInParts(a: Doc, b: Doc, registry: Registry)
    ensures OwnLines(a + b, registry) == OwnLines(a, registry) + OwnLines(b, registry)
  {
    if b == [] {
      assert a + b == a;
    } else {
      OwnInParts(a, b[..|b| - 1], registry);
      assert (a + b)[..|a + b| - 1] == a + b[..|b| - 1];
    }
  }

  lemma {:induction false} OwnOfThree(a: Doc, x: Doc, b: Doc, registry: Registry)
    ensures OwnLines(a + x + b, registry) == OwnLines(a, registry) + OwnLines(x, registry) + OwnLines(b, registry)
  {
    OwnInParts(a, x, registry);
    OwnInParts(a + x, b, registry);
  }

  lemma {:induction false} OwnOfOne(l: Line, registry: Registry)
    ensures OwnLines([l], registry) == if Own(l, registry) then [l] else []
  {
    assert [l][..0] == [];
  }

  lemma DescriptionIsNotOwn(registry: Registry, k: nat)
    requires k < |registry|
    ensures !Own(Note(registry[k].description, true), registry)
  {
  }

  /** Above the recorded default the pass only takes or adds lines that are not the user's own. */
  lemma {:induction false} OwnInFront(run: Doc, registry: Registry, k: nat)
    requires k < |registry|
    ensures OwnLines(Fronted(run, registry[k]), registry) == OwnLines(Before(run), registry)
  {
    var before, wanted := Before(run), Note(registry[k].description, true);
    DescriptionIsNotOwn(registry, k);
    OwnOfOne(wanted, registry);
    OwnInParts(before, [wanted], registry);
    if Replaceable(before) {
      OwnInParts(before[..|before| - 1], [wanted], registry);
    }
  }

  lemma {:induction false} OwnAround(front: Doc, mark: Line, behind: Doc, registry: Registry)
    requires mark.Recorded?
    ensures OwnLines(front + [mark] + behind, registry) == OwnLines(front, registry) + OwnLines(behind, registry)
  {
    OwnOfOne(mark, registry);
    OwnOfThree(front, [mark], behind, registry);
  }

  lemma {:induction false} RunParts(run: Doc)
    ensures var r := RecordedDefault(run);
            if r.Some? then run == Before(run) + [run[r.value.at]] + Behind(run)
            else run == Before(run) && Behind(run) == []
  {
  }

  lemma {:induction false} OwnInRun(run: Doc, registry: Registry, k: nat)
    requires k < |registry|
    ensures OwnLines(SyncedAbove(run, registry[k]), registry) == OwnLines(run, registry)
  {
    var item, r := registry[k], RecordedDefault(run);
    CommentsKept(run, item);
    OwnInFront(run, registry, k);
    OwnAround(Fronted(run, item), Recorded(Some(Recording(run, item.default))), Behind(run), registry);
    RunParts(run);
    if r.Some? {
      OwnAround(Before(run), run[r.value.at], Behind(run), registry);
    }
  }

  lemma {:induction false} OwnInStanza(registry: Registry, k: nat, depth: nat, value: Value, run: Doc)
    requires k < |registry|
    ensures OwnLines(Stanza(registry[k].key, depth, value, run), registry) == OwnLines(run, registry)
  {
    var e := Entry(registry[k].key, value, depth, true);
    OwnInParts(run, [e], registry);
    OwnOfOne(e, registry);
  }

  lemma {:induction false} OwnInComments(registry: Registry, k: nat, value: Value)
    requires k < |registry|
    ensures OwnLines(Describe(registry[k]) + [Recorded(Some(value))], registry) == []
  {
    var item := registry[k];
    OwnOfOne(Recorded(Some(value)), registry);
    OwnOfOne(Note(item.description, true), registry);
    DescriptionIsNotOwn(registry, k);
    OwnInParts(Describe(item), [Recorded(Some(value))], registry);
  }

  lemma {:induction false} OwnWithGap(a: Doc, gap: Doc, registry: Registry)
    requires gap == [] || gap == [Blank]
    ensures OwnLines(a + gap, registry) == OwnLines(a, registry)
  {
    OwnOfOne(Blank, registry);
    OwnInParts(a, gap, registry);
  }

  lemma {:induction false} OwnAmongGaps(a: Doc, gap: Doc, x: Doc, tail: Doc, d: Doc, registry: Registry)
    requires (gap == [] || gap == [Blank]) && (tail == [] || tail == [Blank])
    ensures OwnLines((a + gap) + (x + tail) + d, registry)
            == OwnLines(a, registry) + OwnLines(x, registry) + OwnLines(d, registry)
  {
    OwnWithGap(a, gap, registry);
    OwnWithGap(x, tail, registry);
    OwnOfThree(a + gap, x + tail, d, registry);
  }

  lemma {:induction false} OwnAfterEntry(doc: Doc, registry: Registry, k: nat, value: Value)
    requires k < |registry|
    ensures var item := registry[k];
            OwnLines(WithEntry(doc, item.key, value, Describe(item) + [Recorded(Some(value))]), registry)
              == OwnLines(doc, registry)
  {
    var item := registry[k];
    var comments := Describe(item) + [Recorded(Some(value))];
    var a, gap, tail, d := InsertParts(doc, item.key, value, comments);
    var x := Stanza(item.key, 1, value, comments);
    OwnInComments(registry, k, value);
    OwnInStanza(registry, k, 1, value, comments);
    OwnAmongGaps(a, gap, x, tail, d, registry);
    OwnInParts(a, d, registry);
  }

  lemma {:induction false} OwnAfterOne(doc: Doc, registry: Registry, k: nat)
    requires k < |registry|
    ensures OwnLines(SyncOne(doc, registry[k]), registry) == OwnLines(doc, registry)
  {
    var item := registry[k];
    var v := ViewOf(doc, item.key);
    if !Writable(item.default) {
    } else if v.Absent? {
      OwnAfterEntry(doc, registry, k, item.default);
    } else if v.Single? {
      var value := if Moves(v.setting, Known(v.above), item.default) then item.default else v.setting;
      var above := SyncedAbove(v.above, item);
      var c, d := SyncedParts(doc, item);
      OwnInRun(v.above, registry, k);
      OwnInStanza(registry, k, v.depth, v.setting, v.above);
      OwnInStanza(registry, k, v.depth, value, above);
      OwnOfThree(c, Stanza(item.key, v.depth, v.setting, v.above), d, registry);
      OwnOfThree(c, Stanza(item.key, v.depth, value, above), d, registry);
    }
  }

  /** For an editable entry the pass rewrites its stanza in place: not a line before or after it changes. */
  lemma SyncedParts(doc: Doc, item: Item) returns (c: Doc, d: Doc)
    requires ViewOf(doc, item.key).Single? && Writable(item.default)
    ensures var v := ViewOf(doc, item.key);
            var value := if Moves(v.setting, Known(v.above), item.default) then item.default else v.setting;
            && doc == c + Stanza(item.key, v.depth, v.setting, v.above) + d
            && SyncOne(doc, item) == c + Stanza(item.key, v.depth, value, SyncedAbove(v.above, item)) + d
  {
    var v := ViewOf(doc, item.key);
    var value := if Moves(v.setting, Known(v.above), item.default) then item.default else v.setting;
    SameValueStays(doc, item.key);
    c, d := BothParts(doc, item.key, value, SyncedAbove(v.above, item));
  }

  lemma {:induction false} SameValueStays(doc: Doc, key: Key)
    requires ViewOf(doc, key).Single?
    ensures WithValue(doc, key, ViewOf(doc, key).setting) == doc
  {
    Located(doc, key);
  }

  /** The user's own lines come through a pass unchanged and in the same order. */
  lemma {:induction false} OwnLinesKept(doc: Doc, registry: Registry, n: nat)
    requires n <= |registry|
    ensures OwnLines(Sync(doc, registry[..n]), registry) == OwnLines(doc, registry)
    decreases n
  {
    if n > 0 {
      OwnLinesKept(doc, registry, n - 1);
      SyncOneMore(doc, registry, n - 1);
      OwnAfterOne(Sync(doc, registry[..n - 1]), registry, n - 1);
    }
  }

  // ----- upgrades: boots with changing registries, and edits of other settings in between -----

  /**
   * What matters of one setting: its value and the default recorded with it. Stuck is an entry the editor cannot
   * change.
   */
  datatype Track = Missing | Held(value: Value, known: Option<Value>) | Stuck

  function TrackOf(v: View): Track {
    match v
    case Absent => Missing
    case Single(_, value, above) => Held(value, Known(above))
    case _ => Stuck
  }

  /** One boot that registers the setting with this default. */
  function Booted(t: Track, default: Value): Track {
    match t
    case Missing => Held(default, Some(default))
    case Held(value, known) =>
      Held(if Moves(value, known, default) then default else value,
           Some(if known.Some? && Equal(known.value, default) then known.value else default))
    case Stuck => Stuck
  }

  function AfterBoots(t: Track, defaults: seq<Value>): Track {
    if defaults == [] then t else Booted(AfterBoots(t, defaults[..|defaults| - 1]), defaults[|defaults| - 1])
  }

  /** The defaults the boots that register this setting have for it, in order. */
  function Defaults(boots: seq<Registry>, key: Key): seq<Value> {
    if boots == [] then []
    else
      var item := ItemFor(boots[|boots| - 1], key);
      Defaults(boots[..|boots| - 1], key)
        + if item.Some? && Writable(item.value.default) then [item.value.default] else []
  }

  /** The file before each boot; between boots anything may change but this setting's value and recorded default. */
  ghost predicate LeftAlone(files: seq<Doc>, boots: seq<Registry>, key: Key) {
    |files| == |boots| && forall j: nat :: j < |boots| ==> LeftAloneAt(files, boots, key, j)
  }

  ghost predicate LeftAloneAt(files: seq<Doc>, boots: seq<Registry>, key: Key, j: nat)
    requires j < |files| == |boots|
  {
    && DistinctKeys(boots[j])
    && (j > 0 ==> TrackOf(ViewOf(files[j], key)) == TrackOf(ViewOf(Sync(files[j - 1], boots[j - 1]), key)))
  }

  lemma {:induction false} OneBoot(t: Track, default: Value)
    ensures AfterBoots(t, [default]) == Booted(t, default) && AfterBoots(t, []) == t
  {
    assert [default][..0] == [];
  }

  lemma {:induction false} DefaultsOfOne(registry: Registry, key: Key)
    ensures var item := ItemFor(registry, key);
            Defaults([registry], key) == if item.Some? && Writable(item.value.default) then [item.value.default] else []
  {
    assert [registry][..0] == [];
  }

  lemma {:induction false} TrackSynced(v: View, item: Item)
    requires Writable(item.default)
    ensures TrackOf(SyncedView(v, item)) == Booted(TrackOf(v), item.default)
  {
    match v
    case Absent => RecordedIs(Describe(item) + [Recorded(Some(item.default))], |Describe(item)|);
    case Single(_, _, run) => SyncedAboveRecords(run, item);
    case _ =>
  }

  lemma {:induction false} SyncTracks(doc: Doc, registry: Registry, key: Key)
    requires DistinctKeys(registry)
    ensures TrackOf(ViewOf(Sync(doc, registry), key))
            == AfterBoots(TrackOf(ViewOf(doc, key)), Defaults([registry], key))
  {
    SyncView(doc, registry, key);
    DefaultsOfOne(registry, key);
    var item, v := ItemFor(registry, key), ViewOf(doc, key);
    if item.Some? && Writable(item.value.default) {
      TrackSynced(v, item.value);
      OneBoot(TrackOf(v), item.value.default);
    }
  }

  lemma {:induction false} BootsInParts(t: Track, a: seq<Value>, b: seq<Value>)
    ensures AfterBoots(t, a + b) == AfterBoots(AfterBoots(t, a), b)
  {
    if b == [] {
      assert a + b == a;
    } else {
      BootsInParts(t, a, b[..|b| - 1]);
      assert (a + b)[..|a + b| - 1] == a + b[..|b| - 1];
    }
  }

  lemma {:induction false} DefaultsOneMore(boots: seq<Registry>, key: Key, n: nat)
    requires n < |boots|
    ensures Defaults(boots[..n + 1], key) == Defaults(boots[..n], key) + Defaults([boots[n]], key)
  {
    assert [boots[n]][..0] == [] && boots[..n + 1][..n] == boots[..n];
  }

  /** Over any run of boots a setting depends only on where it started and on the defaults it was registered with. */
  lemma {:induction false} RunTracks(files: seq<Doc>, boots: seq<Registry>, key: Key, n: nat)
    requires n < |boots| && LeftAlone(files, boots, key)
    ensures TrackOf(ViewOf(Sync(files[n], boots[n]), key))
            == AfterBoots(TrackOf(ViewOf(files[0], key)), Defaults(boots[..n + 1], key))
  {
    assert LeftAloneAt(files, boots, key, n);
    SyncTracks(files[n], boots[n], key);
    DefaultsOneMore(boots, key, n);
    if n > 0 {
      RunTracks(files, boots, key, n - 1);
    } else {
      assert boots[..0] == [];
    }
    BootsInParts(TrackOf(ViewOf(files[0], key)), Defaults(boots[..n], key), Defaults([boots[n]], key));
  }

  /** The default recorded when boot j comes. */
  function RecordedAt(known: Option<Value>, defaults: seq<Value>, j: nat): Option<Value>
    requires j <= |defaults|
  {
    if j == 0 then known else Some(defaults[j - 1])
  }

  /** Boot j finds the value equal to the default then recorded, and comes with one that is not. */
  ghost predicate MovedAt(value: Value, known: Option<Value>, defaults: seq<Value>, j: nat) {
    && j < |defaults|
    && var recorded := RecordedAt(known, defaults, j);
       recorded.Some? && Equal(value, recorded.value) && !Equal(recorded.value, defaults[j])
  }

  ghost predicate EverMoved(value: Value, known: Option<Value>, defaults: seq<Value>) {
    exists j: nat :: MovedAt(value, known, defaults, j)
  }

  lemma {:induction false} RecordsEqual(value: Value, a: Value, b: Value, default: Value)
    requires Equal(a, b)
    ensures Moves(value, Some(a), default) == Moves(value, Some(b), default)
    ensures Equal(a, default) == Equal(b, default)
  {
    EqualIsEquivalence(a, b, default);
    EqualIsEquivalence(b, a, default);
    EqualIsEquivalence(value, a, b);
    EqualIsEquivalence(value, b, a);
  }

  lemma {:induction false} RecordFollows(value: Value, known: Option<Value>, defaults: seq<Value>)
    requires defaults != []
    ensures var t := AfterBoots(Held(value, known), defaults);
            t.Held? && t.known.Some? && Equal(t.known.value, defaults[|defaults| - 1])
  {
    var d := defaults[|defaults| - 1];
    EqualIsEquivalence(d, d, d);
    if |defaults| > 1 {
      RecordFollows(value, known, defaults[..|defaults| - 1]);
    }
  }

  /**
   * The fate of a value over upgrades: it is kept exactly until the first boot at which it equals the recorded default
   * while the new default does not; from then on the setting follows the shipped default.
   */
  lemma {:induction false} FateOfAValue(value: Value, known: Option<Value>, defaults: seq<Value>)
    ensures var t := AfterBoots(Held(value, known), defaults);
            && t.Held?
            && (!EverMoved(value, known, defaults) ==> t.value == value)
            && (EverMoved(value, known, defaults) ==> Equal(t.value, defaults[|defaults| - 1]))
  {
    if defaults != [] {
      var front, n := defaults[..|defaults| - 1], |defaults| - 1;
      var d := defaults[n];
      FateOfAValue(value, known, front);
      var t := AfterBoots(Held(value, known), front);
      if front != [] {
        RecordFollows(value, known, front);
        RecordsEqual(t.value, t.known.value, front[n - 1], d);
      }
      assert forall j: nat :: j < n ==> MovedAt(value, known, front, j) == MovedAt(value, known, defaults, j);
      if EverMoved(value, known, front) {
        var j: nat :| MovedAt(value, known, front, j);
        assert MovedAt(value, known, defaults, j);
        EqualIsEquivalence(t.value, front[n - 1], d);
        EqualIsEquivalence(t.value, t.known.value, d);
        EqualIsEquivalence(front[n - 1], t.known.value, d);
        EqualIsEquivalence(t.known.value, front[n - 1], t.value);
        EqualIsEquivalence(front[n - 1], t.value, t.value);
        EqualIsEquivalence(d, d, d);
      } else if MovedAt(value, known, defaults, n) {
        EqualIsEquivalence(d, d, d);
      }
    }
  }

  /** The first boot that moves a value really changes it: the new one is not equal to it. */
  lemma {:induction false} FirstMoveChanges(value: Value, known: Option<Value>, defaults: seq<Value>, j: nat)
    requires MovedAt(value, known, defaults, j) && forall i: nat :: i < j ==> !MovedAt(value, known, defaults, i)
    ensures var t := AfterBoots(Held(value, known), defaults[..j]); t.Held? && t.value == value
    ensures var t := AfterBoots(Held(value, known), defaults[..j + 1]);
            t.Held? && t.value == defaults[j] && !Equal(value, defaults[j])
  {
    var front := defaults[..j];
    assert defaults[..j + 1][..j] == front;
    assert forall i: nat :: i < j ==> MovedAt(value, known, front, i) == MovedAt(value, known, defaults, i);
    FateOfAValue(value, known, front);
    if j > 0 {
      RecordFollows(value, known, front);
      RecordsEqual(value, AfterBoots(Held(value, known), front).known.value, front[j - 1], defaults[j]);
    }
    var r := RecordedAt(known, defaults, j).value;
    EqualIsEquivalence(value, r, r);
    EqualIsEquivalence(r, value, defaults[j]);
  }

  /** A setting the user never edited equals the shipped default after every boot that registers it. */
  lemma {:induction false} UneditedFollowsTheDefault(files: seq<Doc>, boots: seq<Registry>, key: Key, item: Item)
    requires boots != [] && LeftAlone(files, boots, key) && ViewOf(files[0], key) == Absent
    requires ItemFor(boots[|boots| - 1], key) == Some(item) && Writable(item.default)
    ensures var v := ValueOf(Sync(files[|files| - 1], boots[|boots| - 1]), key);
            v.Some? && Equal(v.value, item.default)
  {
    var n := |boots| - 1;
    RunTracks(files, boots, key, n);
    assert boots[..|boots|] == boots;
    MissingFollows(Defaults(boots, key));
    TrackGivesValue(Sync(files[n], boots[n]), key);
  }

  /** A setting that starts out missing and is registered at least once ends up equal to the last default. */
  lemma {:induction false} MissingFollows(defaults: seq<Value>)
    requires defaults != []
    ensures var t := AfterBoots(Missing, defaults);
            t.Held? && Equal(t.value, defaults[|defaults| - 1])
  {
    StartsAsHeld(defaults);
    var d := defaults[0];
    EqualIsEquivalence(d, d, d);
    FateOfAValue(d, Some(d), defaults[1..]);
    if !EverMoved(d, Some(d), defaults[1..]) {
      NeverMovedMeansEqual(d, defaults);
    }
  }

  lemma {:induction false} StartsAsHeld(defaults: seq<Value>)
    requires defaults != []
    ensures AfterBoots(Missing, defaults) == AfterBoots(Held(defaults[0], Some(defaults[0])), defaults[1..])
  {
    if |defaults| > 1 {
      StartsAsHeld(defaults[..|defaults| - 1]);
      assert defaults[..|defaults| - 1][1..] == defaults[1..][..|defaults| - 2];
    } else {
      assert defaults[..0] == [];
    }
  }

  lemma {:induction false} NeverMovedMeansEqual(d: Value, defaults: seq<Value>)
    requires defaults != [] && Equal(d, defaults[0]) && d == defaults[0] && !EverMoved(d, Some(d), defaults[1..])
    ensures Equal(d, defaults[|defaults| - 1])
  {
    var n := |defaults| - 1;
    if n > 0 {
      assert forall j: nat :: MovedAt(d, Some(d), defaults[..n][1..], j) ==> MovedAt(d, Some(d), defaults[1..], j);
      NeverMovedMeansEqual(d, defaults[..n]);
      assert !MovedAt(d, Some(d), defaults[1..], n - 1);
      EqualIsEquivalence(d, defaults[n - 1], defaults[n]);
    }
  }

  lemma {:induction false} TrackGivesValue(doc: Doc, key: Key)
    requires TrackOf(ViewOf(doc, key)).Held?
    ensures ValueOf(doc, key) == Some(TrackOf(ViewOf(doc, key)).value)
  {
  }

  /** A value the user chose is kept through a run of boots if no boot finds it equal to the default then recorded. */
  lemma {:induction false} UserValueSurvives(files: seq<Doc>, boots: seq<Registry>, key: Key)
    requires boots != [] && LeftAlone(files, boots, key) && ViewOf(files[0], key).Single?
    ensures var v := ViewOf(files[0], key);
            var defaults := Defaults(boots, key);
            var after := ValueOf(Sync(files[|files| - 1], boots[|boots| - 1]), key);
            && after.Some?
            && (!EverMoved(v.setting, Known(v.above), defaults) ==> after.value == v.setting)
            && (EverMoved(v.setting, Known(v.above), defaults) ==> Equal(after.value, defaults[|defaults| - 1]))
  {
    var n, v := |boots| - 1, ViewOf(files[0], key);
    RunTracks(files, boots, key, n);
    assert boots[..|boots|] == boots;
    FateOfAValue(v.setting, Known(v.above), Defaults(boots, key));
    TrackGivesValue(Sync(files[n], boots[n]), key);
  }

  /**
   * An upgrade never overwrites a choice: a value equal neither to the default recorded at first nor to any default the
   * boots register, the last one aside, is the very same at the end.
   */
  lemma {:induction false} ChoiceSurvives(files: seq<Doc>, boots: seq<Registry>, key: Key)
    requires boots != [] && LeftAlone(files, boots, key) && ViewOf(files[0], key).Single?
    requires var v := ViewOf(files[0], key);
             && (Known(v.above).Some? ==> !Equal(v.setting, Known(v.above).value))
             && forall j :: 0 <= j < |Defaults(boots, key)| - 1 ==> !Equal(v.setting, Defaults(boots, key)[j])
    ensures ValueOf(Sync(files[|files| - 1], boots[|boots| - 1]), key) == ValueOf(files[0], key)
  {
    UserValueSurvives(files, boots, key);
    var v, defaults := ViewOf(files[0], key), Defaults(boots, key);
    forall j: nat
      ensures !MovedAt(v.setting, Known(v.above), defaults, j)
    {
      if 0 < j < |defaults| {
        assert !Equal(v.setting, defaults[j - 1]);
      }
    }
  }
}
