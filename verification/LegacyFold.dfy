/** The old JSON settings file folded into the settings file, by several processes that may stop anywhere. */
module LegacyFold {
  import opened BootPass
  import opened BootRuns
  import opened SettingsDocument
  import opened SettingsFile
  import opened SettingValues
  import opened Wrappers

  datatype Old = Old(key: Key, value: Value)

  /** The old file: gone, not readable as JSON, of zero bytes, or with these overrides. */
  datatype Legacy = Gone | Unparsed | ZeroBytes | Holds(overrides: seq<Old>)

  const OLD_THROTTLE_KEY: Key := "throttle.background_min_idle_seconds"
  const OLD_THROTTLE_DEFAULT: Value := Flt(Fin(300.0))
  const NEW_LULL_KEY: Key := "chat.idle_lull_seconds"

  predicate Retired(key: Key) {
    key == OLD_THROTTLE_KEY || key == "chat.pass2_min_idle_seconds"
    || key == "self_model.articulate_min_idle_seconds" || key == "judge_selftune.gate_handful_decisions"
  }

  function OldFor(items: seq<Old>, key: Key): (value: Option<Value>)
    ensures value.None? <==> forall k :: 0 <= k < |items| ==> items[k].key != key
  {
    if items == [] then None
    else if items[|items| - 1].key == key then Some(items[|items| - 1].value)
    else OldFor(items[..|items| - 1], key)
  }

  function Filter(items: seq<Old>, keep: Old -> bool): (kept: seq<Old>)
    ensures |kept| <= |items|
  {
    if items == [] then []
    else Filter(items[..|items| - 1], keep) + if keep(items[|items| - 1]) then [items[|items| - 1]] else []
  }

  function AsFloat(v: Value): Value
    requires v.Int? || v.Flt?
  {
    if v.Int? then Flt(Fin(v.n as real)) else v
  }

  /** A throttle value that counts as customised: a number, and not the old default. */
  predicate Customised(v: Value) {
    (v.Int? || v.Flt?) && !Equal(v, OLD_THROTTLE_DEFAULT)
  }

  function AfterRetirements(overrides: seq<Old>): seq<Old> {
    var throttle := OldFor(overrides, OLD_THROTTLE_KEY);
    Filter(overrides, (o: Old) => !Retired(o.key))
    + if OldFor(overrides, NEW_LULL_KEY).None? && throttle.Some? && Customised(throttle.value)
      then [Old(NEW_LULL_KEY, AsFloat(throttle.value))] else []
  }

  predicate NonFinite(v: Value)
    decreases v
  {
    match v
    case Flt(f) => f.NaN? || f.PosInf? || f.NegInf?
    case List(items) => exists i :: 0 <= i < |items| && NonFinite(items[i])
    case _ => false
  }

  predicate CannotHold(v: Value) {
    v.Other? || NonFinite(v) || !Writable(v)
  }

  function Carried(overrides: seq<Old>): seq<Old> {
    Filter(AfterRetirements(overrides), (o: Old) => !CannotHold(o.value))
  }

  /** The carried values of keys this process registers. */
  function Placeable(overrides: seq<Old>, registry: Registry): seq<Old> {
    Filter(Carried(overrides), (o: Old) => ItemFor(registry, o.key).Some?)
  }

  function Updates(items: seq<Old>): (updates: seq<Update>)
    ensures |updates| == |items|
    ensures forall k :: 0 <= k < |items| ==> updates[k] == Update(items[k].key, Some(items[k].value))
  {
    seq(|items|, k requires 0 <= k < |items| => Update(items[k].key, Some(items[k].value)))
  }

  /** What one call of the fold meets: the boot pass, the writer, and whether the rename works. */
  datatype FoldMeets = FoldMeets(sync: Meets, write: Meets, rename: bool)

  function AfterFold(file: File, legacy: Legacy, registry: Registry, complete: bool, meets: FoldMeets): (File, Legacy) {
    if legacy.Gone? then (file, legacy)
    else
      var synced := AfterSync(file, registry, meets.sync);
      var archived := if meets.rename then Gone else legacy;
      match legacy
      case ZeroBytes => (synced, archived)
      case Holds(overrides) =>
        var known := Placeable(overrides, registry);
        if known != Carried(overrides) && !complete then (synced, legacy)
        else if known == [] then (synced, archived)
        else
          var (after, outcome) := AfterSet(synced, registry, Updates(known), true, meets.write);
          (after, if outcome.Failed? then legacy else archived)
      case _ => (synced, legacy)
  }

  class Home {
    var legacy: Legacy
    const settings: SettingsStore

    constructor (legacy: Legacy, settings: SettingsStore)
      ensures this.legacy == legacy && this.settings == settings
    {
      this.legacy, this.settings := legacy, settings;
    }

    method Archive(rename: bool)
      modifies this
      ensures legacy == if rename then Gone else old(legacy)
    {
      if rename {
        legacy := Gone;
      }
    }

    method MigrateLegacyJson(registry: Registry, complete: bool, meets: FoldMeets)
      modifies this, settings
      ensures (settings.file, legacy) == AfterFold(old(settings.file), old(legacy), registry, complete, meets)
    {
      if legacy.Gone? {
        return;
      }
      settings.SyncFile(registry, meets.sync);
      if legacy.ZeroBytes? {
        Archive(meets.rename);
        return;
      }
      if legacy.Unparsed? {
        return;
      }
      var carried := Carried(legacy.overrides);
      var known := Placeable(legacy.overrides, registry);
      if known != carried && !complete {
        return;
      }
      if known != [] {
        var outcome := settings.SetValues(registry, Updates(known), true, meets.write);
        if outcome.Failed? {
          return;
        }
      }
      Archive(meets.rename);
    }
  }

  // ----- what is carried -----

  ghost predicate DistinctOld(items: seq<Old>) {
    forall i, j :: 0 <= i < j < |items| ==> items[i].key != items[j].key
  }

  lemma {:induction false} FilterKeeps(items: seq<Old>, keep: Old -> bool)
    ensures forall o :: o in Filter(items, keep) <==> o in items && keep(o)
    ensures DistinctOld(items) ==> DistinctOld(Filter(items, keep))
  {
    if items != [] {
      var front := items[..|items| - 1];
      FilterKeeps(front, keep);
      assert items == front + [items[|items| - 1]];
      var kept := Filter(front, keep);
      forall i | 0 <= i < |kept|
        ensures kept[i] in front
      {
        assert kept[i] in kept;
      }
    }
  }

  lemma {:induction false} OldForIn(items: seq<Old>, key: Key, value: Value)
    requires DistinctOld(items)
    ensures OldFor(items, key) == Some(value) <==> Old(key, value) in items
  {
    if items != [] {
      OldForIn(items[..|items| - 1], key, value);
      assert items == items[..|items| - 1] + [items[|items| - 1]];
    }
  }

  lemma CarriedIsDistinct(overrides: seq<Old>)
    requires DistinctOld(overrides)
    ensures DistinctOld(AfterRetirements(overrides)) && DistinctOld(Carried(overrides))
  {
    FilterKeeps(overrides, (o: Old) => !Retired(o.key));
    var live := Filter(overrides, (o: Old) => !Retired(o.key));
    assert forall k :: 0 <= k < |live| ==> live[k] in overrides;
    FilterKeeps(AfterRetirements(overrides), (o: Old) => !CannotHold(o.value));
  }

  /** A value the new file can hold: text, truth values, whole and finite numbers, and lists of such. */
  ghost predicate Holdable(v: Value)
    decreases v
  {
    match v
    case Flt(f) => f.Fin? || f.NegZero?
    case List(items) => forall i :: 0 <= i < |items| ==> Holdable(items[i])
    case Other(_) => false
    case _ => true
  }

  lemma {:induction false} HoldableMeans(v: Value)
    ensures Holdable(v) <==> !CannotHold(v)
    ensures Holdable(v) <==> Writable(v) && !NonFinite(v)
    decreases v
  {
    if v.List? {
      forall i | 0 <= i < |v.items|
        ensures Holdable(v.items[i]) <==> Writable(v.items[i]) && !NonFinite(v.items[i])
      {
        HoldableMeans(v.items[i]);
      }
    }
  }

  /** The keys whose values are never carried under their own name. */
  const GONE_KEYS: set<Key> := {
    "throttle.background_min_idle_seconds", "chat.pass2_min_idle_seconds", "self_model.articulate_min_idle_seconds",
    "judge_selftune.gate_handful_decisions" }

  /**
   * What is carried: every live setting the new file can hold, and the old throttle value under its new name exactly
   * when it is a number other than the old default of 300, the file can hold it and the new name was not set beside it.
   */
  lemma {:induction false} CarriedExactly(overrides: seq<Old>, key: Key, value: Value)
    requires DistinctOld(overrides)
    ensures Old(key, value) in Carried(overrides)
            <==> Holdable(value)
                 && if key == "chat.idle_lull_seconds" && OldFor(overrides, "chat.idle_lull_seconds").None?
                    then var throttle := OldFor(overrides, "throttle.background_min_idle_seconds");
                         && throttle.Some? && (throttle.value.Int? || throttle.value.Flt?)
                         && !Equal(throttle.value, Flt(Fin(300.0)))
                         && value
                            == if throttle.value.Int? then Flt(Fin(throttle.value.n as real)) else throttle.value
                    else key !in GONE_KEYS && Old(key, value) in overrides
  {
    LiveExactly(overrides, Old(key, value));
    FilterKeeps(AfterRetirements(overrides), (o: Old) => !CannotHold(o.value));
    HoldableMeans(value);
  }

  lemma {:induction false} LiveExactly(overrides: seq<Old>, o: Old)
    requires DistinctOld(overrides)
    ensures o in AfterRetirements(overrides)
            <==> if o.key == NEW_LULL_KEY && OldFor(overrides, NEW_LULL_KEY).None?
                 then var throttle := OldFor(overrides, OLD_THROTTLE_KEY);
                      throttle.Some? && Customised(throttle.value) && o.value == AsFloat(throttle.value)
                 else !Retired(o.key) && o in overrides
  {
    FilterKeeps(overrides, (o: Old) => !Retired(o.key));
    OldForIn(overrides, o.key, o.value);
  }

  lemma PlaceableIsAccepted(overrides: seq<Old>, registry: Registry)
    requires DistinctOld(overrides)
    ensures DistinctUpdates(Updates(Placeable(overrides, registry)))
    ensures Accepted(Updates(Placeable(overrides, registry)), registry)
  {
    CarriedIsDistinct(overrides);
    FilterKeeps(Carried(overrides), (o: Old) => ItemFor(registry, o.key).Some?);
    FilterKeeps(AfterRetirements(overrides), (o: Old) => !CannotHold(o.value));
    var known := Placeable(overrides, registry);
    forall k | 0 <= k < |known|
      ensures Refused(Updates(known)[k], registry).None?
    {
      assert known[k] in Carried(overrides);
    }
  }

  // ----- one setting through the fold -----

  /** The value the old file holds for a setting this process registers. */
  function TargetFor(overrides: seq<Old>, registry: Registry, key: Key): Option<Value> {
    OldFor(Placeable(overrides, registry), key)
  }

  function SyncV(v: View, item: Option<Item>): View {
    if item.Some? then SyncedView(v, item.value) else v
  }

  predicate Applies(v: View, item: Option<Item>, target: Option<Value>) {
    target.Some? && Puts(if v.Absent? then None else Some(v.setting), item, target.value, true)
  }

  function PutV(v: View, item: Option<Item>, target: Option<Value>): View {
    if Applies(v, item, target) then PutView(v, target.value, item) else v
  }

  /** One setting after a fold that went through. */
  function FoldV(v: View, item: Option<Item>, target: Option<Value>): View {
    PutV(SyncV(v, item), item, target)
  }

  ghost predicate Synced(v: View, item: Option<Item>) {
    SyncV(v, item) == v
  }

  lemma SyncVTwice(v: View, item: Option<Item>)
    ensures Synced(SyncV(v, item), item)
  {
    if item.Some? {
      SyncedViewTwice(v, item.value);
    }
  }

  lemma EntryCommentsSettled(item: Item)
    ensures Known(EntryComments(Some(item))) == Some(item.default)
    ensures SyncedAbove(EntryComments(Some(item)), item) == EntryComments(Some(item))
  {
    EqualIsEquivalence(item.default, item.default, item.default);
    var run := EntryComments(Some(item));
    RecordedIs(run, |run| - 1);
    assert item.description != "" ==> run[0] == Note(item.description, true);
  }

  /** The default the file records for a synced setting is the registered one, whatever its value. */
  lemma SyncedRecords(v: View, item: Item)
    requires Synced(v, Some(item)) && v.Single? && Writable(item.default)
    ensures Known(v.above).Some? && Equal(Known(v.above).value, item.default)
  {
    SyncedAboveRecords(v.above, item);
    EqualIsEquivalence(item.default, item.default, item.default);
  }

  /** Writing a synced setting leaves it synced: the next boot does not take the value back. */
  lemma PutStaysSynced(v: View, item: Option<Item>, target: Option<Value>)
    requires Synced(v, item) && (target.Some? ==> item.Some?) && (Applies(v, item, target) ==> Editable(v, item))
    ensures Synced(PutV(v, item, target), item)
  {
    if Applies(v, item, target) && Writable(item.value.default) && v.Single? {
      SyncedRecords(v, item.value);
    }
  }

  /** A fold that stopped after the boot pass changes nothing about the outcome of the next. */
  lemma FoldAfterSync(v: View, item: Option<Item>, target: Option<Value>)
    ensures FoldV(SyncV(v, item), item, target) == FoldV(v, item, target)
  {
    SyncVTwice(v, item);
  }

  /** Nor does one that wrote and then stopped, even one whose boot pass was skipped. */
  lemma FoldAfterPut(v: View, item: Option<Item>, target: Option<Value>)
    requires (target.Some? ==> item.Some?) && (Applies(v, item, target) ==> Editable(v, item))
    ensures FoldV(PutV(v, item, target), item, target) == FoldV(v, item, target)
  {
    if Applies(v, item, target) && Writable(item.value.default) {
      var default := item.value.default;
      EqualIsEquivalence(default, default, default);
      if v.Single? {
        PutThenMoves(v.setting, target.value, Known(v.above), default);
      } else {
        EntryCommentsSettled(item.value);
      }
    }
  }

  /** A value equal to the default that the guard lets be overwritten is one the boot pass leaves alone. */
  lemma {:induction false} PutThenMoves(current: Value, target: Value, known: Option<Value>, default: Value)
    requires Equal(current, default)
    ensures !Moves(current, known, default)
    ensures Moves(target, known, default) ==> !Equal(target, default)
  {
    if known.Some? {
      EqualIsEquivalence(known.value, current, default);
      EqualIsEquivalence(current, known.value, default);
      EqualIsEquivalence(target, known.value, default);
      EqualIsEquivalence(known.value, target, default);
    }
  }

  // ----- folds by any number of processes, stopped anywhere -----

  /** A process that registers only some of the settings registers them as every other does. */
  ghost predicate PartOf(part: Registry, whole: Registry) {
    DistinctKeys(part) && forall key :: ItemFor(part, key).Some? ==> ItemFor(whole, key) == ItemFor(part, key)
  }

  /**
   * The two places where a fold touches the settings file, each under the file's lock, and what its process registers.
   */
  datatype Step = Boot(registry: Registry, meets: Meets) | Write(registry: Registry, meets: Meets)

  /** The steps a process makes: one that cannot place everything carried writes only if it registers all settings. */
  ghost predicate Allowed(step: Step, overrides: seq<Old>, whole: Registry) {
    && PartOf(step.registry, whole)
    && (step.Write? ==> step.registry == whole || Placeable(overrides, step.registry) == Carried(overrides))
  }

  ghost predicate AllAllowed(steps: seq<Step>, overrides: seq<Old>, whole: Registry) {
    forall k :: 0 <= k < |steps| ==> Allowed(steps[k], overrides, whole)
  }

  function Stepped(file: File, step: Step, overrides: seq<Old>): File {
    match step
    case Boot(registry, meets) => AfterSync(file, registry, meets)
    case Write(registry, meets) => AfterSet(file, registry, Updates(Placeable(overrides, registry)), true, meets).0
  }

  function AfterSteps(file: File, steps: seq<Step>, overrides: seq<Old>): File {
    if steps == [] then file
    else Stepped(AfterSteps(file, steps[..|steps| - 1], overrides), steps[|steps| - 1], overrides)
  }

  /** What the file says about a setting; one that is not there says nothing. */
  function Raw(file: File, key: Key): View {
    if file.Text? then ViewOf(file.doc, key) else Absent
  }

  lemma {:induction false} HeaderSaysNothing(key: Key)
    ensures ViewOf(HEADER, key) == Absent
    ensures Values(HEADER) == map[]
  {
    assert HEADER[..0] == [];
    assert Keys(HEADER) == {};
  }

  /** The boot pass always writes what it computes: its check of the result cannot fail. */
  lemma {:induction false} BootWrites(file: File, registry: Registry, meets: Meets)
    ensures AfterSync(file, registry, meets)
            == if !meets.lock || !meets.io || file.Unreadable? || (!file.Text? && registry == []) then file
               else Text(Sync(if file.Text? then file.doc else HEADER, registry))
  {
    HeaderSaysNothing("");
    if file.Text? {
      SyncReadsBack(file.doc, registry);
    } else if !file.Unreadable? {
      SyncReadsBack(HEADER, registry);
      assert map[] + Intends(HEADER, registry) == Intends(HEADER, registry);
    }
  }

  predicate Lucky(meets: Meets) {
    meets.lock && meets.io
  }

  lemma {:induction false} BootRaw(file: File, registry: Registry, meets: Meets, key: Key)
    requires DistinctKeys(registry) && !file.Unreadable?
    ensures var after := AfterSync(file, registry, meets);
            && !after.Unreadable?
            && Raw(after, key)
               == (if Lucky(meets) then SyncV(Raw(file, key), ItemFor(registry, key)) else Raw(file, key))
            && (Lucky(meets) && registry != [] ==> after.Text?)
  {
    BootWrites(file, registry, meets);
    HeaderSaysNothing(key);
    SyncView(if file.Text? then file.doc else HEADER, registry, key);
  }

  lemma {:induction false} KnownUpdates(overrides: seq<Old>, registry: Registry, key: Key)
    requires DistinctOld(overrides)
    ensures var known := Updates(Placeable(overrides, registry));
            var target := TargetFor(overrides, registry, key);
            && UpdateFor(known, key) == (if target.Some? then Some(Update(key, target)) else None)
            && (target.Some? ==> ItemFor(registry, key).Some?)
  {
    UpdateForOld(Placeable(overrides, registry), key);
    FilterKeeps(Carried(overrides), (o: Old) => ItemFor(registry, o.key).Some?);
    CarriedIsDistinct(overrides);
    var target := TargetFor(overrides, registry, key);
    if target.Some? {
      OldForIn(Placeable(overrides, registry), key, target.value);
    }
  }

  lemma {:induction false} UpdateForOld(items: seq<Old>, key: Key)
    ensures UpdateFor(Updates(items), key) == var value := OldFor(items, key);
               if value.Some? then Some(Update(key, value)) else None
  {
    if items != [] {
      UpdateForOld(items[..|items| - 1], key);
      assert Updates(items)[..|items| - 1] == Updates(items[..|items| - 1]);
    }
  }

  // ----- one write -----

  /** What the writer sees of a setting: a file that is not there yet counts as the one it would create. */
  function Seen(file: File, registry: Registry, key: Key): View {
    ViewOf(Base(file, registry), key)
  }

  lemma {:induction false} SeenIsRaw(file: File, registry: Registry, key: Key)
    requires DistinctKeys(registry) && !file.Unreadable?
    ensures Seen(file, registry, key) == if file.Text? then Raw(file, key) else SyncV(Absent, ItemFor(registry, key))
  {
    HeaderSaysNothing(key);
    SyncView(HEADER, registry, key);
  }

  /** Can the setting be given the old value wherever it is to have it? */
  predicate Settable(v: View, item: Option<Item>, target: Option<Value>) {
    Applies(v, item, target) ==> Editable(v, item)
  }

  lemma {:induction false} WriteEdits(file: File, overrides: seq<Old>, registry: Registry, meets: Meets, key: Key)
    requires DistinctOld(overrides)
    requires AfterSet(file, registry, Updates(Placeable(overrides, registry)), true, meets).1.Wrote?
    ensures !file.Unreadable?
    ensures Settable(Seen(file, registry, key), ItemFor(registry, key), TargetFor(overrides, registry, key))
  {
    PlaceableIsAccepted(overrides, registry);
    var known := Updates(Placeable(overrides, registry));
    SetGoesThrough(file, registry, known, true, meets);
    KnownUpdates(overrides, registry, key);
    if TargetFor(overrides, registry, key).Some? {
      assert UpdateFor(known, key).value in known;
      var k :| 0 <= k < |known| && known[k] == UpdateFor(known, key).value;
      assert EditableIfPut(Base(file, registry), known[k], registry, true);
    }
  }

  /** With the disk working, the write goes through exactly when every setting to be written can be. */
  lemma {:induction false} WriteGoesThrough(file: File, overrides: seq<Old>, registry: Registry, meets: Meets)
    requires DistinctOld(overrides) && Lucky(meets) && !file.Unreadable?
    ensures AfterSet(file, registry, Updates(Placeable(overrides, registry)), true, meets).1.Wrote?
            <==> forall key :: Settable(Seen(file, registry, key), ItemFor(registry, key),
                                        TargetFor(overrides, registry, key))
  {
    PlaceableIsAccepted(overrides, registry);
    var known := Updates(Placeable(overrides, registry));
    SetGoesThrough(file, registry, known, true, meets);
    if AfterSet(file, registry, known, true, meets).1.Wrote? {
      forall key
        ensures Settable(Seen(file, registry, key), ItemFor(registry, key), TargetFor(overrides, registry, key))
      {
        WriteEdits(file, overrides, registry, meets, key);
      }
    } else {
      var k :| 0 <= k < |known| && !EditableIfPut(Base(file, registry), known[k], registry, true);
      KnownUpdates(overrides, registry, known[k].key);
      UpdateForEach(known, k);
      assert !Settable(Seen(file, registry, known[k].key), ItemFor(registry, known[k].key),
                       TargetFor(overrides, registry, known[k].key));
    }
  }

  lemma {:induction false} UpdatesSeen(file: File, known: seq<Update>, registry: Registry, meets: Meets, key: Key,
                                       target: Option<Value>)
    requires DistinctUpdates(known)
    requires UpdateFor(known, key) == if target.Some? then Some(Update(key, target)) else None
    requires AfterSet(file, registry, known, true, meets).1.Wrote?
    ensures Seen(AfterSet(file, registry, known, true, meets).0, registry, key)
            == PutV(Seen(file, registry, key), ItemFor(registry, key), target)
  {
    SetExactly(file, registry, known, true, meets, key);
  }

  lemma {:induction false} WriteSeen(file: File, overrides: seq<Old>, registry: Registry, meets: Meets, key: Key)
    requires DistinctOld(overrides)
    ensures var (after, outcome) := AfterSet(file, registry, Updates(Placeable(overrides, registry)), true, meets);
            var v, item, target := Seen(file, registry, key), ItemFor(registry, key),
              TargetFor(overrides, registry, key);
            && (outcome.Failed? ==> after == file)
            && (outcome.Wrote? ==> Seen(after, registry, key) == PutV(v, item, target) && !after.Unreadable?)
  {
    PlaceableIsAccepted(overrides, registry);
    KnownUpdates(overrides, registry, key);
    var known := Updates(Placeable(overrides, registry));
    if AfterSet(file, registry, known, true, meets).1.Wrote? {
      UpdatesSeen(file, known, registry, meets, key, TargetFor(overrides, registry, key));
    }
  }

  lemma SetTouchesText(file: File, registry: Registry, updates: seq<Update>, meets: Meets)
    ensures var after := AfterSet(file, registry, updates, true, meets).0; after == file || after.Text?
  {
  }

  lemma {:induction false} FilterAll(items: seq<Old>, keep: Old -> bool)
    requires forall o :: o in items ==> keep(o)
    ensures Filter(items, keep) == items
  {
    if items != [] {
      assert items == items[..|items| - 1] + [items[|items| - 1]];
      FilterAll(items[..|items| - 1], keep);
    }
  }

  /** A process that can place everything carried places what one with all settings does. */
  lemma SamePlaceable(overrides: seq<Old>, part: Registry, whole: Registry)
    requires PartOf(part, whole) && (part == whole || Placeable(overrides, part) == Carried(overrides))
    ensures Placeable(overrides, whole) == Placeable(overrides, part)
  {
    if part != whole {
      FilterKeeps(Carried(overrides), (o: Old) => ItemFor(part, o.key).Some?);
      forall o | o in Carried(overrides)
        ensures ItemFor(whole, o.key).Some?
      {
        assert o in Placeable(overrides, part);
      }
      FilterAll(Carried(overrides), (o: Old) => ItemFor(whole, o.key).Some?);
    }
  }

  /** One step as one setting sees it: nothing, the boot pass, the write, or a write that creates the file first. */
  predicate Moved(v: View, w: View, item: Option<Item>, target: Option<Value>) {
    || w == v
    || w == SyncV(v, item)
    || (w == PutV(v, item, target) && Settable(v, item, target))
    || (w == PutV(SyncV(v, item), item, target) && Settable(SyncV(v, item), item, target))
  }

  lemma SeenMoves(v: View, w: View, here: Option<Item>, item: Option<Item>, target: Option<Value>)
    requires here.Some? ==> here == item
    requires target.Some? ==> here.Some?
    requires w == PutV(v, here, target) && Settable(v, here, target)
    ensures w == PutV(v, item, target) && Settable(v, item, target)
  {
  }

  /** A write by any process allowed to make one, with the items of the one that registers everything. */
  lemma {:induction false} WriteRaw(file: File, overrides: seq<Old>, registry: Registry, whole: Registry, meets: Meets,
                                    key: Key)
    requires DistinctOld(overrides) && DistinctKeys(whole) && !file.Unreadable?
    requires Allowed(Write(registry, meets), overrides, whole)
    ensures var (after, outcome) := AfterSet(file, registry, Updates(Placeable(overrides, registry)), true, meets);
            var v, item, target := Raw(file, key), ItemFor(whole, key), TargetFor(overrides, whole, key);
            && !after.Unreadable?
            && Moved(v, Raw(after, key), item, target)
            && (outcome.Failed? ==> after == file)
            && (outcome.Wrote? && file.Text? ==> Raw(after, key) == PutV(v, item, target) && Settable(v, item, target))
            && (outcome.Wrote? && !file.Text? ==>
                  SyncV(Raw(after, key), item) == FoldV(v, item, target) && Settable(SyncV(v, item), item, target))
            && (outcome.Wrote? && Synced(v, item) ==>
               Raw(after, key) == PutV(v, item, target) && Settable(v, item, target))
  {
    var known := Updates(Placeable(overrides, registry));
    var (after, outcome) := AfterSet(file, registry, known, true, meets);
    var v, here, item, target := Raw(file, key), ItemFor(registry, key), ItemFor(whole, key),
      TargetFor(overrides, whole, key);
    SamePlaceable(overrides, registry, whole);
    WriteSeen(file, overrides, registry, meets, key);
    KnownUpdates(overrides, registry, key);
    SetTouchesText(file, registry, known, meets);
    SeenIsRaw(file, registry, key);
    if outcome.Wrote? {
      WriteEdits(file, overrides, registry, meets, key);
      SeenIsRaw(after, registry, key);
      SeenMoves(Seen(file, registry, key), Seen(after, registry, key), here, item, target);
      SyncVTwice(v, item);
      if !file.Text? {
        PutStaysSynced(SyncV(v, item), item, target);
      }
    }
  }

  // ----- any number of steps -----

  /**
   * An undisturbed fold will make the same of a setting as before, and can write it if it could; a finished one stays.
   */
  ghost predicate FoldKept(v: View, w: View, item: Option<Item>, target: Option<Value>) {
    && FoldV(w, item, target) == FoldV(v, item, target)
    && (Settable(SyncV(w, item), item, target) <==> Settable(SyncV(v, item), item, target))
    && (Synced(v, item) ==> Synced(w, item))
    && (v == FoldV(v, item, target) && Synced(v, item) ==> w == v)
  }

  lemma MovedKeepsFold(v: View, w: View, item: Option<Item>, target: Option<Value>)
    requires Moved(v, w, item, target) && (target.Some? ==> item.Some?)
    ensures FoldKept(v, w, item, target)
  {
    var u := SyncV(v, item);
    SyncVTwice(v, item);
    FoldAfterSync(v, item, target);
    if w == PutV(v, item, target) && Settable(v, item, target) {
      PutKeepsFold(v, item, target);
    } else if w == PutV(u, item, target) && Settable(u, item, target) {
      PutKeepsFold(u, item, target);
    }
  }

  lemma PutKeepsFold(v: View, item: Option<Item>, target: Option<Value>)
    requires Settable(v, item, target) && (target.Some? ==> item.Some?)
    ensures var w := PutV(v, item, target);
            && FoldV(w, item, target) == FoldV(v, item, target)
            && (Settable(SyncV(w, item), item, target) <==> Settable(SyncV(v, item), item, target))
            && (Synced(v, item) ==> Synced(w, item))
  {
    FoldAfterPut(v, item, target);
    if Synced(v, item) {
      PutStaysSynced(v, item, target);
    }
  }

  lemma {:induction false} StepMoves(file: File, step: Step, overrides: seq<Old>, whole: Registry, key: Key)
    requires DistinctOld(overrides) && DistinctKeys(whole) && !file.Unreadable? && Allowed(step, overrides, whole)
    ensures var after := Stepped(file, step, overrides);
            && !after.Unreadable?
            && Moved(Raw(file, key), Raw(after, key), ItemFor(whole, key), TargetFor(overrides, whole, key))
  {
    match step
    case Boot(registry, meets) => BootRaw(file, registry, meets, key);
    case Write(registry, meets) => WriteRaw(file, overrides, registry, whole, meets, key);
  }

  /** No step, lucky or not, by whatever process, changes what an undisturbed fold will make of a setting. */
  lemma {:induction false} StepKeepsFold(file: File, step: Step, overrides: seq<Old>, whole: Registry, key: Key)
    requires DistinctOld(overrides) && DistinctKeys(whole) && !file.Unreadable? && Allowed(step, overrides, whole)
    ensures var after := Stepped(file, step, overrides);
            && !after.Unreadable?
            && FoldKept(Raw(file, key), Raw(after, key), ItemFor(whole, key), TargetFor(overrides, whole, key))
  {
    StepMoves(file, step, overrides, whole, key);
    KnownUpdates(overrides, whole, key);
    var w := Raw(Stepped(file, step, overrides), key);
    MovedKeepsFold(Raw(file, key), w, ItemFor(whole, key), TargetFor(overrides, whole, key));
  }

  lemma {:induction false} StepsKeepFold(file: File, steps: seq<Step>, overrides: seq<Old>, whole: Registry, key: Key)
    requires DistinctOld(overrides) && DistinctKeys(whole) && !file.Unreadable? && AllAllowed(steps, overrides, whole)
    ensures var after := AfterSteps(file, steps, overrides);
            && !after.Unreadable?
            && FoldKept(Raw(file, key), Raw(after, key), ItemFor(whole, key), TargetFor(overrides, whole, key))
  {
    if steps != [] {
      var before := steps[..|steps| - 1];
      StepsKeepFold(file, before, overrides, whole, key);
      StepKeepsFold(AfterSteps(file, before, overrides), steps[|steps| - 1], overrides, whole, key);
    }
  }

  /**
   * Whatever folds ran before, at the same time or after, by however many processes, whatever each of them registers
   * and wherever each of them stopped: once one boot pass of a process that registers the setting and, later, one write
   * went through, the setting is what a single undisturbed fold by a process that registers everything makes it.
   */
  lemma {:induction false} AnyFoldsAreOneFold(file: File, a: seq<Step>, boot: Step, b: seq<Step>, write: Step,
                                              c: seq<Step>,
                                              overrides: seq<Old>, whole: Registry, key: Key)
    requires DistinctOld(overrides) && DistinctKeys(whole) && !file.Unreadable?
    requires AllAllowed(a, overrides, whole) && AllAllowed(b, overrides, whole) && AllAllowed(c, overrides, whole)
    requires boot.Boot? && Allowed(boot, overrides, whole) && write.Write? && Allowed(write, overrides, whole)
    requires Lucky(boot.meets) && ItemFor(boot.registry, key) == ItemFor(whole, key)
    ensures var f := AfterSteps(Stepped(AfterSteps(file, a, overrides), boot, overrides), b, overrides);
            var known := Updates(Placeable(overrides, write.registry));
            AfterSet(f, write.registry, known, true, write.meets).1.Wrote? ==>
              Raw(AfterSteps(Stepped(f, write, overrides), c, overrides), key)
              == FoldV(Raw(file, key), ItemFor(whole, key), TargetFor(overrides, whole, key))
  {
    var item, target := ItemFor(whole, key), TargetFor(overrides, whole, key);
    KnownUpdates(overrides, whole, key);
    var f1 := AfterSteps(file, a, overrides);
    StepsKeepFold(file, a, overrides, whole, key);
    var f2 := Stepped(f1, boot, overrides);
    StepKeepsFold(f1, boot, overrides, whole, key);
    BootRaw(f1, boot.registry, boot.meets, key);
    SyncVTwice(Raw(f1, key), item);
    var f3 := AfterSteps(f2, b, overrides);
    StepsKeepFold(f2, b, overrides, whole, key);
    var f4 := Stepped(f3, write, overrides);
    StepKeepsFold(f3, write, overrides, whole, key);
    WriteRaw(f3, overrides, write.registry, whole, write.meets, key);
    StepsKeepFold(f4, c, overrides, whole, key);
  }

  /** The steps one fold makes. */
  function FoldSteps(overrides: seq<Old>, registry: Registry, complete: bool, meets: FoldMeets): seq<Step> {
    var known := Placeable(overrides, registry);
    if known == [] || (known != Carried(overrides) && !complete) then [Boot(registry, meets.sync)]
    else [Boot(registry, meets.sync), Write(registry, meets.write)]
  }

  lemma {:induction false} OneOrTwoSteps(file: File, boot: Step, write: Step, overrides: seq<Old>)
    ensures AfterSteps(file, [boot], overrides) == Stepped(file, boot, overrides)
    ensures AfterSteps(file, [boot, write], overrides) == Stepped(Stepped(file, boot, overrides), write, overrides)
  {
    assert [boot][..0] == [] && [boot, write][..1] == [boot];
  }

  /** How a fold can end, from the boot pass and the write. */
  function Ending(booted: File, put: (File, Outcome), legacy: Legacy, known: seq<Old>, carried: seq<Old>,
                  complete: bool, rename: bool): (File, Legacy) {
    var archived := if rename then Gone else legacy;
    if known != carried && !complete then (booted, legacy)
    else if known == [] then (booted, archived)
    else (put.0, if put.1.Failed? then legacy else archived)
  }

  lemma {:induction false} FoldOfBooted(file: File, overrides: seq<Old>, registry: Registry, complete: bool,
                                        meets: FoldMeets)
    ensures var booted, known := AfterSync(file, registry, meets.sync), Placeable(overrides, registry);
            AfterFold(file, Holds(overrides), registry, complete, meets)
            == Ending(booted, AfterSet(booted, registry, Updates(known), true, meets.write), Holds(overrides), known,
                      Carried(overrides), complete, meets.rename)
  {
  }

  /**
   * A fold touches the settings by allowed steps only, and the old file goes only once its values are written or it has
   * none.
   */
  lemma {:induction false} FoldIsSteps(file: File, overrides: seq<Old>, registry: Registry, complete: bool,
                                       meets: FoldMeets, whole: Registry)
    requires PartOf(registry, whole) && (complete ==> registry == whole)
    ensures var (after, legacy) := AfterFold(file, Holds(overrides), registry, complete, meets);
            var steps, known := FoldSteps(overrides, registry, complete, meets),
              Updates(Placeable(overrides, registry));
            && after == AfterSteps(file, steps, overrides) && AllAllowed(steps, overrides, whole)
            && (legacy == Gone || legacy == Holds(overrides))
            && (legacy == Gone && known != [] ==>
                  AfterSet(AfterSync(file, registry, meets.sync), registry, known, true, meets.write).1.Wrote?)
            && (legacy == Gone && !complete ==> Placeable(overrides, registry) == Carried(overrides))
  {
    OneOrTwoSteps(file, Boot(registry, meets.sync), Write(registry, meets.write), overrides);
    FoldOfBooted(file, overrides, registry, complete, meets);
  }

  /**
   * The old file is archived, if the rename works, exactly when it has zero bytes, or it parses, everything it carries
   * is registered or the process registers all there is, and the write of what is registered, if anything, goes
   * through. One that does not parse stays as it is.
   */
  lemma {:induction false} ArchivedExactly(file: File, legacy: Legacy, registry: Registry, complete: bool,
                                           meets: FoldMeets)
    ensures var (after, left) := AfterFold(file, legacy, registry, complete, meets);
            && (left == legacy || left == Gone)
            && (legacy.Gone? ==> after == file)
            && (legacy.Unparsed? || legacy.ZeroBytes? ==> after == AfterSync(file, registry, meets.sync))
            && (left == Gone <==>
                  || legacy.Gone?
                  || (meets.rename && legacy.ZeroBytes?)
                  || (meets.rename && legacy.Holds?
                      && (complete || forall o :: o in Carried(legacy.overrides) ==> ItemFor(registry, o.key).Some?)
                      && ((forall o :: o in Carried(legacy.overrides) ==> ItemFor(registry, o.key).None?)
                          || AfterSet(AfterSync(file, registry, meets.sync), registry,
                                      Updates(Placeable(legacy.overrides, registry)), true, meets.write).1.Wrote?)))
  {
    if legacy.Holds? {
      var carried, keep := Carried(legacy.overrides), (o: Old) => ItemFor(registry, o.key).Some?;
      HoldingArchived(file, legacy.overrides, registry, complete, meets);
      AllKept(carried, keep);
      NoneKept(carried, keep);
    }
  }

  lemma {:induction false} HoldingArchived(file: File, overrides: seq<Old>, registry: Registry, complete: bool,
                                           meets: FoldMeets)
    ensures var left, known := AfterFold(file, Holds(overrides), registry, complete, meets).1,
              Placeable(overrides, registry);
            && (left == Holds(overrides) || left == Gone)
            && (left == Gone <==>
                  && meets.rename && (complete || known == Carried(overrides))
                  && (known == [] || AfterSet(AfterSync(file, registry, meets.sync), registry, Updates(known), true,
                                              meets.write).1.Wrote?))
  {
    FoldOfBooted(file, overrides, registry, complete, meets);
    var booted, known := AfterSync(file, registry, meets.sync), Placeable(overrides, registry);
    EndingArchives(booted, AfterSet(booted, registry, Updates(known), true, meets.write), Holds(overrides), known,
                   Carried(overrides), complete, meets.rename);
  }

  lemma EndingArchives(booted: File, put: (File, Outcome), legacy: Legacy, known: seq<Old>, carried: seq<Old>,
                       complete: bool, rename: bool)
    requires legacy.Holds?
    ensures var left := Ending(booted, put, legacy, known, carried, complete, rename).1;
            && (left == legacy || left == Gone)
            && (left == Gone <==> rename && (complete || known == carried) && (known == [] || put.1.Wrote?))
  {
  }

  lemma {:induction false} AllKept(items: seq<Old>, keep: Old -> bool)
    ensures Filter(items, keep) == items <==> forall k :: 0 <= k < |items| ==> keep(items[k])
  {
    if items != [] {
      var front, last := items[..|items| - 1], items[|items| - 1];
      AllKept(front, keep);
      if keep(last) {
        assert items == front + [last] && Filter(items, keep) == Filter(front, keep) + [last];
        assert Filter(items, keep)[..|Filter(front, keep)|] == Filter(front, keep);
      }
    }
  }

  lemma {:induction false} NoneKept(items: seq<Old>, keep: Old -> bool)
    ensures Filter(items, keep) == [] <==> forall k :: 0 <= k < |items| ==> !keep(items[k])
  {
    if items != [] {
      NoneKept(items[..|items| - 1], keep);
    }
  }

  /**
   * The value after a fold: the old file's where the boot pass leaves the setting at its default, otherwise the value
   * it has. So a value the user changed already always survives.
   */
  lemma FoldedValue(v: View, item: Item, target: Option<Value>)
    requires v.Single? && Writable(item.default)
    ensures var after := FoldV(v, Some(item), target);
            var known := Known(v.above);
            var moved := known.Some? && Equal(v.setting, known.value) && !Equal(known.value, item.default);
            && after.Single?
            && after.setting == (if target.Some? && (moved || Equal(v.setting, item.default)) then target.value
                                 else if moved then item.default else v.setting)
            && (!moved && !Equal(v.setting, item.default) ==> after.setting == v.setting)
  {
    EqualIsEquivalence(item.default, item.default, item.default);
  }

  // ----- a command that registers only some settings, and the bridge -----

  const LUCKY := Meets(true, true)

  /** A start of the bridge that nothing disturbs: the boot pass, then the fold. */
  function Start(file: File, legacy: Legacy, whole: Registry): (File, Legacy) {
    AfterFold(AfterSync(file, whole, LUCKY), legacy, whole, true, FoldMeets(LUCKY, LUCKY, true))
  }

  ghost predicate AllSettable(file: File, overrides: seq<Old>, whole: Registry) {
    forall key :: Settable(SyncV(Raw(file, key), ItemFor(whole, key)), ItemFor(whole, key),
                           TargetFor(overrides, whole, key))
  }

  lemma {:induction false} NothingWanted(file: File, overrides: seq<Old>, registry: Registry)
    requires Placeable(overrides, registry) == []
    ensures forall key :: TargetFor(overrides, registry, key) == None
    ensures AllSettable(file, overrides, registry)
  {
  }

  lemma {:induction false} TwiceBooted(file: File, whole: Registry, key: Key)
    requires DistinctKeys(whole) && !file.Unreadable?
    ensures var twice := AfterSync(AfterSync(file, whole, LUCKY), whole, LUCKY);
            && !twice.Unreadable? && Raw(twice, key) == SyncV(Raw(file, key), ItemFor(whole, key))
            && (whole != [] ==> twice.Text?)
  {
    BootRaw(file, whole, LUCKY, key);
    BootRaw(AfterSync(file, whole, LUCKY), whole, LUCKY, key);
    SyncVTwice(Raw(file, key), ItemFor(whole, key));
  }

  /** Exactly when such a start archives the old file, and what it then makes of every setting. */
  lemma {:induction false} StartArchives(file: File, overrides: seq<Old>, whole: Registry)
    requires DistinctOld(overrides) && DistinctKeys(whole) && !file.Unreadable?
    ensures Start(file, Holds(overrides), whole).1
            == (if AllSettable(file, overrides, whole) then Gone else Holds(overrides))
  {
    FoldOfBooted(AfterSync(file, whole, LUCKY), overrides, whole, true, FoldMeets(LUCKY, LUCKY, true));
    if Placeable(overrides, whole) == [] {
      NothingWanted(file, overrides, whole);
    } else {
      StartWrites(file, overrides, whole);
    }
  }

  lemma {:induction false} StartWrites(file: File, overrides: seq<Old>, whole: Registry)
    requires DistinctOld(overrides) && DistinctKeys(whole) && !file.Unreadable? && Placeable(overrides, whole) != []
    ensures AfterSet(AfterSync(AfterSync(file, whole, LUCKY), whole, LUCKY), whole,
                     Updates(Placeable(overrides, whole)), true, LUCKY).1.Wrote?
            <==> AllSettable(file, overrides, whole)
  {
    var f := AfterSync(AfterSync(file, whole, LUCKY), whole, LUCKY);
    KnownIsRegistered(overrides, whole, 0);
    TwiceBooted(file, whole, "");
    WriteGoesThrough(f, overrides, whole, LUCKY);
    forall key
      ensures Seen(f, whole, key) == SyncV(Raw(file, key), ItemFor(whole, key))
    {
      TwiceBooted(file, whole, key);
    }
  }

  lemma {:induction false} SyncedWrite(file: File, overrides: seq<Old>, registry: Registry, meets: Meets, key: Key)
    requires DistinctOld(overrides) && DistinctKeys(registry) && !file.Unreadable?
    requires Synced(Raw(file, key), ItemFor(registry, key))
    ensures var (after, outcome) := AfterSet(file, registry, Updates(Placeable(overrides, registry)), true, meets);
            Raw(after, key) == if outcome.Failed? then Raw(file, key)
                               else PutV(Raw(file, key), ItemFor(registry, key), TargetFor(overrides, registry, key))
  {
    WriteSeen(file, overrides, registry, meets, key);
    if AfterSet(file, registry, Updates(Placeable(overrides, registry)), true, meets).1.Wrote? {
      WriteRaw(file, overrides, registry, registry, meets, key);
    }
  }

  lemma {:induction false} StartRaw(file: File, overrides: seq<Old>, whole: Registry, key: Key)
    requires DistinctOld(overrides) && DistinctKeys(whole) && !file.Unreadable?
    ensures var (after, legacy) := Start(file, Holds(overrides), whole);
            var v, item, target := Raw(file, key), ItemFor(whole, key), TargetFor(overrides, whole, key);
            Raw(after, key) == if legacy.Gone? then FoldV(v, item, target) else SyncV(v, item)
  {
    var f := AfterSync(AfterSync(file, whole, LUCKY), whole, LUCKY);
    TwiceBooted(file, whole, key);
    SyncVTwice(Raw(file, key), ItemFor(whole, key));
    if Placeable(overrides, whole) == [] {
      NothingWanted(file, overrides, whole);
      assert Start(file, Holds(overrides), whole) == (f, Gone);
    } else {
      SyncedWrite(f, overrides, whole, LUCKY, key);
      var (after, outcome) := AfterSet(f, whole, Updates(Placeable(overrides, whole)), true, LUCKY);
      assert Start(file, Holds(overrides), whole) == (after, if outcome.Failed? then Holds(overrides) else Gone);
    }
  }

  lemma {:induction false} KnownIsRegistered(overrides: seq<Old>, registry: Registry, k: nat)
    requires k < |Placeable(overrides, registry)|
    ensures ItemFor(registry, Placeable(overrides, registry)[k].key).Some? && registry != []
  {
    FilterKeeps(Carried(overrides), (o: Old) => ItemFor(registry, o.key).Some?);
    assert Placeable(overrides, registry)[k] in Placeable(overrides, registry);
  }

  /** A write into a file that is there. */
  lemma {:induction false} TextWrite(file: File, overrides: seq<Old>, part: Registry, whole: Registry, meets: Meets,
                                     key: Key)
    requires DistinctOld(overrides) && DistinctKeys(whole) && file.Text?
            && Allowed(Write(part, meets), overrides, whole)
    requires AfterSet(file, part, Updates(Placeable(overrides, part)), true, meets).1.Wrote?
    ensures var after := AfterSet(file, part, Updates(Placeable(overrides, part)), true, meets).0;
            var v, item, target := Raw(file, key), ItemFor(whole, key), TargetFor(overrides, whole, key);
            !after.Unreadable? && Raw(after, key) == PutV(v, item, target) && Settable(v, item, target)
  {
    WriteRaw(file, overrides, part, whole, meets, key);
  }

  lemma PartFoldedView(v: View, here: Option<Item>, item: Option<Item>, target: Option<Value>)
    requires (here.Some? ==> here == item) && (target.Some? ==> here.Some?)
    requires Settable(SyncV(v, here), item, target)
    ensures Settable(SyncV(v, item), item, target)
    ensures SyncV(PutV(SyncV(v, here), item, target), item) == FoldV(v, item, target)
  {
    SyncVTwice(v, item);
    if target.Some? {
      PutStaysSynced(SyncV(v, item), item, target);
    }
  }

  lemma {:induction false} CommandFile(file: File, overrides: seq<Old>, part: Registry, meets: FoldMeets)
    ensures AfterFold(file, Holds(overrides), part, false, meets).0
            == var booted, known := AfterSync(file, part, meets.sync), Placeable(overrides, part);
               if known == Carried(overrides) != []
               then AfterSet(booted, part, Updates(known), true, meets.write).0 else booted
  {
  }

  /** After a fold by a command that wrote, every setting could be given its old value, and was. */
  lemma {:induction false} CommandWrote(file: File, overrides: seq<Old>, part: Registry, whole: Registry,
                                        meets: FoldMeets, key: Key)
    requires DistinctOld(overrides) && DistinctKeys(whole) && PartOf(part, whole) && !file.Unreadable?
    requires Placeable(overrides, part) == Carried(overrides) != [] && Lucky(meets.sync)
    requires AfterSet(AfterSync(file, part, meets.sync), part, Updates(Placeable(overrides, part)), true,
                      meets.write).1.Wrote?
    ensures var v, item, target := Raw(file, key), ItemFor(whole, key), TargetFor(overrides, whole, key);
            var after := AfterFold(file, Holds(overrides), part, false, meets).0;
            && !after.Unreadable?
            && Settable(SyncV(v, item), item, target)
            && SyncV(Raw(after, key), item) == FoldV(v, item, target)
  {
    CommandFile(file, overrides, part, meets);
    SamePlaceable(overrides, part, whole);
    KnownIsRegistered(overrides, part, 0);
    BootRaw(file, part, meets.sync, key);
    KnownUpdates(overrides, part, key);
    TextWrite(AfterSync(file, part, meets.sync), overrides, part, whole, meets.write, key);
    PartFoldedView(Raw(file, key), ItemFor(part, key), ItemFor(whole, key), TargetFor(overrides, whole, key));
  }

  lemma {:induction false} CommandSame(file: File, overrides: seq<Old>, part: Registry, whole: Registry,
                                       meets: FoldMeets, key: Key)
    requires DistinctOld(overrides) && DistinctKeys(whole) && PartOf(part, whole) && !file.Unreadable?
    ensures var after := AfterFold(file, Holds(overrides), part, false, meets).0;
            && !after.Unreadable?
            && FoldKept(Raw(file, key), Raw(after, key), ItemFor(whole, key), TargetFor(overrides, whole, key))
  {
    FoldIsSteps(file, overrides, part, false, meets, whole);
    StepsKeepFold(file, FoldSteps(overrides, part, false, meets), overrides, whole, key);
  }

  lemma SettableWhenBooted(v: View, item: Option<Item>, target: Option<Value>)
    requires Settable(v, item, target) && (target.Some? ==> item.Some?)
    ensures Settable(SyncV(v, item), item, target)
  {
  }

  lemma {:induction false} WroteMeansSettable(file: File, overrides: seq<Old>, registry: Registry, whole: Registry,
                                              meets: Meets, key: Key)
    requires DistinctOld(overrides) && DistinctKeys(whole) && !file.Unreadable?
    requires Allowed(Write(registry, meets), overrides, whole)
    requires AfterSet(file, registry, Updates(Placeable(overrides, registry)), true, meets).1.Wrote?
    ensures Settable(SyncV(Raw(file, key), ItemFor(whole, key)), ItemFor(whole, key), TargetFor(overrides, whole, key))
  {
    WriteRaw(file, overrides, registry, whole, meets, key);
    KnownUpdates(overrides, whole, key);
    if file.Text? {
      SettableWhenBooted(Raw(file, key), ItemFor(whole, key), TargetFor(overrides, whole, key));
    }
  }

  lemma {:induction false} PartBoot(file: File, part: Registry, whole: Registry, meets: Meets, key: Key)
    requires DistinctKeys(whole) && PartOf(part, whole) && !file.Unreadable?
    ensures var after, item := AfterSync(file, part, meets), ItemFor(whole, key);
            && !after.Unreadable? && SyncV(Raw(after, key), item) == SyncV(Raw(file, key), item)
  {
    BootRaw(file, part, meets, key);
    SyncVTwice(Raw(file, key), ItemFor(whole, key));
  }

  lemma {:induction false} WriteFails(file: File, overrides: seq<Old>, part: Registry, whole: Registry,
                                      meets: FoldMeets)
    requires DistinctOld(overrides) && DistinctKeys(whole) && PartOf(part, whole) && !file.Unreadable?
    requires !AllSettable(file, overrides, whole) && Placeable(overrides, part) == Carried(overrides)
    ensures var booted, known := AfterSync(file, part, meets.sync), Updates(Placeable(overrides, part));
            var (after, outcome) := AfterSet(booted, part, known, true, meets.write);
            outcome.Failed? && after == booted
  {
    var booted, known := AfterSync(file, part, meets.sync), Updates(Placeable(overrides, part));
    WriteSeen(booted, overrides, part, meets.write, "");
    if AfterSet(booted, part, known, true, meets.write).1.Wrote? {
      forall k
        ensures Settable(SyncV(Raw(file, k), ItemFor(whole, k)), ItemFor(whole, k), TargetFor(overrides, whole, k))
      {
        PartBoot(file, part, whole, meets.sync, k);
        WroteMeansSettable(booted, overrides, part, whole, meets.write, k);
      }
      assert false;
    }
  }

  /** A file in which some setting cannot be given its old value sees no write of a fold. */
  lemma {:induction false} CommandHeld(file: File, overrides: seq<Old>, part: Registry, whole: Registry,
                                       meets: FoldMeets)
    requires DistinctOld(overrides) && DistinctKeys(whole) && PartOf(part, whole) && !file.Unreadable?
    requires !AllSettable(file, overrides, whole)
    ensures AfterFold(file, Holds(overrides), part, false, meets).0 == AfterSync(file, part, meets.sync)
  {
    CommandFile(file, overrides, part, meets);
    if Placeable(overrides, part) == Carried(overrides) {
      WriteFails(file, overrides, part, whole, meets);
    }
  }

  lemma {:induction false} CommandWaits(file: File, overrides: seq<Old>, part: Registry, whole: Registry,
                                        meets: FoldMeets, key: Key)
    requires DistinctOld(overrides) && DistinctKeys(whole) && PartOf(part, whole) && !file.Unreadable?
    requires AfterFold(file, Holds(overrides), part, false, meets).1 == Holds(overrides)
    ensures var command := AfterFold(file, Holds(overrides), part, false, meets);
            var after, alone := Start(command.0, command.1, whole), Start(file, Holds(overrides), whole);
            after.1 == alone.1 && Raw(after.0, key) == Raw(alone.0, key)
  {
    var command := AfterFold(file, Holds(overrides), part, false, meets).0;
    StartArchives(file, overrides, whole);
    StartRaw(file, overrides, whole, key);
    forall k
      ensures FoldKept(Raw(file, k), Raw(command, k), ItemFor(whole, k), TargetFor(overrides, whole, k))
              && !command.Unreadable?
    {
      CommandSame(file, overrides, part, whole, meets, k);
    }
    SettableAlike(file, command, overrides, whole);
    StartArchives(command, overrides, whole);
    StartRaw(command, overrides, whole, key);
    if !AllSettable(file, overrides, whole) {
      CommandHeld(file, overrides, part, whole, meets);
      PartBoot(file, part, whole, meets.sync, key);
    }
  }

  lemma {:induction false} SettableAlike(file: File, after: File, overrides: seq<Old>, whole: Registry)
    requires forall k :: FoldKept(Raw(file, k), Raw(after, k), ItemFor(whole, k), TargetFor(overrides, whole, k))
    ensures AllSettable(file, overrides, whole) <==> AllSettable(after, overrides, whole)
  {
    forall k
      ensures Settable(SyncV(Raw(file, k), ItemFor(whole, k)), ItemFor(whole, k), TargetFor(overrides, whole, k))
              <==> Settable(SyncV(Raw(after, k), ItemFor(whole, k)), ItemFor(whole, k), TargetFor(overrides, whole, k))
    {
      assert FoldKept(Raw(file, k), Raw(after, k), ItemFor(whole, k), TargetFor(overrides, whole, k));
    }
  }

  /** Nothing carried, or all of it written. */
  lemma {:induction false} CommandFolded(file: File, overrides: seq<Old>, part: Registry, whole: Registry,
                                         meets: FoldMeets, key: Key)
    requires DistinctOld(overrides) && DistinctKeys(whole) && PartOf(part, whole) && !file.Unreadable?
    requires AfterFold(file, Holds(overrides), part, false, meets).1 == Gone && Lucky(meets.sync)
    ensures var after := AfterFold(file, Holds(overrides), part, false, meets).0;
            var v, item, target := Raw(file, key), ItemFor(whole, key), TargetFor(overrides, whole, key);
            && !after.Unreadable?
            && Settable(SyncV(v, item), item, target)
            && SyncV(Raw(after, key), item) == FoldV(v, item, target)
  {
    if Carried(overrides) == [] {
      SamePlaceable(overrides, part, whole);
      NothingWanted(file, overrides, whole);
      PartBoot(file, part, whole, meets.sync, key);
    } else {
      CommandWrote(file, overrides, part, whole, meets, key);
    }
  }

  lemma {:induction false} CommandArchived(file: File, overrides: seq<Old>, part: Registry, whole: Registry,
                                           meets: FoldMeets, key: Key)
    requires DistinctOld(overrides) && DistinctKeys(whole) && PartOf(part, whole) && !file.Unreadable?
    requires AfterFold(file, Holds(overrides), part, false, meets).1 == Gone && Lucky(meets.sync)
    ensures var command := AfterFold(file, Holds(overrides), part, false, meets);
            var after, alone := Start(command.0, Gone, whole), Start(file, Holds(overrides), whole);
            after.1 == alone.1 && Raw(after.0, key) == Raw(alone.0, key)
  {
    var command := AfterFold(file, Holds(overrides), part, false, meets).0;
    StartArchives(file, overrides, whole);
    StartRaw(file, overrides, whole, key);
    forall k
      ensures Settable(SyncV(Raw(file, k), ItemFor(whole, k)), ItemFor(whole, k), TargetFor(overrides, whole, k))
    {
      CommandFolded(file, overrides, part, whole, meets, k);
    }
    CommandFolded(file, overrides, part, whole, meets, key);
    BootRaw(command, whole, LUCKY, key);
  }

  /**
   * A command that registers only some settings folds all or nothing. Whatever its write meets, the bridge's next start
   * then gives every setting exactly what that start alone would have given it, and archives the old file exactly when
   * that start alone would have. A command that archived it after a skipped boot pass is the matter of the next
   * section.
   */
  lemma {:induction false} CommandFoldIsBridgeFold(file: File, overrides: seq<Old>, part: Registry, whole: Registry,
                                                   meets: FoldMeets, key: Key)
    requires DistinctOld(overrides) && DistinctKeys(whole) && PartOf(part, whole) && !file.Unreadable?
    requires AfterFold(file, Holds(overrides), part, false, meets).1 == Gone ==> Lucky(meets.sync)
    ensures var command := AfterFold(file, Holds(overrides), part, false, meets);
            var after, alone := Start(command.0, command.1, whole), Start(file, Holds(overrides), whole);
            after.1 == alone.1 && Raw(after.0, key) == Raw(alone.0, key)
  {
    if AfterFold(file, Holds(overrides), part, false, meets).1.Gone? {
      CommandArchived(file, overrides, part, whole, meets, key);
    } else {
      CommandWaits(file, overrides, part, whole, meets, key);
    }
  }

  // ----- a fold whose boot pass was skipped -----

  function Shown(v: View): Option<Value> {
    if v.Absent? then None else Some(v.setting)
  }

  /**
   * The settings a fold loses whose boot pass was skipped: one that still had a superseded default, which the boot pass
   * would have moved; one that takes on a superseded default, which the next boot moves away again; and a missing one
   * whose old value is equal to the default but not the same.
   */
  predicate Loses(v: View, item: Option<Item>, target: Option<Value>) {
    item.Some? && target.Some? && Writable(item.value.default)
    && match v
       case Single(_, current, above) =>
         && Known(above).Some? && !Equal(Known(above).value, item.value.default)
         && (|| (Equal(current, Known(above).value) && target.value != item.value.default)
             || (Equal(current, item.value.default) && current != target.value
                 && Equal(target.value, Known(above).value)))
       case Absent => Equal(item.value.default, target.value) && item.value.default != target.value
       case _ => false
  }

  lemma SingleLoses(v: View, item: Item, target: Value)
    requires v.Single? && Writable(item.default)
    ensures Shown(SyncV(PutV(v, Some(item), Some(target)), Some(item))) != Shown(FoldV(v, Some(item), Some(target)))
            <==> Loses(v, Some(item), Some(target))
  {
    var known, default := Known(v.above), item.default;
    EqualIsEquivalence(default, default, default);
    if known.Some? {
      EqualIsEquivalence(known.value, v.setting, default);
      EqualIsEquivalence(v.setting, known.value, default);
      EqualIsEquivalence(v.setting, default, known.value);
      EqualIsEquivalence(target, known.value, default);
      EqualIsEquivalence(known.value, target, default);
    }
  }

  lemma AbsentLoses(item: Item, target: Value)
    requires Writable(item.default)
    ensures Shown(SyncV(PutV(Absent, Some(item), Some(target)), Some(item)))
            != Shown(FoldV(Absent, Some(item), Some(target)))
            <==> Loses(Absent, Some(item), Some(target))
  {
    EqualIsEquivalence(item.default, item.default, item.default);
    EntryCommentsSettled(item);
  }

  /**
   * Whatever the file says: the value ends up different from what an undisturbed fold makes it exactly for those
   * settings.
   */
  lemma SkippedBootLoses(v: View, item: Option<Item>, target: Option<Value>)
    requires (target.Some? ==> item.Some?) && Settable(v, item, target)
    ensures Shown(SyncV(PutV(v, item, target), item)) != Shown(FoldV(v, item, target)) <==> Loses(v, item, target)
  {
    if target.Some? && Writable(item.value.default) {
      match v
      case Single(_, _, _) => SingleLoses(v, item.value, target.value);
      case Absent => AbsentLoses(item.value, target.value);
      case _ =>
    }
  }

  lemma {:induction false} SkippedFile(file: File, overrides: seq<Old>, registry: Registry, complete: bool,
                                       meets: FoldMeets)
    requires !Lucky(meets.sync) && AfterFold(file, Holds(overrides), registry, complete, meets).1 == Gone
    ensures var known, after := Placeable(overrides, registry),
            AfterFold(file, Holds(overrides), registry, complete, meets).0;
            && (complete || known == Carried(overrides))
            && (known == [] ==> after == file)
            && (known != [] ==>
                  var (written, outcome) := AfterSet(file, registry, Updates(known), true, meets.write);
                  after == written && outcome.Wrote?)
  {
    NoBoot(file, registry, meets.sync);
    FoldOfBooted(file, overrides, registry, complete, meets);
  }

  lemma {:induction false} NoBoot(file: File, registry: Registry, meets: Meets)
    requires !Lucky(meets)
    ensures AfterSync(file, registry, meets) == file
  {
    BootWrites(file, registry, meets);
  }

  /** Each setting after a fold that archived without its boot pass, and the next boot pass of the bridge. */
  lemma {:induction false} SkippedRaw(file: File, overrides: seq<Old>, part: Registry, whole: Registry, complete: bool,
                                      meets: FoldMeets, key: Key)
    requires DistinctOld(overrides) && DistinctKeys(whole) && PartOf(part, whole) && !file.Unreadable?
    requires (complete ==> part == whole) && !Lucky(meets.sync)
    requires AfterFold(file, Holds(overrides), part, complete, meets).1 == Gone
    ensures var late := AfterSync(AfterFold(file, Holds(overrides), part, complete, meets).0, whole, LUCKY);
            var v, item, target := Raw(file, key), ItemFor(whole, key), TargetFor(overrides, whole, key);
            && Settable(SyncV(v, item), item, target)
            && (file.Text? ==> Settable(v, item, target) && Raw(late, key) == SyncV(PutV(v, item, target), item))
            && (!file.Text? ==> Raw(late, key) == FoldV(v, item, target))
  {
    SkippedFile(file, overrides, part, complete, meets);
    var after := AfterFold(file, Holds(overrides), part, complete, meets).0;
    SamePlaceable(overrides, part, whole);
    if Placeable(overrides, part) == [] {
      NothingWanted(file, overrides, whole);
    } else {
      SkippedWrite(file, overrides, part, whole, meets.write, key);
    }
    BootRaw(after, whole, LUCKY, key);
  }

  lemma {:induction false} SkippedWrite(file: File, overrides: seq<Old>, part: Registry, whole: Registry, meets: Meets,
                                        key: Key)
    requires DistinctOld(overrides) && DistinctKeys(whole) && !file.Unreadable?
    requires Allowed(Write(part, meets), overrides, whole)
    requires AfterSet(file, part, Updates(Placeable(overrides, part)), true, meets).1.Wrote?
    ensures var after := AfterSet(file, part, Updates(Placeable(overrides, part)), true, meets).0;
            var v, item, target := Raw(file, key), ItemFor(whole, key), TargetFor(overrides, whole, key);
            && !after.Unreadable?
            && Settable(SyncV(v, item), item, target)
            && (file.Text? ==> Settable(v, item, target) && Raw(after, key) == PutV(v, item, target))
            && (!file.Text? ==> SyncV(Raw(after, key), item) == FoldV(v, item, target))
  {
    WroteMeansSettable(file, overrides, part, whole, meets, key);
    WriteRaw(file, overrides, part, whole, meets, key);
  }

  /**
   * A fold, by a command or the bridge, whose boot pass was not made archives the old file only where an undisturbed
   * start would have; and after the next boot pass a setting differs from what that start makes it exactly when the
   * file was there and the setting is one that loses.
   */
  lemma {:induction false} SkippedBootLosesExactly(file: File, overrides: seq<Old>, part: Registry, whole: Registry,
                                                   complete: bool, meets: FoldMeets, key: Key)
    requires DistinctOld(overrides) && DistinctKeys(whole) && PartOf(part, whole) && !file.Unreadable?
    requires (complete ==> part == whole) && !Lucky(meets.sync)
    requires AfterFold(file, Holds(overrides), part, complete, meets).1 == Gone
    ensures Start(file, Holds(overrides), whole).1 == Gone
    ensures var late := AfterSync(AfterFold(file, Holds(overrides), part, complete, meets).0, whole, LUCKY);
            Shown(Raw(late, key)) != Shown(Raw(Start(file, Holds(overrides), whole).0, key))
            <==> file.Text? && Loses(Raw(file, key), ItemFor(whole, key), TargetFor(overrides, whole, key))
  {
    forall k
      ensures Settable(SyncV(Raw(file, k), ItemFor(whole, k)), ItemFor(whole, k), TargetFor(overrides, whole, k))
    {
      SkippedRaw(file, overrides, part, whole, complete, meets, k);
    }
    StartArchives(file, overrides, whole);
    StartRaw(file, overrides, whole, key);
    SkippedRaw(file, overrides, part, whole, complete, meets, key);
    KnownUpdates(overrides, whole, key);
    if file.Text? {
      SkippedBootLoses(Raw(file, key), ItemFor(whole, key), TargetFor(overrides, whole, key));
    }
  }

  /** No lock for the boot pass; the write and the rename go through. */
  const SKIPPED := FoldMeets(Meets(false, true), LUCKY, true)

  lemma {:induction false} OneItemFor(item: Item, key: Key)
    ensures ItemFor([item], key) == if key == item.key then Some(item) else None
  {
    assert [item][..0] == [];
  }

  lemma {:induction false} OneRetained(o: Old)
    requires !Retired(o.key) && o.key != NEW_LULL_KEY
    ensures AfterRetirements([o]) == [o]
  {
    NotThere(o, OLD_THROTTLE_KEY);
    NotThere(o, NEW_LULL_KEY);
    FilterAll([o], (o: Old) => !Retired(o.key));
  }

  lemma {:induction false} NotThere(o: Old, key: Key)
    requires o.key != key
    ensures OldFor([o], key) == None
  {
    assert [o][..0] == [];
  }

  lemma {:induction false} OneOld(o: Old, item: Item)
    requires item.key == o.key && !Retired(o.key) && o.key != NEW_LULL_KEY && !CannotHold(o.value)
    ensures ItemFor([item], o.key) == Some(item)
    ensures Placeable([o], [item]) == [o]
    ensures TargetFor([o], [item], o.key) == Some(o.value)
  {
    OneItemFor(item, o.key);
    OneRetained(o);
    FilterAll([o], (o: Old) => !CannotHold(o.value));
    FilterAll([o], (o: Old) => ItemFor([item], o.key).Some?);
  }

  lemma SingleIsSettable(v: View, item: Option<Item>, target: Option<Value>)
    requires v.Single? || target.None?
    ensures Settable(v, item, target)
  {
  }

  /** One carried value for the one setting there is. */
  lemma {:induction false} OneArchives(file: File, item: Item, value: Value, overrides: seq<Old>)
    requires !Retired(item.key) && item.key != NEW_LULL_KEY && !CannotHold(value) && overrides == [Old(item.key, value)]
    requires file.Text? && Raw(file, item.key).Single?
    ensures AfterFold(file, Holds(overrides), [item], true, SKIPPED).1 == Gone
  {
    OneOld(overrides[0], item);
    forall key
      ensures Settable(Seen(file, [item], key), ItemFor([item], key), TargetFor(overrides, [item], key))
    {
      KnownUpdates(overrides, [item], key);
      OneItemFor(item, key);
      SingleIsSettable(Seen(file, [item], key), ItemFor([item], key), TargetFor(overrides, [item], key));
    }
    WriteGoesThrough(file, overrides, [item], LUCKY);
  }

  lemma ExampleViews(v: View, item: Item)
    requires v == Single(1, Int(1), [Recorded(Some(Int(1)))]) && item.default == Int(2)
    ensures Shown(SyncV(PutV(v, Some(item), Some(Int(5))), Some(item))) == Some(Int(2))
    ensures Shown(FoldV(v, Some(item), Some(Int(5)))) == Some(Int(5))
  {
    RecordedIs([Recorded(Some(Int(1)))], 0);
  }

  /**
   * A file in which that happens: recorded default 1, value 1, now registered with default 2, old value 5. The old file
   * is gone either way; an undisturbed start leaves 5, the skipped boot pass 2 after the next boot.
   */
  lemma {:induction false} SkippedBootExample(file: File, registry: Registry, overrides: seq<Old>)
    requires file == Text([Recorded(Some(Int(1)))] + [Entry("a.b", Int(1), 1, true)])
    requires registry == [Item("a.b", Int(2), "")] && overrides == [Old("a.b", Int(5))]
    ensures var skipped := AfterFold(file, Holds(overrides), registry, true, SKIPPED);
            var undisturbed := Start(file, Holds(overrides), registry);
            && skipped.1 == Gone && Shown(Raw(AfterSync(skipped.0, registry, LUCKY), "a.b")) == Some(Int(2))
            && undisturbed.1 == Gone && Shown(Raw(undisturbed.0, "a.b")) == Some(Int(5))
  {
    StanzaView("a.b", 1, Int(1), [Recorded(Some(Int(1)))], "a.b");
    OneArchives(file, registry[0], Int(5), overrides);
    OneOld(overrides[0], registry[0]);
    SkippedRaw(file, overrides, registry, registry, true, SKIPPED, "a.b");
    SkippedBootLosesExactly(file, overrides, registry, registry, true, SKIPPED, "a.b");
    StartRaw(file, overrides, registry, "a.b");
    ExampleViews(Raw(file, "a.b"), registry[0]);
  }
}
