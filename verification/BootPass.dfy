/** The boot pass: registered settings are merged into a document the user also edits. */
module BootPass {
  import opened SettingsDocument
  import opened SettingValues
  import opened Wrappers

  /** A registered setting; an empty description means none. */
  datatype Item = Item(key: Key, default: Value, description: string)

  type Registry = seq<Item>

  const DESCRIPTION_MAX := 100

  // ----- one setting's comments -----

  /** The recorded default: the position of the line, and its value if it parses. */
  datatype Record = Record(at: nat, value: Option<Value>)

  /** The last recorded-default line of a run of comments. */
  function RecordedDefault(run: Doc): (r: Option<Record>)
    ensures r.Some? ==> r.value.at < |run| && run[r.value.at] == Recorded(r.value.value)
  {
    if run == [] then None
    else if run[|run| - 1].Recorded? then Some(Record(|run| - 1, run[|run| - 1].value))
    else RecordedDefault(run[..|run| - 1])
  }

  /** The default the comments record, if there is one and it parses. */
  function Known(run: Doc): Option<Value> {
    var r := RecordedDefault(run);
    if r.Some? then r.value.value else None
  }

  predicate LooksLikeDescription(l: Line) {
    && l.Note? && 0 < |l.text| <= DESCRIPTION_MAX
    && 'A' <= l.text[0] <= 'Z' && l.text[|l.text| - 1] == '.'
  }

  function Describe(item: Item): Doc {
    if item.description == "" then [] else [Note(item.description, true)]
  }

  /**
   * The comment run with the wanted description directly above the recorded default, which is at `at` or, if none,
   * last.
   */
  function Placed(run: Doc, at: Option<nat>, wanted: Line): Doc
    requires run != [] && (at.Some? ==> at.value < |run|)
  {
    if wanted in run then run
    else if at.None? then run[..|run| - 1] + [wanted] + run[|run| - 1..]
    else
      var i := at.value;
      if i >= 1 && LooksLikeDescription(run[i - 1]) && !(i >= 2 && LooksLikeDescription(run[i - 2]))
      then run[i - 1 := wanted]
      else run[..i] + [wanted] + run[i..]
  }

  /** The comment run with the recorded default brought up to date. */
  function Marked(run: Doc, default: Value): Doc {
    var r := RecordedDefault(run);
    var known := Known(run);
    if known.Some? && Equal(known.value, default) then run
    else if r.None? then run + [Recorded(Some(default))]
    else run[r.value.at := Recorded(Some(default))]
  }

  function SyncedAbove(run: Doc, item: Item): Doc {
    var marked := Marked(run, item.default);
    var r := RecordedDefault(run);
    if item.description == "" then marked
    else Placed(marked, if r.Some? then Some(r.value.at) else None, Note(item.description, true))
  }

  /** Does the pass move this value? It must equal the default the file records while the registered one does not. */
  predicate Moves(current: Value, known: Option<Value>, default: Value) {
    known.Some? && Equal(current, known.value) && !Equal(known.value, default)
  }

  // ----- the pass -----

  function SyncOne(doc: Doc, item: Item): Doc {
    if !Writable(item.default) then doc
    else
      match ViewOf(doc, item.key)
      case Absent => WithEntry(doc, item.key, item.default, Describe(item) + [Recorded(Some(item.default))])
      case Single(_, current, run) =>
        var moved := if Moves(current, Known(run), item.default) then WithValue(doc, item.key, item.default) else doc;
        if SyncedAbove(run, item) != run then WithAbove(moved, item.key, SyncedAbove(run, item)) else moved
      case _ => doc
  }

  function Sync(doc: Doc, registry: Registry): Doc {
    if registry == [] then doc
    else SyncOne(Sync(doc, registry[..|registry| - 1]), registry[|registry| - 1])
  }

  /** What the pass intends to change or add for one setting. */
  function IntendsOne(doc: Doc, item: Item): Option<Value> {
    var v := ViewOf(doc, item.key);
    if Writable(item.default) && (v.Absent? || (v.Single? && Moves(v.setting, Known(v.above), item.default)))
    then Some(item.default) else None
  }

  function Intends(doc: Doc, registry: Registry): map<Key, Value> {
    if registry == [] then map[]
    else
      var before, item := registry[..|registry| - 1], registry[|registry| - 1];
      var one := IntendsOne(Sync(doc, before), item);
      if one.Some? then Intends(doc, before)[item.key := one.value] else Intends(doc, before)
  }

  method FindRecordedDefault(run: Doc) returns (r: Option<Record>)
    ensures r == RecordedDefault(run)
  {
    var i := |run|;
    assert run[..i] == run;
    while i > 0
      invariant i <= |run|
      invariant RecordedDefault(run) == RecordedDefault(run[..i])
    {
      i := i - 1;
      assert run[..i + 1][..i] == run[..i];
      if run[i].Recorded? {
        return Some(Record(i, run[i].value));
      }
    }
    return None;
  }

  method PlaceDescription(run: Doc, at: Option<nat>, wanted: Line) returns (placed: Doc)
    requires run != [] && (at.Some? ==> at.value < |run|)
    ensures placed == Placed(run, at, wanted)
  {
    if wanted in run {
      return run;
    }
    if at.None? {
      return run[..|run| - 1] + [wanted] + run[|run| - 1..];
    }
    var slot := at.value - 1;
    if slot >= 0 && LooksLikeDescription(run[slot]) && !(slot >= 1 && LooksLikeDescription(run[slot - 1])) {
      placed := run[slot := wanted];
    } else {
      placed := run[..at.value] + [wanted] + run[at.value..];
    }
  }

  method SyncAbove(run: Doc, item: Item) returns (above: Doc, known: Option<Value>)
    ensures above == SyncedAbove(run, item) && known == Known(run)
  {
    var r := FindRecordedDefault(run);
    known := if r.Some? then r.value.value else None;
    above := run;
    if known.None? || !Equal(known.value, item.default) {
      if r.None? {
        above := above + [Recorded(Some(item.default))];
      } else {
        above := above[r.value.at := Recorded(Some(item.default))];
      }
    }
    if item.description != "" {
      above := PlaceDescription(above, if r.Some? then Some(r.value.at) else None, Note(item.description, true));
    }
  }

  // ----- what the pass does to one setting's comments -----

  lemma {:induction false} RecordedIs(run: Doc, at: nat)
    requires at < |run| && run[at].Recorded?
    requires forall k :: at < k < |run| ==> !run[k].Recorded?
    ensures RecordedDefault(run) == Some(Record(at, run[at].value))
  {
    if at < |run| - 1 {
      RecordedIs(run[..|run| - 1], at);
    }
  }

  lemma {:induction false} RecordedIsLast(run: Doc)
    ensures var r := RecordedDefault(run);
            if r.Some? then forall k :: r.value.at < k < |run| ==> !run[k].Recorded?
            else forall k :: 0 <= k < |run| ==> !run[k].Recorded?
  {
    if run != [] && !run[|run| - 1].Recorded? {
      RecordedIsLast(run[..|run| - 1]);
    }
  }

  /** The lines above the recorded default, and those between it and the entry. */
  function Before(run: Doc): Doc {
    var r := RecordedDefault(run);
    if r.Some? then run[..r.value.at] else run
  }

  function Behind(run: Doc): Doc {
    var r := RecordedDefault(run);
    if r.Some? then run[r.value.at + 1..] else []
  }

  /** What the comments record once the pass is done: the old text if it says the same, else the registered default. */
  function Recording(run: Doc, default: Value): Value {
    var known := Known(run);
    if known.Some? && Equal(known.value, default) then known.value else default
  }

  lemma {:induction false} MarkedShape(run: Doc, default: Value)
    ensures Marked(run, default) == Before(run) + [Recorded(Some(Recording(run, default)))] + Behind(run)
    ensures RecordedDefault(run).Some? ==> RecordedDefault(run).value.at == |Before(run)|
  {
  }

  /** A line the pass may replace by the registered description: it looks like one and the line above it does not. */
  predicate Replaceable(before: Doc) {
    && before != [] && LooksLikeDescription(before[|before| - 1])
    && !(|before| >= 2 && LooksLikeDescription(before[|before| - 2]))
  }

  function Described(before: Doc, wanted: Line): Doc {
    if Replaceable(before) then before[..|before| - 1] + [wanted] else before + [wanted]
  }

  lemma PlacedShape(before: Doc, mark: Line, behind: Doc, wanted: Line)
    requires wanted !in before + [mark] + behind
    ensures Placed(before + [mark] + behind, Some(|before|), wanted) == Described(before, wanted) + [mark] + behind
    ensures behind == [] ==> Placed(before + [mark] + behind, None, wanted) == before + [wanted] + [mark] + behind
  {
    var run := before + [mark] + behind;
    assert run[..|before|] == before && run[|before|..] == [mark] + behind;
    if Replaceable(before) {
      assert run[|before| - 1 := wanted] == before[..|before| - 1] + [wanted] + [mark] + behind;
    }
  }

  /** The lines above the recorded default once the pass is done. */
  function Fronted(run: Doc, item: Item): Doc {
    var wanted := Note(item.description, true);
    if item.description == "" || wanted in Marked(run, item.default) then Before(run)
    else if RecordedDefault(run).None? then Before(run) + [wanted]
    else Described(Before(run), wanted)
  }

  /**
   * The comments after the pass: all the lines from the recorded default down are kept, and of those above it at most
   * the one directly above goes, if it looks like a description while the line above it does not.
   */
  lemma CommentsKept(run: Doc, item: Item)
    ensures SyncedAbove(run, item) == Fronted(run, item) + [Recorded(Some(Recording(run, item.default)))] + Behind(run)
  {
    MarkedShape(run, item.default);
    var wanted := Note(item.description, true);
    if item.description != "" && wanted !in Marked(run, item.default) {
      PlacedShape(Before(run), Recorded(Some(Recording(run, item.default))), Behind(run), wanted);
    }
  }

  ghost predicate Unmarked(run: Doc) {
    forall k :: 0 <= k < |run| ==> !run[k].Recorded?
  }

  lemma {:induction false} MarkIsLast(front: Doc, mark: Value, behind: Doc)
    requires Unmarked(behind)
    ensures RecordedDefault(front + [Recorded(Some(mark))] + behind) == Some(Record(|front|, Some(mark)))
  {
    RecordedIs(front + [Recorded(Some(mark))] + behind, |front|);
  }

  lemma BehindIsUnmarked(run: Doc)
    ensures Unmarked(Behind(run))
  {
    RecordedIsLast(run);
  }

  lemma SyncedAboveRecords(run: Doc, item: Item)
    ensures Known(SyncedAbove(run, item)) == Some(Recording(run, item.default))
  {
    CommentsKept(run, item);
    BehindIsUnmarked(run);
    MarkIsLast(Fronted(run, item), Recording(run, item.default), Behind(run));
  }

  lemma DescribedHas(before: Doc, wanted: Line)
    ensures wanted in Described(before, wanted) && wanted in before + [wanted]
  {
    assert (before + [wanted])[|before|] == wanted;
    if Replaceable(before) {
      assert Described(before, wanted)[|before| - 1] == wanted;
    }
  }

  lemma SyncedAboveDescribes(run: Doc, item: Item)
    ensures item.description != "" ==> Note(item.description, true) in SyncedAbove(run, item)
  {
    CommentsKept(run, item);
    var wanted := Note(item.description, true);
    if item.description != "" && wanted !in Marked(run, item.default) {
      DescribedHas(Before(run), wanted);
      assert wanted in Fronted(run, item);
    }
  }

  lemma FrontedComments(run: Doc, item: Item)
    requires Comments(run)
    ensures Comments(Fronted(run, item))
  {
    assert Comments(Before(run));
  }

  lemma CommentsAround(front: Doc, mark: Line, behind: Doc)
    requires Comments(front) && Comment(mark) && Comments(behind)
    ensures Comments(front + [mark] + behind)
  {
  }

  lemma SyncedAboveComments(run: Doc, item: Item)
    requires Comments(run)
    ensures Comments(SyncedAbove(run, item))
  {
    CommentsKept(run, item);
    FrontedComments(run, item);
    CommentsAround(Fronted(run, item), Recorded(Some(Recording(run, item.default))), Behind(run));
  }

  /** Bringing the comments up to date twice is bringing them up to date once. */
  lemma SyncedAboveTwice(run: Doc, item: Item)
    ensures SyncedAbove(SyncedAbove(run, item), item) == SyncedAbove(run, item)
  {
    SyncedAboveRecords(run, item);
    SyncedAboveDescribes(run, item);
    EqualIsEquivalence(item.default, item.default, item.default);
  }

  // ----- what the pass does to what the file says -----

  function SyncedView(v: View, item: Item): View {
    if !Writable(item.default) then v
    else
      match v
      case Absent => Single(1, item.default, Describe(item) + [Recorded(Some(item.default))])
      case Single(depth, current, run) =>
        Single(depth,
               if Moves(current, Known(run), item.default) then item.default else current,
               SyncedAbove(run, item))
      case _ => v
  }

  lemma SyncedViewTwice(v: View, item: Item)
    ensures SyncedView(SyncedView(v, item), item) == SyncedView(v, item)
  {
    EqualIsEquivalence(item.default, item.default, item.default);
    match v
    case Single(_, _, run) =>
      SyncedAboveTwice(run, item);
      SyncedAboveRecords(run, item);
    case _ =>
      var run := Describe(item) + [Recorded(Some(item.default))];
      RecordedIs(run, |run| - 1);
      assert item.description != "" ==> run[0] == Note(item.description, true);
  }

  /** One setting's step changes what the file says about that setting, as specified, and about no other. */
  lemma {:induction false} SyncOneView(doc: Doc, item: Item, key: Key)
    ensures ViewOf(SyncOne(doc, item), key)
            == if key == item.key then SyncedView(ViewOf(doc, key), item) else ViewOf(doc, key)
  {
    if Writable(item.default) {
      match ViewOf(doc, item.key)
      case Absent =>
        WithEntryView(doc, item.key, item.default, Describe(item) + [Recorded(Some(item.default))], key);
      case Single(_, current, run) =>
        var c, d := EntryParts(doc, item.key, item.default);
        SyncedAboveComments(run, item);
        var moved := if Moves(current, Known(run), item.default) then WithValue(doc, item.key, item.default) else doc;
        WithValueView(doc, item.key, item.default, key);
        WithValueView(doc, item.key, item.default, item.key);
        if SyncedAbove(run, item) != run {
          WithAboveView(moved, item.key, SyncedAbove(run, item), key);
        }
      case _ =>
    }
  }

  /** A setting the file lacks appears with its default, the default recorded above it, and its description if any. */
  lemma {:induction false} NewEntryExactly(doc: Doc, item: Item)
    requires Writable(item.default) && ViewOf(doc, item.key).Absent?
    ensures ViewOf(SyncOne(doc, item), item.key)
            == Single(1, item.default,
                      if item.description == "" then [Recorded(Some(item.default))]
                      else [Note(item.description, true), Recorded(Some(item.default))])
  {
    SyncOneView(doc, item, item.key);
  }

  // ----- the pass in place -----

  lemma {:induction false} SyncedIsComments(doc: Doc, item: Item)
    requires ViewOf(doc, item.key).Single?
    ensures Comments(SyncedAbove(ViewOf(doc, item.key).above, item))
  {
    var c, d := EntryParts(doc, item.key, item.default);
    SyncedAboveComments(ViewOf(doc, item.key).above, item);
  }

  method SyncSetting(doc: TomlDocument, item: Item) returns (intended: Option<Value>)
    modifies doc
    ensures doc.lines == SyncOne(old(doc.lines), item)
    ensures intended == IntendsOne(old(doc.lines), item)
  {
    if !Writable(item.default) {
      return None;
    }
    var view := ViewOf(doc.lines, item.key);
    if view.Absent? {
      var inserted := doc.Insert(item.key, item.default, Describe(item) + [Recorded(Some(item.default))]);
      return Some(item.default);
    }
    if !view.Single? {
      return None;
    }
    var above, known := SyncAbove(view.above, item);
    SyncedIsComments(doc.lines, item);
    intended := None;
    if Moves(view.setting, known, item.default) {
      WithValueView(doc.lines, item.key, item.default, item.key);
      var changed := doc.SetValue(item.key, item.default);
      intended := Some(item.default);
    }
    if above != view.above {
      var placed := doc.SetCommentAbove(item.key, above);
    }
  }

  lemma {:induction false} SyncOneMore(doc: Doc, registry: Registry, k: nat)
    requires k < |registry|
    ensures Sync(doc, registry[..k + 1]) == SyncOne(Sync(doc, registry[..k]), registry[k])
  {
    assert registry[..k + 1][..k] == registry[..k];
  }

  lemma {:induction false} IntendsOneMore(doc: Doc, registry: Registry, k: nat)
    requires k < |registry|
    ensures var one := IntendsOne(Sync(doc, registry[..k]), registry[k]);
            Intends(doc, registry[..k + 1])
            == if one.Some? then Intends(doc, registry[..k])[registry[k].key := one.value]
               else Intends(doc, registry[..k])
  {
    assert registry[..k + 1][..k] == registry[..k];
  }

  method ApplySync(doc: TomlDocument, registry: Registry) returns (intended: map<Key, Value>)
    modifies doc
    ensures doc.lines == Sync(old(doc.lines), registry)
    ensures intended == Intends(old(doc.lines), registry)
  {
    intended := map[];
    ghost var start := doc.lines;
    var k := 0;
    while k < |registry|
      invariant k <= |registry|
      invariant doc.lines == Sync(start, registry[..k])
      invariant intended == Intends(start, registry[..k])
    {
      SyncOneMore(start, registry, k);
      IntendsOneMore(start, registry, k);
      var one := SyncSetting(doc, registry[k]);
      if one.Some? {
        intended := intended[registry[k].key := one.value];
      }
      k := k + 1;
    }
    assert registry[..|registry|] == registry;
  }
}
