/** The settings file itself: the boot pass and the in-place writer, each under the file's lock. */
module SettingsFile {
  import opened BootPass
  import opened BootRuns
  import opened SettingsDocument
  import opened SettingValues
  import opened Wrappers

  /** `Unreadable` does not parse or cannot be read. */
  datatype File = Missing | Empty | Unreadable | Text(doc: Doc)

  /** What a call meets: did it get the lock in time, and does its write reach the disk? */
  datatype Meets = Meets(lock: bool, io: bool)

  /** The header of a file the app creates, cut down to its first line. */
  const HEADER: Doc := [Note("Settings for this install. Safe to edit by hand.", true)]

  // ----- the boot pass on the file -----

  function AfterSync(file: File, registry: Registry, meets: Meets): File {
    if !meets.lock then file
    else
      match file
      case Unreadable => file
      case Text(doc) =>
        var after := Sync(doc, registry);
        if after == doc || Values(after) != Values(doc) + Intends(doc, registry) || !meets.io then file else Text(after)
      case _ =>
        var after := Sync(HEADER, registry);
        if registry == [] || Values(after) != Intends(HEADER, registry) || !meets.io then file else Text(after)
  }

  // ----- the writer -----

  /** A change of one setting; none resets it to its default. */
  datatype Update = Update(key: Key, value: Option<Value>)

  datatype Reason = NoDefault | Unwritable | LockTimeout | NotParsed | NotEditable | NotVerified | NotSaved

  datatype Outcome = Wrote(values: map<Key, Value>) | Failed(reason: Reason)

  /** Why an update is refused before anything is read, if it is. */
  function Refused(u: Update, registry: Registry): Option<Reason> {
    var item := ItemFor(registry, u.key);
    if u.value.None? && item.None? then Some(NoDefault)
    else if !Writable(if u.value.Some? then u.value.value else item.value.default) then Some(Unwritable)
    else None
  }

  function FirstRefusal(updates: seq<Update>, registry: Registry): (r: Option<Reason>)
    ensures r.None? <==> forall k :: 0 <= k < |updates| ==> Refused(updates[k], registry).None?
    ensures r.Some? ==> r.value == NoDefault || r.value == Unwritable
  {
    if updates == [] then None
    else
      var r := FirstRefusal(updates[..|updates| - 1], registry);
      if r.Some? then r else Refused(updates[|updates| - 1], registry)
  }

  function Target(u: Update, registry: Registry): Value
    requires Refused(u, registry).None?
  {
    if u.value.Some? then u.value.value else ItemFor(registry, u.key).value.default
  }

  /** Is this target written over what the file says now? */
  predicate Puts(current: Option<Value>, item: Option<Item>, target: Value, onlyIfDefault: bool) {
    if onlyIfDefault && current.Some? && (item.None? || !Equal(current.value, item.value.default)) then false
    else if current.Some? then current.value != target
    else !(item.Some? && Equal(item.value.default, target))
  }

  function EntryComments(item: Option<Item>): Doc {
    if item.Some? then Describe(item.value) + [Recorded(Some(item.value.default))] else []
  }

  /** One setting written; none when the file has an entry that cannot be changed in place. */
  function PutOne(doc: Doc, key: Key, target: Value, item: Option<Item>): Option<Doc> {
    match ViewOf(doc, key)
    case Single(_, _, _) => Some(WithValue(doc, key, target))
    case Absent =>
      if item.Some? && !Writable(item.value.default) then None
      else Some(WithEntry(doc, key, target, EntryComments(item)))
    case _ => None
  }

  datatype Put = Put(doc: Doc, written: map<Key, Value>)

  ghost predicate Accepted(updates: seq<Update>, registry: Registry) {
    forall k :: 0 <= k < |updates| ==> Refused(updates[k], registry).None?
  }

  function PutStep(before: Put, current: map<Key, Value>, u: Update, registry: Registry,
                   onlyIfDefault: bool): Option<Put>
    requires Refused(u, registry).None?
  {
    var item, target := ItemFor(registry, u.key), Target(u, registry);
    if !Puts(Find(current, u.key), item, target, onlyIfDefault) then Some(before)
    else
      var after := PutOne(before.doc, u.key, target, item);
      if after.None? then None else Some(Put(after.value, before.written[u.key := target]))
  }

  /** The updates one after another, each judged by what the file said at the start. */
  function PutAll(doc: Doc, current: map<Key, Value>, updates: seq<Update>, registry: Registry,
                  onlyIfDefault: bool): Option<Put>
    requires Accepted(updates, registry)
  {
    if updates == [] then Some(Put(doc, map[]))
    else
      var before := PutAll(doc, current, updates[..|updates| - 1], registry, onlyIfDefault);
      if before.None? then None else PutStep(before.value, current, updates[|updates| - 1], registry, onlyIfDefault)
  }

  /** The document the writer starts from: a missing or empty file counts as the one the boot pass would create. */
  function Base(file: File, registry: Registry): Doc {
    if file.Text? then file.doc else Sync(HEADER, registry)
  }

  function AfterSet(file: File, registry: Registry, updates: seq<Update>, onlyIfDefault: bool, meets: Meets): (File,
                    Outcome) {
    var refusal := FirstRefusal(updates, registry);
    if refusal.Some? then (file, Failed(refusal.value))
    else if !meets.lock then (file, Failed(LockTimeout))
    else if file.Unreadable? then (file, Failed(NotParsed))
    else
      var base := Base(file, registry);
      var put := PutAll(base, Values(base), updates, registry, onlyIfDefault);
      if put.None? then (file, Failed(NotEditable))
      else if put.value.written == map[] then (file, Wrote(map[]))
      else if Values(put.value.doc) != Values(base) + put.value.written then (file, Failed(NotVerified))
      else if !meets.io then (file, Failed(NotSaved))
      else (Text(put.value.doc), Wrote(put.value.written))
  }

  class SettingsStore {
    var file: File

    constructor (file: File)
      ensures this.file == file
    {
      this.file := file;
    }

    method SyncFile(registry: Registry, meets: Meets)
      modifies this
      ensures file == AfterSync(old(file), registry, meets)
    {
      if !meets.lock || file.Unreadable? {
        return;
      }
      var isNew := !file.Text?;
      if isNew && registry == [] {
        return;
      }
      var doc := new TomlDocument(if isNew then HEADER else file.doc);
      var expected := if isNew then map[] else Values(doc.lines);
      var intended := ApplySync(doc, registry);
      expected := expected + intended;
      assert isNew ==> expected == intended;
      if !isNew && doc.lines == file.doc {
        return;
      }
      if Values(doc.lines) != expected || !meets.io {
        return;
      }
      file := Text(doc.lines);
    }

    method SetValues(registry: Registry, updates: seq<Update>, onlyIfDefault: bool, meets: Meets)
      returns (outcome: Outcome)
      modifies this
      ensures (file, outcome) == AfterSet(old(file), registry, updates, onlyIfDefault, meets)
    {
      var refusal := FirstRefusal(updates, registry);
      if refusal.Some? {
        return Failed(refusal.value);
      }
      if !meets.lock {
        return Failed(LockTimeout);
      }
      if file.Unreadable? {
        return Failed(NotParsed);
      }
      var isNew := !file.Text?;
      var doc := new TomlDocument(if isNew then HEADER else file.doc);
      if isNew {
        var _ := ApplySync(doc, registry);
      }
      var current := Values(doc.lines);
      var written := PutUpdates(doc, current, updates, registry, onlyIfDefault);
      if written.None? {
        return Failed(NotEditable);
      }
      if written.value == map[] {
        return Wrote(map[]);
      }
      if Values(doc.lines) != current + written.value {
        return Failed(NotVerified);
      }
      if !meets.io {
        return Failed(NotSaved);
      }
      file := Text(doc.lines);
      return Wrote(written.value);
    }
  }

  method PutUpdates(doc: TomlDocument, current: map<Key, Value>, updates: seq<Update>, registry: Registry,
                    onlyIfDefault: bool)
    returns (written: Option<map<Key, Value>>)
    requires Accepted(updates, registry)
    modifies doc
    ensures var put := PutAll(old(doc.lines), current, updates, registry, onlyIfDefault);
            if written.Some? then put == Some(Put(doc.lines, written.value)) else put.None?
  {
    var values: map<Key, Value> := map[];
    ghost var base, so := doc.lines, Put(doc.lines, map[]);
    var k := 0;
    while k < |updates|
      invariant k <= |updates| && so == Put(doc.lines, values)
      invariant PutAll(base, current, updates[..k], registry, onlyIfDefault) == Some(so)
    {
      OneMoreUpdate(base, current, updates, registry, onlyIfDefault, k);
      var one := PutUpdate(doc, current, updates[k], registry, onlyIfDefault, values);
      if one.None? {
        NoneFromThere(base, current, updates, registry, onlyIfDefault, k + 1);
        return None;
      }
      values := one.value;
      so := Put(doc.lines, values);
      k := k + 1;
    }
    assert updates[..|updates|] == updates;
    return Some(values);
  }

  method PutUpdate(doc: TomlDocument, current: map<Key, Value>, u: Update, registry: Registry, onlyIfDefault: bool,
                   written: map<Key, Value>) returns (after: Option<map<Key, Value>>)
    requires Refused(u, registry).None?
    modifies doc
    ensures var put := PutStep(Put(old(doc.lines), written), current, u, registry, onlyIfDefault);
            if after.Some? then put == Some(Put(doc.lines, after.value)) else put.None?
  {
    var item, target := ItemFor(registry, u.key), Target(u, registry);
    if !Puts(Find(current, u.key), item, target, onlyIfDefault) {
      return Some(written);
    }
    var done := PutSetting(doc, u.key, target, item);
    return if done then Some(written[u.key := target]) else None;
  }

  method PutSetting(doc: TomlDocument, key: Key, target: Value, item: Option<Item>) returns (done: bool)
    modifies doc
    ensures var after := PutOne(old(doc.lines), key, target, item);
            done == after.Some? && doc.lines == if done then after.value else old(doc.lines)
  {
    var view := ViewOf(doc.lines, key);
    if view.Single? {
      done := doc.SetValue(key, target);
      return;
    }
    if view.Absent? && !(item.Some? && !Writable(item.value.default)) {
      done := doc.Insert(key, target, EntryComments(item));
      return;
    }
    return false;
  }

  lemma {:induction false} OneMoreUpdate(doc: Doc, current: map<Key, Value>, updates: seq<Update>, registry: Registry,
                                         onlyIfDefault: bool, k: nat)
    requires k < |updates| && Accepted(updates, registry)
    ensures Accepted(updates[..k], registry) && Accepted(updates[..k + 1], registry)
    ensures var before := PutAll(doc, current, updates[..k], registry, onlyIfDefault);
            PutAll(doc, current, updates[..k + 1], registry, onlyIfDefault)
            == if before.None? then None else PutStep(before.value, current, updates[k], registry, onlyIfDefault)
  {
    assert updates[..k + 1][..k] == updates[..k];
  }

  lemma {:induction false} NoneFromThere(doc: Doc, current: map<Key, Value>, updates: seq<Update>, registry: Registry,
                                         onlyIfDefault: bool, k: nat)
    requires k <= |updates| && Accepted(updates, registry)
    requires PutAll(doc, current, updates[..k], registry, onlyIfDefault) == None
    ensures PutAll(doc, current, updates, registry, onlyIfDefault) == None
    decreases |updates| - k
  {
    if k < |updates| {
      OneMoreUpdate(doc, current, updates, registry, onlyIfDefault, k);
      NoneFromThere(doc, current, updates, registry, onlyIfDefault, k + 1);
    } else {
      assert updates[..k] == updates;
    }
  }

  // ----- what the writer does -----

  ghost predicate DistinctUpdates(updates: seq<Update>) {
    forall i, j :: 0 <= i < j < |updates| ==> updates[i].key != updates[j].key
  }

  /** What the file says about a setting once it is written. */
  function PutView(v: View, target: Value, item: Option<Item>): View {
    match v
    case Single(depth, _, above) => Single(depth, target, above)
    case _ => Single(1, target, EntryComments(item))
  }

  predicate Editable(v: View, item: Option<Item>) {
    v.Single? || (v.Absent? && (item.Some? ==> Writable(item.value.default)))
  }

  lemma {:induction false} PutOneView(doc: Doc, key: Key, target: Value, item: Option<Item>, other: Key)
    ensures PutOne(doc, key, target, item).Some? <==> Editable(ViewOf(doc, key), item)
    ensures PutOne(doc, key, target, item).Some? ==>
              ViewOf(PutOne(doc, key, target, item).value, other)
              == if other == key then PutView(ViewOf(doc, key), target, item) else ViewOf(doc, other)
  {
    match ViewOf(doc, key)
    case Single(_, _, _) => WithValueView(doc, key, target, other);
    case Absent => WithEntryView(doc, key, target, EntryComments(item), other);
    case _ =>
  }

  /** The update for a key, if there is one. */
  function UpdateFor(updates: seq<Update>, key: Key): (u: Option<Update>)
    ensures u.Some? ==> u.value in updates && u.value.key == key
    ensures u.None? ==> forall k :: 0 <= k < |updates| ==> updates[k].key != key
  {
    if updates == [] then None
    else if updates[|updates| - 1].key == key then Some(updates[|updates| - 1])
    else UpdateFor(updates[..|updates| - 1], key)
  }

  /** What the writer means to write for one key, if anything. */
  function Wanted(doc: Doc, updates: seq<Update>, registry: Registry, onlyIfDefault: bool, key: Key): Option<Value>
    requires Accepted(updates, registry)
  {
    var u := UpdateFor(updates, key);
    if u.Some? && Puts(ValueOf(doc, key), ItemFor(registry, key), Target(u.value, registry), onlyIfDefault)
    then Some(Target(u.value, registry)) else None
  }

  predicate EditableIfPut(doc: Doc, u: Update, registry: Registry, onlyIfDefault: bool)
    requires Refused(u, registry).None?
  {
    Puts(ValueOf(doc, u.key), ItemFor(registry, u.key), Target(u, registry), onlyIfDefault) ==>
      Editable(ViewOf(doc, u.key), ItemFor(registry, u.key))
  }

  lemma {:induction false} WantedInPrefix(doc: Doc, updates: seq<Update>, registry: Registry, onlyIfDefault: bool,
                                          key: Key, n: nat)
    requires n < |updates| && DistinctUpdates(updates) && Accepted(updates, registry)
    ensures Wanted(doc, updates[..n + 1], registry, onlyIfDefault, key)
            == if key == updates[n].key
               then if Puts(ValueOf(doc, key), ItemFor(registry, key), Target(updates[n], registry), onlyIfDefault)
                    then Some(Target(updates[n], registry)) else None
               else Wanted(doc, updates[..n], registry, onlyIfDefault, key)
    ensures key == updates[n].key ==> UpdateFor(updates[..n], key).None?
  {
    assert updates[..n + 1][..n] == updates[..n];
  }

  lemma {:induction false} StepViews(before: Put, current: map<Key, Value>, u: Update, registry: Registry,
                                     onlyIfDefault: bool, after: Put, key: Key)
    requires Refused(u, registry).None? && PutStep(before, current, u, registry, onlyIfDefault) == Some(after)
    ensures var item, target := ItemFor(registry, u.key), Target(u, registry);
            if key == u.key && Puts(Find(current, u.key), item, target, onlyIfDefault)
            then
              && Find(after.written, key) == Some(target)
              && ViewOf(after.doc, key) == PutView(ViewOf(before.doc, key), target, item)
            else
              && Find(after.written, key) == Find(before.written, key)
              && ViewOf(after.doc, key) == ViewOf(before.doc, key)
  {
    PutOneView(before.doc, u.key, Target(u, registry), ItemFor(registry, u.key), key);
  }

  /**
   * The writer writes exactly what is wanted, setting by setting, and changes what the file says about nothing else.
   */
  lemma {:induction false} PutViews(doc: Doc, updates: seq<Update>, registry: Registry, onlyIfDefault: bool, n: nat,
                                    key: Key)
    requires n <= |updates| && DistinctUpdates(updates) && Accepted(updates, registry)
    requires PutAll(doc, Values(doc), updates[..n], registry, onlyIfDefault).Some?
    ensures var put := PutAll(doc, Values(doc), updates[..n], registry, onlyIfDefault).value;
            var wanted := Wanted(doc, updates[..n], registry, onlyIfDefault, key);
            && Find(put.written, key) == wanted
            && ViewOf(put.doc, key)
               == if wanted.Some? then PutView(ViewOf(doc, key), wanted.value, ItemFor(registry, key))
                  else ViewOf(doc, key)
    decreases n
  {
    if n > 0 {
      OneMoreUpdate(doc, Values(doc), updates, registry, onlyIfDefault, n - 1);
      var u := updates[n - 1];
      PutViews(doc, updates, registry, onlyIfDefault, n - 1, key);
      WantedInPrefix(doc, updates, registry, onlyIfDefault, key, n - 1);
      var before := PutAll(doc, Values(doc), updates[..n - 1], registry, onlyIfDefault).value;
      var after := PutAll(doc, Values(doc), updates[..n], registry, onlyIfDefault).value;
      StepViews(before, Values(doc), u, registry, onlyIfDefault, after, key);
    }
  }

  lemma {:induction false} StepSucceeds(doc: Doc, updates: seq<Update>, registry: Registry, onlyIfDefault: bool, n: nat)
    requires n < |updates| && DistinctUpdates(updates) && Accepted(updates, registry)
    requires PutAll(doc, Values(doc), updates[..n], registry, onlyIfDefault).Some?
    ensures PutAll(doc, Values(doc), updates[..n + 1], registry, onlyIfDefault).Some?
            <==> EditableIfPut(doc, updates[n], registry, onlyIfDefault)
  {
    OneMoreUpdate(doc, Values(doc), updates, registry, onlyIfDefault, n);
    var u := updates[n];
    PutViews(doc, updates, registry, onlyIfDefault, n, u.key);
    WantedInPrefix(doc, updates, registry, onlyIfDefault, u.key, n);
    var before := PutAll(doc, Values(doc), updates[..n], registry, onlyIfDefault).value;
    PutOneView(before.doc, u.key, Target(u, registry), ItemFor(registry, u.key), u.key);
  }

  /** The writer gives up exactly when a setting it has to write is one the file does not let it edit. */
  lemma {:induction false} PutSucceeds(doc: Doc, updates: seq<Update>, registry: Registry, onlyIfDefault: bool, n: nat)
    requires n <= |updates| && DistinctUpdates(updates) && Accepted(updates, registry)
    ensures PutAll(doc, Values(doc), updates[..n], registry, onlyIfDefault).Some?
            <==> forall k :: 0 <= k < n ==> EditableIfPut(doc, updates[k], registry, onlyIfDefault)
    decreases n
  {
    if n > 0 {
      PutSucceeds(doc, updates, registry, onlyIfDefault, n - 1);
      OneMoreUpdate(doc, Values(doc), updates, registry, onlyIfDefault, n - 1);
      if PutAll(doc, Values(doc), updates[..n - 1], registry, onlyIfDefault).Some? {
        StepSucceeds(doc, updates, registry, onlyIfDefault, n - 1);
      }
    }
  }

  lemma {:induction false} WrittenValue(doc: Doc, updates: seq<Update>, registry: Registry, onlyIfDefault: bool,
                                        put: Put, key: Key)
    requires DistinctUpdates(updates) && Accepted(updates, registry)
    requires PutAll(doc, Values(doc), updates, registry, onlyIfDefault) == Some(put)
    ensures ValueOf(put.doc, key) == if key in put.written then Some(put.written[key]) else ValueOf(doc, key)
  {
    assert updates[..|updates|] == updates;
    PutViews(doc, updates, registry, onlyIfDefault, |updates|, key);
  }

  lemma SumReadsBack(before: Doc, after: Doc, written: map<Key, Value>)
    requires forall key :: ValueOf(after, key) == if key in written then Some(written[key]) else ValueOf(before, key)
    ensures Values(after) == Values(before) + written
  {
    SameFinds(Values(after), Values(before) + written);
  }

  /** What the writer reports as written is what reading the file back shows: the check before the write cannot fail. */
  lemma {:induction false} PutReadsBack(doc: Doc, updates: seq<Update>, registry: Registry, onlyIfDefault: bool,
                                        put: Put)
    requires DistinctUpdates(updates) && Accepted(updates, registry)
    requires PutAll(doc, Values(doc), updates, registry, onlyIfDefault) == Some(put)
    ensures Values(put.doc) == Values(doc) + put.written
  {
    forall key
      ensures ValueOf(put.doc, key) == if key in put.written then Some(put.written[key]) else ValueOf(doc, key)
    {
      WrittenValue(doc, updates, registry, onlyIfDefault, put, key);
    }
    SumReadsBack(doc, put.doc, put.written);
  }

  /** What the settings say for a key; a file that is not there yet says what the one the app would create says. */
  function Says(file: File, registry: Registry, key: Key): Option<Value> {
    ValueOf(Base(file, registry), key)
  }

  /**
   * One call of the writer: it fails with the file untouched, or every setting named gets exactly its target where one
   * is wanted, and no other setting, no comment and no other line about one changes.
   */
  lemma {:induction false} SetExactly(file: File, registry: Registry, updates: seq<Update>, onlyIfDefault: bool,
                                      meets: Meets, key: Key)
    requires DistinctUpdates(updates)
    ensures var (after, outcome) := AfterSet(file, registry, updates, onlyIfDefault, meets);
            && (outcome.Failed? ==> after == file && outcome.reason != NotVerified)
            && (outcome == Wrote(map[]) ==> after == file)
            && (outcome.Wrote? ==>
                  var base := Base(file, registry);
                  && Accepted(updates, registry)
                  && Find(outcome.values, key) == Wanted(base, updates, registry, onlyIfDefault, key)
                  && ViewOf(Base(after, registry), key)
                     == if key in outcome.values
                        then PutView(ViewOf(base, key), outcome.values[key], ItemFor(registry, key))
                        else ViewOf(base, key))
  {
    var (after, outcome) := AfterSet(file, registry, updates, onlyIfDefault, meets);
    if Accepted(updates, registry) && !file.Unreadable? {
      var base := Base(file, registry);
      assert updates[..|updates|] == updates;
      var put := PutAll(base, Values(base), updates, registry, onlyIfDefault);
      if put.Some? {
        PutViews(base, updates, registry, onlyIfDefault, |updates|, key);
        PutReadsBack(base, updates, registry, onlyIfDefault, put.value);
      }
    }
  }

  /** Exactly when a call of the writer goes through. */
  lemma {:induction false} SetGoesThrough(file: File, registry: Registry, updates: seq<Update>, onlyIfDefault: bool,
                                          meets: Meets)
    requires DistinctUpdates(updates)
    ensures AfterSet(file, registry, updates, onlyIfDefault, meets).1.Wrote?
            <==> && Accepted(updates, registry) && meets.lock && !file.Unreadable?
                 && (forall k :: 0 <= k < |updates| ==>
                    EditableIfPut(Base(file, registry), updates[k], registry, onlyIfDefault))
                 && (meets.io || forall k :: 0 <= k < |updates| ==>
                       !Puts(Says(file, registry, updates[k].key), ItemFor(registry, updates[k].key),
                             Target(updates[k], registry), onlyIfDefault))
  {
    if Accepted(updates, registry) && meets.lock && !file.Unreadable? {
      var base := Base(file, registry);
      PutSucceeds(base, updates, registry, onlyIfDefault, |updates|);
      assert updates[..|updates|] == updates;
      var put := PutAll(base, Values(base), updates, registry, onlyIfDefault);
      if put.Some? {
        PutReadsBack(base, updates, registry, onlyIfDefault, put.value);
        WrittenAreThosePut(base, updates, registry, onlyIfDefault);
      }
    }
  }

  lemma {:induction false} UpdateForEach(updates: seq<Update>, k: nat)
    requires DistinctUpdates(updates) && k < |updates|
    ensures UpdateFor(updates, updates[k].key) == Some(updates[k])
  {
    if k < |updates| - 1 {
      UpdateForEach(updates[..|updates| - 1], k);
    }
  }

  lemma {:induction false} WrittenAreThosePut(doc: Doc, updates: seq<Update>, registry: Registry, onlyIfDefault: bool)
    requires DistinctUpdates(updates) && Accepted(updates, registry)
    requires PutAll(doc, Values(doc), updates, registry, onlyIfDefault).Some?
    ensures PutAll(doc, Values(doc), updates, registry, onlyIfDefault).value.written == map[]
            <==> forall k :: 0 <= k < |updates| ==>
                   !Puts(ValueOf(doc, updates[k].key), ItemFor(registry, updates[k].key), Target(updates[k], registry),
                         onlyIfDefault)
  {
    assert updates[..|updates|] == updates;
    var written := PutAll(doc, Values(doc), updates, registry, onlyIfDefault).value.written;
    forall k | 0 <= k < |updates|
      ensures updates[k].key in written
              <==> Puts(ValueOf(doc, updates[k].key), ItemFor(registry, updates[k].key), Target(updates[k], registry),
                        onlyIfDefault)
    {
      UpdateForEach(updates, k);
      PutViews(doc, updates, registry, onlyIfDefault, |updates|, updates[k].key);
    }
    if written != map[] {
      var key :| key in written;
      PutViews(doc, updates, registry, onlyIfDefault, |updates|, key);
    }
  }

  /** With the only-if-default guard a value that differs from its setting's default is never changed by a call. */
  lemma {:induction false} GuardedKeepsChoices(file: File, registry: Registry, updates: seq<Update>, meets: Meets,
                                               key: Key)
    requires DistinctUpdates(updates) && Says(file, registry, key).Some?
    requires var item := ItemFor(registry, key);
             item.None? || !Equal(Says(file, registry, key).value, item.value.default)
    ensures Says(AfterSet(file, registry, updates, true, meets).0, registry, key) == Says(file, registry, key)
  {
    SetExactly(file, registry, updates, true, meets, key);
  }

  /** A reset leaves the setting at its default or, if the file has no entry for it, leaves it out. */
  lemma {:induction false} ResetGivesTheDefault(file: File, registry: Registry, updates: seq<Update>, meets: Meets,
                                                key: Key)
    requires DistinctUpdates(updates) && UpdateFor(updates, key) == Some(Update(key, None))
    requires AfterSet(file, registry, updates, false, meets).1.Wrote?
    ensures ItemFor(registry, key).Some?
    ensures var after := Says(AfterSet(file, registry, updates, false, meets).0, registry, key);
            after == Some(ItemFor(registry, key).value.default) || (after.None? && Says(file, registry, key).None?)
  {
    SetExactly(file, registry, updates, false, meets, key);
    var item := ItemFor(registry, key);
    assert Refused(UpdateFor(updates, key).value, registry).None?;
    EqualIsEquivalence(item.value.default, item.value.default, item.value.default);
  }

  /**
   * What a call that goes through makes of every setting, told by what the file said and says. A setting that an update
   * names says its target: the value given, or its default for a reset; but one that said nothing says nothing still if
   * the target is equal to its default. With the only-if-default guard that holds where the file said nothing or the
   * default. All else is as it was.
   */
  lemma {:induction false} SetSays(file: File, registry: Registry, updates: seq<Update>, onlyIfDefault: bool,
                                   meets: Meets, key: Key)
    requires DistinctUpdates(updates) && AfterSet(file, registry, updates, onlyIfDefault, meets).1.Wrote?
    ensures var item := ItemFor(registry, key);
            var before := Says(file, registry, key);
            var after := Says(AfterSet(file, registry, updates, onlyIfDefault, meets).0, registry, key);
            && (forall k :: 0 <= k < |updates| && updates[k].key == key ==>
                  && (updates[k].value.None? ==> item.Some?)
                  && var target := if updates[k].value.Some? then updates[k].value.value else item.value.default;
                     if onlyIfDefault && before.Some? && !(item.Some? && Equal(before.value, item.value.default))
                     then after == before
                     else if before.None? && item.Some? && Equal(item.value.default, target) then after == None
                     else after == Some(target))
            && ((forall k :: 0 <= k < |updates| ==> updates[k].key != key) ==> after == before)
  {
    SetExactly(file, registry, updates, onlyIfDefault, meets, key);
    forall k | 0 <= k < |updates| && updates[k].key == key
      ensures UpdateFor(updates, key) == Some(updates[k]) && Refused(updates[k], registry).None?
    {
      UpdateForEach(updates, k);
    }
  }

  /** Why an update is refused on its own: a reset of a setting without a default, or a value no file can hold. */
  ghost predicate BadUpdate(u: Update, registry: Registry, reason: Reason) {
    var item := ItemFor(registry, u.key);
    match reason
    case NoDefault => u.value.None? && item.None?
    case Unwritable =>
      if u.value.Some? then !Writable(u.value.value) else item.Some? && !Writable(item.value.default)
    case _ => false
  }

  /** Is there something to write for this update, as the file stands? */
  ghost predicate ToWrite(file: File, registry: Registry, u: Update, onlyIfDefault: bool) {
    var item, says := ItemFor(registry, u.key), Says(file, registry, u.key);
    && (u.value.Some? || item.Some?)
    && var target := if u.value.Some? then u.value.value else item.value.default;
       && (onlyIfDefault && says.Some? ==> item.Some? && Equal(says.value, item.value.default))
       && if says.Some? then says.value != target else item.None? || !Equal(item.value.default, target)
  }

  lemma {:induction false} FirstBad(updates: seq<Update>, registry: Registry)
    ensures var r := FirstRefusal(updates, registry);
            if r.None? then forall k, reason :: 0 <= k < |updates| ==> !BadUpdate(updates[k], registry, reason)
            else exists k :: 0 <= k < |updates| && BadUpdate(updates[k], registry, r.value)
                   && forall j, reason :: 0 <= j < k ==> !BadUpdate(updates[j], registry, reason)
  {
    if updates != [] {
      var front := updates[..|updates| - 1];
      FirstBad(front, registry);
      var r := FirstRefusal(front, registry);
      if r.Some? {
        var k :| 0 <= k < |front| && BadUpdate(front[k], registry, r.value)
          && forall j, reason :: 0 <= j < k ==> !BadUpdate(front[j], registry, reason);
        assert updates[k] == front[k];
        assert forall j :: 0 <= j < k ==> updates[j] == front[j];
      } else {
        assert forall j :: 0 <= j < |front| ==> updates[j] == front[j];
      }
    }
  }

  /** Is there an update to be written whose entry the file does not let the writer edit? */
  ghost predicate Blocked(file: File, registry: Registry, updates: seq<Update>, onlyIfDefault: bool) {
    exists k :: 0 <= k < |updates| && ToWrite(file, registry, updates[k], onlyIfDefault)
      && !Editable(ViewOf(Base(file, registry), updates[k].key), ItemFor(registry, updates[k].key))
  }

  lemma {:induction false} ToWriteMeans(file: File, registry: Registry, u: Update, onlyIfDefault: bool)
    requires Refused(u, registry).None?
    ensures ToWrite(file, registry, u, onlyIfDefault)
            <==> Puts(Says(file, registry, u.key), ItemFor(registry, u.key), Target(u, registry), onlyIfDefault)
  {
  }

  /**
   * Every way a call can end, in the order they are found: an update refused on its own, no lock, a file that does not
   * parse, an entry to be written that cannot be edited, a write that does not reach the disk; otherwise it goes
   * through.
   */
  lemma {:induction false} SetEndsExactly(file: File, registry: Registry, updates: seq<Update>, onlyIfDefault: bool,
                                          meets: Meets)
    requires DistinctUpdates(updates)
    ensures var outcome := AfterSet(file, registry, updates, onlyIfDefault, meets).1;
            if exists k, reason :: 0 <= k < |updates| && BadUpdate(updates[k], registry, reason) then
              outcome.Failed?
              && exists k :: 0 <= k < |updates| && BadUpdate(updates[k], registry, outcome.reason)
                   && forall j, reason :: 0 <= j < k ==> !BadUpdate(updates[j], registry, reason)
            else if !meets.lock then outcome == Failed(LockTimeout)
            else if file.Unreadable? then outcome == Failed(NotParsed)
            else if Blocked(file, registry, updates, onlyIfDefault) then outcome == Failed(NotEditable)
            else if !meets.io && exists k :: 0 <= k < |updates| && ToWrite(file, registry, updates[k], onlyIfDefault)
            then outcome == Failed(NotSaved)
            else outcome.Wrote?
  {
    FirstBad(updates, registry);
    if Accepted(updates, registry) && meets.lock && !file.Unreadable? {
      EndsWhenAccepted(file, registry, updates, onlyIfDefault, meets);
    }
  }

  lemma {:induction false} EndsWhenAccepted(file: File, registry: Registry, updates: seq<Update>, onlyIfDefault: bool,
                                            meets: Meets)
    requires DistinctUpdates(updates) && Accepted(updates, registry) && meets.lock && !file.Unreadable?
    ensures var outcome := AfterSet(file, registry, updates, onlyIfDefault, meets).1;
            if Blocked(file, registry, updates, onlyIfDefault) then outcome == Failed(NotEditable)
            else if !meets.io && exists k :: 0 <= k < |updates| && ToWrite(file, registry, updates[k], onlyIfDefault)
            then outcome == Failed(NotSaved)
            else outcome.Wrote?
  {
    var base := Base(file, registry);
    forall k | 0 <= k < |updates|
      ensures ToWrite(file, registry, updates[k], onlyIfDefault)
              <==> Puts(ValueOf(base, updates[k].key), ItemFor(registry, updates[k].key), Target(updates[k], registry),
                        onlyIfDefault)
    {
      ToWriteMeans(file, registry, updates[k], onlyIfDefault);
    }
    PutSucceeds(base, updates, registry, onlyIfDefault, |updates|);
    assert updates[..|updates|] == updates;
    var put := PutAll(base, Values(base), updates, registry, onlyIfDefault);
    if put.Some? {
      PutReadsBack(base, updates, registry, onlyIfDefault, put.value);
      WrittenAreThosePut(base, updates, registry, onlyIfDefault);
    }
  }
}
