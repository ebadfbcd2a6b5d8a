/** A settings file as lines, what it says about each key, and the editor's in-place operations. */
module SettingsDocument {
  import opened SettingValues
  import opened Wrappers

  type Key = string

  /**
   * `Note` is a comment with its text, plain when it is written with one space after the hash; `Recorded` is a
   * "# default:" comment, with its value if it parses. An entry that is not simple spans several lines or sits in an
   * inline table. Anything else that is neither blank nor a table header is opaque.
   */
  datatype Line =
    | Note(text: string, plain: bool)
    | Recorded(value: Option<Value>)
    | Entry(key: Key, setting: Value, depth: nat, simple: bool)
    | Blank
    | Header(name: string)
    | Opaque(raw: string)

  type Doc = seq<Line>

  predicate Comment(l: Line) {
    l.Note? || l.Recorded?
  }

  // ----- reading -----

  /** Where the run of comments that ends just before position i starts. */
  function RunStart(doc: Doc, i: nat): (start: nat)
    requires i <= |doc|
    ensures start <= i
    ensures forall k :: start <= k < i ==> Comment(doc[k])
    ensures start > 0 ==> !Comment(doc[start - 1])
  {
    if i > 0 && Comment(doc[i - 1]) then RunStart(doc, i - 1) else i
  }

  function Above(doc: Doc, i: nat): Doc
    requires i <= |doc|
  {
    doc[RunStart(doc, i)..i]
  }

  /**
   * What the file says about one key: no entry, one editable entry and the comments above it, one entry the editor
   * cannot change, or several. The shallowest spelling gives the value.
   */
  datatype View =
    | Absent
    | Single(depth: nat, setting: Value, above: Doc)
    | Unlocatable(depth: nat, setting: Value)
    | Ambiguous(depth: nat, setting: Value)

  /** What two stretches of a file say together. */
  function Join(x: View, y: View): View {
    if x.Absent? then y
    else if y.Absent? then x
    else if y.depth < x.depth then Ambiguous(y.depth, y.setting)
    else Ambiguous(x.depth, x.setting)
  }

  function ViewOfLine(doc: Doc, i: nat, key: Key): View
    requires i < |doc|
  {
    var l := doc[i];
    if !l.Entry? || l.key != key then Absent
    else if l.simple then Single(l.depth, l.setting, Above(doc, i))
    else Unlocatable(l.depth, l.setting)
  }

  function ViewOf(doc: Doc, key: Key): View {
    if doc == [] then Absent
    else Join(ViewOf(doc[..|doc| - 1], key), ViewOfLine(doc, |doc| - 1, key))
  }

  function ValueOf(doc: Doc, key: Key): Option<Value> {
    var v := ViewOf(doc, key);
    if v.Absent? then None else Some(v.setting)
  }

  function Keys(doc: Doc): set<Key> {
    set i | 0 <= i < |doc| && doc[i].Entry? :: doc[i].key
  }

  function Values(doc: Doc): (values: map<Key, Value>)
    ensures forall key :: Find(values, key) == ValueOf(doc, key)
  {
    KeysAreThoseSeen(doc);
    map key | key in Keys(doc) :: ViewOf(doc, key).setting
  }

  function Find<T>(values: map<Key, T>, key: Key): Option<T> {
    if key in values then Some(values[key]) else None
  }

  /** The position of the last entry for the key; the length when there is none. */
  function Position(doc: Doc, key: Key): (i: nat)
    ensures i <= |doc|
    ensures i < |doc| ==> doc[i].Entry? && doc[i].key == key
    ensures i == |doc| ==> forall k :: 0 <= k < |doc| ==> !(doc[k].Entry? && doc[k].key == key)
    ensures i < |doc| ==> forall k :: i < k < |doc| ==> !(doc[k].Entry? && doc[k].key == key)
  {
    if doc == [] then 0
    else if doc[|doc| - 1].Entry? && doc[|doc| - 1].key == key then |doc| - 1
    else
      var i := Position(doc[..|doc| - 1], key);
      if i == |doc| - 1 then |doc| else i
  }

  function FirstHeader(doc: Doc): (i: nat)
    ensures i <= |doc|
    ensures i < |doc| ==> doc[i].Header?
    ensures forall k :: 0 <= k < i ==> !doc[k].Header?
  {
    if doc == [] then 0 else if doc[0].Header? then 0 else 1 + FirstHeader(doc[1..])
  }

  // ----- editing -----

  function WithValue(doc: Doc, key: Key, value: Value): Doc {
    var i := Position(doc, key);
    if i == |doc| then doc else doc[i := doc[i].(setting := value)]
  }

  function WithAbove(doc: Doc, key: Key, lines: Doc): Doc {
    var i := Position(doc, key);
    if i == |doc| then doc else doc[..RunStart(doc, i)] + (lines + [doc[i]]) + doc[i + 1..]
  }

  /** Where a new entry goes: before the first table header and its comments, or at the end. */
  function InsertAt(doc: Doc): (at: nat)
    ensures at <= |doc|
  {
    if FirstHeader(doc) < |doc| then RunStart(doc, FirstHeader(doc)) else |doc|
  }

  /** One entry under its comments. */
  function Stanza(key: Key, depth: nat, value: Value, run: Doc): Doc {
    run + [Entry(key, value, depth, true)]
  }

  /** A new stanza goes in at its place, set off by blank lines. */
  function WithStanza(doc: Doc, stanza: Doc): Doc {
    var at := InsertAt(doc);
    (doc[..at] + if at > 0 && doc[at - 1] != Blank then [Blank] else [])
    + (stanza + if FirstHeader(doc) < |doc| then [Blank] else [])
    + doc[at..]
  }

  function WithEntry(doc: Doc, key: Key, value: Value, comments: Doc): Doc {
    WithStanza(doc, Stanza(key, 1, value, comments))
  }

  /**
   * A new entry stands before every table header, so that it belongs to no table: with no header at the very end,
   * otherwise with only comments between it and the first header, and all comments of that header behind it.
   */
  lemma {:induction false} InsertedWhere(doc: Doc, key: Key, value: Value, comments: Doc) returns (at: nat, h: nat)
    ensures at <= h <= |doc| && (forall k :: 0 <= k < h ==> !doc[k].Header?)
    ensures h < |doc| ==> doc[h].Header?
    ensures forall k :: at <= k < h ==> h < |doc| && Comment(doc[k])
    ensures h < |doc| && at > 0 ==> !Comment(doc[at - 1])
    ensures var gap := if at > 0 && doc[at - 1] != Blank then [Blank] else [];
            var tail := if h < |doc| then [Blank] else [];
            WithEntry(doc, key, value, comments)
            == doc[..at] + gap + comments + [Entry(key, value, 1, true)] + tail + doc[at..]
  {
    at, h := InsertAt(doc), FirstHeader(doc);
    var gap := if at > 0 && doc[at - 1] != Blank then [Blank] else [];
    var tail := if h < |doc| then [Blank] else [];
    assert (doc[..at] + gap) + ((comments + [Entry(key, value, 1, true)]) + tail) + doc[at..]
      == doc[..at] + gap + comments + [Entry(key, value, 1, true)] + tail + doc[at..];
  }

  predicate IsEntry(doc: Doc, i: int, key: Key) {
    0 <= i < |doc| && doc[i].Entry? && doc[i].key == key
  }

  /** The value is that of the first among the shallowest entries of the key. */
  lemma {:induction false} ShallowestGives(doc: Doc, key: Key) returns (i: nat)
    ensures ViewOf(doc, key) != Absent ==>
              && IsEntry(doc, i, key)
              && ViewOf(doc, key).depth == doc[i].depth && ViewOf(doc, key).setting == doc[i].setting
              && (forall k :: IsEntry(doc, k, key) ==> doc[i].depth <= doc[k].depth)
              && (forall k :: k < i && IsEntry(doc, k, key) ==> doc[i].depth < doc[k].depth)
  {
    i := 0;
    if doc != [] {
      var front := doc[..|doc| - 1];
      i := ShallowestGives(front, key);
      LacksMeansAbsent(front, key);
      assert forall k :: IsEntry(doc, k, key) && k < |front| ==> IsEntry(front, k, key);
      if ViewOf(doc, key) != ViewOf(front, key)
        && (ViewOf(front, key) == Absent || doc[|doc| - 1].depth < ViewOf(front, key).depth) {
        i := |doc| - 1;
      }
    }
  }

  /** Two entries of the key. */
  ghost predicate Twice(doc: Doc, key: Key) {
    exists i, k :: i < k && IsEntry(doc, i, key) && IsEntry(doc, k, key)
  }

  /** An entry can be edited exactly if it is the only one of its key and stands on a line of its own. */
  lemma {:induction false} SingleExactly(doc: Doc, key: Key, i: nat)
    requires IsEntry(doc, i, key)
    ensures ViewOf(doc, key).Ambiguous? <==> Twice(doc, key)
    ensures ViewOf(doc, key).Single? <==> doc[i].simple && !Twice(doc, key)
    ensures ViewOf(doc, key).Single? ==> ViewOf(doc, key) == Single(doc[i].depth, doc[i].setting, Above(doc, i))
    ensures ViewOf(doc, key) != Absent
  {
    var last := |doc| - 1;
    var front := doc[..last];
    assert doc == front + [doc[last]];
    LacksMeansAbsent(front, key);
    if i < last {
      assert IsEntry(front, i, key);
      SingleExactly(front, key, i);
      AboveInPrefix(front, [doc[last]], i);
      if IsEntry(doc, last, key) {
        assert Twice(doc, key);
      } else {
        SameTwice(doc, key);
      }
    } else if Lacks(front, key) {
      NotTwice(doc, key);
    } else {
      var k :| 0 <= k < |front| && front[k].Entry? && front[k].key == key;
      assert IsEntry(doc, k, key) && IsEntry(doc, i, key);
    }
  }

  lemma SameTwice(doc: Doc, key: Key)
    requires doc != [] && !IsEntry(doc, |doc| - 1, key)
    ensures Twice(doc, key) <==> Twice(doc[..|doc| - 1], key)
  {
    var front := doc[..|doc| - 1];
    if i, k :| i < k && IsEntry(doc, i, key) && IsEntry(doc, k, key) {
      assert IsEntry(front, i, key) && IsEntry(front, k, key);
    }
    if i, k :| i < k && IsEntry(front, i, key) && IsEntry(front, k, key) {
      assert IsEntry(doc, i, key) && IsEntry(doc, k, key);
    }
  }

  lemma NotTwice(doc: Doc, key: Key)
    requires doc != [] && Lacks(doc[..|doc| - 1], key)
    ensures !Twice(doc, key)
  {
    assert forall k :: k < |doc| - 1 && IsEntry(doc, k, key) ==> doc[..|doc| - 1][k] == doc[k];
  }

  // ----- what the operations do to what the file says -----

  ghost predicate Closed(doc: Doc) {
    doc != [] ==> !Comment(doc[|doc| - 1])
  }

  predicate Comments(lines: Doc) {
    forall k :: 0 <= k < |lines| ==> Comment(lines[k])
  }

  lemma JoinAssociates(x: View, y: View, z: View)
    ensures Join(Join(x, y), z) == Join(x, Join(y, z))
  {
  }

  lemma {:induction false} AboveInPrefix(a: Doc, b: Doc, i: nat)
    requires i <= |a|
    ensures RunStart(a + b, i) == RunStart(a, i) && Above(a + b, i) == Above(a, i)
  {
    if i > 0 && Comment(a[i - 1]) {
      AboveInPrefix(a, b, i - 1);
    }
    assert (a + b)[RunStart(a, i)..i] == a[RunStart(a, i)..i];
  }

  lemma {:induction false} RunStartInSuffix(a: Doc, b: Doc, all: Doc, j: nat)
    requires all == a + b && j <= |b| && Closed(a)
    ensures RunStart(all, |a| + j) == |a| + RunStart(b, j)
  {
    if j > 0 {
      assert all[|a| + j - 1] == b[j - 1];
      if Comment(b[j - 1]) {
        RunStartInSuffix(a, b, all, j - 1);
      }
    }
  }

  lemma AboveInSuffix(a: Doc, b: Doc, j: nat)
    requires j <= |b| && Closed(a)
    ensures Above(a + b, |a| + j) == Above(b, j)
  {
    RunStartInSuffix(a, b, a + b, j);
    SliceOfSuffix(a, b, RunStart(b, j), j);
  }

  lemma SliceOfSuffix<T>(a: seq<T>, b: seq<T>, lo: nat, hi: nat)
    requires lo <= hi <= |b|
    ensures (a + b)[|a| + lo..|a| + hi] == b[lo..hi]
  {
  }

  ghost predicate Lacks(doc: Doc, key: Key) {
    forall k :: 0 <= k < |doc| ==> !(doc[k].Entry? && doc[k].key == key)
  }

  lemma {:induction false} LacksMeansAbsent(doc: Doc, key: Key)
    ensures Lacks(doc, key) <==> ViewOf(doc, key) == Absent
  {
    if doc != [] {
      LacksMeansAbsent(doc[..|doc| - 1], key);
    }
  }

  lemma {:induction false} KeysAreThoseSeen(doc: Doc)
    ensures forall key :: key in Keys(doc) <==> ViewOf(doc, key) != Absent
  {
    forall key
      ensures key in Keys(doc) <==> ViewOf(doc, key) != Absent
    {
      LacksMeansAbsent(doc, key);
    }
  }

  /** A file in two stretches says what they say together, unless the cut separates an entry from its comments. */
  lemma {:induction false} ViewOfParts(a: Doc, b: Doc, key: Key)
    requires Closed(a) || Lacks(b, key)
    ensures ViewOf(a + b, key) == Join(ViewOf(a, key), ViewOf(b, key))
  {
    if b == [] {
      assert a + b == a;
    } else {
      var front := b[..|b| - 1];
      ViewOfParts(a, front, key);
      assert (a + b)[..|a + b| - 1] == a + front;
      if Closed(a) {
        AboveInSuffix(a, b, |b| - 1);
      }
      JoinAssociates(ViewOf(a, key), ViewOf(front, key), ViewOfLine(b, |b| - 1, key));
    }
  }

  lemma {:induction false} ViewOfThree(c: Doc, x: Doc, d: Doc, key: Key)
    requires Closed(c) && (Closed(x) || Lacks(d, key)) && (x == [] ==> Closed(c))
    ensures ViewOf(c + x + d, key) == Join(Join(ViewOf(c, key), ViewOf(x, key)), ViewOf(d, key))
  {
    ViewOfParts(c, x, key);
    if !Lacks(d, key) {
      if x == [] {
        assert c + x == c;
      } else {
        assert (c + x)[|c + x| - 1] == x[|x| - 1];
      }
    }
    ViewOfParts(c + x, d, key);
  }

  lemma {:induction false} CommentsSayNothing(run: Doc, key: Key)
    requires Comments(run)
    ensures Lacks(run, key) && ViewOf(run, key) == Absent
    ensures RunStart(run, |run|) == 0
  {
    LacksMeansAbsent(run, key);
  }

  lemma {:induction false} StanzaView(key: Key, depth: nat, value: Value, run: Doc, other: Key)
    requires Comments(run)
    ensures Closed(Stanza(key, depth, value, run))
    ensures ViewOf(Stanza(key, depth, value, run), other) == if other == key then Single(depth, value, run) else Absent
  {
    var x := Stanza(key, depth, value, run);
    assert x[..|x| - 1] == run;
    CommentsSayNothing(run, other);
    AboveInPrefix(run, [x[|run|]], |run|);
    assert run[0..|run|] == run;
  }

  /** A key with one editable entry: where it is. */
  lemma {:induction false} Located(doc: Doc, key: Key)
    requires ViewOf(doc, key).Single?
    ensures var i, v := Position(doc, key), ViewOf(doc, key);
            && i < |doc| && doc[i] == Entry(key, v.setting, v.depth, true) && v.above == Above(doc, i)
            && ViewOf(doc[..i], key) == Absent
  {
    var front, l := doc[..|doc| - 1], doc[|doc| - 1];
    if l.Entry? && l.key == key {
      LacksMeansAbsent(front, key);
    } else {
      Located(front, key);
      var i := Position(front, key);
      assert doc == front + [l] && doc[..i] == front[..i];
      AboveInPrefix(front, [l], i);
    }
  }

  lemma CutAround<T>(s: seq<T>, a: nat, i: nat, x: T, y: T)
    requires a <= i < |s| && s[i] == x
    ensures s == s[..a] + (s[a..i] + [x]) + s[i + 1..]
    ensures s[i := y] == s[..a] + (s[a..i] + [y]) + s[i + 1..]
  {
  }

  /** The file is what comes before the entry's stanza, the stanza, and what comes after. */
  lemma EntryParts(doc: Doc, key: Key, value: Value) returns (c: Doc, d: Doc)
    requires ViewOf(doc, key).Single?
    ensures var v := ViewOf(doc, key);
            && Comments(v.above) && Closed(c) && Lacks(c, key) && Lacks(d, key)
            && doc == c + Stanza(key, v.depth, v.setting, v.above) + d
            && WithValue(doc, key, value) == c + Stanza(key, v.depth, value, v.above) + d
            && Position(doc, key) == |c| + |v.above|
    ensures forall lines ::
              WithAbove(doc, key, lines)
              == c + Stanza(key, ViewOf(doc, key).depth, ViewOf(doc, key).setting, lines) + d
  {
    Located(doc, key);
    var i := Position(doc, key);
    c, d := doc[..RunStart(doc, i)], doc[i + 1..];
    CutAround(doc, |c|, i, doc[i], doc[i].(setting := value));
    assert doc[..i] == c + ViewOf(doc, key).above;
    AbsentInParts(c, ViewOf(doc, key).above, key);
    LacksMeansAbsent(c, key);
  }

  /** Changing a value changes that value and nothing else the file says. */
  lemma {:induction false} WithValueView(doc: Doc, key: Key, value: Value, other: Key)
    requires ViewOf(doc, key).Single?
    ensures var v := ViewOf(doc, key);
            ViewOf(WithValue(doc, key, value), other)
            == if other == key then Single(v.depth, value, v.above) else ViewOf(doc, other)
  {
    var c, d := EntryParts(doc, key, value);
    var v := ViewOf(doc, key);
    Replaced(c, d, key, v, Single(v.depth, value, v.above), other);
  }

  /** Changing the comments above an entry changes those and nothing else the file says. */
  lemma {:induction false} WithAboveView(doc: Doc, key: Key, lines: Doc, other: Key)
    requires ViewOf(doc, key).Single? && Comments(lines)
    ensures var v := ViewOf(doc, key);
            ViewOf(WithAbove(doc, key, lines), other)
            == if other == key then Single(v.depth, v.setting, lines) else ViewOf(doc, other)
  {
    var v := ViewOf(doc, key);
    var c, d := EntryParts(doc, key, v.setting);
    Replaced(c, d, key, v, Single(v.depth, v.setting, lines), other);
  }

  lemma {:induction false} Replaced(c: Doc, d: Doc, key: Key, v: View, w: View, other: Key)
    requires v.Single? && w.Single? && Comments(v.above) && Comments(w.above)
    requires Closed(c) && Lacks(c, key) && Lacks(d, key)
    ensures ViewOf(c + Stanza(key, w.depth, w.setting, w.above) + d, other)
            == if other == key then w else ViewOf(c + Stanza(key, v.depth, v.setting, v.above) + d, other)
  {
    StanzaView(key, v.depth, v.setting, v.above, other);
    StanzaView(key, w.depth, w.setting, w.above, other);
    ViewOfThree(c, Stanza(key, v.depth, v.setting, v.above), d, other);
    ViewOfThree(c, Stanza(key, w.depth, w.setting, w.above), d, other);
    LacksMeansAbsent(c, key);
    LacksMeansAbsent(d, key);
  }

  /** A new entry is read back with its value and its comments, and nothing else the file says changes. */
  lemma {:induction false} WithEntryView(doc: Doc, key: Key, value: Value, comments: Doc, other: Key)
    requires ViewOf(doc, key) == Absent && Comments(comments)
    ensures ViewOf(WithEntry(doc, key, value, comments), other)
            == if other == key then Single(1, value, comments) else ViewOf(doc, other)
  {
    var a, gap, tail, d := InsertParts(doc, key, value, comments);
    var x := Stanza(key, 1, value, comments);
    BlanksSayNothing(a, gap, other);
    StanzaView(key, 1, value, comments, other);
    BlanksSayNothing(x, tail, other);
    AbsentInParts(a, d, key);
    LacksMeansAbsent(d, other);
    ViewOfThree(a + gap, x + tail, d, other);
    ViewOfParts(a, d, other);
  }

  lemma InsertParts(doc: Doc, key: Key, value: Value, comments: Doc) returns (a: Doc, gap: Doc, tail: Doc, d: Doc)
    ensures doc == a + d && (gap == [] || gap == [Blank]) && (tail == [] || tail == [Blank])
    ensures WithEntry(doc, key, value, comments) == (a + gap) + (Stanza(key, 1, value, comments) + tail) + d
    ensures (d == [] || Closed(a)) && Closed(a + gap)
  {
    var at := InsertAt(doc);
    a, d := doc[..at], doc[at..];
    gap := if at > 0 && doc[at - 1] != Blank then [Blank] else [];
    tail := if FirstHeader(doc) < |doc| then [Blank] else [];
    GapCloses(a, gap);
  }

  lemma GapCloses(a: Doc, gap: Doc)
    requires gap == [Blank] || (gap == [] && (a != [] ==> a[|a| - 1] == Blank))
    ensures Closed(a + gap)
  {
  }

  lemma {:induction false} BlanksSayNothing(a: Doc, gap: Doc, key: Key)
    requires gap == [] || gap == [Blank]
    ensures ViewOf(a + gap, key) == ViewOf(a, key)
    ensures gap != [] || Closed(a) ==> Closed(a + gap)
  {
    assert gap == [] ==> a + gap == a;
    LacksMeansAbsent(gap, key);
    ViewOfParts(a, gap, key);
  }

  lemma {:induction false} AbsentInParts(a: Doc, d: Doc, key: Key)
    requires ViewOf(a + d, key) == Absent
    ensures ViewOf(a, key) == Absent == ViewOf(d, key)
  {
    LacksMeansAbsent(a + d, key);
    LacksMeansAbsent(a, key);
    LacksMeansAbsent(d, key);
    assert forall k :: 0 <= k < |a| ==> a[k] == (a + d)[k];
    assert forall k :: 0 <= k < |d| ==> d[k] == (a + d)[|a| + k];
  }

  lemma SameEnds(c: Doc, d: Doc, c': Doc, d': Doc, x: Doc)
    requires c + x + d == c' + x + d' && |c| == |c'|
    ensures c == c' && d == d'
  {
    var all := c + x + d;
    assert c == all[..|c|] && c' == all[..|c|];
    assert d == all[|c| + |x|..] && d' == all[|c| + |x|..];
  }

  /** Changing the value and then the comments rewrites the stanza in place. */
  lemma BothParts(doc: Doc, key: Key, value: Value, lines: Doc) returns (c: Doc, d: Doc)
    requires ViewOf(doc, key).Single?
    ensures var v := ViewOf(doc, key);
            && doc == c + Stanza(key, v.depth, v.setting, v.above) + d
            && WithValue(doc, key, value) == c + Stanza(key, v.depth, value, v.above) + d
            && WithAbove(WithValue(doc, key, value), key, lines) == c + Stanza(key, v.depth, value, lines) + d
  {
    c, d := EntryParts(doc, key, value);
    var moved := WithValue(doc, key, value);
    WithValueView(doc, key, value, key);
    var c', d' := EntryParts(moved, key, value);
    PositionUnmoved(doc, key, value);
    var v := ViewOf(doc, key);
    SameEnds(c, d, c', d', Stanza(key, v.depth, value, v.above));
  }

  lemma {:induction false} PositionUnmoved(doc: Doc, key: Key, value: Value)
    ensures Position(WithValue(doc, key, value), key) == Position(doc, key)
  {
    var i := Position(doc, key);
    if i < |doc| {
      var moved := WithValue(doc, key, value);
      assert moved[i].Entry? && moved[i].key == key;
      assert forall k :: i < k < |doc| ==> moved[k] == doc[k];
    }
  }

  lemma UpdatedBack<T>(s: seq<T>, i: nat, x: T)
    requires i < |s|
    ensures s[i := x][i := s[i]] == s
  {
  }

  /** Setting a value and setting the old one back gives back the very file. */
  lemma {:induction false} EditUndone(doc: Doc, key: Key, value: Value)
    requires ViewOf(doc, key).Single?
    ensures WithValue(WithValue(doc, key, value), key, ViewOf(doc, key).setting) == doc
  {
    Located(doc, key);
    PositionUnmoved(doc, key, value);
    var i := Position(doc, key);
    UpdatedBack(doc, i, doc[i].(setting := value));
  }

  // ----- the editor -----

  class TomlDocument {
    var lines: Doc

    constructor (lines: Doc)
      ensures this.lines == lines
    {
      this.lines := lines;
    }

    method RunEnding(end: nat) returns (start: nat)
      requires end <= |lines|
      ensures start == RunStart(lines, end)
    {
      start := end;
      while start > 0 && Comment(lines[start - 1])
        invariant start <= end
        invariant RunStart(lines, end) == RunStart(lines, start)
      {
        start := start - 1;
      }
    }

    /** Refused unless the key has exactly one entry that can be edited in place. */
    method SetValue(key: Key, value: Value) returns (done: bool)
      modifies this
      ensures done == ViewOf(old(lines), key).Single?
      ensures lines == if done then WithValue(old(lines), key, value) else old(lines)
    {
      done := ViewOf(lines, key).Single?;
      if !done {
        return;
      }
      Located(lines, key);
      var i := Position(lines, key);
      lines := lines[i := lines[i].(setting := value)];
    }

    /** Refused likewise, and when a line is not a comment. */
    method SetCommentAbove(key: Key, above: Doc) returns (done: bool)
      modifies this
      ensures done == (ViewOf(old(lines), key).Single? && Comments(above))
      ensures lines == if done then WithAbove(old(lines), key, above) else old(lines)
    {
      done := ViewOf(lines, key).Single? && Comments(above);
      if !done {
        return;
      }
      Located(lines, key);
      var i := Position(lines, key);
      var start := RunEnding(i);
      lines := lines[..start] + (above + [lines[i]]) + lines[i + 1..];
    }

    method AddStanza(stanza: Doc)
      modifies this
      ensures lines == WithStanza(old(lines), stanza)
    {
      var header := FirstHeader(lines);
      if header == |lines| {
        if lines != [] && lines[|lines| - 1] != Blank {
          lines := lines + [Blank];
        }
        lines := lines + stanza;
      } else {
        var at := RunEnding(header);
        var front, back := lines[..at], lines[at..];
        if at > 0 && lines[at - 1] != Blank {
          front := front + [Blank];
        }
        lines := front + (stanza + [Blank]) + back;
      }
    }

    /** Refused when the file already says something about the key, or when a line is not a comment. */
    method Insert(key: Key, value: Value, comments: Doc) returns (done: bool)
      modifies this
      ensures done == (ViewOf(old(lines), key).Absent? && Comments(comments))
      ensures lines == if done then WithEntry(old(lines), key, value, comments) else old(lines)
    {
      done := ViewOf(lines, key).Absent? && Comments(comments);
      if done {
        AddStanza(Stanza(key, 1, value, comments));
      }
    }
  }
}
