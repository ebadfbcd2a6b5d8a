/** Rolling windows over the history, their lexical clusters, and the stratified sample. */
module Sampling {
  /** A turn of the buffer with the lower-cased words of its text. */
  datatype Turn = Turn(id: string, words: set<string>)

  /** Window k of the buffer; its cursor id is "window-k". */
  datatype Window = Window(id: nat, turns: seq<Turn>)

  function Min(a: int, b: int): int {
    if a < b then a else b
  }

  // ----- windows -----

  /** The windows from position `from` on, numbered from k; the walk stops at the first window to reach the end. */
  function Windows(turns: seq<Turn>, size: nat, stride: nat, from: nat, k: nat): seq<Window>
    requires stride > 0
    decreases |turns| - from
  {
    if from >= |turns| then []
    else
      var end := Min(from + size, |turns|);
      [Window(k, turns[from..end])] + if end == |turns| then [] else Windows(turns, size, stride, from + stride, k + 1)
  }

  lemma FirstMoved<T>(done: seq<T>, next: T, rest: seq<T>)
    ensures done + ([next] + rest) == (done + [next]) + rest
  {
  }

  method WindowBuffer(turns: seq<Turn>, size: nat, stride: nat) returns (windows: seq<Window>)
    requires stride > 0
    ensures windows == Windows(turns, size, stride, 0, 0)
  {
    windows := [];
    if turns == [] {
      return;
    }
    var i := 0;
    ghost var rest := Windows(turns, size, stride, 0, 0);
    while i < |turns|
      invariant rest == Windows(turns, size, stride, i, |windows|)
      invariant windows + rest == Windows(turns, size, stride, 0, 0)
      decreases |turns| - i
    {
      var end := Min(i + size, |turns|);
      var next := Window(|windows|, turns[i..end]);
      ghost var more := if end == |turns| then [] else Windows(turns, size, stride, i + stride, |windows| + 1);
      FirstMoved(windows, next, more);
      windows, rest := windows + [next], more;
      if end == |turns| {
        break;
      }
      i := i + stride;
    }
  }

  lemma Multiples(d: int, b: int)
    requires b >= 0
    ensures d == 0 ==> d * b == 0
    ensures d >= 1 ==> d * b >= b
    ensures (d - 1) * b == d * b - b
  {
    if d >= 1 {
      assert (d - 1) * b >= 0;
    }
  }

  /** Window j starts j strides in and holds the turns from there on, at most `size` of them. */
  lemma {:induction false} WindowAt(turns: seq<Turn>, size: nat, stride: nat, from: nat, k: nat, j: nat)
    requires stride > 0 && j < |Windows(turns, size, stride, from, k)|
    ensures 0 <= from + j * stride < |turns|
    ensures Windows(turns, size, stride, from, k)[j]
            == Window(k + j, turns[from + j * stride..Min(from + j * stride + size, |turns|)])
    decreases j
  {
    if j == 0 {
      Multiples(j, stride);
    } else {
      WindowAt(turns, size, stride, from + stride, k + 1, j - 1);
      assert from + stride + (j - 1) * stride == from + j * stride by {
        Multiples(j, stride);
      }
    }
  }

  function CeilDiv(a: int, b: nat): (q: nat)
    requires b > 0
    ensures a > 0 ==> (q - 1) * b < a <= q * b
    ensures a <= 0 ==> q == 0
    decreases if a > 0 then a else 0
  {
    if a <= 0 then 0
    else
      var q := 1 + CeilDiv(a - b, b);
      Multiples(q, b);
      Multiples(q - 1, b);
      q
  }

  /** How many windows there are when they overlap or touch: one, and one more for every stride begun past the first. */
  lemma {:induction false} WindowCount(turns: seq<Turn>, size: nat, stride: nat, from: nat, k: nat)
    requires size >= stride > 0 && from < |turns|
    ensures |Windows(turns, size, stride, from, k)| == 1 + CeilDiv(|turns| - from - size, stride)
    decreases |turns| - from
  {
    if from + size < |turns| {
      WindowCount(turns, size, stride, from + stride, k + 1);
    }
  }

  /** Position t of the buffer falls in the window that starts j strides after `from`. */
  ghost predicate InWindow(from: nat, stride: nat, size: nat, n: nat, j: nat, t: nat) {
    from + j * stride <= t < Min(from + j * stride + size, n)
  }

  ghost predicate Covered(turns: seq<Turn>, size: nat, stride: nat, t: nat)
    requires stride > 0
  {
    exists j: nat :: j < |Windows(turns, size, stride, 0, 0)| && InWindow(0, stride, size, |turns|, j, t)
  }

  lemma {:induction false} Reached(turns: seq<Turn>, size: nat, stride: nat, from: nat, k: nat, t: nat) returns (j: nat)
    requires size >= stride > 0 && from <= t < |turns|
    ensures j < |Windows(turns, size, stride, from, k)| && InWindow(from, stride, size, |turns|, j, t)
    decreases |turns| - from
  {
    if t < from + size {
      j := 0;
      Multiples(0, stride);
    } else {
      var rest := Reached(turns, size, stride, from + stride, k + 1, t);
      j := rest + 1;
      Multiples(j, stride);
    }
  }

  /** No turn is left out exactly when one window holds them all or the stride is no longer than a window. */
  lemma CoversEveryTurn(turns: seq<Turn>, size: nat, stride: nat)
    requires size > 0 && stride > 0
    ensures (forall t: nat :: t < |turns| ==> Covered(turns, size, stride, t)) <==> |turns| <= size || stride <= size
  {
    if |turns| <= size || stride <= size {
      forall t: nat | t < |turns|
        ensures Covered(turns, size, stride, t)
      {
        Multiples(0, stride);
        if |turns| <= size {
          assert InWindow(0, stride, size, |turns|, 0, t);
        } else {
          var j := Reached(turns, size, stride, 0, 0, t);
        }
      }
    } else {
      forall j: nat
        ensures !InWindow(0, stride, size, |turns|, j, size)
      {
        Multiples(j, stride);
      }
      assert !Covered(turns, size, stride, size);
    }
  }

  // ----- similarity -----

  function WindowTokens(turns: seq<Turn>): set<string> {
    if turns == [] then {} else turns[0].words + WindowTokens(turns[1..])
  }

  /** Jaccard overlap of at least one half; two empty sets are alike, an empty one is unlike any other. */
  predicate Similar(a: set<string>, b: set<string>) {
    if a == {} && b == {} then true
    else if a == {} || b == {} then false
    else 2 * |a * b| >= |a + b|
  }

  /** Two windows are alike exactly if they have no more words apart than in common. */
  lemma SimilarExactly(a: set<string>, b: set<string>)
    ensures Similar(a, b) <==> |a - b| + |b - a| <= |a * b|
  {
    assert a == (a - b) + a * b && b == (b - a) + a * b && a + b == (a - b) + b;
    assert |a| == |a - b| + |a * b| && |b| == |b - a| + |a * b|;
    assert |a + b| == |a - b| + |b|;
    assert |a| > 0 <==> a != {};
    assert |b| > 0 <==> b != {};
  }

  lemma SimilarIsFair(a: set<string>, b: set<string>)
    ensures Similar(a, a)
    ensures Similar(a, b) == Similar(b, a)
  {
    assert a * a == a && a + a == a;
    assert a * b == b * a && a + b == b + a;
  }

  // ----- clusters, as lists of positions in the window list -----

  /** The first head similar to a window, or the number of heads. */
  function FirstMatch(heads: seq<set<string>>, window: set<string>): (i: nat)
    ensures i <= |heads|
    ensures i < |heads| ==> Similar(window, heads[i])
    ensures forall c :: 0 <= c < i ==> !Similar(window, heads[c])
  {
    if heads == [] then 0
    else if Similar(window, heads[0]) then 0
    else
      var i := 1 + FirstMatch(heads[1..], window);
      assert forall c :: 1 <= c < i ==> heads[c] == heads[1..][c - 1];
      i
  }

  predicate WellFormed(tokens: seq<set<string>>, clusters: seq<seq<nat>>) {
    forall c :: 0 <= c < |clusters| ==> |clusters[c]| > 0 && clusters[c][0] < |tokens|
  }

  function Heads(tokens: seq<set<string>>, clusters: seq<seq<nat>>): (heads: seq<set<string>>)
    requires WellFormed(tokens, clusters)
    ensures |heads| == |clusters|
    ensures forall c :: 0 <= c < |heads| ==> heads[c] == tokens[clusters[c][0]]
  {
    seq(|clusters|, c requires 0 <= c < |clusters| => tokens[clusters[c][0]])
  }

  function Place(clusters: seq<seq<nat>>, i: nat, p: nat): seq<seq<nat>>
    requires i <= |clusters|
  {
    if i < |clusters| then clusters[i := clusters[i] + [p]] else clusters + [[p]]
  }

  /** Greedy clustering of the first m windows. */
  function Clusters(tokens: seq<set<string>>, m: nat): (clusters: seq<seq<nat>>)
    requires m <= |tokens|
    ensures WellFormed(tokens, clusters)
  {
    if m == 0 then []
    else
      var before := Clusters(tokens, m - 1);
      Place(before, FirstMatch(Heads(tokens, before), tokens[m - 1]), m - 1)
  }

  /** The inner loop: the first fingerprint a window resembles. */
  method FindHead(fingerprints: seq<set<string>>, window: set<string>) returns (idx: nat)
    ensures idx == FirstMatch(fingerprints, window)
  {
    idx := 0;
    while idx < |fingerprints|
      invariant idx <= |fingerprints|
      invariant FirstMatch(fingerprints, window) == idx + FirstMatch(fingerprints[idx..], window)
    {
      if Similar(window, fingerprints[idx]) {
        return;
      }
      assert fingerprints[idx..][1..] == fingerprints[idx + 1..];
      idx := idx + 1;
    }
  }

  method ClusterWindows(tokens: seq<set<string>>) returns (clusters: seq<seq<nat>>)
    ensures clusters == Clusters(tokens, |tokens|)
  {
    clusters := [];
    var fingerprints: seq<set<string>> := [];
    var w := 0;
    while w < |tokens|
      invariant w <= |tokens|
      invariant Clustered(tokens, w, clusters, fingerprints)
    {
      var idx := FindHead(fingerprints, tokens[w]);
      ClusterOneMore(tokens, w, clusters, fingerprints, idx);
      if idx < |fingerprints| {
        clusters := clusters[idx := clusters[idx] + [w]];
      } else {
        clusters := clusters + [[w]];
        fingerprints := fingerprints + [tokens[w]];
      }
      w := w + 1;
    }
  }

  /** Where the clustering loop stands after w windows. */
  ghost predicate Clustered(tokens: seq<set<string>>, w: nat, clusters: seq<seq<nat>>, fingerprints: seq<set<string>>) {
    w <= |tokens| && clusters == Clusters(tokens, w) && fingerprints == Heads(tokens, clusters)
  }

  lemma {:induction false} ClusterOneMore(tokens: seq<set<string>>, w: nat, clusters: seq<seq<nat>>,
                                          fingerprints: seq<set<string>>, idx: nat)
    requires w < |tokens| && Clustered(tokens, w, clusters, fingerprints)
    requires idx == FirstMatch(fingerprints, tokens[w])
    ensures |fingerprints| == |clusters|
    ensures if idx < |fingerprints|
            then Clustered(tokens, w + 1, clusters[idx := clusters[idx] + [w]], fingerprints)
            else Clustered(tokens, w + 1, clusters + [[w]], fingerprints + [tokens[w]])
  {
    ClustersStep(tokens, w);
  }

  lemma ClustersStep(tokens: seq<set<string>>, m: nat)
    requires m < |tokens|
    ensures var before := Clusters(tokens, m);
            var i := FirstMatch(Heads(tokens, before), tokens[m]);
            && Clusters(tokens, m + 1) == Place(before, i, m)
            && Heads(tokens, Clusters(tokens, m + 1))
               == if i < |before| then Heads(tokens, before) else Heads(tokens, before) + [tokens[m]]
  {
    var before := Clusters(tokens, m);
    HeadsAfterPlace(tokens, before, FirstMatch(Heads(tokens, before), tokens[m]), m);
  }

  lemma HeadsAfterPlace(tokens: seq<set<string>>, clusters: seq<seq<nat>>, i: nat, p: nat)
    requires WellFormed(tokens, clusters) && i <= |clusters| && p < |tokens|
    ensures WellFormed(tokens, Place(clusters, i, p))
    ensures Heads(tokens, Place(clusters, i, p))
            == if i < |clusters| then Heads(tokens, clusters) else Heads(tokens, clusters) + [tokens[p]]
  {
  }

  /** Position p is member k of cluster c. */
  ghost predicate At(clusters: seq<seq<nat>>, c: nat, k: nat, p: nat) {
    c < |clusters| && k < |clusters[c]| && clusters[c][k] == p
  }

  ghost predicate InOrder(clusters: seq<seq<nat>>) {
    && (forall c, k, l :: 0 <= c < |clusters| && 0 <= k < l < |clusters[c]| ==> clusters[c][k] < clusters[c][l])
    && (forall c, d :: 0 <= c < d < |clusters| && clusters[c] != [] && clusters[d] != [] ==>
       clusters[c][0] < clusters[d][0])
  }

  ghost predicate Somewhere(clusters: seq<seq<nat>>, p: nat) {
    exists c: nat, k: nat :: At(clusters, c, k, p)
  }

  /** Every position below m is in exactly one place, and nothing else is. */
  ghost predicate Partition(clusters: seq<seq<nat>>, m: nat) {
    && (forall c: nat, k: nat, p: nat :: At(clusters, c, k, p) ==> p < m)
    && (forall p: nat :: p < m ==> Somewhere(clusters, p))
    && (forall c: nat, k: nat, d: nat, l: nat, p: nat :: At(clusters, c, k, p) && At(clusters, d, l, p) ==>
       c == d && k == l)
  }

  /** Members are similar to their own head and to no earlier one; so heads are pairwise dissimilar. */
  ghost predicate FirstHeadWins(tokens: seq<set<string>>, clusters: seq<seq<nat>>)
    requires WellFormed(tokens, clusters)
  {
    forall c: nat, k: nat, p: nat :: At(clusters, c, k, p) && p < |tokens| ==>
      && Similar(tokens[p], tokens[clusters[c][0]])
      && forall e: nat :: e < c ==> !Similar(tokens[p], tokens[clusters[e][0]])
  }

  lemma PlacedAt(clusters: seq<seq<nat>>, i: nat, p: nat, c: nat, k: nat, q: nat)
    requires i <= |clusters|
    ensures At(Place(clusters, i, p), c, k, q) <==>
              At(clusters, c, k, q) || (c == i && q == p && k == if i < |clusters| then |clusters[i]| else 0)
  {
  }

  lemma PlaceKeepsPartition(clusters: seq<seq<nat>>, i: nat, p: nat)
    requires i <= |clusters| && Partition(clusters, p)
    ensures Partition(Place(clusters, i, p), p + 1)
  {
    var placed, end := Place(clusters, i, p), if i < |clusters| then |clusters[i]| else 0;
    forall c: nat, k: nat, q: nat
      ensures At(placed, c, k, q) <==> At(clusters, c, k, q) || (c == i && q == p && k == end)
    {
      PlacedAt(clusters, i, p, c, k, q);
    }
    forall q: nat | q < p + 1
      ensures Somewhere(placed, q)
    {
      if q == p {
        assert At(placed, i, end, q);
      } else {
        assert Somewhere(clusters, q);
        var c: nat, k: nat :| At(clusters, c, k, q);
        assert At(placed, c, k, q);
      }
    }
  }

  lemma PlaceKeepsOrder(clusters: seq<seq<nat>>, i: nat, p: nat)
    requires i <= |clusters| && InOrder(clusters)
    requires forall c, k :: 0 <= c < |clusters| && 0 <= k < |clusters[c]| ==> clusters[c][k] < p
    requires forall c :: 0 <= c < |clusters| ==> clusters[c] != []
    ensures InOrder(Place(clusters, i, p))
  {
  }

  /** The greedy clusters partition the windows in order, each window with the first head it resembles. */
  lemma {:induction false} ClustersAreGreedy(tokens: seq<set<string>>, m: nat)
    requires m <= |tokens|
    ensures Partition(Clusters(tokens, m), m)
    ensures InOrder(Clusters(tokens, m))
    ensures FirstHeadWins(tokens, Clusters(tokens, m))
  {
    if m == 0 {
      assert Clusters(tokens, 0) == [];
    } else {
      ClustersAreGreedy(tokens, m - 1);
      var before := Clusters(tokens, m - 1);
      var i := FirstMatch(Heads(tokens, before), tokens[m - 1]);
      PlaceKeepsPartition(before, i, m - 1);
      forall c, k | 0 <= c < |before| && 0 <= k < |before[c]|
        ensures before[c][k] < m - 1
      {
        assert At(before, c, k, before[c][k]);
      }
      PlaceKeepsOrder(before, i, m - 1);
      HeadsStillWin(tokens, before, i, m - 1);
    }
  }

  lemma HeadsStillWin(tokens: seq<set<string>>, clusters: seq<seq<nat>>, i: nat, p: nat)
    requires p < |tokens| && WellFormed(tokens, clusters) && FirstHeadWins(tokens, clusters)
    requires i == FirstMatch(Heads(tokens, clusters), tokens[p])
    ensures WellFormed(tokens, Place(clusters, i, p)) && FirstHeadWins(tokens, Place(clusters, i, p))
  {
    var placed := Place(clusters, i, p);
    HeadsAfterPlace(tokens, clusters, i, p);
    SimilarIsFair(tokens[p], tokens[p]);
    forall c: nat, k: nat, q: nat | At(placed, c, k, q) && q < |tokens|
      ensures Similar(tokens[q], tokens[placed[c][0]])
      ensures forall e: nat :: e < c ==> !Similar(tokens[q], tokens[placed[e][0]])
    {
      PlacedAt(clusters, i, p, c, k, q);
    }
  }

  // ----- the sample -----

  /**
   * The round-robin walk so far: every cluster's first j windows, round by round, and the next of the first c clusters.
   */
  function Walked(clusters: seq<seq<nat>>, j: nat, c: nat): seq<nat>
    requires c <= |clusters|
    decreases j, c
  {
    if c > 0 then Walked(clusters, j, c - 1) + Pick(clusters[c - 1], j)
    else if j > 0 then Walked(clusters, j - 1, |clusters|)
    else []
  }

  function Pick(cluster: seq<nat>, j: nat): seq<nat> {
    if j < |cluster| then [cluster[j]] else []
  }

  /** The whole walk: no cluster outlasts m rounds when there are m windows. */
  function Walk(clusters: seq<seq<nat>>, m: nat): seq<nat> {
    Walked(clusters, m, 0)
  }

  /** What the sampler promises. */
  function Sample(clusters: seq<seq<nat>>, m: nat, target: nat): seq<nat> {
    var walk := Walk(clusters, m);
    if target <= |walk| then walk[..target] else walk
  }

  /** Position p is member k of cluster d, and the walk has passed that place. */
  ghost predicate PassedAt(clusters: seq<seq<nat>>, j: nat, c: nat, p: nat, d: nat, k: nat) {
    At(clusters, d, k, p) && (k < j || (k == j && d < c))
  }

  ghost predicate Passed(clusters: seq<seq<nat>>, j: nat, c: nat, p: nat) {
    exists d: nat, k: nat :: PassedAt(clusters, j, c, p, d, k)
  }

  lemma PassedStep(clusters: seq<seq<nat>>, j: nat, c: nat, p: nat)
    requires 0 < c <= |clusters|
    ensures Passed(clusters, j, c, p) <==> Passed(clusters, j, c - 1, p) || p in Pick(clusters[c - 1], j)
  {
    if Passed(clusters, j, c, p) {
      var d: nat, k: nat :| PassedAt(clusters, j, c, p, d, k);
      assert PassedAt(clusters, j, c - 1, p, d, k) || (d == c - 1 && k == j);
    }
    if Passed(clusters, j, c - 1, p) {
      var d: nat, k: nat :| PassedAt(clusters, j, c - 1, p, d, k);
      assert PassedAt(clusters, j, c, p, d, k);
    }
    if p in Pick(clusters[c - 1], j) {
      assert PassedAt(clusters, j, c, p, c - 1, j);
    }
  }

  lemma PassedRound(clusters: seq<seq<nat>>, j: nat, p: nat)
    requires j > 0
    ensures Passed(clusters, j, 0, p) <==> Passed(clusters, j - 1, |clusters|, p)
  {
    if Passed(clusters, j, 0, p) {
      var d: nat, k: nat :| PassedAt(clusters, j, 0, p, d, k);
      assert PassedAt(clusters, j - 1, |clusters|, p, d, k);
    }
    if Passed(clusters, j - 1, |clusters|, p) {
      var d: nat, k: nat :| PassedAt(clusters, j - 1, |clusters|, p, d, k);
      assert PassedAt(clusters, j, 0, p, d, k);
    }
  }

  lemma {:induction false} WalkedMembers(clusters: seq<seq<nat>>, j: nat, c: nat, p: nat)
    requires c <= |clusters|
    ensures p in Walked(clusters, j, c) <==> Passed(clusters, j, c, p)
    decreases j, c
  {
    if c > 0 {
      WalkedMembers(clusters, j, c - 1, p);
      PassedStep(clusters, j, c, p);
    } else if j > 0 {
      WalkedMembers(clusters, j - 1, |clusters|, p);
      PassedRound(clusters, j, p);
    }
  }

  ghost predicate Distinct(s: seq<nat>) {
    forall i, j :: 0 <= i < j < |s| ==> s[i] != s[j]
  }

  /** A window is not passed before its place on the walk. */
  lemma {:induction false} NotPassedBefore(clusters: seq<seq<nat>>, m: nat, j: nat, c: nat)
    requires Partition(clusters, m) && c < |clusters| && j < |clusters[c]|
    ensures clusters[c][j] !in Walked(clusters, j, c)
  {
    var p := clusters[c][j];
    WalkedMembers(clusters, j, c, p);
    forall d: nat, k: nat
      ensures !PassedAt(clusters, j, c, p, d, k)
    {
      assert At(clusters, c, j, p);
    }
  }

  lemma DistinctSnoc(s: seq<nat>, p: nat)
    requires Distinct(s) && p !in s
    ensures Distinct(s + [p])
  {
  }

  lemma {:induction false} WalkedDistinct(clusters: seq<seq<nat>>, m: nat, j: nat, c: nat)
    requires Partition(clusters, m) && c <= |clusters|
    ensures Distinct(Walked(clusters, j, c))
    decreases j, c
  {
    if c > 0 {
      WalkedDistinct(clusters, m, j, c - 1);
      if j < |clusters[c - 1]| {
        NotPassedBefore(clusters, m, j, c - 1);
        DistinctSnoc(Walked(clusters, j, c - 1), clusters[c - 1][j]);
      }
    } else if j > 0 {
      WalkedDistinct(clusters, m, j - 1, |clusters|);
    }
  }

  lemma {:induction false} WalkedPrefix(clusters: seq<seq<nat>>, i: nat, b: nat, j: nat, c: nat)
    requires b <= |clusters| && c <= |clusters| && (i < j || (i == j && b <= c))
    ensures Walked(clusters, i, b) <= Walked(clusters, j, c)
    decreases j, c
  {
    if i < j || b < c {
      if c > 0 {
        WalkedPrefix(clusters, i, b, j, c - 1);
      } else {
        WalkedPrefix(clusters, i, b, j - 1, |clusters|);
      }
    }
  }

  lemma HeadIn(s: seq<nat>)
    ensures s == [] || s[0] in s
  {
  }

  lemma {:induction false} FullSet(s: seq<nat>, m: nat)
    requires Distinct(s) && forall p: nat :: p in s <==> p < m
    ensures |s| == m
    decreases m
  {
    if m == 0 {
      HeadIn(s);
    } else {
      assert m - 1 in s;
      var i: nat :| i < |s| && s[i] == m - 1;
      var rest := s[..i] + s[i + 1..];
      forall p: nat
        ensures p in rest <==> p < m - 1
      {
        if p in s && p != m - 1 {
          var j: nat :| j < |s| && s[j] == p;
          assert rest[if j < i then j else j - 1] == p;
        }
        if p in rest {
          var j: nat :| j < |rest| && rest[j] == p;
          assert p == s[if j < i then j else j + 1];
        }
      }
      FullSet(rest, m - 1);
    }
  }

  /** In an increasing cluster, member k is at least k. */
  lemma {:induction false} MemberAtLeast(cluster: seq<nat>, k: nat)
    requires k < |cluster| && forall i, j :: 0 <= i < j < |cluster| ==> cluster[i] < cluster[j]
    ensures cluster[k] >= k
  {
    if k > 0 {
      MemberAtLeast(cluster, k - 1);
    }
  }

  /** The walk visits every window exactly once. */
  lemma WalkVisitsAll(clusters: seq<seq<nat>>, m: nat)
    requires Partition(clusters, m) && InOrder(clusters)
    ensures Distinct(Walk(clusters, m)) && |Walk(clusters, m)| == m
    ensures forall p: nat :: p in Walk(clusters, m) <==> p < m
  {
    WalkedDistinct(clusters, m, m, 0);
    forall p: nat
      ensures p in Walk(clusters, m) <==> p < m
    {
      WalkedMembers(clusters, m, 0, p);
      if p < m {
        assert Somewhere(clusters, p);
        var c: nat, k: nat :| At(clusters, c, k, p);
        MemberAtLeast(clusters[c], k);
        assert PassedAt(clusters, m, 0, p, c, k);
      }
    }
    FullSet(Walk(clusters, m), m);
  }

  /** In the walk, a cluster's (j+1)-th window comes after the first j windows of every cluster. */
  lemma WalkIsFair(clusters: seq<seq<nat>>, m: nat, c: nat, j: nat, d: nat, i: nat, q: nat)
    requires Partition(clusters, m) && InOrder(clusters)
    requires q < |Walk(clusters, m)| && At(clusters, c, j, Walk(clusters, m)[q])
    requires i < j && d < |clusters| && i < |clusters[d]|
    ensures exists r: nat :: r < q && Walk(clusters, m)[r] == clusters[d][i]
  {
    var p, early := Walk(clusters, m)[q], Walked(clusters, j, 0);
    MemberAtLeast(clusters[c], j);
    WalkedPrefix(clusters, j, 0, m, 0);
    WalkedMembers(clusters, j, 0, p);
    forall e: nat, k: nat
      ensures !PassedAt(clusters, j, 0, p, e, k)
    {
      assert At(clusters, c, j, p);
    }
    assert forall x :: 0 <= x < |early| ==> early[x] != p;
    WalkedMembers(clusters, j, 0, clusters[d][i]);
    assert PassedAt(clusters, j, 0, clusters[d][i], d, i);
    var r: nat :| r < |early| && early[r] == clusters[d][i];
    assert Walk(clusters, m)[r] == early[r];
  }

  /** A sample has no duplicates and exactly min(target, n) members, for any target. */
  lemma {:induction false} SampleSize(tokens: seq<set<string>>, target: nat)
    ensures var sample := Sample(Clusters(tokens, |tokens|), |tokens|, target);
            && |sample| == Min(target, |tokens|)
            && Distinct(sample)
            && forall k :: 0 <= k < |sample| ==> sample[k] < |tokens|
  {
    ClustersAreGreedy(tokens, |tokens|);
    WalkVisitsAll(Clusters(tokens, |tokens|), |tokens|);
    var walk := Walk(Clusters(tokens, |tokens|), |tokens|);
    assert forall k :: 0 <= k < |walk| ==> walk[k] in walk;
  }

  /** No cluster gives its (j+1)-th window to the sample before every cluster has given min(size, j). */
  lemma {:induction false} SampleIsFair(tokens: seq<set<string>>, target: nat, c: nat, j: nat, d: nat, i: nat, q: nat)
    requires var clusters := Clusters(tokens, |tokens|);
             var sample := Sample(clusters, |tokens|, target);
             && q < |sample| && At(clusters, c, j, sample[q])
             && i < j && d < |clusters| && i < |clusters[d]|
    ensures var clusters := Clusters(tokens, |tokens|);
            exists r: nat :: r < q && Sample(clusters, |tokens|, target)[r] == clusters[d][i]
  {
    var clusters := Clusters(tokens, |tokens|);
    ClustersAreGreedy(tokens, |tokens|);
    WalkIsFair(clusters, |tokens|, c, j, d, i, q);
    var r: nat :| r < q && Walk(clusters, |tokens|)[r] == clusters[d][i];
    assert Sample(clusters, |tokens|, target)[r] == clusters[d][i];
  }

  // ----- the sampler's loops -----

  ghost predicate Short(clusters: seq<seq<nat>>, j: nat, c: nat)
    requires c <= |clusters|
  {
    forall d :: 0 <= d < c ==> |clusters[d]| <= j
  }

  /** No cluster is longer than the number of windows. */
  lemma ClustersShort(clusters: seq<seq<nat>>, m: nat)
    requires Partition(clusters, m) && InOrder(clusters)
    ensures Short(clusters, m, |clusters|)
  {
    forall d | 0 <= d < |clusters| && |clusters[d]| > 0
      ensures |clusters[d]| <= m
    {
      var last := |clusters[d]| - 1;
      MemberAtLeast(clusters[d], last);
      assert At(clusters, d, last, clusters[d][last]);
    }
  }

  /** Once every cluster is spent the walk stands still. */
  lemma {:induction false} StandsStill(clusters: seq<seq<nat>>, i: nat, j: nat, c: nat)
    requires c <= |clusters| && i <= j && Short(clusters, i, |clusters|)
    ensures Walked(clusters, j, c) == Walked(clusters, i, 0)
    decreases j, c
  {
    if c > 0 {
      StandsStill(clusters, i, j, c - 1);
    } else if i < j {
      StandsStill(clusters, i, j - 1, |clusters|);
    }
  }

  lemma {:induction false} StoodStill(clusters: seq<seq<nat>>, j: nat, c: nat)
    requires c <= |clusters|
    ensures |Walked(clusters, j, c)| >= |Walked(clusters, j, 0)|
    ensures |Walked(clusters, j, c)| == |Walked(clusters, j, 0)| ==> Short(clusters, j, c)
  {
    if c > 0 {
      StoodStill(clusters, j, c - 1);
    }
  }

  /** However far the walk has come, it has come along the whole walk. */
  lemma {:induction false} AlongTheWalk(clusters: seq<seq<nat>>, m: nat, j: nat, c: nat)
    requires Short(clusters, m, |clusters|) && c <= |clusters|
    ensures Walked(clusters, j, c) <= Walk(clusters, m)
  {
    if j < m {
      WalkedPrefix(clusters, j, c, m, 0);
    } else {
      StandsStill(clusters, m, j, c);
    }
  }

  /** A round that adds nothing ends the walk. */
  lemma WalkEnds(clusters: seq<seq<nat>>, m: nat, j: nat)
    requires Short(clusters, m, |clusters|)
    requires |Walked(clusters, j + 1, 0)| <= |Walked(clusters, j, 0)|
    ensures Walked(clusters, j + 1, 0) == Walk(clusters, m)
  {
    StoodStill(clusters, j, |clusters|);
    if j <= m {
      StandsStill(clusters, j, m, 0);
      StandsStill(clusters, j, j + 1, 0);
    } else {
      StandsStill(clusters, m, j + 1, 0);
    }
  }

  /** No position is met twice on the walk. */
  ghost predicate NoRepeats(clusters: seq<seq<nat>>) {
    forall j: nat, c: nat {:trigger clusters[c][j]} ::
      c < |clusters| && j < |clusters[c]| ==> clusters[c][j] !in Walked(clusters, j, c)
  }

  lemma {:induction false} ReadyToPick(tokens: seq<set<string>>)
    ensures NoRepeats(Clusters(tokens, |tokens|))
    ensures Short(Clusters(tokens, |tokens|), |tokens|, |Clusters(tokens, |tokens|)|)
  {
    var clusters := Clusters(tokens, |tokens|);
    ClustersAreGreedy(tokens, |tokens|);
    forall j: nat, c: nat | c < |clusters| && j < |clusters[c]|
      ensures clusters[c][j] !in Walked(clusters, j, c)
    {
      NotPassedBefore(clusters, |tokens|, j, c);
    }
    ClustersShort(clusters, |tokens|);
  }

  /** One round-robin pass over the clusters, up to the target. */
  method PickRound(clusters: seq<seq<nat>>, round: nat, sample: seq<nat>, picked: set<nat>, target: nat)
    returns (more: seq<nat>, morePicked: set<nat>, added: bool, ghost c: nat)
    requires NoRepeats(clusters)
    requires sample == Walked(clusters, round, 0) && |sample| < target
    requires forall p: nat :: p in picked <==> p in sample
    ensures forall p: nat :: p in morePicked <==> p in more
    ensures added == (|more| > |sample|)
    ensures c <= |clusters| && more == Walked(clusters, round, c) && |more| <= target
    ensures |more| < target ==> c == |clusters|
  {
    more, morePicked, added, c := sample, picked, false, 0;
    for i := 0 to |clusters|
      invariant c == i && more == Walked(clusters, round, i) && |more| < target
      invariant forall p: nat :: p in morePicked <==> p in more
      invariant added == (|more| > |sample|) && |more| >= |sample|
    {
      c := i + 1;
      if round < |clusters[i]| && clusters[i][round] !in morePicked {
        more := more + [clusters[i][round]];
        morePicked := morePicked + {clusters[i][round]};
        added := true;
        if |more| >= target {
          return;
        }
      }
    }
  }

  /** The second pass: rounds until the target is met or a round adds nothing. */
  method PickRest(clusters: seq<seq<nat>>, ghost m: nat, heads: seq<nat>, target: nat) returns (sample: seq<nat>)
    requires NoRepeats(clusters) && Short(clusters, m, |clusters|)
    requires heads == Walked(clusters, 1, 0) && |heads| < target
    ensures sample == Sample(clusters, m, target)
  {
    sample := heads;
    AlongTheWalk(clusters, m, 1, 0);
    var picked := set p | p in sample;
    var round := 1;
    while |sample| < target
      invariant forall p: nat :: p in picked <==> p in sample
      invariant sample <= Walk(clusters, m) && |sample| <= target
      invariant |sample| < target ==> sample == Walked(clusters, round, 0)
      decreases target - |sample|
    {
      var added;
      ghost var c;
      sample, picked, added, c := PickRound(clusters, round, sample, picked, target);
      AlongTheWalk(clusters, m, round, c);
      if !added {
        WalkEnds(clusters, m, round);
        return;
      }
      round := round + 1;
    }
  }

  /** `target` is the rounded share of the windows, raised to one. */
  method SelectSample(tokens: seq<set<string>>, target: nat) returns (sample: seq<nat>)
    requires target >= 1
    ensures sample == Sample(Clusters(tokens, |tokens|), |tokens|, target)
  {
    sample := [];
    if tokens == [] {
      return;
    }
    var clusters := ClusterWindows(tokens);
    ReadyToPick(tokens);
    var c := 0;
    while c < |clusters|
      invariant c <= |clusters|
      invariant sample == Walked(clusters, 0, c) && |sample| <= target
    {
      if |sample| >= target {
        break;
      }
      sample := sample + [clusters[c][0]];
      c := c + 1;
    }
    AlongTheWalk(clusters, |tokens|, 0, c);
    if |sample| < target {
      sample := PickRest(clusters, |tokens|, sample, target);
    }
  }
}
