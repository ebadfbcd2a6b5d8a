/** The relay's in-memory store: mailbox queues, the two mailbox pools, and challenge nonces. */
module MailStore {
  import opened Wrappers

  /** An opaque encrypted envelope: the recipient field, the rest, and the length of its canonical form. */
  datatype Envelope = Envelope(relayMailbox: Option<string>, payload: seq<nat>, size: nat)

  datatype Entry = Entry(id: nat, envelope: Envelope)

  datatype Limits = Limits(maxBytes: nat, maxDepth: nat, maxRegistered: nat, maxUnregistered: nat)

  /**
   * Why the store turned a call down. A missing recipient field surfaces as an internal error, the rest as 413 or 429.
   */
  datatype Rejection = EnvelopeTooLarge | NoRecipient | UnregisteredPoolFull | QueueFull | RegisteredPoolFull

  const NONCE_TTL_SECONDS := 120

  datatype State = State(
    mailboxes: map<string, seq<Entry>>,
    nextId: nat,
    owners: map<string, string>,
    unregistered: seq<string>,
    nonces: map<string, map<string, int>>)
  {
    function Queue(mailbox: string): seq<Entry> {
      if mailbox in mailboxes then mailboxes[mailbox] else []
    }

    predicate Known(mailbox: string) {
      mailbox in owners || mailbox in unregistered
    }

    function Nonces(mailbox: string): map<string, int> {
      if mailbox in nonces then nonces[mailbox] else map[]
    }
  }

  const EMPTY := State(map[], 1, map[], [], map[])

  // ----- what each operation does -----

  function Without(s: seq<string>, x: string): (r: seq<string>)
    ensures forall y :: y in r <==> y in s && y != x
    ensures |r| <= |s| && (x in s ==> |r| < |s|)
  {
    if s == [] then [] else if s[0] == x then Without(s[1..], x) else [s[0]] + Without(s[1..], x)
  }

  function Register(s: State, mailbox: string, pub: string, maxRegistered: nat): (State, Result<string, Rejection>) {
    if mailbox in s.owners then (s, Success(s.owners[mailbox]))
    else if |s.owners| >= maxRegistered then (s, Failure(RegisteredPoolFull))
    else (s.(unregistered := Without(s.unregistered, mailbox), owners := s.owners[mailbox := pub]), Success(pub))
  }

  /** Position of the oldest unregistered mailbox with nothing in its queue, or the pool's length. */
  function OldestEmpty(s: State, pool: seq<string>): (i: nat)
    ensures i <= |pool|
    ensures i < |pool| ==> s.Queue(pool[i]) == []
    ensures forall j :: 0 <= j < i ==> s.Queue(pool[j]) != []
  {
    if pool == [] then 0
    else if s.Queue(pool[0]) == [] then 0
    else 1 + OldestEmpty(s, pool[1..])
  }

  function Evict(s: State): (State, bool) {
    var i := OldestEmpty(s, s.unregistered);
    if i == |s.unregistered| then (s, false)
    else
      var gone := s.unregistered[i];
      (s.(unregistered := s.unregistered[..i] + s.unregistered[i + 1..],
          mailboxes := s.mailboxes - {gone},
          nonces := s.nonces - {gone}), true)
  }

  /** Make `mailbox` known, evicting an empty unregistered mailbox when the pool is full. */
  function Admit(s: State, mailbox: string, maxUnregistered: nat): (State, bool) {
    if s.Known(mailbox) then (s, true)
    else
      var (room, ok) := if |s.unregistered| >= maxUnregistered then Evict(s) else (s, true);
      if ok then (room.(unregistered := room.unregistered + [mailbox]), true) else (s, false)
  }

  function Push(s: State, envelope: Envelope, limits: Limits): (State, Result<nat, Rejection>) {
    if envelope.size > limits.maxBytes then (s, Failure(EnvelopeTooLarge))
    else if envelope.relayMailbox.None? then (s, Failure(NoRecipient))
    else
      var mailbox := envelope.relayMailbox.value;
      var (admitted, ok) := Admit(s, mailbox, limits.maxUnregistered);
      if !ok then (s, Failure(UnregisteredPoolFull))
      else if |admitted.Queue(mailbox)| >= limits.maxDepth then (admitted, Failure(QueueFull))
      else
        (admitted.(mailboxes := admitted.mailboxes[mailbox := admitted.Queue(mailbox) + [Entry(s.nextId, envelope)]],
                   nextId := s.nextId + 1), Success(s.nextId))
  }

  function Kept(queue: seq<Entry>, ids: seq<nat>): (kept: seq<Entry>)
    ensures forall e :: e in kept <==> e in queue && e.id !in ids
    ensures |kept| <= |queue|
  {
    if queue == [] then []
    else if queue[0].id in ids then Kept(queue[1..], ids)
    else [queue[0]] + Kept(queue[1..], ids)
  }

  function Ack(s: State, mailbox: string, ids: seq<nat>): State {
    s.(mailboxes := s.mailboxes[mailbox := Kept(s.Queue(mailbox), ids)])
  }

  function WithNonces(s: State, mailbox: string, live: map<string, int>): State {
    s.(nonces := if live == map[] then s.nonces - {mailbox} else s.nonces[mailbox := live])
  }

  function Unexpired(live: map<string, int>, now: int): map<string, int> {
    map n | n in live && live[n] > now :: live[n]
  }

  /** The relay leaves a record that is already empty alone. */
  function PruneNonces(s: State, mailbox: string, now: int): State {
    if s.Nonces(mailbox) == map[] then s else WithNonces(s, mailbox, Unexpired(s.Nonces(mailbox), now))
  }

  function IssueNonce(s: State, mailbox: string, nonce: string, now: int): State {
    var p := PruneNonces(s, mailbox, now);
    p.(nonces := p.nonces[mailbox := p.Nonces(mailbox)[nonce := now + NONCE_TTL_SECONDS]])
  }

  function DiscardNonce(s: State, mailbox: string, nonce: string): State {
    if mailbox !in s.nonces then s else WithNonces(s, mailbox, s.nonces[mailbox] - {nonce})
  }

  // ----- the store itself -----

  class Store {
    var mailboxes: map<string, seq<Entry>>
    var nextId: nat
    var owners: map<string, string>
    var unregistered: seq<string>
    var nonces: map<string, map<string, int>>

    function Contents(): State
      reads this
    {
      State(mailboxes, nextId, owners, unregistered, nonces)
    }

    constructor ()
      ensures Contents() == EMPTY
    {
      mailboxes, nextId, owners, unregistered, nonces := map[], 1, map[], [], map[];
    }

    method Prune(mailbox: string, now: int)
      modifies this
      ensures Contents() == PruneNonces(old(Contents()), mailbox, now)
    {
      if mailbox !in nonces || nonces[mailbox] == map[] {
        return;
      }
      var live := nonces[mailbox];
      ghost var before := live;
      var expired := set n | n in live && live[n] <= now;
      while expired != {}
        invariant expired <= live.Keys <= before.Keys
        invariant forall n :: n in live ==> live[n] == before[n]
        invariant forall n :: n in before ==> (n in live && n !in expired <==> before[n] > now)
        decreases expired
      {
        var n :| n in expired;
        live := live - {n};
        expired := expired - {n};
      }
      assert live == Unexpired(before, now);
      nonces := if live == map[] then nonces - {mailbox} else nonces[mailbox := live];
    }

    method Issue(mailbox: string, nonce: string, now: int)
      modifies this
      ensures Contents() == IssueNonce(old(Contents()), mailbox, nonce, now)
    {
      Prune(mailbox, now);
      var live := if mailbox in nonces then nonces[mailbox] else map[];
      nonces := nonces[mailbox := live[nonce := now + NONCE_TTL_SECONDS]];
    }

    method NonceLive(mailbox: string, nonce: string, now: int) returns (live: bool)
      modifies this
      ensures Contents() == PruneNonces(old(Contents()), mailbox, now)
      ensures live == (nonce in Contents().Nonces(mailbox))
    {
      Prune(mailbox, now);
      live := mailbox in nonces && nonce in nonces[mailbox];
    }

    method Discard(mailbox: string, nonce: string)
      modifies this
      ensures Contents() == DiscardNonce(old(Contents()), mailbox, nonce)
    {
      if mailbox in nonces {
        var live := nonces[mailbox] - {nonce};
        nonces := if live == map[] then nonces - {mailbox} else nonces[mailbox := live];
      }
    }

    method RegisterMailbox(mailbox: string, pub: string, maxRegistered: nat) returns (r: Result<string, Rejection>)
      modifies this
      ensures (Contents(), r) == Register(old(Contents()), mailbox, pub, maxRegistered)
    {
      if mailbox in owners {
        return Success(owners[mailbox]);
      }
      if |owners| >= maxRegistered {
        return Failure(RegisteredPoolFull);
      }
      unregistered := Without(unregistered, mailbox);
      owners := owners[mailbox := pub];
      return Success(pub);
    }

    method EvictOldestEmpty() returns (freed: bool)
      modifies this
      ensures (Contents(), freed) == Evict(old(Contents()))
    {
      var i := 0;
      while i < |unregistered|
        invariant i <= |unregistered|
        invariant Contents() == old(Contents())
        invariant OldestEmpty(Contents(), unregistered) == i + OldestEmpty(Contents(), unregistered[i..])
      {
        var mid := unregistered[i];
        if mid !in mailboxes || mailboxes[mid] == [] {
          unregistered := unregistered[..i] + unregistered[i + 1..];
          mailboxes := mailboxes - {mid};
          nonces := nonces - {mid};
          return true;
        }
        assert unregistered[i..][1..] == unregistered[i + 1..];
        i := i + 1;
      }
      return false;
    }

    method Deposit(envelope: Envelope, limits: Limits) returns (r: Result<nat, Rejection>)
      modifies this
      ensures (Contents(), r) == Push(old(Contents()), envelope, limits)
    {
      if envelope.size > limits.maxBytes {
        return Failure(EnvelopeTooLarge);
      }
      if envelope.relayMailbox.None? {
        return Failure(NoRecipient);
      }
      var mbx := envelope.relayMailbox.value;
      if mbx !in owners && mbx !in unregistered {
        if |unregistered| >= limits.maxUnregistered {
          var freed := EvictOldestEmpty();
          if !freed {
            return Failure(UnregisteredPoolFull);
          }
        }
        unregistered := unregistered + [mbx];
      }
      var queue := if mbx in mailboxes then mailboxes[mbx] else [];
      if |queue| >= limits.maxDepth {
        return Failure(QueueFull);
      }
      var id := nextId;
      nextId := nextId + 1;
      mailboxes := mailboxes[mbx := queue + [Entry(id, envelope)]];
      return Success(id);
    }

    method Fetch(mailbox: string) returns (queue: seq<Entry>)
      ensures queue == Contents().Queue(mailbox)
    {
      queue := if mailbox in mailboxes then mailboxes[mailbox] else [];
    }

    method Acknowledge(mailbox: string, ids: seq<nat>)
      modifies this
      ensures Contents() == Ack(old(Contents()), mailbox, ids)
    {
      var queue := if mailbox in mailboxes then mailboxes[mailbox] else [];
      mailboxes := mailboxes[mailbox := Kept(queue, ids)];
    }
  }

  // ----- what every operation keeps -----

  ghost predicate Distinct<T>(s: seq<T>) {
    forall i, j :: 0 <= i < j < |s| ==> s[i] != s[j]
  }

  /** The pools are disjoint and within their caps. */
  ghost predicate PoolsCapped(owners: map<string, string>, unregistered: seq<string>, limits: Limits) {
    && Distinct(unregistered)
    && (forall m :: m in unregistered ==> m !in owners)
    && |owners| <= limits.maxRegistered
    && |unregistered| <= limits.maxUnregistered
  }

  /** Mail waits only in known mailboxes, no deeper than the cap. */
  ghost predicate QueuesCapped(s: State, limits: Limits) {
    forall m :: |s.Queue(m)| <= limits.maxDepth && (s.Queue(m) != [] ==> s.Known(m))
  }

  /** Nonces exist for owners only, and no empty record is kept. */
  ghost predicate NoncesOwned(s: State) {
    forall m :: m in s.nonces ==> m in s.owners && s.nonces[m] != map[]
  }

  ghost predicate Bounded(s: State, limits: Limits) {
    PoolsCapped(s.owners, s.unregistered, limits) && QueuesCapped(s, limits) && NoncesOwned(s)
  }

  lemma {:induction false} WithoutDistinct(s: seq<string>, x: string)
    requires Distinct(s)
    ensures Distinct(Without(s, x))
  {
    if s != [] {
      WithoutDistinct(s[1..], x);
      assert s[0] !in s[1..];
      if s[0] != x {
        assert s[0] !in Without(s[1..], x);
      }
    }
  }

  lemma {:induction false} RegisterPools(owners: map<string, string>, unregistered: seq<string>, mailbox: string,
                                         pub: string, limits: Limits)
    requires PoolsCapped(owners, unregistered, limits)
    requires mailbox !in owners && |owners| < limits.maxRegistered
    ensures PoolsCapped(owners[mailbox := pub], Without(unregistered, mailbox), limits)
  {
    WithoutDistinct(unregistered, mailbox);
    assert owners[mailbox := pub].Keys == owners.Keys + {mailbox};
  }

  lemma RegisterKeepsBounded(s: State, mailbox: string, pub: string, limits: Limits)
    requires Bounded(s, limits)
    ensures Bounded(Register(s, mailbox, pub, limits.maxRegistered).0, limits)
  {
    var t := Register(s, mailbox, pub, limits.maxRegistered).0;
    if mailbox !in s.owners && |s.owners| < limits.maxRegistered {
      RegisterPools(s.owners, s.unregistered, mailbox, pub, limits);
      assert t.owners == s.owners[mailbox := pub] && t.unregistered == Without(s.unregistered, mailbox);
      forall m
        ensures t.Queue(m) == s.Queue(m) && (s.Known(m) ==> t.Known(m))
      {
      }
    }
  }

  lemma {:induction false} RemoveAtDistinct(s: seq<string>, i: nat)
    requires Distinct(s) && i < |s|
    ensures Distinct(s[..i] + s[i + 1..])
    ensures s[i] !in s[..i] + s[i + 1..]
    ensures forall m :: m in s ==> m == s[i] || m in s[..i] + s[i + 1..]
    ensures forall m :: m in s[..i] + s[i + 1..] ==> m in s
  {
    assert s == s[..i] + [s[i]] + s[i + 1..];
  }

  /** No caller can tell the two states apart by looking into a queue, an owner or a nonce. */
  ghost predicate LooksSame(s: State, t: State) {
    && (forall m :: t.Queue(m) == s.Queue(m))
    && t.owners == s.owners && t.nextId == s.nextId && t.nonces == s.nonces
  }

  ghost predicate PoolHasEmpty(s: State) {
    exists m :: m in s.unregistered && s.Queue(m) == []
  }

  lemma EvictFindsEmpty(s: State)
    ensures Evict(s).1 <==> PoolHasEmpty(s)
  {
    var i := OldestEmpty(s, s.unregistered);
    if i < |s.unregistered| {
      assert s.unregistered[i] in s.unregistered;
    }
  }

  lemma EvictShrinksPool(s: State, limits: Limits)
    requires PoolsCapped(s.owners, s.unregistered, limits)
    ensures var t := Evict(s).0;
            && PoolsCapped(t.owners, t.unregistered, limits)
            && t.owners == s.owners
            && (forall m :: m in t.unregistered ==> m in s.unregistered)
            && (Evict(s).1 ==> |t.unregistered| + 1 == |s.unregistered|)
  {
    var i := OldestEmpty(s, s.unregistered);
    if i < |s.unregistered| {
      RemoveAtDistinct(s.unregistered, i);
    }
  }

  lemma EvictDropsNothing(s: State, limits: Limits, m: string)
    requires Bounded(s, limits)
    ensures var t := Evict(s).0;
            && t.Queue(m) == s.Queue(m)
            && (m in t.nonces <==> m in s.nonces) && (m in t.nonces ==> t.nonces[m] == s.nonces[m])
            && (t.Queue(m) != [] ==> t.Known(m))
  {
    var i := OldestEmpty(s, s.unregistered);
    if i < |s.unregistered| {
      var gone := s.unregistered[i];
      assert gone in s.unregistered;
      if s.Queue(m) != [] && m !in s.owners {
        RemoveAtDistinct(s.unregistered, i);
      }
    }
  }

  /** Eviction removes one unregistered mailbox and nothing any caller could see. */
  lemma EvictKeeps(s: State, limits: Limits)
    requires Bounded(s, limits)
    ensures Bounded(Evict(s).0, limits)
    ensures LooksSame(s, Evict(s).0)
  {
    var t := Evict(s).0;
    EvictShrinksPool(s, limits);
    forall m
      ensures t.Queue(m) == s.Queue(m)
      ensures (m in t.nonces <==> m in s.nonces) && (m in t.nonces ==> t.nonces[m] == s.nonces[m])
      ensures t.Queue(m) != [] ==> t.Known(m)
    {
      EvictDropsNothing(s, limits, m);
    }
    assert t.nonces == s.nonces;
  }

  lemma AppendDistinct(s: seq<string>, x: string)
    requires Distinct(s) && x !in s
    ensures Distinct(s + [x])
  {
  }

  lemma AdmitKeeps(s: State, mailbox: string, limits: Limits)
    requires Bounded(s, limits)
    ensures Bounded(Admit(s, mailbox, limits.maxUnregistered).0, limits)
    ensures LooksSame(s, Admit(s, mailbox, limits.maxUnregistered).0)
    ensures Admit(s, mailbox, limits.maxUnregistered).1 ==> Admit(s, mailbox, limits.maxUnregistered).0.Known(mailbox)
    ensures !Admit(s, mailbox, limits.maxUnregistered).1 <==>
              !s.Known(mailbox) && |s.unregistered| >= limits.maxUnregistered && !PoolHasEmpty(s)
  {
    if !s.Known(mailbox) {
      var (room, ok) := if |s.unregistered| >= limits.maxUnregistered then Evict(s) else (s, true);
      if |s.unregistered| >= limits.maxUnregistered {
        EvictKeeps(s, limits);
        EvictShrinksPool(s, limits);
        EvictFindsEmpty(s);
      }
      if ok {
        JoinPool(room, mailbox, limits);
      }
    }
  }

  lemma JoinPool(s: State, mailbox: string, limits: Limits)
    requires Bounded(s, limits) && !s.Known(mailbox) && |s.unregistered| < limits.maxUnregistered
    ensures var t := s.(unregistered := s.unregistered + [mailbox]);
            Bounded(t, limits) && LooksSame(s, t) && t.Known(mailbox)
  {
    var t := s.(unregistered := s.unregistered + [mailbox]);
    AppendDistinct(s.unregistered, mailbox);
    forall m
      ensures t.Queue(m) == s.Queue(m) && (s.Known(m) ==> t.Known(m))
    {
    }
  }

  function Enqueued(s: State, mailbox: string, entry: Entry): State {
    s.(mailboxes := s.mailboxes[mailbox := s.Queue(mailbox) + [entry]], nextId := s.nextId + 1)
  }

  lemma EnqueuedBounded(s: State, mailbox: string, entry: Entry, limits: Limits)
    requires Bounded(s, limits) && s.Known(mailbox) && |s.Queue(mailbox)| < limits.maxDepth
    ensures Bounded(Enqueued(s, mailbox, entry), limits)
  {
    var t := Enqueued(s, mailbox, entry);
    forall m
      ensures t.Known(m) <==> s.Known(m)
      ensures t.Queue(m) == if m == mailbox then s.Queue(m) + [entry] else s.Queue(m)
    {
    }
  }

  lemma EnqueuedAlike(s: State, like: State, mailbox: string, entry: Entry)
    requires LooksSame(s, like)
    ensures LooksSame(Enqueued(s, mailbox, entry), Enqueued(like, mailbox, entry))
  {
    var t, u := Enqueued(s, mailbox, entry), Enqueued(like, mailbox, entry);
    forall m
      ensures t.Queue(m) == u.Queue(m)
    {
      assert s.Queue(m) == like.Queue(m) && s.Queue(mailbox) == like.Queue(mailbox);
    }
  }

  /**
   * A deposit touches one queue, its own, and only by appending under the next id; owners and nonces stay as they are.
   */
  lemma PushKeeps(s: State, envelope: Envelope, limits: Limits)
    requires Bounded(s, limits)
    ensures Bounded(Push(s, envelope, limits).0, limits)
    ensures var (t, r) := Push(s, envelope, limits);
            if r.Failure? then LooksSame(s, t)
            else
              && r.value == s.nextId && envelope.relayMailbox.Some?
              && LooksSame(Enqueued(s, envelope.relayMailbox.value, Entry(s.nextId, envelope)), t)
  {
    if envelope.size <= limits.maxBytes && envelope.relayMailbox.Some? {
      var mailbox := envelope.relayMailbox.value;
      AdmitKeeps(s, mailbox, limits);
      var (admitted, ok) := Admit(s, mailbox, limits.maxUnregistered);
      if ok && |admitted.Queue(mailbox)| < limits.maxDepth {
        EnqueuedBounded(admitted, mailbox, Entry(s.nextId, envelope), limits);
        EnqueuedAlike(s, admitted, mailbox, Entry(s.nextId, envelope));
      }
    }
  }

  /**
   * A deposit is turned down exactly when the envelope is too large or names no mailbox, when a new mailbox finds the
   * pool full of waiting mail, or when its queue is full; and then no mailbox loses any mail.
   */
  lemma PushRejects(s: State, envelope: Envelope, limits: Limits)
    requires Bounded(s, limits)
    ensures var r := Push(s, envelope, limits).1;
            var fits := envelope.size <= limits.maxBytes;
            && (r == Failure(EnvelopeTooLarge) <==> !fits)
            && (r == Failure(NoRecipient) <==> fits && envelope.relayMailbox.None?)
            && (r == Failure(UnregisteredPoolFull) <==>
                  fits && envelope.relayMailbox.Some? && !s.Known(envelope.relayMailbox.value)
                  && |s.unregistered| >= limits.maxUnregistered && !PoolHasEmpty(s))
            && (r == Failure(QueueFull) <==>
                  fits && envelope.relayMailbox.Some? && r != Failure(UnregisteredPoolFull)
                  && |s.Queue(envelope.relayMailbox.value)| >= limits.maxDepth)
    ensures var (t, r) := Push(s, envelope, limits);
            r.Failure? ==> (forall m :: t.Queue(m) == s.Queue(m)) && t.owners == s.owners && t.nextId == s.nextId
  {
    PushKeeps(s, envelope, limits);
    if envelope.size <= limits.maxBytes && envelope.relayMailbox.Some? {
      AdmitKeeps(s, envelope.relayMailbox.value, limits);
    }
  }

  lemma AckKeepsBounded(s: State, mailbox: string, ids: seq<nat>, limits: Limits)
    requires Bounded(s, limits)
    ensures Bounded(Ack(s, mailbox, ids), limits)
  {
    var t := Ack(s, mailbox, ids);
    forall m
      ensures t.Known(m) <==> s.Known(m)
      ensures t.Queue(m) == if m == mailbox then Kept(s.Queue(m), ids) else s.Queue(m)
    {
    }
  }

  lemma NoncesAside(s: State, t: State, limits: Limits)
    requires Bounded(s, limits)
    requires t == s.(nonces := t.nonces) && NoncesOwned(t)
    ensures Bounded(t, limits)
  {
    forall m
      ensures t.Queue(m) == s.Queue(m) && t.Known(m) == s.Known(m)
    {
    }
  }

  lemma PruneKeepsBounded(s: State, mailbox: string, now: int, limits: Limits)
    requires Bounded(s, limits)
    ensures Bounded(PruneNonces(s, mailbox, now), limits)
  {
    NoncesAside(s, PruneNonces(s, mailbox, now), limits);
  }

  lemma IssueKeepsBounded(s: State, mailbox: string, nonce: string, now: int, limits: Limits)
    requires Bounded(s, limits) && mailbox in s.owners
    ensures Bounded(IssueNonce(s, mailbox, nonce, now), limits)
  {
    PruneKeepsBounded(s, mailbox, now, limits);
    var p := PruneNonces(s, mailbox, now);
    var live := p.Nonces(mailbox)[nonce := now + NONCE_TTL_SECONDS];
    assert nonce in live;
    NoncesAside(p, p.(nonces := p.nonces[mailbox := live]), limits);
  }

  lemma DiscardKeepsBounded(s: State, mailbox: string, nonce: string, limits: Limits)
    requires Bounded(s, limits)
    ensures Bounded(DiscardNonce(s, mailbox, nonce), limits)
  {
    NoncesAside(s, DiscardNonce(s, mailbox, nonce), limits);
  }

  // ----- total memory -----

  ghost function Waiting(mailboxes: map<string, seq<Entry>>, among: set<string>): nat
    requires among <= mailboxes.Keys
  {
    if among == {} then 0
    else
      var m :| m in among;
      |mailboxes[m]| + Waiting(mailboxes, among - {m})
  }

  ghost function Busy(mailboxes: map<string, seq<Entry>>, among: set<string>): set<string>
    requires among <= mailboxes.Keys
  {
    set m | m in among && mailboxes[m] != []
  }

  lemma BusyStep(mailboxes: map<string, seq<Entry>>, among: set<string>, m: string)
    requires among <= mailboxes.Keys && m in among
    ensures |Busy(mailboxes, among)| == |Busy(mailboxes, among - {m})| + if mailboxes[m] != [] then 1 else 0
  {
    assert Busy(mailboxes, among) == Busy(mailboxes, among - {m}) + if mailboxes[m] != [] then {m} else {};
  }

  lemma {:induction false} WaitingBound(mailboxes: map<string, seq<Entry>>, depth: nat, among: set<string>)
    requires among <= mailboxes.Keys
    requires forall m :: m in among ==> |mailboxes[m]| <= depth
    ensures Waiting(mailboxes, among) <= |Busy(mailboxes, among)| * depth
    decreases among
  {
    if among != {} {
      var m :| m in among && Waiting(mailboxes, among) == |mailboxes[m]| + Waiting(mailboxes, among - {m});
      WaitingBound(mailboxes, depth, among - {m});
      BusyStep(mailboxes, among, m);
      AddOne(|Busy(mailboxes, among - {m})|, depth);
    }
  }

  lemma AddOne(n: nat, d: nat)
    ensures (n + 1) * d == n * d + d
  {
  }

  lemma {:induction false} SeqToSetCardinality<T>(s: seq<T>)
    ensures |set x | x in s| <= |s|
  {
    if s != [] {
      SeqToSetCardinality(s[1..]);
      assert (set x | x in s) == (set x | x in s[1..]) + {s[0]};
    }
  }

  lemma QueuesFit(s: State, limits: Limits, m: string)
    requires Bounded(s, limits) && m in s.mailboxes
    ensures |s.mailboxes[m]| <= limits.maxDepth && (s.mailboxes[m] != [] ==> s.Known(m))
  {
    assert s.Queue(m) == s.mailboxes[m];
  }

  /** No more mailboxes hold mail than the two pools have places. */
  lemma BusyFit(s: State, limits: Limits)
    requires Bounded(s, limits)
    ensures |Busy(s.mailboxes, s.mailboxes.Keys)| <= limits.maxRegistered + limits.maxUnregistered
  {
    var busy, pool := Busy(s.mailboxes, s.mailboxes.Keys), set m | m in s.unregistered;
    forall m | m in busy
      ensures m in s.owners.Keys + pool
    {
      QueuesFit(s, limits, m);
    }
    SubsetCardinality(busy, s.owners.Keys + pool);
    SeqToSetCardinality(s.unregistered);
    PoolsFit(s, limits, pool);
  }

  lemma PoolsFit(s: State, limits: Limits, pool: set<string>)
    requires Bounded(s, limits) && |pool| <= |s.unregistered|
    ensures |s.owners.Keys + pool| <= limits.maxRegistered + limits.maxUnregistered
  {
    assert |s.owners.Keys| == |s.owners|;
  }

  /** All undelivered mail together is at most the two pool caps times the queue cap. */
  lemma TotalMailBound(s: State, limits: Limits)
    requires Bounded(s, limits)
    ensures Waiting(s.mailboxes, s.mailboxes.Keys) <= (limits.maxRegistered + limits.maxUnregistered) * limits.maxDepth
  {
    forall m | m in s.mailboxes
      ensures |s.mailboxes[m]| <= limits.maxDepth
    {
      QueuesFit(s, limits, m);
    }
    WaitingBound(s.mailboxes, limits.maxDepth, s.mailboxes.Keys);
    BusyFit(s, limits);
    Scale(|Busy(s.mailboxes, s.mailboxes.Keys)|, limits.maxRegistered + limits.maxUnregistered, limits.maxDepth);
  }

  lemma Scale(a: nat, b: nat, c: nat)
    requires a <= b
    ensures a * c <= b * c
  {
  }

  /** The store after a run of deposits, accepted or refused. */
  function Deposits(s: State, envelopes: seq<Envelope>, limits: Limits): State {
    if envelopes == [] then s
    else Push(Deposits(s, envelopes[..|envelopes| - 1], limits), envelopes[|envelopes| - 1], limits).0
  }

  /** Deposits, however many, leave every owner in place and never change whether a mailbox can be registered. */
  lemma {:induction false} FloodCannotLockOut(s: State, envelopes: seq<Envelope>, limits: Limits, mailbox: string,
                                              pub: string)
    ensures Deposits(s, envelopes, limits).owners == s.owners
    ensures Register(Deposits(s, envelopes, limits), mailbox, pub, limits.maxRegistered).1
            == Register(s, mailbox, pub, limits.maxRegistered).1
  {
    if envelopes != [] {
      FloodCannotLockOut(s, envelopes[..|envelopes| - 1], limits, mailbox, pub);
    }
  }
}
