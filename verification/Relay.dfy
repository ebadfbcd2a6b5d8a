/** The relay's five endpoints over one store and one rate limiter, and what holds over every run of requests. */
module Relay {
  import opened Wrappers
  import opened MailStore
  import RateLimiter

  /** The signature check is opaque: identity key, signature, and the mailbox and nonce the signed body names. */
  type SignatureCheck = (string, string, string, string) -> bool

  datatype Config = Config(limits: Limits, requireAuth: bool, rateMax: nat, rateWindow: int, verify: SignatureCheck)

  datatype Credentials = Credentials(nonce: Option<string>, signature: Option<string>, pub: Option<string>)

  /** A challenge carries the random nonce the server will draw for it. */
  datatype Call =
    | Register(mailbox: string, pub: string)
    | Challenge(mailbox: string, drawn: string)
    | Post(envelope: Envelope)
    | Fetch(mailbox: string, cred: Credentials)
    | Acknowledge(mailbox: string, ids: seq<nat>, cred: Credentials)

  datatype Request = Request(host: Option<string>, now: int, call: Call)

  datatype Reply =
    | Owner(pub: string)
    | Issued(nonce: string)
    | Deposited(id: nat)
    | Mail(entries: seq<Entry>)
    | Acked
    | Refused(status: nat)

  datatype App = App(buckets: RateLimiter.Buckets, store: State)

  function StatusOf(r: Rejection): nat {
    match r
    case EnvelopeTooLarge => 413
    case NoRecipient => 500
    case UnregisteredPoolFull | QueueFull | RegisteredPoolFull => 429
  }

  // ----- one request, as a function -----

  /**
   * The ownership proof. A proof that names a nonce prunes expired ones even when it fails; a good one burns its nonce.
   */
  function CheckAuth(verify: SignatureCheck, s: State, mailbox: string, cred: Credentials, now: int): (State, bool) {
    if mailbox !in s.owners || cred.nonce.None? || cred.signature.None? || cred.pub.None? then (s, false)
    else if cred.pub.value != s.owners[mailbox] then (s, false)
    else
      var p := PruneNonces(s, mailbox, now);
      if cred.nonce.value !in p.Nonces(mailbox) then (p, false)
      else if !verify(cred.pub.value, cred.signature.value, mailbox, cred.nonce.value) then (p, false)
      else (DiscardNonce(p, mailbox, cred.nonce.value), true)
  }

  function Guard(cfg: Config, s: State, mailbox: string, cred: Credentials, now: int): (State, bool) {
    if cfg.requireAuth then CheckAuth(cfg.verify, s, mailbox, cred, now) else (s, true)
  }

  function Serve(cfg: Config, s: State, call: Call, now: int): (State, Reply) {
    match call
    case Register(mailbox, pub) =>
      var (t, r) := MailStore.Register(s, mailbox, pub, cfg.limits.maxRegistered);
      (t, if r.Success? then Owner(r.value) else Refused(StatusOf(r.error)))
    case Challenge(mailbox, drawn) =>
      if mailbox !in s.owners then (s, Refused(404)) else (IssueNonce(s, mailbox, drawn, now), Issued(drawn))
    case Post(envelope) =>
      var (t, r) := Push(s, envelope, cfg.limits);
      (t, if r.Success? then Deposited(r.value) else Refused(StatusOf(r.error)))
    case Fetch(mailbox, cred) =>
      var (t, ok) := Guard(cfg, s, mailbox, cred, now);
      (t, if ok then Mail(t.Queue(mailbox)) else Refused(401))
    case Acknowledge(mailbox, ids, cred) =>
      var (t, ok) := Guard(cfg, s, mailbox, cred, now);
      if ok then (Ack(t, mailbox, ids), Acked) else (t, Refused(401))
  }

  function Step(cfg: Config, app: App, r: Request): (App, Reply) {
    var (buckets, allowed) := RateLimiter.Check(app.buckets, RateLimiter.Request(r.host, r.now), cfg.rateMax,
                                                cfg.rateWindow, true);
    if !allowed then (App(buckets, app.store), Refused(429))
    else
      var (store, reply) := Serve(cfg, app.store, r.call, r.now);
      (App(buckets, store), reply)
  }

  // ----- the server -----

  class Server {
    const cfg: Config
    const limiter: RateLimiter.Limiter
    const store: Store

    ghost predicate Valid() {
      limiter.max == cfg.rateMax && limiter.window == cfg.rateWindow
    }

    function Contents(): App
      reads limiter, store
    {
      App(limiter.buckets, store.Contents())
    }

    constructor (cfg: Config)
      ensures Valid() && this.cfg == cfg && fresh(limiter) && fresh(store)
      ensures Contents() == App(map[], EMPTY)
    {
      this.cfg := cfg;
      limiter := new RateLimiter.Limiter(cfg.rateMax, cfg.rateWindow);
      store := new Store();
    }

    method Authorise(mailbox: string, cred: Credentials, now: int) returns (ok: bool)
      modifies store
      ensures (store.Contents(), ok) == CheckAuth(cfg.verify, old(store.Contents()), mailbox, cred, now)
    {
      if mailbox !in store.owners || cred.nonce.None? || cred.signature.None? || cred.pub.None? {
        return false;
      }
      if cred.pub.value != store.owners[mailbox] {
        return false;
      }
      var live := store.NonceLive(mailbox, cred.nonce.value, now);
      if !live {
        return false;
      }
      if !cfg.verify(cred.pub.value, cred.signature.value, mailbox, cred.nonce.value) {
        return false;
      }
      store.Discard(mailbox, cred.nonce.value);
      return true;
    }

    method Handle(r: Request) returns (reply: Reply)
      requires Valid()
      modifies limiter, store
      ensures (Contents(), reply) == Step(cfg, old(Contents()), r)
    {
      var allowed := limiter.Allow(r.host, r.now);
      if !allowed {
        return Refused(429);
      }
      match r.call {
        case Register(mailbox, pub) =>
          var owner := store.RegisterMailbox(mailbox, pub, cfg.limits.maxRegistered);
          reply := if owner.Success? then Owner(owner.value) else Refused(StatusOf(owner.error));
        case Challenge(mailbox, drawn) =>
          if mailbox !in store.owners {
            return Refused(404);
          }
          store.Issue(mailbox, drawn, r.now);
          reply := Issued(drawn);
        case Post(envelope) =>
          var id := store.Deposit(envelope, cfg.limits);
          reply := if id.Success? then Deposited(id.value) else Refused(StatusOf(id.error));
        case Fetch(mailbox, cred) =>
          if cfg.requireAuth {
            var ok := Authorise(mailbox, cred, r.now);
            if !ok {
              return Refused(401);
            }
          }
          var entries := store.Fetch(mailbox);
          reply := Mail(entries);
        case Acknowledge(mailbox, ids, cred) =>
          if cfg.requireAuth {
            var ok := Authorise(mailbox, cred, r.now);
            if !ok {
              return Refused(401);
            }
          }
          store.Acknowledge(mailbox, ids);
          reply := Acked;
      }
    }
  }

  // ----- runs -----

  /** A request and the answer it got. */
  datatype Exchange = Exchange(request: Request, reply: Reply)

  function After(cfg: Config, run: seq<Request>): App {
    if run == [] then App(map[], EMPTY)
    else Step(cfg, After(cfg, run[..|run| - 1]), run[|run| - 1]).0
  }

  function Log(cfg: Config, run: seq<Request>): (log: seq<Exchange>)
    ensures |log| == |run|
    ensures forall i :: 0 <= i < |run| ==> log[i].request == run[i]
  {
    if run == [] then []
    else
      var last := run[|run| - 1];
      Log(cfg, run[..|run| - 1]) + [Exchange(last, Step(cfg, After(cfg, run[..|run| - 1]), last).1)]
  }

  lemma {:induction false} LogOfPrefix(cfg: Config, run: seq<Request>, n: nat)
    requires n <= |run|
    ensures Log(cfg, run[..n]) == Log(cfg, run)[..n]
  {
    if n < |run| {
      LogOfPrefix(cfg, run[..|run| - 1], n);
      assert run[..|run| - 1][..n] == run[..n];
    } else {
      assert run[..n] == run;
    }
  }

  /** Entry j of the log is the request made then with the answer the state before it gave. */
  lemma {:induction false} LogAt(cfg: Config, run: seq<Request>, j: nat)
    requires j < |run|
    ensures Log(cfg, run)[j] == Exchange(run[j], Step(cfg, After(cfg, run[..j]), run[j]).1)
    ensures Log(cfg, run[..j]) == Log(cfg, run)[..j]
  {
    LogOfPrefix(cfg, run, j);
    LogOfPrefix(cfg, run, j + 1);
    var upto := run[..j + 1];
    assert upto[..j] == run[..j];
    assert Log(cfg, upto)[j] == Exchange(run[j], Step(cfg, After(cfg, run[..j]), run[j]).1);
  }

  // ----- the limiter inside the relay -----

  function Arrivals(run: seq<Request>): (arrivals: seq<RateLimiter.Request>)
    ensures |arrivals| == |run|
  {
    seq(|run|, i requires 0 <= i < |run| => RateLimiter.Request(run[i].host, run[i].now))
  }

  /**
   * Every request of the run is counted, whatever endpoint it names and whatever comes of it; and a request the limiter
   * turns down changes nothing in the store.
   */
  lemma {:induction false} EveryRequestCounted(cfg: Config, run: seq<Request>)
    ensures After(cfg, run).buckets == RateLimiter.TableAfter(Arrivals(run), cfg.rateMax, cfg.rateWindow, true)
    ensures run != [] && !RateLimiter.Answer(Arrivals(run), cfg.rateMax, cfg.rateWindow, true) ==>
              Log(cfg, run)[|run| - 1].reply == Refused(429)
              && After(cfg, run).store == After(cfg, run[..|run| - 1]).store
  {
    if run != [] {
      EveryRequestCounted(cfg, run[..|run| - 1]);
      assert Arrivals(run)[..|run| - 1] == Arrivals(run[..|run| - 1]);
    }
  }

  // ----- bounded memory -----

  lemma GuardKeepsBounded(cfg: Config, s: State, mailbox: string, cred: Credentials, now: int)
    requires Bounded(s, cfg.limits)
    ensures Bounded(Guard(cfg, s, mailbox, cred, now).0, cfg.limits)
  {
    PruneKeepsBounded(s, mailbox, now, cfg.limits);
    if cred.nonce.Some? {
      DiscardKeepsBounded(PruneNonces(s, mailbox, now), mailbox, cred.nonce.value, cfg.limits);
    }
  }

  lemma ServeKeepsBounded(cfg: Config, s: State, call: Call, now: int)
    requires Bounded(s, cfg.limits)
    ensures Bounded(Serve(cfg, s, call, now).0, cfg.limits)
  {
    match call
    case Register(mailbox, pub) => RegisterKeepsBounded(s, mailbox, pub, cfg.limits);
    case Challenge(mailbox, drawn) =>
      if mailbox in s.owners {
        IssueKeepsBounded(s, mailbox, drawn, now, cfg.limits);
      }
    case Post(envelope) => PushKeeps(s, envelope, cfg.limits);
    case Fetch(mailbox, cred) => GuardKeepsBounded(cfg, s, mailbox, cred, now);
    case Acknowledge(mailbox, ids, cred) =>
      GuardKeepsBounded(cfg, s, mailbox, cred, now);
      AckKeepsBounded(Guard(cfg, s, mailbox, cred, now).0, mailbox, ids, cfg.limits);
  }

  /** In every reachable state the pools, queues and nonces are bounded, and so is all undelivered mail together. */
  lemma {:induction false} MemoryBounded(cfg: Config, run: seq<Request>)
    ensures Bounded(After(cfg, run).store, cfg.limits)
    ensures var mail := After(cfg, run).store.mailboxes;
            Waiting(mail, mail.Keys) <= (cfg.limits.maxRegistered + cfg.limits.maxUnregistered) * cfg.limits.maxDepth
  {
    if run != [] {
      MemoryBounded(cfg, run[..|run| - 1]);
      ServeKeepsBounded(cfg, After(cfg, run[..|run| - 1]).store, run[|run| - 1].call, run[|run| - 1].now);
    }
    TotalMailBound(After(cfg, run).store, cfg.limits);
  }

  lemma ServeKeepsOwners(cfg: Config, s: State, call: Call, now: int, mailbox: string)
    requires mailbox in s.owners
    ensures var t := Serve(cfg, s, call, now).0; mailbox in t.owners && t.owners[mailbox] == s.owners[mailbox]
  {
  }

  /** First write wins: whoever a mailbox belonged to after any part of a run, it belongs to for the rest of it. */
  lemma {:induction false} OwnerFixed(cfg: Config, run: seq<Request>, n: nat, mailbox: string)
    requires n <= |run| && mailbox in After(cfg, run[..n]).store.owners
    ensures mailbox in After(cfg, run).store.owners
    ensures After(cfg, run).store.owners[mailbox] == After(cfg, run[..n]).store.owners[mailbox]
  {
    if n < |run| {
      assert run[..|run| - 1][..n] == run[..n];
      OwnerFixed(cfg, run[..|run| - 1], n, mailbox);
      ServeKeepsOwners(cfg, After(cfg, run[..|run| - 1]).store, run[|run| - 1].call, run[|run| - 1].now, mailbox);
    } else {
      assert run[..n] == run;
    }
  }

  // ----- mail conservation -----

  /** What one answered request does to a queue, read off the request and the answer alone. */
  function Effect(x: Exchange, mailbox: string, queue: seq<Entry>): seq<Entry> {
    match (x.request.call, x.reply)
    case (Post(envelope), Deposited(id)) =>
      if envelope.relayMailbox == Some(mailbox) then queue + [Entry(id, envelope)] else queue
    case (Acknowledge(named, ids, _), Acked) => if named == mailbox then Kept(queue, ids) else queue
    case _ => queue
  }

  lemma GuardLooksSame(cfg: Config, s: State, mailbox: string, cred: Credentials, now: int, m: string)
    ensures Guard(cfg, s, mailbox, cred, now).0.Queue(m) == s.Queue(m)
    ensures Guard(cfg, s, mailbox, cred, now).0.nextId == s.nextId
  {
  }

  lemma ServeEffect(cfg: Config, s: State, r: Request, m: string)
    requires Bounded(s, cfg.limits)
    ensures var (t, reply) := Serve(cfg, s, r.call, r.now);
            && t.Queue(m) == Effect(Exchange(r, reply), m, s.Queue(m))
            && t.nextId == (if reply.Deposited? then s.nextId + 1 else s.nextId)
            && (reply.Deposited? ==> reply.id == s.nextId && r.call.Post?)
  {
    match r.call
    case Register(mailbox, pub) =>
    case Challenge(mailbox, drawn) =>
    case Post(envelope) =>
      PushKeeps(s, envelope, cfg.limits);
    case Fetch(mailbox, cred) => GuardLooksSame(cfg, s, mailbox, cred, r.now, m);
    case Acknowledge(mailbox, ids, cred) => GuardLooksSame(cfg, s, mailbox, cred, r.now, m);
  }

  /** The queue after a run is what its answered requests alone say: no pool, cap, promotion or eviction shows in it. */
  function Expected(log: seq<Exchange>, mailbox: string): seq<Entry> {
    if log == [] then []
    else Effect(log[|log| - 1], mailbox, Expected(log[..|log| - 1], mailbox))
  }

  lemma {:induction false} QueuesAsExpected(cfg: Config, run: seq<Request>, mailbox: string)
    ensures After(cfg, run).store.Queue(mailbox) == Expected(Log(cfg, run), mailbox)
  {
    if run != [] {
      var before := run[..|run| - 1];
      QueuesAsExpected(cfg, before, mailbox);
      MemoryBounded(cfg, before);
      ServeEffect(cfg, After(cfg, before).store, run[|run| - 1], mailbox);
      assert Log(cfg, run)[..|run| - 1] == Log(cfg, before);
    }
  }

  ghost predicate DepositOf(x: Exchange, mailbox: string, e: Entry) {
    && x.request.call.Post? && x.request.call.envelope == e.envelope
    && e.envelope.relayMailbox == Some(mailbox)
    && x.reply == Deposited(e.id)
  }

  ghost predicate AckOf(x: Exchange, mailbox: string, id: nat) {
    && x.request.call.Acknowledge? && x.request.call.mailbox == mailbox && id in x.request.call.ids
    && x.reply == Acked
  }

  ghost predicate WaitsSince(log: seq<Exchange>, mailbox: string, e: Entry, i: nat) {
    && i < |log| && DepositOf(log[i], mailbox, e)
    && forall j :: i < j < |log| ==> !AckOf(log[j], mailbox, e.id)
  }

  lemma EffectMembers(x: Exchange, mailbox: string, queue: seq<Entry>, e: Entry)
    ensures e in Effect(x, mailbox, queue) <==>
              DepositOf(x, mailbox, e) || (e in queue && !AckOf(x, mailbox, e.id))
  {
  }

  lemma {:induction false} ExpectedMembers(log: seq<Exchange>, mailbox: string, e: Entry)
    ensures e in Expected(log, mailbox) <==> exists i: nat :: WaitsSince(log, mailbox, e, i)
  {
    if log != [] {
      var n := |log| - 1;
      var before := log[..n];
      ExpectedMembers(before, mailbox, e);
      EffectMembers(log[n], mailbox, Expected(before, mailbox), e);
      if DepositOf(log[n], mailbox, e) {
        assert WaitsSince(log, mailbox, e, n);
      } else if e in Expected(log, mailbox) {
        var i: nat :| WaitsSince(before, mailbox, e, i);
        assert WaitsSince(log, mailbox, e, i);
      }
      if i: nat :| WaitsSince(log, mailbox, e, i) {
        if i < n {
          assert WaitsSince(before, mailbox, e, i);
          assert !AckOf(log[n], mailbox, e.id);
        }
      }
    }
  }

  /**
   * Mail conservation: after every run a mailbox holds exactly the envelopes deposited for it, unchanged, that no later
   * acknowledgement naming that mailbox and that id was granted for.
   */
  lemma {:induction false} MailConserved(cfg: Config, run: seq<Request>, mailbox: string, e: Entry)
    ensures e in After(cfg, run).store.Queue(mailbox) <==> exists i: nat :: WaitsSince(Log(cfg, run), mailbox, e, i)
  {
    QueuesAsExpected(cfg, run, mailbox);
    ExpectedMembers(Log(cfg, run), mailbox, e);
  }

  ghost predicate Ascending(queue: seq<Entry>) {
    forall i, j :: 0 <= i < j < |queue| ==> queue[i].id < queue[j].id
  }

  lemma {:induction false} KeptAscending(queue: seq<Entry>, ids: seq<nat>)
    requires Ascending(queue)
    ensures Ascending(Kept(queue, ids))
  {
    if queue != [] {
      KeptAscending(queue[1..], ids);
      var rest := Kept(queue[1..], ids);
      forall e | e in rest
        ensures queue[0].id < e.id
      {
        assert e in queue[1..];
      }
      if queue[0].id !in ids {
        assert Kept(queue, ids) == [queue[0]] + rest;
        assert forall k :: 0 <= k < |rest| ==> rest[k] in rest;
      }
    }
  }

  lemma EffectAscending(x: Exchange, mailbox: string, queue: seq<Entry>, bound: nat)
    requires Ascending(queue) && forall e :: e in queue ==> e.id < bound
    requires x.reply.Deposited? ==> x.reply.id == bound
    ensures Ascending(Effect(x, mailbox, queue))
    ensures forall e :: e in Effect(x, mailbox, queue) ==> e.id < bound + if x.reply.Deposited? then 1 else 0
  {
    if x.request.call.Acknowledge? {
      KeptAscending(queue, x.request.call.ids);
    }
    forall k | 0 <= k < |queue|
      ensures queue[k].id < bound
    {
      assert queue[k] in queue;
    }
  }

  /** Every queue is in acceptance order, holds no id twice, and no id is ever handed out again. */
  lemma {:induction false} AcceptanceOrder(cfg: Config, run: seq<Request>, mailbox: string)
    ensures Ascending(After(cfg, run).store.Queue(mailbox))
    ensures forall e :: e in After(cfg, run).store.Queue(mailbox) ==> e.id < After(cfg, run).store.nextId
  {
    if run != [] {
      var before := run[..|run| - 1];
      AcceptanceOrder(cfg, before, mailbox);
      MemoryBounded(cfg, before);
      var (app, reply) := Step(cfg, After(cfg, before), run[|run| - 1]);
      if app.store != After(cfg, before).store {
        ServeEffect(cfg, After(cfg, before).store, run[|run| - 1], mailbox);
        EffectAscending(Exchange(run[|run| - 1], reply), mailbox, After(cfg, before).store.Queue(mailbox),
                        After(cfg, before).store.nextId);
      }
    }
  }

  lemma {:induction false} IdsBelowNext(cfg: Config, run: seq<Request>, i: nat)
    requires i < |run| && Log(cfg, run)[i].reply.Deposited?
    ensures Log(cfg, run)[i].reply.id < After(cfg, run).store.nextId
  {
    var before := run[..|run| - 1];
    MemoryBounded(cfg, before);
    ServeEffect(cfg, After(cfg, before).store, run[|run| - 1], "");
    if i < |run| - 1 {
      IdsBelowNext(cfg, before, i);
    }
  }

  /** A deposit gets the next id. */
  lemma DepositGetsNext(cfg: Config, app: App, r: Request)
    requires Step(cfg, app, r).1.Deposited?
    ensures Step(cfg, app, r).1.id == app.store.nextId
  {
  }

  /** Deposits get strictly growing ids, so no two accepted envelopes of a run share one. */
  lemma {:induction false} IdsNeverRepeat(cfg: Config, run: seq<Request>, i: nat, j: nat)
    requires i < j < |run| && Log(cfg, run)[i].reply.Deposited? && Log(cfg, run)[j].reply.Deposited?
    ensures Log(cfg, run)[i].reply.id < Log(cfg, run)[j].reply.id
  {
    LogAt(cfg, run, j);
    assert Log(cfg, run)[i] == Log(cfg, run[..j])[i];
    IdsBelowNext(cfg, run[..j], i);
    DepositGetsNext(cfg, After(cfg, run[..j]), run[j]);
  }

  // ----- nonces -----

  ghost predicate IssueOf(x: Exchange, mailbox: string, nonce: string) {
    x.request.call == Challenge(mailbox, nonce) && x.reply == Issued(nonce)
  }

  /** A fetch or acknowledgement of `mailbox` that was let through on `nonce`. */
  ghost predicate UseOf(x: Exchange, mailbox: string, nonce: string) {
    match x.request.call
    case Fetch(m, cred) => m == mailbox && cred.nonce == Some(nonce) && x.reply.Mail?
    case Acknowledge(m, _, cred) => m == mailbox && cred.nonce == Some(nonce) && x.reply == Acked
    case _ => false
  }

  /** The ownership proof passes exactly for the owner's key, a signature that checks, and a nonce still unexpired. */
  lemma AuthExactly(verify: SignatureCheck, s: State, mailbox: string, cred: Credentials, now: int)
    ensures CheckAuth(verify, s, mailbox, cred, now).1 <==>
              && mailbox in s.owners && cred.pub == Some(s.owners[mailbox])
              && cred.nonce.Some? && cred.nonce.value in s.Nonces(mailbox) && now < s.Nonces(mailbox)[cred.nonce.value]
              && cred.signature.Some? && verify(cred.pub.value, cred.signature.value, mailbox, cred.nonce.value)
  {
  }

  lemma PushNonces(s: State, envelope: Envelope, limits: Limits, mailbox: string)
    ensures var t := Push(s, envelope, limits).0;
            mailbox in t.nonces ==> mailbox in s.nonces && t.nonces[mailbox] == s.nonces[mailbox]
  {
  }

  lemma AuthNonces(verify: SignatureCheck, s: State, named: string, cred: Credentials, now: int, mailbox: string,
                   nonce: string)
    ensures var (t, ok) := CheckAuth(verify, s, named, cred, now);
            nonce in t.Nonces(mailbox) ==>
              && nonce in s.Nonces(mailbox) && t.Nonces(mailbox)[nonce] == s.Nonces(mailbox)[nonce]
              && !(ok && named == mailbox && cred.nonce == Some(nonce))
  {
  }

  /** A recorded nonce was recorded by this very request, or was there before and this request did not use it. */
  lemma NonceStep(cfg: Config, app: App, r: Request, mailbox: string, nonce: string)
    requires cfg.requireAuth
    ensures var (t, reply) := Step(cfg, app, r);
            var x := Exchange(r, reply);
            nonce in t.store.Nonces(mailbox) ==>
              || (IssueOf(x, mailbox, nonce) && t.store.Nonces(mailbox)[nonce] == r.now + NONCE_TTL_SECONDS)
              || (nonce in app.store.Nonces(mailbox)
                 && t.store.Nonces(mailbox)[nonce] == app.store.Nonces(mailbox)[nonce]
                  && !UseOf(x, mailbox, nonce))
  {
    match r.call
    case Register(named, pub) =>
    case Challenge(named, drawn) =>
    case Post(envelope) => PushNonces(app.store, envelope, cfg.limits, mailbox);
    case Fetch(named, cred) => AuthNonces(cfg.verify, app.store, named, cred, r.now, mailbox, nonce);
    case Acknowledge(named, ids, cred) => AuthNonces(cfg.verify, app.store, named, cred, r.now, mailbox, nonce);
  }

  lemma UseNeedsNonce(cfg: Config, app: App, r: Request, mailbox: string, nonce: string)
    requires cfg.requireAuth && UseOf(Exchange(r, Step(cfg, app, r).1), mailbox, nonce)
    ensures nonce in app.store.Nonces(mailbox) && r.now < app.store.Nonces(mailbox)[nonce]
  {
  }

  /** `k` is the exchange that issued the nonce now standing, and nobody has used it since. */
  ghost predicate UnusedSince(log: seq<Exchange>, mailbox: string, nonce: string, k: nat) {
    && k < |log| && IssueOf(log[k], mailbox, nonce)
    && forall j :: k < j < |log| ==> !UseOf(log[j], mailbox, nonce)
  }

  lemma {:induction false} NonceOrigin(cfg: Config, run: seq<Request>, mailbox: string, nonce: string) returns (k: nat)
    requires cfg.requireAuth && nonce in After(cfg, run).store.Nonces(mailbox)
    ensures UnusedSince(Log(cfg, run), mailbox, nonce, k)
    ensures After(cfg, run).store.Nonces(mailbox)[nonce] == run[k].now + NONCE_TTL_SECONDS
  {
    assert run != [];
    var n := |run| - 1;
    var before := run[..n];
    var log := Log(cfg, run);
    NonceStep(cfg, After(cfg, before), run[n], mailbox, nonce);
    if IssueOf(log[n], mailbox, nonce)
      && After(cfg, run).store.Nonces(mailbox)[nonce] == run[n].now + NONCE_TTL_SECONDS {
      k := n;
    } else {
      k := NonceOrigin(cfg, before, mailbox, nonce);
      assert log[..n] == Log(cfg, before);
      assert log[k] == Log(cfg, before)[k];
      forall j | k < j < |log|
        ensures !UseOf(log[j], mailbox, nonce)
      {
        if j < n {
          assert log[j] == Log(cfg, before)[j];
        }
      }
    }
  }

  /**
   * The request let through at j rides on the challenge at k: same mailbox, before its expiry, and nobody used it
   * between.
   */
  ghost predicate RidesOn(run: seq<Request>, log: seq<Exchange>, mailbox: string, nonce: string, k: nat, j: nat)
    requires |log| == |run|
  {
    && k < j < |log| && IssueOf(log[k], mailbox, nonce)
    && run[j].now < run[k].now + NONCE_TTL_SECONDS
    && forall i :: k < i < j ==> !UseOf(log[i], mailbox, nonce)
  }

  lemma {:induction false} ChallengeBehindUse(cfg: Config, run: seq<Request>, j: nat, mailbox: string,
                                              nonce: string) returns (k: nat)
    requires cfg.requireAuth && j < |run| && UseOf(Log(cfg, run)[j], mailbox, nonce)
    ensures RidesOn(run, Log(cfg, run), mailbox, nonce, k, j)
  {
    LogAt(cfg, run, j);
    UseNeedsNonce(cfg, After(cfg, run[..j]), run[j], mailbox, nonce);
    k := NonceOrigin(cfg, run[..j], mailbox, nonce);
    forall i | k < i < j
      ensures !UseOf(Log(cfg, run)[i], mailbox, nonce)
    {
      assert Log(cfg, run)[..j][i] == Log(cfg, run)[i];
    }
  }

  /**
   * Every request let through on a nonce rides on an earlier challenge that issued the nonce to that very mailbox,
   * comes strictly before that nonce's expiry, and is the first use since: a nonce opens one request per time it was
   * issued.
   */
  lemma {:induction false} NonceSingleUse(cfg: Config, run: seq<Request>, j: nat, mailbox: string, nonce: string)
    requires cfg.requireAuth && j < |run| && UseOf(Log(cfg, run)[j], mailbox, nonce)
    ensures exists k: nat :: RidesOn(run, Log(cfg, run), mailbox, nonce, k, j)
  {
    var k := ChallengeBehindUse(cfg, run, j, mailbox, nonce);
  }

  ghost predicate FreshNonces(log: seq<Exchange>) {
    forall i, k :: 0 <= i < k < |log| && log[i].reply.Issued? && log[k].reply.Issued? ==>
      log[i].reply.nonce != log[k].reply.nonce
  }

  /**
   * When the drawn nonces are distinct, a nonce opens at most one request in the whole run, for at most one mailbox.
   */
  lemma {:induction false} FreshNonceOpensOnce(cfg: Config, run: seq<Request>, i: nat, j: nat, m1: string, m2: string,
                                               nonce: string)
    requires cfg.requireAuth && FreshNonces(Log(cfg, run))
    requires i < |run| && j < |run| && UseOf(Log(cfg, run)[i], m1, nonce) && UseOf(Log(cfg, run)[j], m2, nonce)
    ensures i == j && m1 == m2
  {
    var k1 := ChallengeBehindUse(cfg, run, i, m1, nonce);
    var k2 := ChallengeBehindUse(cfg, run, j, m2, nonce);
    assert k1 == k2;
  }

  // ----- what is answered -----

  /** Does the limiter let request j of the run through? */
  predicate LetThrough(cfg: Config, run: seq<Request>, j: nat)
    requires j < |run|
  {
    RateLimiter.Answer(Arrivals(run[..j + 1]), cfg.rateMax, cfg.rateWindow, true)
  }

  /**
   * A proof of ownership that is good at that moment: the owner's key, its signature, and a nonce that has not expired.
   */
  ghost predicate ProvesOwner(cfg: Config, s: State, mailbox: string, cred: Credentials, now: int) {
    && mailbox in s.owners && cred.pub == Some(s.owners[mailbox])
    && cred.nonce.Some? && cred.nonce.value in s.Nonces(mailbox) && now < s.Nonces(mailbox)[cred.nonce.value]
    && cred.signature.Some? && cfg.verify(cred.pub.value, cred.signature.value, mailbox, cred.nonce.value)
  }

  lemma {:induction false} LimiterAt(cfg: Config, run: seq<Request>, j: nat)
    requires j < |run|
    ensures LetThrough(cfg, run, j)
            <==> RateLimiter.Check(After(cfg, run[..j]).buckets, RateLimiter.Request(run[j].host, run[j].now),
                                   cfg.rateMax, cfg.rateWindow, true).1
  {
    EveryRequestCounted(cfg, run[..j]);
    var arrivals := Arrivals(run[..j + 1]);
    assert arrivals[..j] == Arrivals(run[..j]) && arrivals[j] == RateLimiter.Request(run[j].host, run[j].now);
  }

  lemma StepServes(cfg: Config, app: App, r: Request)
    ensures Step(cfg, app, r).1
            == if RateLimiter.Check(app.buckets, RateLimiter.Request(r.host, r.now), cfg.rateMax, cfg.rateWindow,
                                    true).1
               then Serve(cfg, app.store, r.call, r.now).1 else Refused(429)
  {
  }

  lemma {:induction false} StepAt(cfg: Config, run: seq<Request>, j: nat)
    requires j < |run|
    ensures Log(cfg, run)[j].reply
            == if LetThrough(cfg, run, j) then Serve(cfg, After(cfg, run[..j]).store, run[j].call, run[j].now).1
               else Refused(429)
  {
    LogAt(cfg, run, j);
    LimiterAt(cfg, run, j);
    StepServes(cfg, After(cfg, run[..j]), run[j]);
  }

  /**
   * A fetch is answered with mail exactly if the limiter lets it through and proofs are off or its proof is good; and
   * the mail is then, in order, all that was accepted for the mailbox and not acknowledged before.
   */
  lemma {:induction false} FetchedExactly(cfg: Config, run: seq<Request>, j: nat, mailbox: string, cred: Credentials)
    requires j < |run| && run[j].call == Fetch(mailbox, cred)
    ensures var reply, s := Log(cfg, run)[j].reply, After(cfg, run[..j]).store;
            && (reply.Mail? <==>
                  LetThrough(cfg, run, j) && (!cfg.requireAuth || ProvesOwner(cfg, s, mailbox, cred, run[j].now)))
            && (reply.Mail? ==> reply.entries == Expected(Log(cfg, run)[..j], mailbox))
            && (!reply.Mail? ==> reply == Refused(if LetThrough(cfg, run, j) then 401 else 429))
  {
    StepAt(cfg, run, j);
    LogAt(cfg, run, j);
    var s := After(cfg, run[..j]).store;
    AuthExactly(cfg.verify, s, mailbox, cred, run[j].now);
    GuardLooksSame(cfg, s, mailbox, cred, run[j].now, mailbox);
    QueuesAsExpected(cfg, run[..j], mailbox);
  }

  /**
   * So an envelope is handed out by a granted fetch exactly if it was accepted and no granted acknowledgement came
   * since.
   */
  lemma {:induction false} HandedOutExactly(cfg: Config, run: seq<Request>, j: nat, mailbox: string, cred: Credentials,
                                            e: Entry)
    requires j < |run| && run[j].call == Fetch(mailbox, cred) && Log(cfg, run)[j].reply.Mail?
    ensures e in Log(cfg, run)[j].reply.entries
            <==> exists i: nat :: WaitsSince(Log(cfg, run)[..j], mailbox, e, i)
  {
    FetchedExactly(cfg, run, j, mailbox, cred);
    ExpectedMembers(Log(cfg, run)[..j], mailbox, e);
  }

  /** An acknowledgement is granted under the same condition. */
  lemma {:induction false} AckedExactly(cfg: Config, run: seq<Request>, j: nat, mailbox: string, ids: seq<nat>,
                                        cred: Credentials)
    requires j < |run| && run[j].call == Acknowledge(mailbox, ids, cred)
    ensures var reply, s := Log(cfg, run)[j].reply, After(cfg, run[..j]).store;
            reply == if !LetThrough(cfg, run, j) then Refused(429)
                     else if !cfg.requireAuth || ProvesOwner(cfg, s, mailbox, cred, run[j].now) then Acked
                     else Refused(401)
  {
    StepAt(cfg, run, j);
    AuthExactly(cfg.verify, After(cfg, run[..j]).store, mailbox, cred, run[j].now);
  }

  /** The owners the log alone tells of: whoever was first told to own a mailbox. */
  function OwnersBy(log: seq<Exchange>): map<string, string> {
    if log == [] then map[]
    else
      var before, last := OwnersBy(log[..|log| - 1]), log[|log| - 1];
      if last.request.call.Register? && last.reply.Owner? && last.request.call.mailbox !in before
      then before[last.request.call.mailbox := last.request.call.pub] else before
  }

  lemma ServeOwners(cfg: Config, s: State, call: Call, now: int)
    ensures var (t, reply) := Serve(cfg, s, call, now);
            t.owners == if call.Register? && reply.Owner? && call.mailbox !in s.owners
                        then s.owners[call.mailbox := call.pub] else s.owners
    ensures var reply := Serve(cfg, s, call, now).1;
            call.Register? ==>
              reply == if call.mailbox in s.owners then Owner(s.owners[call.mailbox])
                       else if |s.owners| >= cfg.limits.maxRegistered then Refused(429) else Owner(call.pub)
    ensures var reply := Serve(cfg, s, call, now).1;
            call.Challenge? ==> reply == if call.mailbox in s.owners then Issued(call.drawn) else Refused(404)
  {
  }

  /**
   * Registrations and challenges are answered by the log alone: the first to register a mailbox owns it, everyone else
   * is told so, a full pool turns new ones down, and only owned mailboxes are challenged.
   */
  lemma {:induction false} OwnersAsExpected(cfg: Config, run: seq<Request>)
    ensures After(cfg, run).store.owners == OwnersBy(Log(cfg, run))
  {
    if run != [] {
      var before := run[..|run| - 1];
      OwnersAsExpected(cfg, before);
      var last := run[|run| - 1];
      ServeOwners(cfg, After(cfg, before).store, last.call, last.now);
      assert Log(cfg, run)[..|run| - 1] == Log(cfg, before);
    }
  }

  lemma {:induction false} RegisteredExactly(cfg: Config, run: seq<Request>, j: nat)
    requires j < |run| && LetThrough(cfg, run, j)
    ensures var owners, reply := OwnersBy(Log(cfg, run)[..j]), Log(cfg, run)[j].reply;
            match run[j].call
            case Register(mailbox, pub) =>
              reply == if mailbox in owners then Owner(owners[mailbox])
                       else if |owners| >= cfg.limits.maxRegistered then Refused(429) else Owner(pub)
            case Challenge(mailbox, drawn) => reply == if mailbox in owners then Issued(drawn) else Refused(404)
            case _ => true
  {
    StepAt(cfg, run, j);
    LogAt(cfg, run, j);
    OwnersAsExpected(cfg, run[..j]);
    ServeOwners(cfg, After(cfg, run[..j]).store, run[j].call, run[j].now);
  }

  /** How many deposits a log tells of. */
  function Accepted(log: seq<Exchange>): nat {
    if log == [] then 0 else Accepted(log[..|log| - 1]) + if log[|log| - 1].reply.Deposited? then 1 else 0
  }

  lemma {:induction false} NextIdCounts(cfg: Config, run: seq<Request>)
    ensures After(cfg, run).store.nextId == 1 + Accepted(Log(cfg, run))
  {
    if run != [] {
      var before := run[..|run| - 1];
      NextIdCounts(cfg, before);
      MemoryBounded(cfg, before);
      ServeEffect(cfg, After(cfg, before).store, run[|run| - 1], "");
      assert Log(cfg, run)[..|run| - 1] == Log(cfg, before);
    }
  }

  /** How a deposit that the limiter lets through is answered; the ids count the deposits. */
  lemma {:induction false} DepositedExactly(cfg: Config, run: seq<Request>, j: nat, envelope: Envelope)
    requires j < |run| && run[j].call == Post(envelope) && LetThrough(cfg, run, j)
    ensures var reply, s := Log(cfg, run)[j].reply, After(cfg, run[..j]).store;
            reply == if envelope.size > cfg.limits.maxBytes then Refused(413)
                     else if envelope.relayMailbox.None? then Refused(500)
                     else
                       var mailbox := envelope.relayMailbox.value;
                       if !s.Known(mailbox) && |s.unregistered| >= cfg.limits.maxUnregistered && !PoolHasEmpty(s)
                       then Refused(429)
                       else if |Expected(Log(cfg, run)[..j], mailbox)| >= cfg.limits.maxDepth then Refused(429)
                       else Deposited(1 + Accepted(Log(cfg, run)[..j]))
  {
    StepAt(cfg, run, j);
    LogAt(cfg, run, j);
    MemoryBounded(cfg, run[..j]);
    PushRejects(After(cfg, run[..j]).store, envelope, cfg.limits);
    PushKeeps(After(cfg, run[..j]).store, envelope, cfg.limits);
    NextIdCounts(cfg, run[..j]);
    if envelope.relayMailbox.Some? {
      QueuesAsExpected(cfg, run[..j], envelope.relayMailbox.value);
    }
  }

  // ----- what a nonce opens -----

  /** Its nonce stands for a mailbox that has an owner, until `expiry` at the least. */
  ghost predicate Stands(s: State, mailbox: string, nonce: string, expiry: int) {
    mailbox in s.owners && nonce in s.Nonces(mailbox) && s.Nonces(mailbox)[nonce] >= expiry
  }

  lemma PushKeepsStanding(s: State, envelope: Envelope, limits: Limits, mailbox: string, nonce: string, expiry: int)
    requires Bounded(s, limits) && Stands(s, mailbox, nonce, expiry)
    ensures Stands(Push(s, envelope, limits).0, mailbox, nonce, expiry)
  {
    PushKeeps(s, envelope, limits);
  }

  lemma AuthKeepsStanding(verify: SignatureCheck, s: State, named: string, cred: Credentials, now: int, mailbox: string,
                          nonce: string, expiry: int)
    requires Stands(s, mailbox, nonce, expiry) && now < expiry
    requires !(CheckAuth(verify, s, named, cred, now).1 && named == mailbox && cred.nonce == Some(nonce))
    ensures Stands(CheckAuth(verify, s, named, cred, now).0, mailbox, nonce, expiry)
  {
  }

  lemma IssueKeepsStanding(s: State, named: string, drawn: string, now: int, mailbox: string, nonce: string,
                           expiry: int)
    requires now < expiry <= now + NONCE_TTL_SECONDS
    requires Stands(s, mailbox, nonce, expiry) || (named == mailbox && drawn == nonce && mailbox in s.owners)
    ensures Stands(IssueNonce(s, named, drawn, now), mailbox, nonce, expiry)
  {
  }

  lemma StepKeepsStanding(cfg: Config, app: App, r: Request, mailbox: string, nonce: string, expiry: int)
    requires cfg.requireAuth && Bounded(app.store, cfg.limits) && Stands(app.store, mailbox, nonce, expiry)
    requires r.now < expiry <= r.now + NONCE_TTL_SECONDS
    requires !UseOf(Exchange(r, Step(cfg, app, r).1), mailbox, nonce)
    ensures Stands(Step(cfg, app, r).0.store, mailbox, nonce, expiry)
  {
    match r.call
    case Register(named, pub) =>
    case Challenge(named, drawn) => IssueKeepsStanding(app.store, named, drawn, r.now, mailbox, nonce, expiry);
    case Post(envelope) => PushKeepsStanding(app.store, envelope, cfg.limits, mailbox, nonce, expiry);
    case Fetch(named, cred) =>
      if Step(cfg, app, r).0.store != app.store {
        AuthKeepsStanding(cfg.verify, app.store, named, cred, r.now, mailbox, nonce, expiry);
      }
    case Acknowledge(named, ids, cred) =>
      if Step(cfg, app, r).0.store != app.store {
        AuthKeepsStanding(cfg.verify, app.store, named, cred, r.now, mailbox, nonce, expiry);
      }
  }

  lemma IssuedStands(cfg: Config, app: App, r: Request, mailbox: string, nonce: string)
    requires IssueOf(Exchange(r, Step(cfg, app, r).1), mailbox, nonce)
    ensures Stands(Step(cfg, app, r).0.store, mailbox, nonce, r.now + NONCE_TTL_SECONDS)
  {
    IssueKeepsStanding(app.store, mailbox, nonce, r.now, mailbox, nonce, r.now + NONCE_TTL_SECONDS);
  }

  ghost predicate ClockNeverRunsBack(run: seq<Request>) {
    forall i, j :: 0 <= i < j < |run| ==> run[i].now <= run[j].now
  }

  /** A nonce issued and not used since stands until its two minutes are over. */
  lemma {:induction false} UnusedStands(cfg: Config, run: seq<Request>, k: nat, n: nat, mailbox: string, nonce: string)
    requires cfg.requireAuth && ClockNeverRunsBack(run) && k < n <= |run| && IssueOf(Log(cfg, run)[k], mailbox, nonce)
    requires forall i :: k < i < n ==>
               run[i].now < run[k].now + NONCE_TTL_SECONDS && !UseOf(Log(cfg, run)[i], mailbox, nonce)
    ensures Stands(After(cfg, run[..n]).store, mailbox, nonce, run[k].now + NONCE_TTL_SECONDS)
    decreases n
  {
    var upto := run[..n];
    assert upto[..n - 1] == run[..n - 1];
    LogAt(cfg, run, n - 1);
    if n == k + 1 {
      IssuedStands(cfg, After(cfg, run[..k]), run[k], mailbox, nonce);
    } else {
      UnusedStands(cfg, run, k, n - 1, mailbox, nonce);
      MemoryBounded(cfg, run[..n - 1]);
      StepKeepsStanding(cfg, After(cfg, run[..n - 1]), run[n - 1], mailbox, nonce, run[k].now + NONCE_TTL_SECONDS);
    }
  }

  /**
   * Exactly what a nonce opens, when the clock does not run back: a fetch the limiter lets through, signed with the
   * owner's key over the nonce, is answered with mail exactly if the nonce was issued to that mailbox less than two
   * minutes before and has not been used since.
   */
  lemma {:induction false} NonceOpensExactly(cfg: Config, run: seq<Request>, j: nat, mailbox: string, cred: Credentials,
                                             nonce: string)
    requires cfg.requireAuth && ClockNeverRunsBack(run) && j < |run| && LetThrough(cfg, run, j)
    requires run[j].call == Fetch(mailbox, cred) && cred.nonce == Some(nonce)
    requires var owners := OwnersBy(Log(cfg, run)[..j]);
             && mailbox in owners && cred.pub == Some(owners[mailbox])
             && cred.signature.Some? && cfg.verify(owners[mailbox], cred.signature.value, mailbox, nonce)
    ensures Log(cfg, run)[j].reply.Mail? <==> exists k: nat :: RidesOn(run, Log(cfg, run), mailbox, nonce, k, j)
  {
    FetchedExactly(cfg, run, j, mailbox, cred);
    OwnersAsExpected(cfg, run[..j]);
    LogAt(cfg, run, j);
    if Log(cfg, run)[j].reply.Mail? {
      NonceSingleUse(cfg, run, j, mailbox, nonce);
    }
    if k: nat :| RidesOn(run, Log(cfg, run), mailbox, nonce, k, j) {
      UnusedStands(cfg, run, k, j, mailbox, nonce);
    }
  }

  // ----- how many queue records there are -----

  ghost predicate RecordsKnown(s: State) {
    forall m :: m in s.mailboxes ==> s.Known(m)
  }

  lemma RegisterKeepsRecordsKnown(s: State, mailbox: string, pub: string, maxRegistered: nat, m: string)
    requires m in s.mailboxes ==> s.Known(m)
    ensures var t := MailStore.Register(s, mailbox, pub, maxRegistered).0; m in t.mailboxes ==> t.Known(m)
  {
  }

  lemma InAppended(pool: seq<string>, last: string, x: string)
    ensures x in pool + [last] <==> x in pool || x == last
  {
  }

  lemma AdmitKeepsRecordsKnown(s: State, mailbox: string, maxUnregistered: nat, m: string)
    requires RecordsKnown(s)
    ensures var (t, ok) := Admit(s, mailbox, maxUnregistered);
            && (m in t.mailboxes ==> t.Known(m))
            && (ok ==> t.Known(mailbox))
  {
    EvictKeepsRecordsKnown(s, m);
    var pool := Evict(s).0.unregistered;
    InAppended(pool, mailbox, mailbox);
    InAppended(pool, mailbox, m);
    InAppended(s.unregistered, mailbox, mailbox);
    InAppended(s.unregistered, mailbox, m);
  }

  lemma PushKeepsRecordsKnown(s: State, envelope: Envelope, limits: Limits, m: string)
    requires RecordsKnown(s)
    ensures var t := Push(s, envelope, limits).0; m in t.mailboxes ==> t.Known(m)
  {
    if envelope.relayMailbox.Some? {
      AdmitKeepsRecordsKnown(s, envelope.relayMailbox.value, limits.maxUnregistered, m);
    }
  }

  /** The proof passes only for an owner's mailbox and touches no queue. */
  lemma GuardKeepsRecords(cfg: Config, s: State, mailbox: string, cred: Credentials, now: int)
    requires cfg.requireAuth
    ensures var (t, ok) := Guard(cfg, s, mailbox, cred, now);
            && t.mailboxes == s.mailboxes && t.owners == s.owners && t.unregistered == s.unregistered
            && (ok ==> mailbox in s.owners)
  {
  }

  lemma ServeKeepsRecordsKnown(cfg: Config, s: State, call: Call, now: int, m: string)
    requires cfg.requireAuth && RecordsKnown(s)
    ensures var t := Serve(cfg, s, call, now).0; m in t.mailboxes ==> t.Known(m)
  {
    match call
    case Register(mailbox, pub) => RegisterKeepsRecordsKnown(s, mailbox, pub, cfg.limits.maxRegistered, m);
    case Challenge(mailbox, drawn) =>
    case Post(envelope) => PushKeepsRecordsKnown(s, envelope, cfg.limits, m);
    case Fetch(mailbox, cred) => GuardKeepsRecords(cfg, s, mailbox, cred, now);
    case Acknowledge(mailbox, ids, cred) => GuardKeepsRecords(cfg, s, mailbox, cred, now);
  }

  lemma EvictKeepsRecordsKnown(s: State, m: string)
    requires RecordsKnown(s)
    ensures m in Evict(s).0.mailboxes ==> m in s.mailboxes && Evict(s).0.Known(m)
  {
    var i := OldestEmpty(s, s.unregistered);
    if i < |s.unregistered| && m in Evict(s).0.mailboxes && m !in s.owners {
      assert s.Known(m);
      RemoveAtKeeps(s.unregistered, i, m);
    }
  }

  lemma RemoveAtKeeps(s: seq<string>, i: nat, m: string)
    requires i < |s| && m in s && m != s[i]
    ensures m in s[..i] + s[i + 1..]
  {
    assert s == s[..i] + [s[i]] + s[i + 1..];
  }

  /** With ownership proofs required, the queue table itself has no more records than the two pools have places. */
  lemma {:induction false} RecordsBounded(cfg: Config, run: seq<Request>)
    requires cfg.requireAuth
    ensures RecordsKnown(After(cfg, run).store)
    ensures |After(cfg, run).store.mailboxes| <= cfg.limits.maxRegistered + cfg.limits.maxUnregistered
  {
    var s := After(cfg, run).store;
    if run != [] {
      RecordsBounded(cfg, run[..|run| - 1]);
      forall m | m in s.mailboxes
        ensures s.Known(m)
      {
        ServeKeepsRecordsKnown(cfg, After(cfg, run[..|run| - 1]).store, run[|run| - 1].call, run[|run| - 1].now, m);
      }
    }
    MemoryBounded(cfg, run);
    RecordsFit(s, cfg.limits);
  }

  lemma RecordsFit(s: State, limits: Limits)
    requires RecordsKnown(s) && PoolsCapped(s.owners, s.unregistered, limits)
    ensures |s.mailboxes| <= limits.maxRegistered + limits.maxUnregistered
  {
    var pool := set m | m in s.unregistered;
    SeqToSetCardinality(s.unregistered);
    SubsetCardinality(s.mailboxes.Keys, s.owners.Keys + pool);
    assert |s.owners.Keys + pool| <= |s.owners.Keys| + |pool|;
    assert |s.mailboxes.Keys| == |s.mailboxes| && |s.owners.Keys| == |s.owners|;
  }

  /** Acknowledgements of `n` names nobody registered, one a window. */
  function StrayAcks(host: Option<string>, window: int, n: nat): (run: seq<Request>)
    ensures |run| == n
  {
    if n == 0 then []
    else
      StrayAcks(host, window, n - 1)
      + [Request(host, n * window, Acknowledge(seq(n, _ => 'x'), [], Credentials(None, None, None)))]
  }

  /** A limiter that lets anything through lets through a host's first request of a window. */
  lemma FirstOfItsWindow(buckets: RateLimiter.Buckets, host: string, now: int, max: nat, window: int)
    requires max >= 1 && window > 0
    requires host in buckets ==> buckets[host].start <= now - window
    ensures var (after, allowed) := RateLimiter.Check(buckets, RateLimiter.Request(Some(host), now), max, window, true);
            allowed && host in after && after[host].start == now
  {
  }

  lemma {:induction false} StrayAckServed(cfg: Config, host: Option<string>, n: nat)
    requires !cfg.requireAuth && n > 0
    requires host.Some? ==>
               && cfg.rateMax >= 1 && cfg.rateWindow > 0
               && var buckets := After(cfg, StrayAcks(host, cfg.rateWindow, n - 1)).buckets;
                  host.value in buckets ==> buckets[host.value].start <= n * cfg.rateWindow - cfg.rateWindow
    ensures var before, after := After(cfg, StrayAcks(host, cfg.rateWindow, n - 1)),
            After(cfg, StrayAcks(host, cfg.rateWindow, n));
            && after.store == Ack(before.store, seq(n, _ => 'x'), [])
            && (host.Some? ==> host.value in after.buckets && after.buckets[host.value].start == n * cfg.rateWindow)
  {
    var before := After(cfg, StrayAcks(host, cfg.rateWindow, n - 1));
    assert StrayAcks(host, cfg.rateWindow, n)[..n - 1] == StrayAcks(host, cfg.rateWindow, n - 1);
    if host.Some? {
      FirstOfItsWindow(before.buckets, host.value, n * cfg.rateWindow, cfg.rateMax, cfg.rateWindow);
    }
  }

  lemma WindowsInARow(n: nat, window: int)
    ensures (n + 1) * window == n * window + window
  {
  }

  lemma OneRecordMore(s: State, n: nat)
    requires n > 0 && |s.mailboxes| == n - 1 && forall m :: m in s.mailboxes ==> |m| <= n - 1
    ensures var t := Ack(s, seq(n, _ => 'x'), []);
            |t.mailboxes| == n && forall m :: m in t.mailboxes ==> |m| <= n
  {
    var name := seq(n, _ => 'x');
    assert name !in s.mailboxes;
  }

  /**
   * Without ownership proofs it has no bound: `n` such acknowledgements leave `n` records of empty queues, from a
   * client whose host cannot be told as from one the limiter counts.
   */
  lemma {:induction false} OpenRecordsUnbounded(cfg: Config, host: Option<string>, n: nat)
    requires !cfg.requireAuth && (host.Some? ==> cfg.rateMax >= 1 && cfg.rateWindow > 0)
    ensures var app := After(cfg, StrayAcks(host, cfg.rateWindow, n));
            && |app.store.mailboxes| == n
            && (forall m :: m in app.store.mailboxes ==> |m| <= n)
            && (host.Some? && host.value in app.buckets ==> app.buckets[host.value].start <= n * cfg.rateWindow)
  {
    if n > 0 {
      OpenRecordsUnbounded(cfg, host, n - 1);
      WindowsInARow(n - 1, cfg.rateWindow);
      StrayAckServed(cfg, host, n);
      OneRecordMore(After(cfg, StrayAcks(host, cfg.rateWindow, n - 1)).store, n);
    }
  }
}
