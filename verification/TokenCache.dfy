/** The OAuth2 token cache of `internal/auth/oauth2.go` and `oauth2_authcode.go` as a state machine: any
    number of threads run `Token` concurrently, one atomic step at a time, while entries expire and are
    cleared. Token endpoint and browser flow answer as they like. */
module TokenCache {
  import opened Text

  datatype Entry = Entry(access: string, refresh: string, expiresAt: int)

  /** Where a returned token comes from: the cache, as seen at some time, or a fetch of this thread. */
  datatype Source = Cached(at: int) | Fetched
  datatype Outcome = Token(entry: Entry, source: Source) | Failed

  /** Where a thread stands in `clientCredentialsToken` or `authorizationCodeToken`. */
  datatype Pc = Checking | Locking | Waiting(mu: nat) | Rechecking(mu: nat) | Refreshing(mu: nat, prev: Entry)
              | Fetching(mu: nat) | Storing(mu: nat, entry: Entry) | Unlocking(mu: nat, out: Outcome) | Done(out: Outcome)

  datatype Thread = Thread(key: string, interactive: bool, pc: Pc)

  /** The shared cache, the mutex of each key and who holds it, the threads, and for the record: every
      entry ever obtained for a key, every attempt started for it and every attempt or entry lost. */
  datatype State = State(now: int, tokens: map<string, Entry>, locks: map<string, nat>, nextMu: nat,
                         owner: map<nat, nat>, threads: map<nat, Thread>,
                         obtained: set<(string, Entry)>, starts: multiset<string>, losses: multiset<string>)

  const SKEW: int := 30_000_000_000

  predicate FreshAt(e: Entry, now: int) { e.expiresAt - now > SKEW }

  predicate Fresh(s: State, k: string) { k in s.tokens && FreshAt(s.tokens[k], s.now) }

  datatype Action =
    | Begin(t: nat, key: string, interactive: bool)
    | Check(t: nat) | GetLock(t: nat) | Acquire(t: nat) | Recheck(t: nat)
    | RefreshOK(t: nat, entry: Entry) | RefreshFails(t: nat)
    | FetchOK(t: nat, entry: Entry) | FetchFails(t: nat)
    | Store(t: nat) | Unlock(t: nat)
    | Clear(key: string) | ClearNamespace(namespace: string) | ClearAll
    | Tick(elapsed: nat)

  predicate Enabled(s: State, a: Action) {
    match a
    case Begin(t, _, _) => t !in s.threads
    case Check(t) => t in s.threads && s.threads[t].pc.Checking?
    case GetLock(t) => t in s.threads && s.threads[t].pc.Locking?
    case Acquire(t) => t in s.threads && s.threads[t].pc.Waiting? && s.threads[t].pc.mu !in s.owner
    case Recheck(t) => t in s.threads && s.threads[t].pc.Rechecking?
    case RefreshOK(t, e) => t in s.threads && s.threads[t].pc.Refreshing? && e.access != ""
    case RefreshFails(t) => t in s.threads && s.threads[t].pc.Refreshing?
    case FetchOK(t, _) => t in s.threads && s.threads[t].pc.Fetching?
    case FetchFails(t) => t in s.threads && s.threads[t].pc.Fetching?
    case Store(t) => t in s.threads && s.threads[t].pc.Storing?
    case Unlock(t) => t in s.threads && s.threads[t].pc.Unlocking?
    case Clear(_) => true
    case ClearNamespace(_) => true
    case ClearAll => true
    case Tick(_) => true
  }

  function Moved(s: State, t: nat, pc: Pc): State
    requires t in s.threads
  {
    s.(threads := s.threads[t := s.threads[t].(pc := pc)])
  }

  /** The keys among `ks` whose entries were fresh and are no longer. */
  function Stale(s: State, now: int): set<string> {
    set k | k in s.tokens && FreshAt(s.tokens[k], s.now) && !FreshAt(s.tokens[k], now)
  }

  function Dropped(s: State, gone: set<string>): State {
    s.(tokens := s.tokens - gone, losses := s.losses + multiset(set k | k in gone && Fresh(s, k)))
  }

  /** The refresh token is kept when the response brings no new one. */
  function Refreshed(e: Entry, prev: Entry): Entry {
    if e.refresh == "" then e.(refresh := prev.refresh) else e
  }

  function Apply(s: State, a: Action): State
    requires Enabled(s, a)
  {
    match a
    case Begin(t, key, interactive) => s.(threads := s.threads[t := Thread(key, interactive, Checking)])
    case Check(t) =>
      var k := s.threads[t].key;
      if Fresh(s, k) then Moved(s, t, Done(Token(s.tokens[k], Cached(s.now)))) else Moved(s, t, Locking)
    case GetLock(t) =>
      var k := s.threads[t].key;
      if k in s.locks then Moved(s, t, Waiting(s.locks[k]))
      else Moved(s, t, Waiting(s.nextMu)).(locks := s.locks[k := s.nextMu], nextMu := s.nextMu + 1)
    case Acquire(t) =>
      var mu := s.threads[t].pc.mu;
      Moved(s, t, Rechecking(mu)).(owner := s.owner[mu := t])
    case Recheck(t) =>
      var th := s.threads[t];
      if Fresh(s, th.key) then Moved(s, t, Unlocking(th.pc.mu, Token(s.tokens[th.key], Cached(s.now))))
      else if th.interactive && th.key in s.tokens && s.tokens[th.key].refresh != "" then
        Moved(s, t, Refreshing(th.pc.mu, s.tokens[th.key])).(starts := s.starts + multiset{th.key})
      else Moved(s, t, Fetching(th.pc.mu)).(starts := s.starts + multiset{th.key})
    case RefreshOK(t, e) =>
      var th := s.threads[t];
      var kept := Refreshed(e, th.pc.prev);
      Moved(s, t, Storing(th.pc.mu, kept)).(obtained := s.obtained + {(th.key, kept)})
    case RefreshFails(t) =>
      var th := s.threads[t];
      Moved(s, t, Fetching(th.pc.mu)).(starts := s.starts + multiset{th.key}, losses := s.losses + multiset{th.key})
    case FetchOK(t, e) =>
      var th := s.threads[t];
      Moved(s, t, Storing(th.pc.mu, e)).(obtained := s.obtained + {(th.key, e)})
    case FetchFails(t) =>
      var th := s.threads[t];
      Moved(s, t, Unlocking(th.pc.mu, Failed)).(losses := s.losses + multiset{th.key})
    case Store(t) =>
      var th := s.threads[t];
      Moved(s, t, Unlocking(th.pc.mu, Token(th.pc.entry, Fetched))).(
        tokens := s.tokens[th.key := th.pc.entry],
        losses := if FreshAt(th.pc.entry, s.now) then s.losses else s.losses + multiset{th.key})
    case Unlock(t) =>
      var pc := s.threads[t].pc;
      Moved(s, t, Done(pc.out)).(owner := s.owner - {pc.mu})
    case Clear(k) => Dropped(s, {k})
    case ClearNamespace(ns) => Dropped(s, set k | k in s.tokens && ns + "|" <= k)
    case ClearAll => Dropped(s, s.tokens.Keys)
    case Tick(d) => s.(now := s.now + d, losses := s.losses + multiset(Stale(s, s.now + d)))
  }

  /** A refresh and the store after it leave the response's tokens in the cache, with the refresh token
      traded in wherever the response brings no new one: the next refresh needs no browser either. */
  lemma RefreshTokenKept(s: State, t: nat, e: Entry)
    requires Enabled(s, RefreshOK(t, e))
    ensures var prev, key := s.threads[t].pc.prev, s.threads[t].key;
            var traded := Apply(s, RefreshOK(t, e));
            Enabled(traded, Store(t))
            && var after := Apply(traded, Store(t));
            && key in after.tokens && after.tokens[key].access == e.access != ""
            && after.tokens[key].expiresAt == e.expiresAt
            && (e.refresh != "" ==> after.tokens[key].refresh == e.refresh)
            && (e.refresh == "" ==> after.tokens[key].refresh == prev.refresh)
            && after.threads[t].pc.Unlocking? && after.threads[t].pc.out == Token(after.tokens[key], Fetched)
  {
    hide FreshAt;
  }

  /** A look into the cache answers from it exactly when the entry lives for more than 30 seconds. */
  lemma CacheAnswers(s: State, t: nat)
    requires Enabled(s, Check(t))
    ensures var k := s.threads[t].key;
            Apply(s, Check(t)).threads[t].pc ==
            if k in s.tokens && s.now + 30 * 1_000_000_000 < s.tokens[k].expiresAt
            then Done(Token(s.tokens[k], Cached(s.now))) else Locking
  {
  }

  /** Under the lock an interactive call opens the browser only when there is nothing to refresh with: a
      fresh entry is returned, one with a refresh token is refreshed, and only then, or after the refresh
      has failed, comes the full flow. */
  lemma BrowserLast(s: State, t: nat)
    requires t in s.threads && s.threads[t].interactive
    ensures Enabled(s, Recheck(t)) ==>
              var k, mu := s.threads[t].key, s.threads[t].pc.mu;
              Apply(s, Recheck(t)).threads[t].pc ==
              if k !in s.tokens then Fetching(mu)
              else
                var e := s.tokens[k];
                if e.expiresAt > s.now + 30 * 1_000_000_000 then Unlocking(mu, Token(e, Cached(s.now)))
                else if e.refresh != "" then Refreshing(mu, e) else Fetching(mu)
    ensures Enabled(s, RefreshFails(t)) ==> Apply(s, RefreshFails(t)).threads[t].pc == Fetching(s.threads[t].pc.mu)
  {
  }

  // ----- invariants -----

  predicate HasMutex(pc: Pc) { !pc.Checking? && !pc.Locking? && !pc.Done? }
  predicate Inside(pc: Pc) { HasMutex(pc) && !pc.Waiting? }
  predicate Busy(pc: Pc) { pc.Refreshing? || pc.Fetching? || pc.Storing? }

  /** Every key has one mutex, no mutex two keys; who is inside holds its key's mutex, and who holds one
      is inside. */
  ghost predicate Locked(s: State) {
    && (forall k <- s.locks :: s.locks[k] < s.nextMu)
    && (forall k, l | k in s.locks && l in s.locks && s.locks[k] == s.locks[l] :: k == l)
    && (forall t <- s.threads :: HasMutex(s.threads[t].pc) ==>
          s.threads[t].key in s.locks && s.threads[t].pc.mu == s.locks[s.threads[t].key])
    && (forall t <- s.threads :: Inside(s.threads[t].pc) ==>
          s.threads[t].pc.mu in s.owner && s.owner[s.threads[t].pc.mu] == t)
    && (forall mu <- s.owner :: s.owner[mu] in s.threads
          && Inside(s.threads[s.owner[mu]].pc) && s.threads[s.owner[mu]].pc.mu == mu)
  }

  /** What is cached, about to be stored or returned for a key was obtained for that key, and what was
      taken from the cache was fresh when it was taken. */
  ghost predicate Honest(s: State) {
    && (forall k <- s.tokens :: (k, s.tokens[k]) in s.obtained)
    && (forall t <- s.threads :: s.threads[t].pc.Storing? ==> (s.threads[t].key, s.threads[t].pc.entry) in s.obtained)
    && (forall t <- s.threads :: HonestOutcome(s, t))
  }

  ghost predicate HonestOutcome(s: State, t: nat)
    requires t in s.threads
  {
    var th := s.threads[t];
    (th.pc.Unlocking? || th.pc.Done?) && th.pc.out.Token? ==>
      && (th.key, th.pc.out.entry) in s.obtained
      && (th.pc.out.source.Cached? ==> th.pc.out.source.at <= s.now && FreshAt(th.pc.out.entry, th.pc.out.source.at))
  }

  ghost predicate Fetcher(s: State, k: string) {
    exists t :: t in s.threads && s.threads[t].key == k && Busy(s.threads[t].pc)
  }

  ghost function One(b: bool): nat { if b then 1 else 0 }

  /** Every attempt started for k is under way, has its entry fresh in the cache, or is lost. */
  ghost predicate Balanced(s: State, k: string) {
    && s.starts[k] == s.losses[k] + One(Fetcher(s, k)) + One(Fresh(s, k))
    && !(Fetcher(s, k) && Fresh(s, k))
  }

  lemma OneInside(s: State, t: nat, u: nat)
    requires Locked(s) && t in s.threads && u in s.threads
    requires Inside(s.threads[t].pc) && Inside(s.threads[u].pc) && s.threads[t].key == s.threads[u].key
    ensures t == u
  {
  }

  lemma LockedKept(s: State, a: Action)
    requires Enabled(s, a) && Locked(s)
    ensures Locked(Apply(s, a))
  {
    hide Apply, Locked, Enabled;
    match a {
      case Begin(_, _, _) => OutsideStep(s, a);
      case Check(_) => OutsideStep(s, a);
      case GetLock(t) => LockGot(s, t);
      case Acquire(t) => LockAcquired(s, t);
      case Unlock(t) => LockReleased(s, t);
      case Clear(_) => LocksAside(s, a);
      case ClearNamespace(_) => LocksAside(s, a);
      case ClearAll => LocksAside(s, a);
      case Tick(_) => LocksAside(s, a);
      case _ => InsideStep(s, a);
    }
  }

  lemma OutsideStep(s: State, a: Action)
    requires Enabled(s, a) && Locked(s) && (a.Begin? || a.Check?)
    ensures Locked(Apply(s, a))
  {
    hide Locked, FreshAt;
    SetOutside(s, Apply(s, a), a.t, Apply(s, a).threads[a.t]);
  }

  /** The steps between acquiring and releasing the mutex. */
  predicate IsInsideStep(a: Action) {
    a.Recheck? || a.RefreshOK? || a.RefreshFails? || a.FetchOK? || a.FetchFails? || a.Store?
  }

  lemma InsideStep(s: State, a: Action)
    requires Enabled(s, a) && Locked(s) && IsInsideStep(a)
    ensures Locked(Apply(s, a))
  {
    hide Locked, FreshAt;
    MoveInside(s, Apply(s, a), a.t, Apply(s, a).threads[a.t].pc);
  }

  lemma LocksAside(s: State, a: Action)
    requires a.Clear? || a.ClearNamespace? || a.ClearAll? || a.Tick?
    requires Locked(s)
    ensures Locked(Apply(s, a))
  {
  }

  lemma SetOutside(s: State, n: State, t: nat, th: Thread)
    requires Locked(s) && !HasMutex(th.pc) && (t in s.threads ==> !HasMutex(s.threads[t].pc))
    requires n.threads == s.threads[t := th] && n.locks == s.locks && n.nextMu == s.nextMu && n.owner == s.owner
    ensures Locked(n)
  {
  }

  lemma MoveInside(s: State, n: State, t: nat, pc: Pc)
    requires Locked(s) && t in s.threads && Inside(s.threads[t].pc) && Inside(pc) && pc.mu == s.threads[t].pc.mu
    requires n.threads == s.threads[t := s.threads[t].(pc := pc)]
    requires n.locks == s.locks && n.nextMu == s.nextMu && n.owner == s.owner
    ensures Locked(n)
  {
  }

  lemma LockGot(s: State, t: nat)
    requires Locked(s) && Enabled(s, GetLock(t))
    ensures Locked(Apply(s, GetLock(t)))
  {
    hide Locked;
    var k := s.threads[t].key;
    if k in s.locks {
      SetWaiting(s, Apply(s, GetLock(t)), t);
    } else {
      var made := s.(locks := s.locks[k := s.nextMu], nextMu := s.nextMu + 1);
      MutexMade(s, made, k);
      SetWaiting(made, Apply(s, GetLock(t)), t);
    }
  }

  lemma MutexMade(s: State, n: State, k: string)
    requires Locked(s) && k !in s.locks && n == s.(locks := s.locks[k := s.nextMu], nextMu := s.nextMu + 1)
    ensures Locked(n)
  {
  }

  lemma SetWaiting(s: State, n: State, t: nat)
    requires Locked(s) && t in s.threads && !HasMutex(s.threads[t].pc) && s.threads[t].key in s.locks
    requires n == Moved(s, t, Waiting(s.locks[s.threads[t].key]))
    ensures Locked(n)
  {
  }

  lemma LockAcquired(s: State, t: nat)
    requires Locked(s) && Enabled(s, Acquire(t))
    ensures Locked(Apply(s, Acquire(t)))
  {
  }

  lemma LockReleased(s: State, t: nat)
    requires Locked(s) && Enabled(s, Unlock(t))
    ensures Locked(Apply(s, Unlock(t)))
  {
    var n := Apply(s, Unlock(t));
    forall u <- n.threads | Inside(n.threads[u].pc)
      ensures n.threads[u].pc.mu in n.owner && n.owner[n.threads[u].pc.mu] == u
    {
      assert s.owner[s.threads[t].pc.mu] == t;
    }
  }

  lemma HonestKept(s: State, a: Action)
    requires Enabled(s, a) && Honest(s)
    ensures Honest(Apply(s, a))
  {
    if a.Clear? || a.ClearNamespace? || a.ClearAll? || a.Tick? {
      HonestAside(s, a);
    } else {
      HonestStep(s, a);
    }
  }

  lemma HonestAside(s: State, a: Action)
    requires a.Clear? || a.ClearNamespace? || a.ClearAll? || a.Tick?
    requires Honest(s)
    ensures Honest(Apply(s, a))
  {
    hide FreshAt, Stale;
    var n := Apply(s, a);
    forall t <- n.threads
      ensures HonestOutcome(n, t)
    {
      assert HonestOutcome(s, t);
    }
  }

  lemma HonestStep(s: State, a: Action)
    requires !a.Clear? && !a.ClearNamespace? && !a.ClearAll? && !a.Tick?
    requires Enabled(s, a) && Honest(s)
    ensures Honest(Apply(s, a))
  {
    hide Apply, HonestOutcome;
    HonestThread(s, a);
    HonestTokens(s, a);
    OneThreadMoves(s, a);
    HonestOthers(s, Apply(s, a), a.t);
  }

  lemma HonestTokens(s: State, a: Action)
    requires !a.Clear? && !a.ClearNamespace? && !a.ClearAll? && !a.Tick?
    requires Enabled(s, a) && Honest(s)
    ensures forall k <- Apply(s, a).tokens :: (k, Apply(s, a).tokens[k]) in Apply(s, a).obtained
  {
    hide FreshAt, HonestOutcome;
    if !a.Store? {
      assert Apply(s, a).tokens == s.tokens && s.obtained <= Apply(s, a).obtained;
    }
  }

  /** Only thread t may differ, and what was obtained only grows. */
  ghost predicate MovesOnly(s: State, n: State, t: nat) {
    && t in n.threads && n.threads == s.threads[t := n.threads[t]]
    && s.obtained <= n.obtained && n.now == s.now
  }

  predicate Early(a: Action) { a.Begin? || a.Check? || a.GetLock? || a.Acquire? || a.Recheck? }

  lemma EarlyMoves(s: State, a: Action)
    requires Early(a) && Enabled(s, a)
    ensures MovesOnly(s, Apply(s, a), a.t)
  {
    hide FreshAt, Refreshed, Dropped, Stale, Fresh;
  }

  lemma OneThreadMoves(s: State, a: Action)
    requires !a.Clear? && !a.ClearNamespace? && !a.ClearAll? && !a.Tick?
    requires Enabled(s, a)
    ensures MovesOnly(s, Apply(s, a), a.t)
  {
    hide FreshAt, Refreshed, Dropped, Stale, Fresh;
    if Early(a) {
      EarlyMoves(s, a);
    }
  }

  lemma HonestOthers(s: State, n: State, t: nat)
    requires Honest(s) && t in n.threads && n.threads == s.threads[t := n.threads[t]]
    requires s.obtained <= n.obtained && n.now == s.now
    ensures forall u <- n.threads :: u != t ==> HonestOutcome(n, u)
    ensures forall u <- n.threads :: u != t && n.threads[u].pc.Storing? ==>
        (n.threads[u].key, n.threads[u].pc.entry) in n.obtained
  {
    hide FreshAt;
    forall u <- n.threads | u != t
      ensures HonestOutcome(n, u)
    {
      assert HonestOutcome(s, u);
    }
  }

  lemma HonestThread(s: State, a: Action)
    requires !a.Clear? && !a.ClearNamespace? && !a.ClearAll? && !a.Tick?
    requires Enabled(s, a) && Honest(s)
    ensures HonestOutcome(Apply(s, a), a.t)
    ensures var n := Apply(s, a);
            n.threads[a.t].pc.Storing? ==> (n.threads[a.t].key, n.threads[a.t].pc.entry) in n.obtained
  {
    if a.Check? || a.Recheck? {
      HonestLook(s, a);
    } else {
      HonestWork(s, a);
    }
  }

  lemma HonestLook(s: State, a: Action)
    requires Enabled(s, a) && Honest(s) && (a.Check? || a.Recheck?)
    ensures HonestOutcome(Apply(s, a), a.t) && !Apply(s, a).threads[a.t].pc.Storing?
  {
    hide FreshAt;
  }

  lemma HonestWork(s: State, a: Action)
    requires !a.Clear? && !a.ClearNamespace? && !a.ClearAll? && !a.Tick? && !a.Check? && !a.Recheck?
    requires Enabled(s, a) && Honest(s)
    ensures HonestOutcome(Apply(s, a), a.t)
    ensures var n := Apply(s, a);
            n.threads[a.t].pc.Storing? ==> (n.threads[a.t].key, n.threads[a.t].pc.entry) in n.obtained
  {
    hide FreshAt, Fresh;
    if a.t in s.threads {
      assert HonestOutcome(s, a.t);
    }
  }

  // ----- counting attempts -----

  /** Thread t moves, for a key other than k: nothing changes for k. */
  lemma OtherKey(s: State, n: State, t: nat, k: string)
    requires t in n.threads && n.threads[t].key != k && (t in s.threads ==> s.threads[t].key == n.threads[t].key)
    requires n.threads == s.threads[t := n.threads[t]]
    ensures Fetcher(n, k) <==> Fetcher(s, k)
  {
    if Fetcher(s, k) {
      var u :| u in s.threads && s.threads[u].key == k && Busy(s.threads[u].pc);
      assert n.threads[u] == s.threads[u];
    }
    if Fetcher(n, k) {
      var u :| u in n.threads && n.threads[u].key == k && Busy(n.threads[u].pc);
      assert n.threads[u] == s.threads[u];
    }
  }

  /** Thread t, inside for k, moves: there is a fetcher for k exactly if t is one. */
  lemma ThisKey(s: State, n: State, t: nat)
    requires Locked(s) && t in s.threads && Inside(s.threads[t].pc)
    requires t in n.threads && n.threads == s.threads[t := n.threads[t]] && n.threads[t].key == s.threads[t].key
    ensures Fetcher(n, s.threads[t].key) <==> Busy(n.threads[t].pc)
    ensures Fetcher(s, s.threads[t].key) <==> Busy(s.threads[t].pc)
  {
    var k := s.threads[t].key;
    forall u | u in s.threads && s.threads[u].key == k && Busy(s.threads[u].pc)
      ensures u == t
    {
      OneInside(s, t, u);
    }
  }

  /** A thread that is idle for k before and after does not count. */
  lemma IdleMove(s: State, n: State, t: nat, k: string)
    requires t in n.threads && n.threads == s.threads[t := n.threads[t]]
    requires !Busy(n.threads[t].pc) && (t in s.threads ==> !Busy(s.threads[t].pc))
    ensures Fetcher(n, k) <==> Fetcher(s, k)
  {
    if Fetcher(s, k) {
      var u :| u in s.threads && s.threads[u].key == k && Busy(s.threads[u].pc);
      assert n.threads[u] == s.threads[u];
    }
    if Fetcher(n, k) {
      var u :| u in n.threads && n.threads[u].key == k && Busy(n.threads[u].pc);
      assert n.threads[u] == s.threads[u];
    }
  }

  /** Entries leave the cache or go stale, each fresh one counted as lost. */
  lemma LossCounted(s: State, n: State, k: string, lost: set<string>)
    requires Balanced(s, k) && n.threads == s.threads && n.starts == s.starts
    requires n.losses == s.losses + multiset(lost)
    requires k in lost <==> Fresh(s, k) && !Fresh(n, k)
    requires Fresh(n, k) ==> Fresh(s, k)
    ensures Balanced(n, k)
  {
    hide Fresh;
    assert Fetcher(n, k) <==> Fetcher(s, k);
    assert multiset(lost)[k] == One(k in lost);
  }

  lemma BalancedKept(s: State, a: Action, k: string)
    requires Enabled(s, a) && Locked(s) && Balanced(s, k)
    ensures Balanced(Apply(s, a), k)
  {
    hide Apply, Locked, Balanced;
    if a.Clear? || a.ClearNamespace? || a.ClearAll? || a.Tick? {
      AsideCounted(s, a, k);
    } else if IsInsideStep(a) {
      if s.threads[a.t].key == k {
        InsideCounted(s, a);
      } else {
        OtherCounted(s, a, k);
      }
    } else {
      OutsideCounted(s, a, k);
    }
  }

  lemma AsideCounted(s: State, a: Action, k: string)
    requires a.Clear? || a.ClearNamespace? || a.ClearAll? || a.Tick?
    requires Balanced(s, k)
    ensures Balanced(Apply(s, a), k)
  {
    hide Balanced;
    match a {
      case Clear(key) => ClearedCounted(s, k, {key});
      case ClearNamespace(ns) => ClearedCounted(s, k, set l | l in s.tokens && ns + "|" <= l);
      case ClearAll => ClearedCounted(s, k, s.tokens.Keys);
      case Tick(d) => LossCounted(s, Apply(s, a), k, Stale(s, s.now + d));
    }
  }

  lemma ClearedCounted(s: State, k: string, gone: set<string>)
    requires Balanced(s, k)
    ensures Balanced(Dropped(s, gone), k)
  {
    LossCounted(s, Dropped(s, gone), k, set l | l in gone && Fresh(s, l));
  }

  lemma OutsideCounted(s: State, a: Action, k: string)
    requires a.Begin? || a.Check? || a.GetLock? || a.Acquire? || a.Unlock?
    requires Enabled(s, a) && Balanced(s, k)
    ensures Balanced(Apply(s, a), k)
  {
    hide FreshAt, Fetcher;
    IdleMove(s, Apply(s, a), a.t, k);
  }

  lemma OtherCounted(s: State, a: Action, k: string)
    requires IsInsideStep(a) && Enabled(s, a) && Balanced(s, k) && s.threads[a.t].key != k
    ensures Balanced(Apply(s, a), k)
  {
    hide FreshAt, Fetcher;
    OtherKey(s, Apply(s, a), a.t, k);
  }

  lemma InsideCounted(s: State, a: Action)
    requires IsInsideStep(a) && Enabled(s, a) && Locked(s) && Balanced(s, s.threads[a.t].key)
    ensures Balanced(Apply(s, a), s.threads[a.t].key)
  {
    hide FreshAt, Fetcher, Locked;
    ThisKey(s, Apply(s, a), a.t);
  }

  // ----- runs -----

  ghost predicate Initial(s: State) {
    && s.tokens == map[] && s.locks == map[] && s.owner == map[] && s.threads == map[]
    && s.obtained == {} && s.starts == multiset{} && s.losses == multiset{}
  }

  ghost predicate IsRun(run: seq<State>, actions: seq<Action>) {
    && |run| == |actions| + 1 && Initial(run[0])
    && forall i | 0 <= i < |actions| :: Enabled(run[i], actions[i]) && run[i + 1] == Apply(run[i], actions[i])
  }

  ghost predicate Good(s: State) {
    Locked(s) && Honest(s) && forall k: string :: Balanced(s, k)
  }

  lemma InitialIsGood(s: State)
    requires Initial(s)
    ensures Good(s)
  {
    forall k: string
      ensures Balanced(s, k)
    {
      assert !Fetcher(s, k) && !Fresh(s, k);
    }
  }

  lemma {:induction false} RunIsGood(run: seq<State>, actions: seq<Action>, i: nat)
    requires IsRun(run, actions) && i < |run|
    ensures Good(run[i])
  {
    hide Locked, Honest, Balanced, Apply, Enabled, Initial;
    if i == 0 {
      InitialIsGood(run[0]);
    } else {
      RunIsGood(run, actions, i - 1);
      assert Enabled(run[i - 1], actions[i - 1]) && run[i - 1 + 1] == Apply(run[i - 1], actions[i - 1]);
      LockedKept(run[i - 1], actions[i - 1]);
      HonestKept(run[i - 1], actions[i - 1]);
      forall k: string
        ensures Balanced(run[i], k)
      {
        BalancedKept(run[i - 1], actions[i - 1], k);
      }
    }
  }

  /** In every interleaving at most one thread per key is inside, fetching or not. */
  lemma OneFetcher(run: seq<State>, actions: seq<Action>, i: nat, t: nat, u: nat)
    requires IsRun(run, actions) && i < |run| && t in run[i].threads && u in run[i].threads
    requires Inside(run[i].threads[t].pc) && Inside(run[i].threads[u].pc) && run[i].threads[t].key == run[i].threads[u].key
    ensures t == u
  {
    RunIsGood(run, actions, i);
    OneInside(run[i], t, u);
  }

  /** A key's mutex, once made, stays its mutex. */
  lemma {:induction false} OneMutex(run: seq<State>, actions: seq<Action>, i: nat, j: nat, k: string)
    requires IsRun(run, actions) && i <= j < |run| && k in run[i].locks
    ensures k in run[j].locks && run[j].locks[k] == run[i].locks[k]
  {
    if i < j {
      OneMutex(run, actions, i, j - 1, k);
      assert run[j - 1 + 1] == Apply(run[j - 1], actions[j - 1]);
    }
  }

  /** Every token a call returns was obtained for the caller's key, and was either fresh in the cache at
      some moment of the call's past or fetched by the call itself. */
  lemma ReturnedIsFreshOrFetched(run: seq<State>, actions: seq<Action>, i: nat, t: nat)
    requires IsRun(run, actions) && i < |run| && t in run[i].threads
    requires run[i].threads[t].pc.Done? && run[i].threads[t].pc.out.Token?
    ensures var out := run[i].threads[t].pc.out;
            && (run[i].threads[t].key, out.entry) in run[i].obtained
            && (out.source.Fetched? || (out.source.at <= run[i].now && FreshAt(out.entry, out.source.at)))
  {
    RunIsGood(run, actions, i);
    assert HonestOutcome(run[i], t);
  }

  /** The attempts started for a key never outnumber one more than the losses: failed attempts, entries
      that expired or arrived stale, entries cleared while fresh. */
  lemma FetchesAreBounded(run: seq<State>, actions: seq<Action>, i: nat, k: string)
    requires IsRun(run, actions) && i < |run|
    ensures run[i].losses[k] <= run[i].starts[k] <= run[i].losses[k] + 1
  {
    RunIsGood(run, actions, i);
    assert Balanced(run[i], k);
  }

  // ----- cache keys -----

  /** The grants a token is ever fetched for; any other is refused before a key is built. */
  datatype Grant = ClientCredentials | AuthorizationCode

  function GrantName(g: Grant): string { if g.ClientCredentials? then "client_credentials" else "authorization_code" }

  predicate IsGrant(s: string) { s == "client_credentials" || s == "authorization_code" }

  datatype Config = Config(namespace: string, grant: Grant, tokenURL: string, authURL: string, clientID: string,
                           clientSecret: string, redirectURI: string, scope: string, audience: string, usePKCE: bool)

  /** The fields a configuration must have for the cache to be asked. */
  predicate Complete(c: Config) { c.tokenURL != "" && c.clientID != "" && (c.grant.AuthorizationCode? ==> c.authURL != "") }

  /** The text fields after the grant. */
  function Texts(c: Config): (texts: seq<string>)
    ensures |texts| == 7
  {
    [c.tokenURL, c.authURL, c.clientID, c.clientSecret, c.redirectURI, c.scope, c.audience]
  }

  function KeyParts(c: Config): (parts: seq<string>)
    ensures |parts| == 10
  {
    [c.namespace, GrantName(c.grant)] + Texts(c) + [if c.usePKCE then "1" else "0"]
  }

  function CacheKey(c: Config): string { Join(KeyParts(c), "|") }

  lemma GrantsDiffer()
    ensures "client_credentials" != "authorization_code" && "1" != "0"
    ensures '|' !in "client_credentials" && '|' !in "authorization_code" && '|' !in "1" && '|' !in "0"
  {
    assert |"client_credentials"| == 18 && "client_credentials"[0] == 'c' && "authorization_code"[0] == 'a';
  }

  lemma PartsDetermine(c: Config, d: Config)
    requires KeyParts(c) == KeyParts(d)
    ensures c == d
  {
    GrantsDiffer();
    var x, y := KeyParts(c), KeyParts(d);
    assert x[0] == y[0] && x[1] == y[1] && x[2] == y[2] && x[3] == y[3] && x[4] == y[4];
    assert x[5] == y[5] && x[6] == y[6] && x[7] == y[7] && x[8] == y[8] && x[9] == y[9];
  }

  // ----- reading a key piece by piece -----

  /** The pieces between the bars of all the parts. */
  function Pieces(parts: seq<string>): seq<string> {
    if parts == [] then [] else Split(parts[0], '|') + Pieces(parts[1..])
  }

  lemma {:induction false} SplitOfParts(parts: seq<string>)
    requires parts != []
    ensures Split(Join(parts, "|"), '|') == Pieces(parts)
  {
    if |parts| == 1 {
      assert Pieces(parts[1..]) == [];
    } else {
      SplitOfParts(parts[1..]);
      SplitAppend(parts[0], '|', Join(parts[1..], "|"));
    }
  }

  /** Parts have a piece each at least, and are their pieces if there is no more than that. */
  lemma {:induction false} PiecesAtLeast(parts: seq<string>)
    ensures |Pieces(parts)| >= |parts|
    ensures |Pieces(parts)| == |parts| ==> Pieces(parts) == parts
  {
    if parts != [] {
      PiecesAtLeast(parts[1..]);
      JoinOfSplit(parts[0], '|');
      assert parts == [parts[0]] + parts[1..];
    }
  }

  lemma {:induction false} FreePieces(parts: seq<string>)
    requires forall p <- parts :: '|' !in p
    ensures Pieces(parts) == parts
  {
    if parts != [] {
      SplitFree(parts[0], '|');
      FreePieces(parts[1..]);
    }
  }

  lemma KeyPieces(c: Config)
    ensures Split(CacheKey(c), '|') == Split(c.namespace, '|') + [GrantName(c.grant)] + Pieces(KeyParts(c)[2..])
  {
    hide Split;
    GrantsDiffer();
    var parts := KeyParts(c);
    SplitOfParts(parts);
    SplitFree(parts[1], '|');
    assert parts[1..][1..] == parts[2..];
    assert Pieces(parts[1..]) == [GrantName(c.grant)] + Pieces(parts[2..]);
  }

  // ----- when a key identifies its configuration -----

  /** No bar in a field after the namespace, and no grant among the pieces of the namespace but the first. */
  ghost predicate Unmistakable(c: Config) {
    && (forall t <- Texts(c) :: '|' !in t)
    && forall i | 1 <= i < |Split(c.namespace, '|')| :: !IsGrant(Split(c.namespace, '|')[i])
  }

  lemma GrantInside(x: seq<string>, rest: seq<string>, y: seq<string>, g: string, more: seq<string>)
    requires x + rest == y + [g] + more
    ensures |y| < |x| ==> x[|y|] == g
  {
    assert (x + rest)[|y|] == g;
  }

  /** Such a configuration shares its key with no other. */
  lemma {:induction false} UnmistakableKey(c: Config, d: Config)
    requires Unmistakable(c) && CacheKey(d) == CacheKey(c)
    ensures d == c
  {
    hide Split, Join, CacheKey, Pieces;
    GrantsDiffer();
    KeyPieces(c);
    KeyPieces(d);
    var x, y := Split(c.namespace, '|'), Split(d.namespace, '|');
    var cs, ds := KeyParts(c)[2..], KeyParts(d)[2..];
    assert cs == Texts(c) + [if c.usePKCE then "1" else "0"];
    FreePieces(cs);
    PiecesAtLeast(ds);
    var all := x + [GrantName(c.grant)] + cs;
    assert all == y + [GrantName(d.grant)] + Pieces(ds);
    assert |x| + 9 == |y| + 1 + |Pieces(ds)|;
    GrantInside(x, [GrantName(c.grant)] + cs, y, GrantName(d.grant), Pieces(ds));
    if |y| >= |x| {
      SameCuts(x, GrantName(c.grant), cs, y, GrantName(d.grant), Pieces(ds));
      JoinOfSplit(c.namespace, '|');
      JoinOfSplit(d.namespace, '|');
      assert KeyParts(c) == [c.namespace, GrantName(c.grant)] + cs && KeyParts(d) == [d.namespace, GrantName(d.grant)] + ds;
      PartsDetermine(c, d);
    }
  }

  lemma SameCuts(x: seq<string>, g: string, cs: seq<string>, y: seq<string>, h: string, ds: seq<string>)
    requires x + [g] + cs == y + [h] + ds && |x| == |y|
    ensures x == y && g == h && cs == ds
  {
    var all := x + [g] + cs;
    assert all[..|x|] == x && all[..|y|] == y;
    assert all[|x|] == g == h;
    assert all[|x| + 1..] == cs == ds;
  }

  /** A bar inside a part can as well be read as part of the next one. */
  lemma {:induction false} BarMoves(parts: seq<string>, i: nat, x: string, y: string)
    requires i + 1 < |parts| && parts[i] == x + "|" + y
    ensures Join(parts[i := x][i + 1 := y + "|" + parts[i + 1]], "|") == Join(parts, "|")
  {
    var moved := parts[i := x][i + 1 := y + "|" + parts[i + 1]];
    if i > 0 {
      assert moved[1..] == parts[1..][i - 1 := x][i := y + "|" + parts[i + 1]];
      BarMoves(parts[1..], i - 1, x, y);
    } else {
      var a, b, rest := parts[1], y + "|" + parts[1], parts[2..];
      assert moved[1..] == [b] + rest && parts[1..] == [a] + rest;
      JoinHead(y, a, rest);
      var tail := Join(parts[1..], "|");
      assert Join(moved, "|") == x + "|" + (y + "|" + tail) == x + "|" + y + "|" + tail;
    }
  }

  lemma JoinHead(y: string, a: string, rest: seq<string>)
    ensures Join([y + "|" + a] + rest, "|") == y + "|" + Join([a] + rest, "|")
  {
    assert ([y + "|" + a] + rest)[1..] == rest && ([a] + rest)[1..] == rest;
    if rest != [] {
      var more := Join(rest, "|");
      assert y + "|" + a + "|" + more == y + "|" + (a + "|" + more);
    }
  }

  function WithTexts(c: Config, texts: seq<string>): Config
    requires |texts| == 7
  {
    c.(tokenURL := texts[0], authURL := texts[1], clientID := texts[2], clientSecret := texts[3],
       redirectURI := texts[4], scope := texts[5], audience := texts[6])
  }

  /** No field that must not be empty starts with a bar. */
  predicate PlainStarts(c: Config) {
    forall i | 0 <= i < 3 :: Texts(c)[i] == "" || Texts(c)[i][0] != '|'
  }

  lemma CutAtBar(s: string) returns (x: string, y: string)
    requires '|' in s
    ensures s == x + "|" + y && |x| < |s| && |y| < |s| && (s[0] != '|' ==> x != "")
  {
    var k := IndexOf(s, '|');
    IndexIsFound(s, '|');
    x, y := s[..k], s[k + 1..];
  }

  function Framed(c: Config, texts: seq<string>): seq<string> {
    [c.namespace, GrantName(c.grant)] + texts + [if c.usePKCE then "1" else "0"]
  }

  lemma TextsOf(c: Config, texts: seq<string>)
    requires |texts| == 7
    ensures Texts(WithTexts(c, texts)) == texts && KeyParts(WithTexts(c, texts)) == Framed(c, texts)
    ensures KeyParts(c) == Framed(c, Texts(c))
  {
  }

  /** The text after the bar moves into the next field. */
  lemma {:induction false} TextMoves(c: Config, texts: seq<string>, i: nat, x: string, y: string)
    requires |texts| == 7 && i < 6 && texts[i] == x + "|" + y
    ensures Join(Framed(c, texts[i := x][i + 1 := y + "|" + texts[i + 1]]), "|") == Join(Framed(c, texts), "|")
  {
    hide Join;
    var parts := Framed(c, texts);
    BarMoves(parts, i + 2, x, y);
    assert parts[i + 2 := x][i + 3 := y + "|" + texts[i + 1]] == Framed(c, texts[i := x][i + 1 := y + "|" + texts[i + 1]]);
  }

  /** A bar in a text field gives another configuration with the same key: the text after it moves into the
      next field, or, for the last one, the text before it into the one before. */
  lemma {:induction false} BarCollides(c: Config, i: nat) returns (d: Config)
    requires i < 7 && '|' in Texts(c)[i]
    ensures d != c && CacheKey(d) == CacheKey(c) && (Complete(c) && PlainStarts(c) ==> Complete(d))
  {
    hide Join, Framed;
    var texts := Texts(c);
    var x, y := CutAtBar(texts[i]);
    TextsOf(c, texts);
    if i < 6 {
      var moved := texts[i := x][i + 1 := y + "|" + texts[i + 1]];
      d := WithTexts(c, moved);
      TextsOf(c, moved);
      TextMoves(c, texts, i, x, y);
      assert |moved[i]| < |texts[i]|;
    } else {
      var moved := texts[5 := texts[5] + "|" + x][6 := y];
      d := WithTexts(c, moved);
      TextsOf(c, moved);
      TextMoves(c, moved, 5, texts[5], x);
      assert moved[5 := texts[5]][6 := x + "|" + y] == texts;
      assert |moved[6]| < |texts[6]|;
    }
  }

  lemma {:induction false} IndexIsFound(s: string, c: char)
    requires c in s
    ensures IndexOf(s, c) < |s|
  {
    assert s[..|s|] == s;
  }

  lemma {:induction false} JoinFront(front: seq<string>, rest: seq<string>)
    requires front != [] && rest != []
    ensures Join(front + rest, "|") == Join(front, "|") + "|" + Join(rest, "|")
  {
    if |front| == 1 {
      assert (front + rest)[1..] == rest;
    } else {
      assert (front + rest)[1..] == front[1..] + rest;
      JoinFront(front[1..], rest);
    }
  }

  lemma KeyOpens(c: Config)
    ensures CacheKey(c) == c.namespace + "|" + GrantName(c.grant) + "|" + c.tokenURL + "|" + c.authURL + "|" + Join(KeyParts(c)[4..], "|")
  {
    hide Join;
    var parts := KeyParts(c);
    var last := Join(parts[4..], "|");
    assert parts == [c.namespace] + parts[1..] && parts[1..] == [parts[1]] + parts[2..] && parts[2..] == [parts[2]] + parts[3..]
           && parts[3..] == [parts[3]] + parts[4..];
    JoinFront([c.namespace], parts[1..]);
    JoinFront([parts[1]], parts[2..]);
    JoinFront([parts[2]], parts[3..]);
    JoinFront([parts[3]], parts[4..]);
    JoinOne(c.namespace);
    JoinOne(parts[1]);
    JoinOne(parts[2]);
    JoinOne(parts[3]);
    assert CacheKey(c) == c.namespace + "|" + (parts[1] + "|" + (parts[2] + "|" + (parts[3] + "|" + last)));
  }

  lemma JoinOne(s: string)
    ensures Join([s], "|") == s
  {
  }

  /** A namespace with a grant after it, read around one of its pieces. */
  lemma {:induction false} NamespaceReads(namespace: string, g: string, i: nat)
    requires 1 <= i < |Split(namespace, '|')|
    ensures var pieces := Split(namespace, '|');
            namespace + "|" + g == Join(pieces[..i], "|") + "|" + pieces[i] + "|" + Join(pieces[i + 1..] + [g], "|")
    ensures |Join(Split(namespace, '|')[..i], "|")| < |namespace|
  {
    hide Join, Split;
    var pieces := Split(namespace, '|');
    var front, piece, back := pieces[..i], pieces[i], pieces[i + 1..];
    JoinOfSplit(namespace, '|');
    assert pieces == front + ([piece] + back);
    JoinFront(front, [piece] + back);
    JoinOne(g);
    JoinOne(piece);
    if back == [] {
      assert [piece] + back == [piece] && back + [g] == [g];
    } else {
      JoinFront([piece], back);
      JoinFront(back, [g]);
    }
  }

  lemma {:induction false} JoinedLast(parts: seq<string>, g: string)
    requires g != ""
    ensures Join(parts + [g], "|") != ""
  {
    JoinOne(g);
    if parts == [] {
      assert parts + [g] == [g];
    } else {
      JoinFront(parts, [g]);
    }
  }

  /** A grant inside the namespace can be read as the grant. */
  lemma {:induction false} GrantCollides(c: Config, i: nat) returns (d: Config)
    requires 1 <= i < |Split(c.namespace, '|')| && IsGrant(Split(c.namespace, '|')[i])
    ensures d != c && CacheKey(d) == CacheKey(c) && (Complete(c) ==> Complete(d))
  {
    hide Join, Split, CacheKey, KeyParts;
    GrantsDiffer();
    var pieces, g := Split(c.namespace, '|'), GrantName(c.grant);
    var grant := if pieces[i] == "client_credentials" then ClientCredentials else AuthorizationCode;
    d := c.(namespace := Join(pieces[..i], "|"), grant := grant, tokenURL := Join(pieces[i + 1..] + [g], "|"),
            authURL := c.tokenURL + "|" + c.authURL);
    JoinedLast(pieces[i + 1..], g);
    NamespaceReads(c.namespace, g, i);
    KeyOpens(c);
    KeyOpens(d);
    SameEnds(c, d);
    var last := Join(KeyParts(c)[4..], "|");
    assert GrantName(grant) == pieces[i];
    Grouped(c.namespace + "|" + g, c.tokenURL, c.authURL, last);
  }

  lemma SameEnds(c: Config, d: Config)
    requires d == c.(namespace := d.namespace, grant := d.grant, tokenURL := d.tokenURL, authURL := d.authURL)
    ensures KeyParts(d)[4..] == KeyParts(c)[4..]
  {
  }

  lemma Grouped(front: string, t: string, u: string, last: string)
    ensures front + "|" + t + "|" + u + "|" + last == front + "|" + (t + "|" + u) + "|" + last
  {
  }

  /** Among configurations with one of the two grants, a key belongs to one only exactly when that one is
      unmistakable. */
  lemma {:induction false} KeyIdentifies(c: Config)
    ensures (forall d: Config :: CacheKey(d) == CacheKey(c) ==> d == c) <==> Unmistakable(c)
  {
    hide Join, Split, CacheKey, IsGrant;
    if Unmistakable(c) {
      forall d: Config | CacheKey(d) == CacheKey(c)
        ensures d == c
      {
        UnmistakableKey(c, d);
      }
    } else {
      var d := Mistakable(c);
    }
  }

  /** And also among those complete ones that the cache is asked for, unless a field that must not be empty
      starts with a bar. */
  lemma {:induction false} CompleteKeyIdentifies(c: Config)
    requires Complete(c) && PlainStarts(c)
    ensures (forall d: Config :: Complete(d) && CacheKey(d) == CacheKey(c) ==> d == c) <==> Unmistakable(c)
  {
    hide Join, Split, CacheKey, IsGrant;
    KeyIdentifies(c);
    if !Unmistakable(c) {
      var d := Mistakable(c);
    }
  }

  lemma {:induction false} Mistakable(c: Config) returns (d: Config)
    requires !Unmistakable(c)
    ensures d != c && CacheKey(d) == CacheKey(c) && (Complete(c) && PlainStarts(c) ==> Complete(d))
  {
    hide Join, Split, CacheKey, IsGrant;
    if t :| t in Texts(c) && '|' in t {
      var i :| 0 <= i < 7 && Texts(c)[i] == t;
      d := BarCollides(c, i);
    } else {
      var i :| 1 <= i < |Split(c.namespace, '|')| && IsGrant(Split(c.namespace, '|')[i]);
      d := GrantCollides(c, i);
    }
  }

  /** A concrete pair: they differ in client and secret and share one key. */
  lemma BarsCollide(c: Config)
    ensures var d := c.(clientID := "a|b", clientSecret := "c");
            var e := c.(clientID := "a", clientSecret := "b|c");
            d != e && CacheKey(d) == CacheKey(e)
  {
    hide Join;
    var d := c.(clientID := "a|b", clientSecret := "c");
    var e := c.(clientID := "a", clientSecret := "b|c");
    assert |d.clientID| != |e.clientID|;
    assert "a" + "|" + "b" == "a|b" && "b" + "|" + "c" == "b|c";
    BarMoves(KeyParts(d), 4, "a", "b");
    assert KeyParts(d)[4 := "a"][5 := "b|c"] == KeyParts(e);
  }

  /** The prefix by which `ClearNamespace` picks a key. */
  predicate ClearedBy(namespace: string, c: Config) { namespace + "|" <= CacheKey(c) }

  /** What follows a namespace and a bar reads as a grant, alone or up to the next bar. */
  predicate StartsWithGrant(rest: string) {
    IsGrant(rest) || "client_credentials" + "|" <= rest || "authorization_code" + "|" <= rest
  }

  /** Clearing one namespace can reach the key of a configuration in another exactly when it is a prefix of
      the other up to a bar, or the other is one of it and a grant follows. */
  lemma {:induction false} NamespacesApart(namespace: string, other: string)
    ensures (exists c: Config :: Complete(c) && c.namespace == other && ClearedBy(namespace, c))
       <==> namespace == other || namespace + "|" <= other
            || (other + "|" <= namespace && StartsWithGrant(namespace[|other| + 1..]))
  {
    hide Join, CacheKey;
    if c: Config :| Complete(c) && c.namespace == other && ClearedBy(namespace, c) {
      ClearedMeans(namespace, c);
    }
    if namespace == other || namespace + "|" <= other || (other + "|" <= namespace && StartsWithGrant(namespace[|other| + 1..])) {
      var c := ClearedExample(namespace, other);
    }
  }

  lemma {:induction false} ClearedMeans(namespace: string, c: Config)
    requires ClearedBy(namespace, c)
    ensures namespace == c.namespace || namespace + "|" <= c.namespace
            || (c.namespace + "|" <= namespace && StartsWithGrant(namespace[|c.namespace| + 1..]))
  {
    hide Join, CacheKey;
    KeyOpens(c);
    var key, other, g := CacheKey(c), c.namespace, GrantName(c.grant);
    var n := |namespace|;
    assert key[..n] == namespace && key[n] == '|';
    if n < |other| {
      assert other[..n + 1] == key[..n + 1] == namespace + "|";
    } else if n == |other| {
      assert key[..n] == other;
    } else {
      assert key[..|other| + 1] == other + "|";
      assert namespace[..|other| + 1] == key[..|other| + 1];
      GrantFollows(namespace[|other| + 1..], g, key[|other| + 1..]);
    }
  }

  lemma GrantFollows(rest: string, g: string, key: string)
    requires IsGrant(g) && g + "|" <= key && rest + "|" <= key
    ensures StartsWithGrant(rest)
  {
    GrantsDiffer();
    assert key[|g|] == '|' && key[..|g|] == g && key[..|rest|] == rest && key[|rest|] == '|';
    assert forall i :: 0 <= i < |g| ==> key[i] == g[i] && key[i] != '|';
    if |rest| > |g| {
      assert rest[..|g| + 1] == key[..|g| + 1] == g + "|";
    }
  }

  lemma {:induction false} ClearedExample(namespace: string, other: string) returns (c: Config)
    requires namespace == other || namespace + "|" <= other || (other + "|" <= namespace && StartsWithGrant(namespace[|other| + 1..]))
    ensures Complete(c) && c.namespace == other && ClearedBy(namespace, c)
  {
    hide Join, CacheKey, StartsWithGrant, KeyParts;
    if namespace == other || namespace + "|" <= other {
      c := Config(other, ClientCredentials, "t", "u", "i", "", "", "", "", false);
      KeyOpens(c);
    } else {
      var rest := namespace[|other| + 1..];
      assert namespace == other + "|" + rest;
      var grant, x := GrantOf(rest);
      c := Config(other, grant, x, "u", "i", "", "", "", "", false);
      GrantReaches(c, rest);
    }
  }

  lemma {:induction false} GrantReaches(c: Config, rest: string)
    requires rest + "|" <= GrantName(c.grant) + "|" + c.tokenURL
    ensures ClearedBy(c.namespace + "|" + rest, c)
  {
    hide Join, CacheKey, KeyParts, GrantName;
    KeyOpens(c);
    var more := "|" + c.authURL + "|" + Join(KeyParts(c)[4..], "|");
    Prefixes(c.namespace, rest, GrantName(c.grant) + "|" + c.tokenURL, more);
    assert CacheKey(c) == c.namespace + "|" + (GrantName(c.grant) + "|" + c.tokenURL) + more;
  }

  lemma Prefixes(other: string, rest: string, start: string, more: string)
    requires rest + "|" <= start
    ensures other + "|" + rest + "|" <= other + "|" + start + more
  {
    assert start + more == rest + "|" + (start + more)[|rest| + 1..];
    assert other + "|" + start + more == other + "|" + (start + more);
  }

  /** A grant and a token URL that spell what starts with a grant. */
  lemma {:induction false} GrantOf(rest: string) returns (grant: Grant, tokenURL: string)
    requires StartsWithGrant(rest)
    ensures tokenURL != "" && rest + "|" <= GrantName(grant) + "|" + tokenURL
  {
    GrantsDiffer();
    grant := if "client_credentials" <= rest then ClientCredentials else AuthorizationCode;
    var g := GrantName(grant);
    assert g <= rest;
    tokenURL := "t";
    if rest != g {
      var x := rest[|g| + 1..];
      assert rest == g + "|" + x;
      tokenURL := x + "|";
      assert rest + "|" == g + "|" + tokenURL;
    }
  }

  /** So among namespaces without a bar, clearing one reaches exactly its own keys, whatever the other
      fields hold. */
  lemma NamespaceCleared(c: Config, namespace: string)
    requires '|' !in c.namespace && '|' !in namespace
    ensures ClearedBy(namespace, c) <==> c.namespace == namespace
  {
    hide Join, CacheKey, StartsWithGrant;
    KeyOpens(c);
    if ClearedBy(namespace, c) {
      ClearedMeans(namespace, c);
      NoBarAfter(namespace, c.namespace);
      NoBarAfter(c.namespace, namespace);
    }
  }

  lemma NoBarAfter(front: string, s: string)
    requires '|' !in s
    ensures !(front + "|" <= s)
  {
    assert (front + "|")[|front|] == '|';
  }

  /** Clearing the tokens of the collection at "a" drops every token of the one at "a|b". */
  lemma ClearsAnother(c: Config)
    requires c.namespace == "a|b"
    ensures ClearedBy("a", c)
  {
    hide Join, CacheKey;
    KeyOpens(c);
    assert "a" + "|" == "a|b"[..2];
  }
}
