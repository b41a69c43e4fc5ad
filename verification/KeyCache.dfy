/** The signing-key cache: lookups interleave, one lock serializes refreshes, and a throttle spaces
    the fetches. Times are in milliseconds. */
module KeyCache {
  import opened Json

  type Client = nat
  type KeyId = string
  type Key = nat
  type KeySet = map<KeyId, Key>

  const MINIMUM_REFRESH_INTERVAL: nat := 30_000

  /** A fetched set and the reading of the clock when its fetch was complete. */
  datatype Cached = Cached(keys: KeySet, fetchedAt: nat)

  /** Where a lookup is. `Holding` to `Storing` run under the refresh lock. */
  datatype Phase =
    | Looking(key: KeyId)
    | Waiting(key: KeyId)
    | Holding(key: KeyId)
    | Missed(key: KeyId)
    | Fetching(key: KeyId)
    | Storing(key: KeyId, fetched: Cached)

  /** The fetch that started last, the set it received and the set it stored, if it came to that. */
  datatype Fetch = Fetch(startedAt: nat, received: Option<KeySet>, stored: Option<Cached>)

  datatype Event =
    | Started(at: nat)
    | Served(key: KeyId, value: Key, at: nat, from: Cached, own: bool)
    | Throttled(key: KeyId, at: nat, latest: Fetch)

  datatype State = State(now: nat, cache: Option<Cached>, refreshAfter: Option<nat>, holder: Option<Client>,
                         lookups: map<Client, Phase>, latest: Option<Fetch>, log: seq<Event>)

  datatype Label =
    | Tick(elapsed: nat)
    | Look(client: Client, key: KeyId)
    | CheckCache(client: Client)
    | Lock(client: Client)
    | StartFetch(client: Client)
    | FetchFails(client: Client)
    | FetchCompletes(client: Client, keys: KeySet)
    | Store(client: Client)
    | Cancel(client: Client)

  function Min(a: nat, b: nat): nat { if a < b then a else b }

  function Interval(ttl: nat): nat { Min(MINIMUM_REFRESH_INTERVAL, ttl) }

  /** A cached set serves a key until its lifetime is over. */
  predicate Serves(ttl: nat, s: State, key: KeyId) {
    s.cache.Some? && s.now < s.cache.value.fetchedAt + ttl && key in s.cache.value.keys
  }

  function Finish(s: State, client: Client): State {
    s.(lookups := s.lookups - {client}, holder := if s.holder == Some(client) then None else s.holder)
  }

  function At(s: State, client: Client, phase: Phase): State { s.(lookups := s.lookups[client := phase]) }

  function Logged(s: State, e: Event): State { s.(log := s.log + [e]) }

  /** The effect of one step; a step that is not enabled changes nothing. */
  function Step(ttl: nat, s: State, l: Label): State {
    match l
    case Tick(elapsed) => s.(now := s.now + elapsed)
    case Look(client, key) => if client in s.lookups then s else At(s, client, Looking(key))
    case _ => if l.client !in s.lookups then s else StepOf(ttl, s, l, s.lookups[l.client])
  }

  function StepOf(ttl: nat, s: State, l: Label, phase: Phase): State
    requires !l.Tick? && !l.Look?
  {
    match l
    case CheckCache(client) =>
      if !phase.Looking? && !phase.Holding? then s
      else if Serves(ttl, s, phase.key)
      then Logged(Finish(s, client), Served(phase.key, s.cache.value.keys[phase.key], s.now, s.cache.value, false))
      else At(s, client, if phase.Looking? then Waiting(phase.key) else Missed(phase.key))
    case Lock(client) =>
      if phase.Waiting? && s.holder.None? then At(s, client, Holding(phase.key)).(holder := Some(client)) else s
    case StartFetch(client) =>
      if !phase.Missed? then s
      else if s.refreshAfter.Some? && s.now < s.refreshAfter.value
      then Refuse(s, client, phase.key)
      else Logged(At(s, client, Fetching(phase.key)), Started(s.now)).(
             refreshAfter := Some(s.now + Interval(ttl)), latest := Some(Fetch(s.now, None, None)))
    case FetchFails(client) => if phase.Fetching? then Finish(s, client) else s
    case FetchCompletes(client, keys) =>
      if phase.Fetching?
      then At(s, client, Storing(phase.key, Cached(keys, s.now))).(latest := MarkReceived(s.latest, keys)) else s
    case Store(client) =>
      if !phase.Storing? then s else
      var stored := Finish(s, client).(cache := Some(phase.fetched), latest := MarkStored(s.latest, phase.fetched));
      if phase.key in phase.fetched.keys
      then Logged(stored, Served(phase.key, phase.fetched.keys[phase.key], s.now, phase.fetched, true))
      else stored
    case Cancel(client) => Finish(s, client)
    case _ => s
  }

  function Refuse(s: State, client: Client, key: KeyId): State {
    if s.latest.None? then Finish(s, client)
    else Logged(Finish(s, client), Throttled(key, s.now, s.latest.value))
  }

  function MarkReceived(latest: Option<Fetch>, keys: KeySet): Option<Fetch> {
    if latest.None? then None else Some(latest.value.(received := Some(keys)))
  }

  function MarkStored(latest: Option<Fetch>, fetched: Cached): Option<Fetch> {
    if latest.None? then None else Some(latest.value.(stored := Some(fetched)))
  }

  function Initial(): State { State(0, None, None, None, map[], None, []) }

  function Run(ttl: nat, labels: seq<Label>): State {
    if labels == [] then Initial() else Step(ttl, Run(ttl, labels[..|labels| - 1]), labels[|labels| - 1])
  }

  // ---- the invariant

  predicate UnderLock(p: Phase) { p.Holding? || p.Missed? || p.Fetching? || p.Storing? }

  /** The latest fetch set the throttle, and the cache is what it stored, if it stored anything. */
  predicate LatestOk(ttl: nat, s: State) {
    if s.latest.None? then s.refreshAfter.None? && s.cache.None?
    else
      var f := s.latest.value;
      && s.refreshAfter == Some(f.startedAt + Interval(ttl)) && f.startedAt <= s.now
      && (f.stored.Some? ==> s.cache == f.stored && f.startedAt <= f.stored.value.fetchedAt)
      && (f.stored.Some? ==> f.received == Some(f.stored.value.keys))
  }

  /** What a lookup knows while no other lookup can refresh. */
  predicate PhaseOk(ttl: nat, s: State, p: Phase) {
    match p
    case Missed(key) => !Serves(ttl, s, key)
    case Fetching(_) => s.latest.Some? && s.latest.value.stored.None?
    case Storing(_, fetched) =>
      s.latest.Some? && s.latest.value.stored.None? && s.latest.value.startedAt <= fetched.fetchedAt <= s.now
      && s.latest.value.received == Some(fetched.keys)
    case _ => true
  }

  predicate EventOk(ttl: nat, e: Event) {
    match e
    case Started(_) => true
    case Served(key, value, at, from, own) =>
      key in from.keys && from.keys[key] == value && from.fetchedAt <= at && (own || at < from.fetchedAt + ttl)
    case Throttled(key, at, latest) =>
      at < latest.startedAt + Interval(ttl) && (latest.stored.None? || key !in latest.stored.value.keys)
  }

  /** Fetch starts are at least the interval apart, and none is later than the latest fetch. */
  ghost predicate Spaced(ttl: nat, s: State) {
    && (forall m, n | 0 <= m < n < |s.log| && s.log[m].Started? && s.log[n].Started? ::
          s.log[m].at + Interval(ttl) <= s.log[n].at)
    && (forall m | 0 <= m < |s.log| && s.log[m].Started? :: s.latest.Some? && s.log[m].at <= s.latest.value.startedAt)
  }

  ghost predicate Inv(ttl: nat, s: State) {
    && LatestOk(ttl, s) && Spaced(ttl, s)
    && (s.cache.Some? ==> s.cache.value.fetchedAt <= s.now)
    && (forall c | c in s.lookups ::
          PhaseOk(ttl, s, s.lookups[c]) && (UnderLock(s.lookups[c]) <==> s.holder == Some(c)))
    && (forall n | 0 <= n < |s.log| :: EventOk(ttl, s.log[n]))
    && (s.holder.Some? ==> s.holder.value in s.lookups)
  }

  lemma StepKeepsInv(ttl: nat, s: State, l: Label)
    requires Inv(ttl, s)
    ensures Inv(ttl, Step(ttl, s, l))
  {
    if l.Tick? || l.Look? { return; }
    if l.client in s.lookups {
      match l
      case CheckCache(client) => CheckKeepsInv(ttl, s, client);
      case StartFetch(client) => StartKeepsInv(ttl, s, client);
      case Store(client) => StoreKeepsInv(ttl, s, client);
      case _ => QuietKeepsInv(ttl, s, l);
    }
  }

  /** Steps that record nothing. */
  lemma QuietKeepsInv(ttl: nat, s: State, l: Label)
    requires Inv(ttl, s) && (l.Lock? || l.FetchFails? || l.FetchCompletes? || l.Cancel?) && l.client in s.lookups
    ensures Inv(ttl, StepOf(ttl, s, l, s.lookups[l.client]))
  {
    assert PhaseOk(ttl, s, s.lookups[l.client]);
  }

  lemma CheckKeepsInv(ttl: nat, s: State, client: Client)
    requires Inv(ttl, s) && client in s.lookups
    ensures Inv(ttl, StepOf(ttl, s, CheckCache(client), s.lookups[client]))
  {
    assert PhaseOk(ttl, s, s.lookups[client]);
  }

  /** A throttled lookup missed a cache that nobody can have refreshed since. */
  lemma StartKeepsInv(ttl: nat, s: State, client: Client)
    requires Inv(ttl, s) && client in s.lookups
    ensures Inv(ttl, StepOf(ttl, s, StartFetch(client), s.lookups[client]))
  {
    assert PhaseOk(ttl, s, s.lookups[client]);
  }

  lemma StoreKeepsInv(ttl: nat, s: State, client: Client)
    requires Inv(ttl, s) && client in s.lookups
    ensures Inv(ttl, StepOf(ttl, s, Store(client), s.lookups[client]))
  {
    assert PhaseOk(ttl, s, s.lookups[client]);
  }

  lemma {:induction false} RunInv(ttl: nat, labels: seq<Label>)
    ensures Inv(ttl, Run(ttl, labels))
  {
    if labels != [] {
      RunInv(ttl, labels[..|labels| - 1]);
      StepKeepsInv(ttl, Run(ttl, labels[..|labels| - 1]), labels[|labels| - 1]);
    }
  }

  // ---- what follows for whole runs

  /** Under any concurrency, failure or cancellation, fetches start at least the interval apart. */
  lemma FetchesAreSpaced(ttl: nat, labels: seq<Label>, m: nat, n: nat)
    requires m < n < |Run(ttl, labels).log| && Run(ttl, labels).log[m].Started? && Run(ttl, labels).log[n].Started?
    ensures var first, second := Run(ttl, labels).log[m].at, Run(ttl, labels).log[n].at;
      first + 30_000 <= second || first + ttl <= second
  {
    RunInv(ttl, labels);
  }

  /** Every key served is in the set it was served from: a cached set, complete less than the lifetime
      ago, or the set the lookup itself has just fetched. */
  lemma ServedKeysAreFresh(ttl: nat, labels: seq<Label>, n: nat)
    requires n < |Run(ttl, labels).log| && Run(ttl, labels).log[n].Served?
    ensures var e := Run(ttl, labels).log[n];
      e.key in e.from.keys && e.from.keys[e.key] == e.value && (e.own || e.at < e.from.fetchedAt + ttl)
  {
    RunInv(ttl, labels);
    assert EventOk(ttl, Run(ttl, labels).log[n]);
  }

  /** A lookup is refused by the throttle only while the latest fetch has stored no set with its key. */
  lemma ThrottleNeverHidesAStoredKey(ttl: nat, labels: seq<Label>, n: nat)
    requires n < |Run(ttl, labels).log| && Run(ttl, labels).log[n].Throttled?
    ensures var e := Run(ttl, labels).log[n];
      && e.at < e.latest.startedAt + 30_000 && e.at < e.latest.startedAt + ttl
      && !(e.latest.stored.Some? && e.key in e.latest.stored.value.keys)
  {
    RunInv(ttl, labels);
    assert EventOk(ttl, Run(ttl, labels).log[n]);
  }

  // ---- one lookup, undisturbed

  /** A lookup from its start to the throttle, with the lock free and nothing in between. */
  function Lookup(ttl: nat, s: State, client: Client, key: KeyId): State {
    Step(ttl, Step(ttl, Step(ttl, Step(ttl, Step(ttl, s, Look(client, key)), CheckCache(client)), Lock(client)),
                   CheckCache(client)), StartFetch(client))
  }

  predicate RefusedBy(ttl: nat, s: State, key: KeyId) {
    !Serves(ttl, s, key) && s.latest.Some? && s.now < s.latest.value.startedAt + Interval(ttl)
  }

  /** In every reachable state with the lock free an undisturbed lookup is served, is refused or fetches.
      It is served exactly from a cached set with its key whose lifetime is not over; otherwise it is
      refused exactly when the latest fetch started less than 30 s, and less than the lifetime, ago. */
  lemma LookupOutcome(ttl: nat, labels: seq<Label>, client: Client, key: KeyId)
    requires client !in Run(ttl, labels).lookups && Run(ttl, labels).holder.None?
    ensures var s := Run(ttl, labels);
      Lookup(ttl, s, client, key).log == s.log + [
        if s.cache.Some? && s.now < s.cache.value.fetchedAt + ttl && key in s.cache.value.keys
        then Served(key, s.cache.value.keys[key], s.now, s.cache.value, false)
        else if s.latest.Some? && s.now < s.latest.value.startedAt + 30_000 && s.now < s.latest.value.startedAt + ttl
        then Throttled(key, s.now, s.latest.value)
        else Started(s.now)]
  {
    RunInv(ttl, labels);
    var s := Run(ttl, labels);
    var s1 := Step(ttl, s, Look(client, key));
    var s2 := Step(ttl, s1, CheckCache(client));
    if Serves(ttl, s, key) {
      assert client !in s2.lookups;
    } else {
      var s3 := Step(ttl, s2, Lock(client));
      assert s3.lookups[client] == Holding(key) && !Serves(ttl, s3, key);
      var s4 := Step(ttl, s3, CheckCache(client));
      assert s4.lookups[client] == Missed(key);
    }
  }

  /** Whoever holds the lock, a lookup is served at once from a cached set with its key whose lifetime is
      not over, and otherwise waits for the lock. */
  lemma HitsNeedNoLock(ttl: nat, labels: seq<Label>, client: Client, key: KeyId)
    requires client !in Run(ttl, labels).lookups
    ensures var s := Run(ttl, labels);
      var after := Step(ttl, Step(ttl, s, Look(client, key)), CheckCache(client));
      if s.cache.Some? && s.now < s.cache.value.fetchedAt + ttl && key in s.cache.value.keys
      then after.log == s.log + [Served(key, s.cache.value.keys[key], s.now, s.cache.value, false)]
      else after.log == s.log && after.lookups == s.lookups[client := Waiting(key)]
  {}

  /** A lookup that waits gets the lock exactly when nobody holds it; then it looks again, and is served from
      what has been stored in the meantime. */
  lemma WaitersLookAgain(ttl: nat, labels: seq<Label>, client: Client, key: KeyId)
    requires client in Run(ttl, labels).lookups && Run(ttl, labels).lookups[client] == Waiting(key)
    ensures var s := Run(ttl, labels);
      var locked := Step(ttl, s, Lock(client));
      var after := Step(ttl, locked, CheckCache(client));
      && (if s.holder.Some? then locked == s
          else locked.holder == Some(client) && locked.lookups[client] == Holding(key) && locked.log == s.log)
      && (s.holder.None? ==>
            if s.cache.Some? && s.now < s.cache.value.fetchedAt + ttl && key in s.cache.value.keys
            then after.log == s.log + [Served(key, s.cache.value.keys[key], s.now, s.cache.value, false)]
                 && after.holder.None?
            else after.log == s.log && after.lookups[client] == Missed(key))
  {}

  /** However a fetch ends, the lock is free afterwards. A completed fetch replaces the cache by its set, and
      serves its own key from it; a failed or cancelled one leaves the cache and the throttle as they are. */
  lemma FetchesEnd(ttl: nat, labels: seq<Label>, client: Client, key: KeyId, keys: KeySet)
    requires client in Run(ttl, labels).lookups && Run(ttl, labels).lookups[client] == Fetching(key)
    ensures var s := Run(ttl, labels);
      var stored := Step(ttl, Step(ttl, s, FetchCompletes(client, keys)), Store(client));
      var failed, cancelled := Step(ttl, s, FetchFails(client)), Step(ttl, s, Cancel(client));
      && stored.cache == Some(Cached(keys, s.now)) && stored.holder.None? && client !in stored.lookups
      && stored.log == s.log + (if key in keys then [Served(key, keys[key], s.now, Cached(keys, s.now), true)] else [])
      && failed == s.(lookups := s.lookups - {client}, holder := None) && cancelled == failed
  {
    RunInv(ttl, labels);
    assert UnderLock(Run(ttl, labels).lookups[client]);
  }

  /** A key the latest fetch has stored is served at least as long as the throttle could refuse it. */
  lemma StoredKeyIsServed(ttl: nat, labels: seq<Label>, key: KeyId)
    requires var f := Run(ttl, labels).latest; f.Some? && f.value.stored.Some? && key in f.value.stored.value.keys
    requires Run(ttl, labels).now < Run(ttl, labels).latest.value.startedAt + Interval(ttl)
    ensures Serves(ttl, Run(ttl, labels), key) && !RefusedBy(ttl, Run(ttl, labels), key)
  {
    RunInv(ttl, labels);
  }

  /** The last event of the log is a refusal. */
  predicate EndsRefused(s: State) { s.log != [] && s.log[|s.log| - 1].Throttled? }

  /** A lookup of a key the latest fetch has received, with the lock free and the interval not over, is
      refused exactly when the received set was never stored and no earlier set serves the key. */
  lemma ReceivedKeyIsRefusedUnlessStored(ttl: nat, labels: seq<Label>, client: Client, key: KeyId)
    requires client !in Run(ttl, labels).lookups && Run(ttl, labels).holder.None?
    requires var f := Run(ttl, labels).latest; f.Some? && f.value.received.Some? && key in f.value.received.value
    requires Run(ttl, labels).now < Run(ttl, labels).latest.value.startedAt + Interval(ttl)
    ensures var s := Run(ttl, labels);
      EndsRefused(Lookup(ttl, s, client, key)) <==>
        s.latest.value.stored.None?
        && !(s.cache.Some? && s.now < s.cache.value.fetchedAt + ttl && key in s.cache.value.keys)
  {
    RunInv(ttl, labels);
    LookupOutcome(ttl, labels, client, key);
    if Run(ttl, labels).latest.value.stored.Some? { StoredKeyIsServed(ttl, labels, key); }
  }

  // ---- refusals of received keys

  predicate IsStoring(s: State, client: Client) { client in s.lookups && s.lookups[client].Storing? }

  /** While a lookup stores the set it received, no step refuses any lookup. */
  lemma NobodyIsRefusedWhileStoring(ttl: nat, labels: seq<Label>, client: Client, l: Label)
    requires IsStoring(Run(ttl, labels), client)
    ensures var s := Run(ttl, labels);
      var after := Step(ttl, s, l).log;
      s.log <= after && forall n | |s.log| <= n < |after| :: !after[n].Throttled?
  {
    RunInv(ttl, labels);
    var s := Run(ttl, labels);
    assert UnderLock(s.lookups[client]);
    if l.StartFetch? && l.client in s.lookups && l.client != client {
      assert UnderLock(s.lookups[l.client]) <==> s.holder == Some(l.client);
    }
  }

  /** The label at `n` cancels a lookup that has received `keys` and is storing them. */
  predicate CancelsStoring(ttl: nat, labels: seq<Label>, n: nat, keys: KeySet)
    requires n < |labels|
  {
    && labels[n].Cancel? && IsStoring(Run(ttl, labels[..n]), labels[n].client)
    && Run(ttl, labels[..n]).lookups[labels[n].client].fetched.keys == keys
  }

  predicate StoringCancelled(ttl: nat, labels: seq<Label>, keys: KeySet) {
    exists n :: 0 <= n < |labels| && CancelsStoring(ttl, labels, n, keys)
  }

  lemma CancelledBefore(ttl: nat, labels: seq<Label>, upto: nat, keys: KeySet)
    requires upto <= |labels| && StoringCancelled(ttl, labels[..upto], keys)
    ensures StoringCancelled(ttl, labels, keys)
  {
    var n :| 0 <= n < upto && CancelsStoring(ttl, labels[..upto], n, keys);
    assert labels[..upto][..n] == labels[..n];
    assert CancelsStoring(ttl, labels, n, keys);
  }

  /** A set that the latest fetch received is stored, is being stored, or was lost with its lookup. */
  ghost predicate Accounted(ttl: nat, labels: seq<Label>, s: State) {
    s.latest.Some? && s.latest.value.received.Some? ==>
      || s.latest.value.stored.Some?
      || (exists c :: IsStoring(s, c) && s.lookups[c].fetched.keys == s.latest.value.received.value)
      || StoringCancelled(ttl, labels, s.latest.value.received.value)
  }

  lemma {:induction false} ReceivedIsAccountedFor(ttl: nat, labels: seq<Label>)
    ensures Accounted(ttl, labels, Run(ttl, labels))
  {
    if labels != [] {
      var n := |labels| - 1;
      ReceivedIsAccountedFor(ttl, labels[..n]);
      RunInv(ttl, labels[..n]);
      StepAccounts(ttl, labels, Run(ttl, labels[..n]));
    }
  }

  lemma StepAccounts(ttl: nat, labels: seq<Label>, s: State)
    requires labels != [] && s == Run(ttl, labels[..|labels| - 1]) && Inv(ttl, s)
    requires Accounted(ttl, labels[..|labels| - 1], s)
    ensures Accounted(ttl, labels, Step(ttl, s, labels[|labels| - 1]))
  {
    var n := |labels| - 1;
    var l, after := labels[n], Step(ttl, s, labels[n]);
    if l.FetchCompletes? && l.client in s.lookups && s.lookups[l.client].Fetching? {
      assert IsStoring(after, l.client);
    } else if after.latest.Some? && after.latest.value.received.Some? && after.latest.value.stored.None? {
      LatestStays(ttl, s, l);
      var keys := after.latest.value.received.value;
      if StoringCancelled(ttl, labels[..n], keys) {
        CancelledBefore(ttl, labels, n, keys);
      } else {
        var c :| IsStoring(s, c) && s.lookups[c].fetched.keys == keys;
        if l == Cancel(c) { assert CancelsStoring(ttl, labels, n, keys); } else { StoringGoesOn(ttl, s, l, c); }
      }
    }
  }

  /** Only starting, completing and storing a fetch change what is known of the latest fetch. */
  lemma LatestStays(ttl: nat, s: State, l: Label)
    requires var after := Step(ttl, s, l).latest;
      after.Some? && after.value.received.Some? && after.value.stored.None?
    requires !(l.FetchCompletes? && l.client in s.lookups && s.lookups[l.client].Fetching?)
    ensures Step(ttl, s, l).latest == s.latest
  {}

  lemma StoringGoesOn(ttl: nat, s: State, l: Label, client: Client)
    requires Inv(ttl, s) && IsStoring(s, client) && l != Cancel(client) && Step(ttl, s, l).latest == s.latest
    ensures IsStoring(Step(ttl, s, l), client) && Step(ttl, s, l).lookups[client] == s.lookups[client]
  {
    assert PhaseOk(ttl, s, s.lookups[client]);
  }

  /** In every run a key that the latest fetch received is refused only after a lookup was cancelled
      between receiving that set and storing it; without such a cancellation the promise holds. */
  lemma {:induction false} RefusalNeedsACancelledStore(ttl: nat, labels: seq<Label>, n: nat)
    requires n < |Run(ttl, labels).log| && Run(ttl, labels).log[n].Throttled?
    requires var e := Run(ttl, labels).log[n]; e.latest.received.Some? && e.key in e.latest.received.value
    ensures StoringCancelled(ttl, labels, Run(ttl, labels).log[n].latest.received.value)
  {
    var m := |labels| - 1;
    var s, l := Run(ttl, labels[..m]), labels[m];
    var keys := Run(ttl, labels).log[n].latest.received.value;
    RunInv(ttl, labels[..m]);
    if n < |s.log| {
      assert Run(ttl, labels).log[n] == s.log[n];
      RefusalNeedsACancelledStore(ttl, labels[..m], n);
    } else {
      RefusingStep(ttl, s, l);
      ReceivedIsAccountedFor(ttl, labels[..m]);
      assert forall c :: !IsStoring(s, c);
    }
    CancelledBefore(ttl, labels, m, keys);
  }

  /** A step that refuses a lookup of a received key leaves the set unstored and finds nobody storing. */
  lemma RefusingStep(ttl: nat, s: State, l: Label)
    requires Inv(ttl, s) && |Step(ttl, s, l).log| > |s.log| && Step(ttl, s, l).log[|s.log|].Throttled?
    ensures var e := Step(ttl, s, l).log[|s.log|];
      && Some(e.latest) == s.latest && (forall c :: !IsStoring(s, c))
      && (e.latest.stored.Some? ==> e.latest.received.Some? && e.key !in e.latest.received.value)
  {
    assert l.StartFetch? && l.client in s.lookups && s.lookups[l.client].Missed?;
    assert PhaseOk(ttl, s, s.lookups[l.client]);
    assert forall c | IsStoring(s, c) :: UnderLock(s.lookups[c]);
  }
}
