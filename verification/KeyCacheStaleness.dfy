/** When a received key is refused, and when a served key is stale: runs that show it, and the exact conditions. */
module KeyCacheStaleness {
  import opened Json
  import opened KeyCache

  lemma RunAppended(ttl: nat, labels: seq<Label>, l: Label)
    ensures Run(ttl, labels + [l]) == Step(ttl, Run(ttl, labels), l)
  {
    assert (labels + [l])[..|labels|] == labels;
  }

  /** A first lookup that has received its key and not yet stored the set. */
  function Received(key: KeyId): seq<Label> {
    [Look(0, key), CheckCache(0), Lock(0), CheckCache(0), StartFetch(0), FetchCompletes(0, map[key := 7])]
  }

  lemma ReceivedState(ttl: nat, key: KeyId)
    ensures Run(ttl, Received(key)) ==
      State(0, None, Some(Interval(ttl)), Some(0), map[0 := Storing(key, Cached(map[key := 7], 0))],
            Some(Fetch(0, Some(map[key := 7]), None)), [Started(0)])
  {
    var labels := Received(key);
    assert labels[..0] == [];
    RunAppended(ttl, [], labels[0]);
    RunAppended(ttl, labels[..1], labels[1]);
    RunAppended(ttl, labels[..2], labels[2]);
    RunAppended(ttl, labels[..3], labels[3]);
    RunAppended(ttl, labels[..4], labels[4]);
    RunAppended(ttl, labels[..5], labels[5]);
    assert forall n | 0 <= n < 6 :: labels[..n + 1] == labels[..n] + [labels[n]];
    assert labels[..6] == labels;
  }

  /** Receiving a set is not enough: the latest fetch received the key, and yet the next lookup is
      refused, because the fetching lookup went away before storing the set. */
  lemma ReceivedKeyCanBeRefused(ttl: nat, key: KeyId)
    requires 0 < ttl
    ensures var s := Run(ttl, Received(key) + [Cancel(0)]);
      && s.latest == Some(Fetch(0, Some(map[key := 7]), None))
      && EndsRefused(Lookup(ttl, s, 1, key))
  {
    ReceivedState(ttl, key);
    RunAppended(ttl, Received(key), Cancel(0));
    LookupOutcome(ttl, Received(key) + [Cancel(0)], 1, key);
  }

  /** The lifetime does not bound the key of a lookup's own fetch: when storing the set took that long,
      the key is served although the set is no longer fresh. */
  lemma OwnKeyCanBeStale(ttl: nat, key: KeyId)
    ensures Run(ttl, Received(key) + [Tick(ttl)] + [Store(0)]).log ==
      [Started(0), Served(key, 7, ttl, Cached(map[key := 7], 0), true)]
  {
    ReceivedState(ttl, key);
    RunAppended(ttl, Received(key), Tick(ttl));
    RunAppended(ttl, Received(key) + [Tick(ttl)], Store(0));
  }

  /** The time that passes in a run. */
  function Ticks(labels: seq<Label>): nat {
    if labels == [] then 0 else
    var last := labels[|labels| - 1];
    Ticks(labels[..|labels| - 1]) + if last.Tick? then last.elapsed else 0
  }

  /** The lookup is not cancelled and does not store; while it stores, nothing else touches it. */
  predicate LeftStoring(labels: seq<Label>, client: Client) { Cancel(client) !in labels && Store(client) !in labels }

  lemma {:induction false} TimePasses(ttl: nat, before: seq<Label>, between: seq<Label>)
    ensures Run(ttl, before + between).now == Run(ttl, before).now + Ticks(between)
    decreases |between|
  {
    if between == [] {
      assert before + [] == before;
    } else {
      var front, last := between[..|between| - 1], between[|between| - 1];
      TimePasses(ttl, before, front);
      assert before + between == (before + front) + [last];
      RunAppended(ttl, before + front, last);
    }
  }

  lemma {:induction false} StoringStays(ttl: nat, before: seq<Label>, between: seq<Label>, client: Client)
    requires IsStoring(Run(ttl, before), client) && LeftStoring(between, client)
    ensures IsStoring(Run(ttl, before + between), client)
    ensures Run(ttl, before + between).lookups[client] == Run(ttl, before).lookups[client]
    decreases |between|
  {
    if between == [] {
      assert before + [] == before;
    } else {
      var front, last := between[..|between| - 1], between[|between| - 1];
      assert between == front + [last];
      StoringStays(ttl, before, front, client);
      assert before + between == (before + front) + [last];
      RunAppended(ttl, before + front, last);
      StepLeavesStoring(ttl, Run(ttl, before + front), last, client);
    }
  }

  lemma StepLeavesStoring(ttl: nat, s: State, l: Label, client: Client)
    requires IsStoring(s, client) && l != Cancel(client) && l != Store(client)
    ensures IsStoring(Step(ttl, s, l), client) && Step(ttl, s, l).lookups[client] == s.lookups[client]
  {}

  /** The key a lookup has fetched itself is served out of a stale set exactly when at least the cache
      lifetime passes between the completion of its fetch and its storing. */
  lemma OwnKeyIsStaleExactlyWhenStoredLate(ttl: nat, before: seq<Label>, between: seq<Label>, client: Client,
                                           keys: KeySet, key: KeyId)
    requires client in Run(ttl, before).lookups && Run(ttl, before).lookups[client] == Fetching(key) && key in keys
    requires LeftStoring(between, client)
    ensures var t := Run(ttl, before).now;
      var run := Run(ttl, before + [FetchCompletes(client, keys)] + between + [Store(client)]);
      && run.log != []
      && run.log[|run.log| - 1] == Served(key, keys[key], t + Ticks(between), Cached(keys, t), true)
      && (run.log[|run.log| - 1].at >= t + ttl <==> Ticks(between) >= ttl)
  {
    var completed := before + [FetchCompletes(client, keys)];
    RunAppended(ttl, before, FetchCompletes(client, keys));
    StoringStays(ttl, completed, between, client);
    TimePasses(ttl, completed, between);
    RunAppended(ttl, completed + between, Store(client));
  }

  /** The lookup completed its fetch at label `n` and has been storing ever since. */
  predicate CompletedAt(ttl: nat, labels: seq<Label>, n: nat, client: Client, fetched: Cached)
    requires n < |labels|
  {
    && labels[n] == FetchCompletes(client, fetched.keys) && fetched.fetchedAt == Run(ttl, labels[..n]).now
    && LeftStoring(labels[n + 1..], client)
  }

  lemma CompletedStill(ttl: nat, labels: seq<Label>, n: nat, client: Client, fetched: Cached)
    requires n < |labels| - 1 && CompletedAt(ttl, labels[..|labels| - 1], n, client, fetched)
    requires labels[|labels| - 1] != Cancel(client) && labels[|labels| - 1] != Store(client)
    ensures CompletedAt(ttl, labels, n, client, fetched)
  {
    var m := |labels| - 1;
    assert labels[..m][..n] == labels[..n] && labels[n + 1..] == labels[..m][n + 1..] + [labels[m]];
  }

  lemma {:induction false} StoringSinceCompletion(ttl: nat, labels: seq<Label>, client: Client) returns (n: nat)
    requires IsStoring(Run(ttl, labels), client)
    ensures n < |labels| && CompletedAt(ttl, labels, n, client, Run(ttl, labels).lookups[client].fetched)
    decreases |labels|
  {
    var m := |labels| - 1;
    var s, l := Run(ttl, labels[..m]), labels[m];
    if IsStoring(s, client) {
      n := StoringSinceCompletion(ttl, labels[..m], client);
      assert l != Cancel(client) && l != Store(client);
      CompletedStill(ttl, labels, n, client, s.lookups[client].fetched);
    } else {
      n := m;
      assert labels[m + 1..] == [];
    }
  }

  /** The event serves what a lookup completed at label `j` and stored at label `k`. */
  predicate StoredAt(ttl: nat, labels: seq<Label>, j: nat, k: nat, e: Event)
    requires j < k < |labels| && e.Served?
  {
    && labels[k].Store? && e.at == Run(ttl, labels[..k]).now
    && CompletedAt(ttl, labels[..k], j, labels[k].client, e.from)
  }

  lemma StoredAtTakesTicks(ttl: nat, labels: seq<Label>, j: nat, k: nat, e: Event)
    requires j < k < |labels| && e.Served? && StoredAt(ttl, labels, j, k, e)
    ensures e.at == e.from.fetchedAt + Ticks(labels[j + 1..k])
  {
    assert labels[..k][..j] == labels[..j];
    assert labels[..k] == labels[..j] + [labels[j]] + labels[j + 1..k];
    TimePasses(ttl, labels[..j] + [labels[j]], labels[j + 1..k]);
    RunAppended(ttl, labels[..j], labels[j]);
  }

  lemma {:induction false} OwnKeysAreStored(ttl: nat, labels: seq<Label>, n: nat) returns (j: nat, k: nat)
    requires n < |Run(ttl, labels).log| && Run(ttl, labels).log[n].Served? && Run(ttl, labels).log[n].own
    ensures j < k < |labels| && StoredAt(ttl, labels, j, k, Run(ttl, labels).log[n])
  {
    var m := |labels| - 1;
    var s, l := Run(ttl, labels[..m]), labels[m];
    var e := Run(ttl, labels).log[n];
    if n < |s.log| {
      assert s.log[n] == e;
      j, k := OwnKeysAreStored(ttl, labels[..m], n);
      assert labels[..m][..k] == labels[..k];
    } else {
      assert l.Store? && IsStoring(s, l.client);
      j := StoringSinceCompletion(ttl, labels[..m], l.client);
      k := m;
    }
  }

  /** In every run a key is served out of a stale set exactly when it was stored by the lookup that
      fetched it, and at least the cache lifetime passed from the completion of the fetch to the storing. */
  lemma ServedStaleExactlyWhenStoredLate(ttl: nat, labels: seq<Label>, n: nat)
    requires n < |Run(ttl, labels).log| && Run(ttl, labels).log[n].Served?
    ensures var e := Run(ttl, labels).log[n];
      e.at >= e.from.fetchedAt + ttl <==>
        exists j, k :: 0 <= j < k < |labels| && StoredAt(ttl, labels, j, k, e) && Ticks(labels[j + 1..k]) >= ttl
  {
    var e := Run(ttl, labels).log[n];
    forall j, k | 0 <= j < k < |labels| && StoredAt(ttl, labels, j, k, e)
      ensures e.at == e.from.fetchedAt + Ticks(labels[j + 1..k])
    {
      StoredAtTakesTicks(ttl, labels, j, k, e);
    }
    ServedKeysAreFresh(ttl, labels, n);
    if e.own { var j, k := OwnKeysAreStored(ttl, labels, n); }
  }
}
