/** What every operation on the transfer registry keeps, and what follows for whole runs. */
module TransferInvariant {
  import opened Json
  import opened Transfers

  // ---- the invariant

  /** An entry without bytes waits for its upload; one with bytes has no grant or a download grant. */
  predicate Coherent(e: Entry) {
    if e.bytes.None? then e.uploaded && e.grant.Some? && e.grant.value.direction == Upload
    else && (e.grant.Some? ==> e.grant.value.direction == Download)
         && |e.bytes.value| <= (if e.uploaded then MAX_UPLOAD_BYTES else MAX_DOWNLOAD_BYTES)
  }

  /** The entry that the history of an identifier leads to. */
  function EntryOf(p: Past): Entry
    requires p.created.Some?
  {
    var c := p.created.value;
    var grant := if p.issued.None? then None
                 else Some(Grant(p.issued.value.hash, p.issued.value.at + GRANT_TTL, p.issued.value.direction));
    Entry(c.owner, p.bytes, c.digest, c.size, c.at + FILE_TTL, grant, c.uploaded)
  }

  predicate Linked(e: Entry, p: Past) { p.created.Some? && e == EntryOf(p) }

  predicate Holds(entries: map<Id, Entry>, id: Id) { id in entries && entries[id].bytes.Some? }

  predicate Awaits(entries: map<Id, Entry>, id: Id) { id in entries && entries[id].bytes.None? }

  /** Every delivery used up a fill, and every fill a creation. */
  predicate Accounted(entries: map<Id, Entry>, id: Id, p: Past) {
    && p.deliveries + (if Holds(entries, id) then 1 else 0) <= p.fills
    && p.fills + (if Awaits(entries, id) then 1 else 0) <= p.creations
  }

  /** Permits are free, under stored bytes, or under bytes of a download in progress. */
  ghost predicate Conserved(w: World) {
    0 <= w.available && w.available + Stored(w.entries) + InFlight(w.flights) == MAX_STORED_BYTES
  }

  /** The entries are what the history says. */
  ghost predicate Tracked(entries: map<Id, Entry>, log: seq<Event>) {
    && (forall id | id in entries :: Coherent(entries[id]) && Linked(entries[id], PastOf(log, id)))
    && (forall id :: Accounted(entries, id, PastOf(log, id)))
  }

  ghost predicate Inv(sha: Bytes -> Digest, w: World) {
    Conserved(w) && |w.entries| <= MAX_ENTRIES && Tracked(w.entries, w.log) && AllJustified(sha, w.log)
  }

  function Initial(): World { World(map[], MAX_STORED_BYTES, map[], []) }

  lemma InitialInv(sha: Bytes -> Digest)
    ensures Inv(sha, Initial())
  {}

  // ---- appending to the history

  lemma PastOfAppended(log: seq<Event>, e: Event)
    ensures forall id ::
      PastOf(log + [e], id) == if id == e.id then After(PastOf(log, id), e) else PastOf(log, id)
  {
    assert (log + [e])[..|log|] == log;
  }

  lemma JustifiedAppended(sha: Bytes -> Digest, log: seq<Event>, e: Event)
    requires AllJustified(sha, log) && Justified(sha, PastOf(log, e.id), e)
    ensures AllJustified(sha, log + [e])
  {
    forall n | 0 <= n < |log| + 1
      ensures Justified(sha, PastOf((log + [e])[..n], (log + [e])[n].id), (log + [e])[n])
    {
      assert (log + [e])[..n] == log[..n];
    }
  }

  // ---- dropping entries

  lemma {:induction false} StoredOfSome(entries: map<Id, Entry>, kept: map<Id, Entry>)
    requires kept.Keys <= entries.Keys && forall id | id in kept :: kept[id] == entries[id]
    ensures Stored(kept) <= Stored(entries) && |kept| <= |entries|
    decreases |entries|
  {
    if kept.Keys == entries.Keys {
      assert kept == entries;
    } else {
      var id :| id in entries && id !in kept;
      StoredWithout(entries, id);
      StoredOfSome(entries - {id}, kept);
    }
  }

  lemma KeepKeepsInv(sha: Bytes -> Digest, w: World, kept: map<Id, Entry>)
    requires Inv(sha, w) && kept.Keys <= w.entries.Keys && forall id | id in kept :: kept[id] == w.entries[id]
    ensures Inv(sha, Keep(w, kept))
  {
    StoredOfSome(w.entries, kept);
    forall id ensures Accounted(kept, id, PastOf(w.log, id)) {
      assert Accounted(w.entries, id, PastOf(w.log, id));
    }
  }

  lemma PrunedKeepsInv(sha: Bytes -> Digest, w: World, now: nat)
    requires Inv(sha, w)
    ensures Inv(sha, Pruned(w, now)) && Unexpired(Pruned(w, now), now)
    ensures Pruned(w, now).flights == w.flights
  {
    KeepKeepsInv(sha, w, Live(w.entries, now));
  }

  // ---- changing one entry

  ghost predicate OthersKept(before: map<Id, Entry>, after: map<Id, Entry>, changed: Id) {
    forall id :: id != changed ==> (id in after <==> id in before) && (id in after ==> after[id] == before[id])
  }

  /** One event changes at most the entry of its own identifier. */
  lemma EventKeepsInv(sha: Bytes -> Digest, w: World, e: Event, entries: map<Id, Entry>, available: int,
                      flights: map<nat, Bytes>)
    requires Inv(sha, w) && Justified(sha, PastOf(w.log, e.id), e)
    requires OthersKept(w.entries, entries, e.id)
    requires e.id in entries ==> Coherent(entries[e.id]) && Linked(entries[e.id], After(PastOf(w.log, e.id), e))
    requires Accounted(entries, e.id, After(PastOf(w.log, e.id), e))
    requires |entries| <= MAX_ENTRIES
    requires Conserved(World(entries, available, flights, w.log))
    ensures Inv(sha, World(entries, available, flights, w.log + [e]))
  {
    EventTracked(w, e, entries);
    JustifiedAppended(sha, w.log, e);
  }

  lemma EventTracked(w: World, e: Event, entries: map<Id, Entry>)
    requires Tracked(w.entries, w.log)
    requires OthersKept(w.entries, entries, e.id)
    requires e.id in entries ==> Coherent(entries[e.id]) && Linked(entries[e.id], After(PastOf(w.log, e.id), e))
    requires Accounted(entries, e.id, After(PastOf(w.log, e.id), e))
    ensures Tracked(entries, w.log + [e])
  {
    PastOfAppended(w.log, e);
    forall id ensures Accounted(entries, id, PastOf(w.log + [e], id)) {
      assert Accounted(w.entries, id, PastOf(w.log, id));
    }
  }

  /** A creation is recorded just before its entry appears. */
  lemma CreationKeepsInv(sha: Bytes -> Digest, p: World, first: Event)
    requires Inv(sha, p) && first.Created? && first.id !in p.entries
    ensures Inv(sha, p.(log := p.log + [first]))
    ensures var past := PastOf(p.log + [first], first.id);
      past.created == Some(Creation(first.owner, first.uploaded, first.size, first.digest, first.at)) &&
      past.bytes == None && past.deliveries <= past.fills < past.creations
  {
    assert Accounted(p.entries, first.id, PastOf(p.log, first.id));
    PastOfAppended(p.log, first);
    EventKeepsInv(sha, p, first, p.entries, p.available, p.flights);
  }

  /** The entry appears together with the event after its creation. */
  lemma EntryAppears(sha: Bytes -> Digest, mid: World, second: Event, e: Entry)
    requires Inv(sha, mid) && |mid.entries| < MAX_ENTRIES && second.id !in mid.entries
    requires Justified(sha, PastOf(mid.log, second.id), second)
    requires Coherent(e) && Linked(e, After(PastOf(mid.log, second.id), second))
    requires Accounted(mid.entries[second.id := e], second.id, After(PastOf(mid.log, second.id), second))
    requires SizeOf(e) <= mid.available
    ensures Inv(sha, World(mid.entries[second.id := e], mid.available - SizeOf(e), mid.flights, mid.log + [second]))
  {
    StoredWith(mid.entries, second.id, e);
    EventKeepsInv(sha, mid, second, mid.entries[second.id := e], mid.available - SizeOf(e), mid.flights);
  }

  lemma AuthorizedUploadKeepsInv(sha: Bytes -> Digest, p: World, id: Id, e: Entry, issuedAt: nat, createdAt: nat)
    requires Inv(sha, p) && |p.entries| < MAX_ENTRIES && id !in p.entries
    requires e.bytes.None? && e.uploaded && e.expires == createdAt + FILE_TTL
    requires e.grant.Some? && e.grant.value.direction == Upload && e.grant.value.expires == issuedAt + GRANT_TTL
    ensures Inv(sha, p.(entries := p.entries[id := e],
      log := p.log + [Created(id, e.owner, true, e.expectedSize, e.expectedDigest, createdAt),
                      Issued(id, Upload, e.grant.value.hash, issuedAt)]))
  {
    var first := Created(id, e.owner, true, e.expectedSize, e.expectedDigest, createdAt);
    var second := Issued(id, Upload, e.grant.value.hash, issuedAt);
    CreationKeepsInv(sha, p, first);
    EntryAppears(sha, p.(log := p.log + [first]), second, e);
    assert p.log + [first] + [second] == p.log + [first, second];
  }

  lemma PublishedKeepsInv(sha: Bytes -> Digest, p: World, id: Id, e: Entry, createdAt: nat)
    requires Inv(sha, p) && |p.entries| < MAX_ENTRIES && id !in p.entries
    requires e.bytes.Some? && !e.uploaded && e.grant.None? && e.expires == createdAt + FILE_TTL
    requires e.expectedSize.None? && e.expectedDigest.None?
    requires |e.bytes.value| <= MAX_DOWNLOAD_BYTES && |e.bytes.value| <= p.available
    ensures Inv(sha, p.(entries := p.entries[id := e], available := p.available - |e.bytes.value|,
      log := p.log + [Created(id, e.owner, false, None, None, createdAt), Filled(id, e.bytes.value)]))
  {
    var first := Created(id, e.owner, false, None, None, createdAt);
    var second := Filled(id, e.bytes.value);
    CreationKeepsInv(sha, p, first);
    EntryAppears(sha, p.(log := p.log + [first]), second, e);
    assert p.log + [first] + [second] == p.log + [first, second];
  }

  /** A changed entry replaces the one the identifier had. */
  lemma ChangedKeepsInv(sha: Bytes -> Digest, p: World, e: Event, entry: Entry)
    requires Inv(sha, p) && e.id in p.entries && Justified(sha, PastOf(p.log, e.id), e)
    requires Coherent(entry) && Linked(entry, After(PastOf(p.log, e.id), e))
    requires Accounted(p.entries[e.id := entry], e.id, After(PastOf(p.log, e.id), e))
    requires SizeOf(entry) - SizeOf(p.entries[e.id]) <= p.available
    ensures Inv(sha, p.(entries := p.entries[e.id := entry],
                        available := p.available - (SizeOf(entry) - SizeOf(p.entries[e.id])), log := p.log + [e]))
  {
    ReplacedConserves(p, e.id, entry);
    EventKeepsInv(sha, p, e, p.entries[e.id := entry],
                  p.available - (SizeOf(entry) - SizeOf(p.entries[e.id])), p.flights);
  }

  lemma ReplacedConserves(p: World, id: Id, entry: Entry)
    requires Conserved(p) && id in p.entries && SizeOf(entry) - SizeOf(p.entries[id]) <= p.available
    ensures var entries := p.entries[id := entry];
      && |entries| == |p.entries|
      && Conserved(World(entries, p.available - (SizeOf(entry) - SizeOf(p.entries[id])), p.flights, p.log))
  {
    StoredWith(p.entries, id, entry);
    assert p.entries[id := entry].Keys == p.entries.Keys;
    assert |p.entries[id := entry]| == |p.entries[id := entry].Keys|;
  }

  /** Delivered bytes leave the registry; their permits are released or travel with a download body. */
  lemma DeliveredKeepsInv(sha: Bytes -> Digest, p: World, e: Event, available: int, flights: map<nat, Bytes>)
    requires Inv(sha, p) && Holds(p.entries, e.id) && (e.Taken? || e.Downloaded?)
    requires Justified(sha, PastOf(p.log, e.id), e)
    requires p.available <= available
    requires available + InFlight(flights) == p.available + InFlight(p.flights) + SizeOf(p.entries[e.id])
    ensures Inv(sha, World(p.entries - {e.id}, available, flights, p.log + [e]))
  {
    assert Accounted(p.entries, e.id, PastOf(p.log, e.id));
    StoredWithout(p.entries, e.id);
    StoredOfSome(p.entries, p.entries - {e.id});
    EventKeepsInv(sha, p, e, p.entries - {e.id}, available, flights);
  }

  // ---- every operation

  /** Download bodies are numbered with numbers not in use. */
  predicate Numbered(w: World, c: Call) { c.GetBytes? ==> c.flight !in w.flights }

  lemma UploadAuthorizedKeepsInv(sha: Bytes -> Digest, p: World, c: Call)
    requires Inv(sha, p) && c.AuthorizeUpload? && c.drawn.Some?
    ensures Inv(sha, UploadAuthorized(sha, p, c).0)
  {
    if UploadAuthorized(sha, p, c).1.Done? {
      var grant := Grant(sha(c.token), c.issuedAt + GRANT_TTL, Upload);
      var e := Entry(c.owner, None, DigestOf(c.digest), c.size, c.createdAt + FILE_TTL, Some(grant), true);
      var w := p.(entries := p.entries[c.drawn.value := e],
        log := p.log + [Created(c.drawn.value, e.owner, true, e.expectedSize, e.expectedDigest, c.createdAt),
                        Issued(c.drawn.value, Upload, e.grant.value.hash, c.issuedAt)]);
      assert w == UploadAuthorized(sha, p, c).0;
      assert Inv(sha, w) by { AuthorizedUploadKeepsInv(sha, p, c.drawn.value, e, c.issuedAt, c.createdAt); }
    }
  }

  /** A new grant replaces the grant of a stored file. */
  lemma RegrantKeepsInv(sha: Bytes -> Digest, p: World, id: Id, hash: Digest, at: nat)
    requires Inv(sha, p) && Holds(p.entries, id)
    ensures Inv(sha, p.(
      entries := p.entries[id := p.entries[id].(grant := Some(Grant(hash, at + GRANT_TTL, Download)))],
      log := p.log + [Issued(id, Download, hash, at)]))
  {
    assert Accounted(p.entries, id, PastOf(p.log, id));
    var e := p.entries[id].(grant := Some(Grant(hash, at + GRANT_TTL, Download)));
    ChangedKeepsInv(sha, p, Issued(id, Download, hash, at), e);
    assert p.available - (SizeOf(e) - SizeOf(p.entries[id])) == p.available;
  }

  lemma DownloadAuthorizedKeepsInv(sha: Bytes -> Digest, p: World, c: Call)
    requires Inv(sha, p) && c.AuthorizeDownload? && c.named.Some?
    ensures Inv(sha, DownloadAuthorized(sha, p, c).0)
  {
    if DownloadAuthorized(sha, p, c).1.Done? {
      RegrantKeepsInv(sha, p, c.named.value, sha(c.token), c.issuedAt);
    }
  }

  predicate Unexpired(p: World, now: nat) {
    forall id | id in p.entries :: p.entries[id].expires > now
  }

  lemma BytesPutKeepsInv(sha: Bytes -> Digest, p: World, c: Call)
    requires Inv(sha, p) && c.PutBytes? && Unexpired(p, c.prunedAt)
    ensures Inv(sha, BytesPut(sha, p, c).0)
  {
    if BytesPut(sha, p, c).1.Done? {
      assert Accounted(p.entries, c.id, PastOf(p.log, c.id));
      ChangedKeepsInv(sha, p, Completed(c.id, c.token, c.bytes, c.prunedAt, c.checkedAt),
                      p.entries[c.id].(bytes := Some(c.bytes), grant := None));
    }
  }

  lemma BytesGotKeepsInv(sha: Bytes -> Digest, p: World, c: Call)
    requires Inv(sha, p) && c.GetBytes? && c.flight !in p.flights && Unexpired(p, c.prunedAt)
    ensures Inv(sha, BytesGot(sha, p, c).0)
  {
    if BytesGot(sha, p, c).1.Delivered? {
      var bytes := p.entries[c.id].bytes.value;
      InFlightWith(p.flights, c.flight, bytes);
      DeliveredKeepsInv(sha, p, Downloaded(c.id, c.token, bytes, c.prunedAt, c.checkedAt),
                        p.available, p.flights[c.flight := bytes]);
    }
  }

  lemma PublishKeepsInv(sha: Bytes -> Digest, p: World, c: Call)
    requires Inv(sha, p) && c.Publish? && c.drawn.Some? && |c.bytes| <= MAX_DOWNLOAD_BYTES
    ensures Inv(sha, Published(p, c).0)
  {
    if Published(p, c).1.Done? {
      var e := Entry(c.owner, Some(c.bytes), None, None, c.createdAt + FILE_TTL, None, false);
      PublishedKeepsInv(sha, p, c.drawn.value, e, c.createdAt);
    }
  }

  lemma BytesTakenKeepsInv(sha: Bytes -> Digest, p: World, c: Call)
    requires Inv(sha, p) && c.Take? && c.named.Some? && Unexpired(p, c.prunedAt)
    ensures Inv(sha, BytesTaken(p, c).0)
  {
    var id := c.named.value;
    if BytesTaken(p, c).1.Delivered? {
      StoredWithout(p.entries, id);
      DeliveredKeepsInv(sha, p, Taken(id, c.owner, p.entries[id].bytes.value, c.prunedAt),
                        p.available + SizeOf(p.entries[id]), p.flights);
    }
  }

  /** The registry invariant survives every operation, whatever its clock readings and its outcome. */
  lemma ApplyKeepsInv(sha: Bytes -> Digest, w: World, c: Call)
    requires Inv(sha, w) && Numbered(w, c)
    ensures Inv(sha, Apply(sha, w, c).0)
  {
    if !RefusedOutright(c) {
      match c
      case AuthorizeUpload(_, _, _, _, _, _, _, prunedAt, _) =>
        PrunedKeepsInv(sha, w, prunedAt);
        UploadAuthorizedKeepsInv(sha, Pruned(w, prunedAt), c);
      case AuthorizeDownload(_, _, _, _, prunedAt) =>
        PrunedKeepsInv(sha, w, prunedAt);
        DownloadAuthorizedKeepsInv(sha, Pruned(w, prunedAt), c);
      case PutBytes(_, _, _, prunedAt, _) =>
        PrunedKeepsInv(sha, w, prunedAt);
        BytesPutKeepsInv(sha, Pruned(w, prunedAt), c);
      case GetBytes(_, _, prunedAt, _, _) =>
        PrunedKeepsInv(sha, w, prunedAt);
        BytesGotKeepsInv(sha, Pruned(w, prunedAt), c);
      case Publish(_, _, _, prunedAt, _) =>
        PrunedKeepsInv(sha, w, prunedAt);
        PublishKeepsInv(sha, Pruned(w, prunedAt), c);
      case Take(_, _, prunedAt) =>
        PrunedKeepsInv(sha, w, prunedAt);
        BytesTakenKeepsInv(sha, Pruned(w, prunedAt), c);
      case Expire(prunedAt) => PrunedKeepsInv(sha, w, prunedAt);
      case Shutdown => KeepKeepsInv(sha, w, map[]);
      case DropBody(flight) => if flight in w.flights { InFlightWithout(w.flights, flight); }
    }
  }

  // ---- whole runs

  /** A fresh registry after one operation after another. */
  ghost function Run(sha: Bytes -> Digest, calls: seq<Call>): World {
    if calls == [] then Initial() else Apply(sha, Run(sha, calls[..|calls| - 1]), calls[|calls| - 1]).0
  }

  ghost predicate AllNumbered(sha: Bytes -> Digest, calls: seq<Call>) {
    forall n | 0 <= n < |calls| :: Numbered(Run(sha, calls[..n]), calls[n])
  }

  lemma {:induction false} RunInv(sha: Bytes -> Digest, calls: seq<Call>)
    requires AllNumbered(sha, calls)
    ensures Inv(sha, Run(sha, calls))
    decreases |calls|
  {
    if calls != [] {
      var front := calls[..|calls| - 1];
      assert forall n | 0 <= n < |front| :: front[..n] == calls[..n];
      assert Numbered(Run(sha, calls[..|calls| - 1]), calls[|calls| - 1]);
      RunInv(sha, front);
      ApplyKeepsInv(sha, Run(sha, front), calls[|calls| - 1]);
    }
  }

  /** No run loses or invents byte capacity, and no run holds more than 64 files. */
  lemma CapacityIsConserved(sha: Bytes -> Digest, calls: seq<Call>)
    requires AllNumbered(sha, calls)
    ensures var w := Run(sha, calls);
      && 0 <= w.available && w.available + Stored(w.entries) + InFlight(w.flights) == 16 * 1024 * 1024
      && |w.entries| <= 64
  {
    RunInv(sha, calls);
  }

  ghost predicate IsDelivery(e: Event) { e.Taken? || e.Downloaded? }

  lemma {:induction false} CountsGrow(log: seq<Event>, n: nat, id: Id)
    requires n <= |log|
    ensures PastOf(log[..n], id).deliveries <= PastOf(log, id).deliveries
    ensures PastOf(log[..n], id).creations <= PastOf(log, id).creations
    decreases |log|
  {
    if n < |log| {
      CountsGrow(log[..|log| - 1], n, id);
      assert log[..|log| - 1][..n] == log[..n];
    } else {
      assert log[..n] == log;
    }
  }

  lemma DeliveryCounts(log: seq<Event>, n: nat)
    requires n < |log| && IsDelivery(log[n])
    ensures PastOf(log[..n + 1], log[n].id).deliveries == PastOf(log[..n], log[n].id).deliveries + 1
  {
    assert log[..n + 1][..n] == log[..n];
  }

  lemma OneDelivery(log: seq<Event>, m: nat)
    requires m < |log| && IsDelivery(log[m])
    ensures PastOf(log[..m], log[m].id).deliveries < PastOf(log, log[m].id).deliveries
  {
    DeliveryCounts(log, m);
    CountsGrow(log, m + 1, log[m].id);
  }

  lemma TwoDeliveries(log: seq<Event>, m: nat, n: nat)
    requires m < n < |log| && IsDelivery(log[m]) && IsDelivery(log[n]) && log[m].id == log[n].id
    ensures PastOf(log, log[m].id).deliveries >= 2
  {
    OneDelivery(log, n);
    assert log[..n][m] == log[m] && log[..n][..m] == log[..m];
    OneDelivery(log[..n], m);
  }

  lemma AccountedInv(sha: Bytes -> Digest, w: World, id: Id)
    requires Inv(sha, w)
    ensures PastOf(w.log, id).deliveries <= PastOf(w.log, id).fills <= PastOf(w.log, id).creations
  {
    assert Accounted(w.entries, id, PastOf(w.log, id));
  }

  /** The bytes of a file leave the registry at most once for each time its identifier was drawn, by a
      `take` or by a download: two deliveries mean the identifier was created twice. */
  lemma DeliveredAtMostOnce(sha: Bytes -> Digest, calls: seq<Call>, m: nat, n: nat)
    requires AllNumbered(sha, calls)
    requires var log := Run(sha, calls).log;
      m < n < |log| && IsDelivery(log[m]) && IsDelivery(log[n]) && log[m].id == log[n].id
    ensures PastOf(Run(sha, calls).log, Run(sha, calls).log[m].id).creations >= 2
  {
    RunInv(sha, calls);
    TwoDeliveries(Run(sha, calls).log, m, n);
    AccountedInv(sha, Run(sha, calls), Run(sha, calls).log[m].id);
  }

  /** Whatever is delivered was justified by the history before it: the exact bytes published or
      uploaded, to the owner or the holder of the latest grant, within both lifetimes. */
  lemma DeliveriesAreJustified(sha: Bytes -> Digest, calls: seq<Call>, n: nat)
    requires AllNumbered(sha, calls) && n < |Run(sha, calls).log|
    ensures var log := Run(sha, calls).log;
      var past := PastOf(log[..n], log[n].id);
      match log[n]
      case Taken(_, owner, bytes, prunedAt) =>
        && past.bytes == Some(bytes) && past.created.Some?
        && past.created.value.owner == owner && past.created.value.uploaded
        && Matches(sha, past.created.value.size, past.created.value.digest, bytes)
        && prunedAt < past.created.value.at + FILE_TTL
      case Downloaded(_, token, bytes, prunedAt, checkedAt) =>
        past.bytes == Some(bytes) && Opens(sha, past, token, Download, prunedAt, checkedAt)
      case Completed(_, token, bytes, prunedAt, checkedAt) =>
        past.bytes == None && Opens(sha, past, token, Upload, prunedAt, checkedAt)
      case _ => true
  {
    RunInv(sha, calls);
    var w := Run(sha, calls);
    assert forall l | 0 <= l < n :: w.log[..n][..l] == w.log[..l];
    assert AllJustified(sha, w.log[..n]);
    UploadsMatched(sha, w.log[..n], w.log[n].id);
  }

  /** The bytes of an uploaded file match what its creator declared. */
  lemma {:induction false} UploadsMatched(sha: Bytes -> Digest, log: seq<Event>, id: Id)
    requires AllJustified(sha, log)
    ensures var past := PastOf(log, id);
      past.created.Some? && past.created.value.uploaded && past.bytes.Some? ==>
        Matches(sha, past.created.value.size, past.created.value.digest, past.bytes.value)
    decreases |log|
  {
    if log != [] {
      var rest := log[..|log| - 1];
      assert forall l | 0 <= l < |rest| :: rest[..l] == log[..l];
      assert Justified(sha, PastOf(log[..|log| - 1], log[|log| - 1].id), log[|log| - 1]);
      UploadsMatched(sha, rest, id);
    }
  }

  /** Letting a token through is exact: it is the token of the latest grant of its direction within both
      lifetimes, and at the same instants a download would deliver and an upload that fits would store. */
  lemma AdmissionIsExact(sha: Bytes -> Digest, calls: seq<Call>, id: Id, token: Bytes, bytes: Bytes,
                         prunedAt: nat, checkedAt: nat, flight: nat)
    requires AllNumbered(sha, calls)
    ensures var w := Run(sha, calls);
      var p := Pruned(w, prunedAt);
      && (Admits(sha, p.entries, id, token, Download, checkedAt) <==>
            Apply(sha, w, GetBytes(id, token, prunedAt, checkedAt, flight)).1.Delivered?)
      && (Admits(sha, p.entries, id, token, Download, checkedAt) ==>
            Opens(sha, PastOf(w.log, id), token, Download, prunedAt, checkedAt))
      && (Admits(sha, p.entries, id, token, Upload, checkedAt) && |bytes| <= MAX_UPLOAD_BYTES && |bytes| <= p.available
          && Matches(sha, p.entries[id].expectedSize, p.entries[id].expectedDigest, bytes) <==>
            Apply(sha, w, PutBytes(id, token, bytes, prunedAt, checkedAt)).1.Done?)
      && (Admits(sha, p.entries, id, token, Upload, checkedAt) ==>
            Opens(sha, PastOf(w.log, id), token, Upload, prunedAt, checkedAt))
  {
    RunInv(sha, calls);
    var w := Run(sha, calls);
    PrunedKeepsInv(sha, w, prunedAt);
    var p := Pruned(w, prunedAt);
    assert id in p.entries ==> Linked(p.entries[id], PastOf(p.log, id));
  }

  // ---- what stays, and what happens once

  lemma PastAt(log: seq<Event>, n: nat, id: Id)
    requires n < |log|
    ensures PastOf(log[..n + 1], id) ==
      if log[n].id == id then After(PastOf(log[..n], id), log[n]) else PastOf(log[..n], id)
  {
    assert log[..n + 1] == log[..n] + [log[n]];
    PastOfAppended(log[..n], log[n]);
  }

  ghost predicate Recreated(log: seq<Event>, id: Id, m: nat, n: nat)
    requires n <= |log|
  {
    exists l :: m <= l < n && log[l].Created? && log[l].id == id
  }

  lemma NothingRefills(sha: Bytes -> Digest, p: Past, e: Event)
    requires Justified(sha, p, e) && p.bytes.Some? && !e.Created?
    ensures After(p, e).bytes == p.bytes
  {}

  lemma BytesSurvive(sha: Bytes -> Digest, log: seq<Event>, n: nat, id: Id)
    requires n < |log| && Justified(sha, PastOf(log[..n], log[n].id), log[n])
    requires PastOf(log[..n], id).bytes.Some? && !(log[n].Created? && log[n].id == id)
    ensures PastOf(log[..n + 1], id).bytes == PastOf(log[..n], id).bytes
  {
    PastAt(log, n, id);
    if log[n].id == id { NothingRefills(sha, PastOf(log[..n], id), log[n]); }
  }

  lemma JustifiedAt(sha: Bytes -> Digest, log: seq<Event>, n: nat)
    requires AllJustified(sha, log) && n < |log|
    ensures Justified(sha, PastOf(log[..n], log[n].id), log[n])
  {}

  lemma {:induction false} BytesStay(sha: Bytes -> Digest, log: seq<Event>, m: nat, n: nat)
    requires AllJustified(sha, log) && m < n <= |log| && (log[m].Completed? || log[m].Filled?)
    requires !Recreated(log, log[m].id, m + 1, n)
    ensures PastOf(log[..n], log[m].id).bytes == Some(log[m].bytes)
    decreases n
  {
    if n == m + 1 {
      PastAt(log, m, log[m].id);
    } else {
      BytesStay(sha, log, m, n - 1);
      JustifiedAt(sha, log, n - 1);
      BytesSurvive(sha, log, n - 1, log[m].id);
    }
  }

  /** From the moment a file is filled, by its upload or its publication, its bytes stay what they are
      until its identifier is drawn again; and those are the bytes a later delivery hands out. */
  lemma StoredBytesStay(sha: Bytes -> Digest, calls: seq<Call>, m: nat, n: nat)
    requires AllNumbered(sha, calls) && m < n <= |Run(sha, calls).log|
    requires Run(sha, calls).log[m].Completed? || Run(sha, calls).log[m].Filled?
    requires !Recreated(Run(sha, calls).log, Run(sha, calls).log[m].id, m + 1, n)
    ensures var log := Run(sha, calls).log;
      && PastOf(log[..n], log[m].id).bytes == Some(log[m].bytes)
      && (n < |log| && IsDelivery(log[n]) && log[n].id == log[m].id ==> log[n].bytes == log[m].bytes)
  {
    RunInv(sha, calls);
    var log := Run(sha, calls).log;
    BytesStay(sha, log, m, n);
    if n < |log| { assert Justified(sha, PastOf(log[..n], log[n].id), log[n]); }
  }

  /** The identifier a call draws for a new file. */
  function Drawn(c: Call): Option<Id> {
    if c.AuthorizeUpload? then c.drawn else if c.Publish? then c.drawn else None
  }

  ghost predicate DrawsDistinct(calls: seq<Call>) {
    forall j, k | 0 <= j < k < |calls| && Drawn(calls[j]).Some? :: Drawn(calls[j]) != Drawn(calls[k])
  }

  /** A call records at most two events, and creates only what it draws. */
  lemma ApplyRecords(sha: Bytes -> Digest, w: World, c: Call) returns (more: seq<Event>)
    ensures Apply(sha, w, c).0.log == w.log + more && |more| <= 2
    ensures |more| > 0 && more[0].Created? ==> Drawn(c) == Some(more[0].id)
    ensures |more| == 2 ==> !more[1].Created?
  {
    more := Apply(sha, w, c).0.log[|w.log|..];
  }

  lemma ApplyCreates(sha: Bytes -> Digest, w: World, c: Call, id: Id)
    ensures PastOf(Apply(sha, w, c).0.log, id).creations
      <= PastOf(w.log, id).creations + if Drawn(c) == Some(id) then 1 else 0
  {
    var more := ApplyRecords(sha, w, c);
    if |more| == 0 { assert w.log + more == w.log; }
    if |more| > 0 { PastOfAppended(w.log, more[0]); }
    if |more| == 1 { assert more == [more[0]]; }
    if |more| == 2 {
      PastOfAppended(w.log + [more[0]], more[1]);
      assert w.log + more == w.log + [more[0]] + [more[1]];
    }
  }

  lemma {:induction false} CreatedWhenDrawn(sha: Bytes -> Digest, calls: seq<Call>, id: Id)
    requires DrawsDistinct(calls)
    ensures PastOf(Run(sha, calls).log, id).creations <= 1
    ensures (forall k | 0 <= k < |calls| :: Drawn(calls[k]) != Some(id)) ==>
      PastOf(Run(sha, calls).log, id).creations == 0
  {
    if calls != [] {
      var n := |calls| - 1;
      CreatedWhenDrawn(sha, calls[..n], id);
      ApplyCreates(sha, Run(sha, calls[..n]), calls[n], id);
      assert forall k | 0 <= k < n :: calls[..n][k] == calls[k];
    }
  }

  /** When no identifier is drawn twice, no file is ever delivered twice. */
  lemma NeverDeliveredTwice(sha: Bytes -> Digest, calls: seq<Call>, m: nat, n: nat)
    requires AllNumbered(sha, calls) && DrawsDistinct(calls)
    requires var log := Run(sha, calls).log; m < n < |log| && IsDelivery(log[m]) && IsDelivery(log[n])
    ensures Run(sha, calls).log[m].id != Run(sha, calls).log[n].id
  {
    var log := Run(sha, calls).log;
    if log[m].id == log[n].id {
      DeliveredAtMostOnce(sha, calls, m, n);
      CreatedWhenDrawn(sha, calls, log[m].id);
    }
  }
}
