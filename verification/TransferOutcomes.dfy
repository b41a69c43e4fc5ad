/** The reply to every registry operation, in every run, exactly as the history of the run decides it.
    Limits and lifetimes are written out: milliseconds and bytes. */
module TransferOutcomes {
  import opened Json
  import opened Transfers
  import opened TransferInvariant

  // ---- which files are in the registry

  /** The call prunes at a reading when a file with this expiry is over, or empties the registry. */
  ghost predicate Sweeps(c: Call, expires: nat) {
    match c
    case AuthorizeUpload(_, metadataFits, size, digest, drawn, _, _, prunedAt, _) =>
      metadataFits && (size.Some? ==> size.value <= 262_144) && digest != Unsupported && drawn.Some?
      && prunedAt >= expires
    case AuthorizeDownload(_, named, _, _, prunedAt) => named.Some? && prunedAt >= expires
    case PutBytes(_, _, _, prunedAt, _) => prunedAt >= expires
    case GetBytes(_, _, prunedAt, _, _) => prunedAt >= expires
    case Publish(_, bytes, drawn, prunedAt, _) => |bytes| <= 2_097_152 && drawn.Some? && prunedAt >= expires
    case Take(_, named, prunedAt) => named.Some? && prunedAt >= expires
    case Expire(prunedAt) => prunedAt >= expires
    case Shutdown => true
    case DropBody(_) => false
  }

  /** The call puts a file with this identifier and expiry into the registry. */
  ghost predicate Creates(sha: Bytes -> Digest, w: World, c: Call, id: Id, expires: nat) {
    && Apply(sha, w, c).1.Done? && (c.AuthorizeUpload? || c.Publish?) && c.drawn == Some(id)
    && expires == c.createdAt + 300_000
  }

  /** The call hands out the bytes of the file. */
  ghost predicate Delivers(sha: Bytes -> Digest, w: World, c: Call, id: Id) {
    Apply(sha, w, c).1.Delivered? && ((c.GetBytes? && c.id == id) || (c.Take? && c.named == Some(id)))
  }

  /** What one call does to the presence of one file. */
  lemma PresenceAfter(sha: Bytes -> Digest, w: World, c: Call, id: Id)
    ensures var after := Apply(sha, w, c).0.entries;
      id in after <==>
        ((exists expires: nat :: Creates(sha, w, c, id, expires))
         || (id in w.entries && !Sweeps(c, w.entries[id].expires) && !Delivers(sha, w, c, id)))
  {
    if (c.AuthorizeUpload? || c.Publish?) && c.drawn == Some(id) {
      assert Creates(sha, w, c, id, c.createdAt + 300_000) <==> Apply(sha, w, c).1.Done?;
    }
  }

  lemma ExpiryAfter(sha: Bytes -> Digest, w: World, c: Call, id: Id)
    requires id in Apply(sha, w, c).0.entries
    ensures var expires := Apply(sha, w, c).0.entries[id].expires;
      Creates(sha, w, c, id, expires) || (id in w.entries && expires == w.entries[id].expires)
  {}

  lemma CreatedAfter(sha: Bytes -> Digest, w: World, c: Call, id: Id, expires: nat)
    requires Creates(sha, w, c, id, expires)
    ensures id in Apply(sha, w, c).0.entries && Apply(sha, w, c).0.entries[id].expires == expires
  {}

  /** Call `k` created the file, and no later call swept or delivered it. */
  ghost predicate KeptSince(sha: Bytes -> Digest, calls: seq<Call>, id: Id, k: nat, expires: nat)
    requires k < |calls|
  {
    && Creates(sha, Run(sha, calls[..k]), calls[k], id, expires)
    && forall l | k < l < |calls| ::
         !Sweeps(calls[l], expires) && !Delivers(sha, Run(sha, calls[..l]), calls[l], id)
  }

  /** The file was created and since then neither expired at a pruning, nor dropped by shutdown, nor
      delivered. */
  ghost predicate Kept(sha: Bytes -> Digest, calls: seq<Call>, id: Id) {
    exists k: nat, expires: nat :: k < |calls| && KeptSince(sha, calls, id, k, expires)
  }

  lemma KeptLonger(sha: Bytes -> Digest, calls: seq<Call>, id: Id, k: nat, expires: nat)
    requires k < |calls| - 1
    ensures var n := |calls| - 1;
      KeptSince(sha, calls, id, k, expires) <==>
        KeptSince(sha, calls[..n], id, k, expires)
        && !Sweeps(calls[n], expires) && !Delivers(sha, Run(sha, calls[..n]), calls[n], id)
  {
    var n := |calls| - 1;
    assert forall l | 0 <= l < n :: calls[..n][l] == calls[l] && calls[..n][..l] == calls[..l];
  }

  lemma {:induction false} StillThere(sha: Bytes -> Digest, calls: seq<Call>, id: Id, k: nat, expires: nat)
    requires k < |calls| && KeptSince(sha, calls, id, k, expires)
    ensures id in Run(sha, calls).entries && Run(sha, calls).entries[id].expires == expires
    decreases |calls|
  {
    var n := |calls| - 1;
    if k == n {
      CreatedAfter(sha, Run(sha, calls[..n]), calls[n], id, expires);
    } else {
      KeptLonger(sha, calls, id, k, expires);
      StillThere(sha, calls[..n], id, k, expires);
      PresenceAfter(sha, Run(sha, calls[..n]), calls[n], id);
      StaysUnchanged(sha, Run(sha, calls[..n]), calls[n], id);
    }
  }

  /** A file that stays is not created anew. */
  lemma StaysUnchanged(sha: Bytes -> Digest, w: World, c: Call, id: Id)
    requires id in w.entries && !Sweeps(c, w.entries[id].expires)
    ensures id in Apply(sha, w, c).0.entries ==> Apply(sha, w, c).0.entries[id].expires == w.entries[id].expires
  {}

  lemma {:induction false} ThereSinceCreation(sha: Bytes -> Digest, calls: seq<Call>, id: Id) returns (k: nat)
    requires id in Run(sha, calls).entries
    ensures k < |calls| && KeptSince(sha, calls, id, k, Run(sha, calls).entries[id].expires)
    decreases |calls|
  {
    var n := |calls| - 1;
    var w, expires := Run(sha, calls[..n]), Run(sha, calls).entries[id].expires;
    PresenceAfter(sha, w, calls[n], id);
    ExpiryAfter(sha, w, calls[n], id);
    if Creates(sha, w, calls[n], id, expires) {
      k := n;
    } else {
      k := ThereSinceCreation(sha, calls[..n], id);
      NotCreatedHere(sha, w, calls[n], id);
      KeptLonger(sha, calls, id, k, expires);
    }
  }

  lemma NotCreatedHere(sha: Bytes -> Digest, w: World, c: Call, id: Id)
    requires id in Apply(sha, w, c).0.entries && !Creates(sha, w, c, id, Apply(sha, w, c).0.entries[id].expires)
    ensures id in w.entries && !Sweeps(c, w.entries[id].expires) && !Delivers(sha, w, c, id)
  {
    PresenceAfter(sha, w, c, id);
    if expires: nat :| Creates(sha, w, c, id, expires) { CreatedAfter(sha, w, c, id, expires); }
  }

  /** In every run the registry holds exactly the files that were kept. */
  lemma HoldsExactlyTheKept(sha: Bytes -> Digest, calls: seq<Call>, id: Id)
    ensures id in Run(sha, calls).entries <==> Kept(sha, calls, id)
  {
    if id in Run(sha, calls).entries { var k := ThereSinceCreation(sha, calls, id); }
    if Kept(sha, calls, id) {
      var k: nat, expires: nat :| k < |calls| && KeptSince(sha, calls, id, k, expires);
      StillThere(sha, calls, id, k, expires);
    }
  }

  // ---- what decides a reply

  /** The file is there at a pruning: it was kept, and is younger than five minutes. */
  ghost predicate Current(sha: Bytes -> Digest, calls: seq<Call>, id: Id, at: nat) {
    && Kept(sha, calls, id)
    && var past := PastOf(Run(sha, calls).log, id);
       past.created.Some? && at < past.created.value.at + 300_000
  }

  /** The token is that of the latest grant, in its direction, for less than a minute. */
  predicate Granted(sha: Bytes -> Digest, past: Past, direction: Direction, token: Bytes, at: nat) {
    past.issued.Some? && past.issued.value.direction == direction && past.issued.value.hash == sha(token)
    && at < past.issued.value.at + 60_000
  }

  lemma PrunedHoldsTheCurrent(sha: Bytes -> Digest, calls: seq<Call>, id: Id, at: nat)
    requires AllNumbered(sha, calls)
    ensures var p, past := Pruned(Run(sha, calls), at), PastOf(Run(sha, calls).log, id);
      && (id in p.entries <==> Current(sha, calls, id, at))
      && (id in p.entries ==> past.created.Some? && p.entries[id] == EntryOf(past))
  {
    RunInv(sha, calls);
    HoldsExactlyTheKept(sha, calls, id);
    var w := Run(sha, calls);
    assert id in w.entries ==> Linked(w.entries[id], PastOf(w.log, id));
  }

  /** The bytes that are in use after a pruning. */
  ghost function InUse(w: World): nat { Stored(w.entries) + InFlight(w.flights) }

  lemma PrunedCapacity(sha: Bytes -> Digest, calls: seq<Call>, at: nat)
    requires AllNumbered(sha, calls)
    ensures var p := Pruned(Run(sha, calls), at); p.available == 16 * 1024 * 1024 - InUse(p)
  {
    RunInv(sha, calls);
    PrunedKeepsInv(sha, Run(sha, calls), at);
  }

  // ---- the replies

  /** A download grant goes exactly to the owner of a current file with bytes. */
  lemma DownloadGrantsExactly(sha: Bytes -> Digest, calls: seq<Call>, owner: string, named: Option<Id>, token: Bytes,
                              issuedAt: nat, prunedAt: nat)
    requires AllNumbered(sha, calls)
    ensures var w := Run(sha, calls);
      var (after, reply) := Apply(sha, w, AuthorizeDownload(owner, named, token, issuedAt, prunedAt));
      && reply == (if named.Some? && Current(sha, calls, named.value, prunedAt)
                      && PastOf(w.log, named.value).created.value.owner == owner
                      && PastOf(w.log, named.value).bytes.Some? then Done else Refused)
      && after.log == w.log + if reply.Done? then [Issued(named.value, Download, sha(token), issuedAt)] else []
  {
    if named.Some? { PrunedHoldsTheCurrent(sha, calls, named.value, prunedAt); }
  }

  /** An upload is authorized exactly when it is declared within bounds and the registry has room for
      its fresh identifier. */
  lemma UploadGrantsExactly(sha: Bytes -> Digest, calls: seq<Call>, owner: string, metadataFits: bool,
                            size: Option<nat>, digest: DeclaredDigest, drawn: Option<Id>, token: Bytes,
                            issuedAt: nat, prunedAt: nat, createdAt: nat)
    requires AllNumbered(sha, calls)
    ensures var w := Run(sha, calls);
      var (after, reply) := Apply(sha, w,
        AuthorizeUpload(owner, metadataFits, size, digest, drawn, token, issuedAt, prunedAt, createdAt));
      && reply == (if metadataFits && (size.Some? ==> size.value <= 262_144) && digest != Unsupported
                      && drawn.Some? && |Pruned(w, prunedAt).entries| < 64
                      && !Current(sha, calls, drawn.value, prunedAt) then Done else Refused)
      && after.log == w.log + if reply.Refused? then [] else
           [Created(drawn.value, owner, true, size, if digest.Declared? then Some(digest.digest) else None, createdAt),
            Issued(drawn.value, Upload, sha(token), issuedAt)]
  {
    if drawn.Some? { PrunedHoldsTheCurrent(sha, calls, drawn.value, prunedAt); }
  }

  /** An upload is stored exactly when the token opens a current file that waits for bytes, and the bytes
      fit the declaration, the limit and the free capacity. */
  lemma UploadsStoreExactly(sha: Bytes -> Digest, calls: seq<Call>, id: Id, token: Bytes, bytes: Bytes,
                            prunedAt: nat, checkedAt: nat)
    requires AllNumbered(sha, calls)
    ensures var w := Run(sha, calls);
      var past := PastOf(w.log, id);
      var (after, reply) := Apply(sha, w, PutBytes(id, token, bytes, prunedAt, checkedAt));
      && reply == (if Current(sha, calls, id, prunedAt) && past.bytes.None?
                      && Granted(sha, past, Upload, token, checkedAt) && |bytes| <= 262_144
                      && (past.created.value.size.Some? ==> |bytes| == past.created.value.size.value)
                      && (past.created.value.digest.Some? ==> sha(bytes) == past.created.value.digest.value)
                      && |bytes| + InUse(Pruned(w, prunedAt)) <= 16 * 1024 * 1024 then Done else Refused)
      && after.log == w.log + if reply.Done? then [Completed(id, token, bytes, prunedAt, checkedAt)] else []
  {
    PrunedHoldsTheCurrent(sha, calls, id, prunedAt);
    PrunedCapacity(sha, calls, prunedAt);
  }

  /** A download delivers exactly when the token opens a current file with bytes, and then those bytes. */
  lemma DownloadsDeliverExactly(sha: Bytes -> Digest, calls: seq<Call>, id: Id, token: Bytes, prunedAt: nat,
                                checkedAt: nat, flight: nat)
    requires AllNumbered(sha, calls)
    ensures var w := Run(sha, calls);
      var past := PastOf(w.log, id);
      var (after, reply) := Apply(sha, w, GetBytes(id, token, prunedAt, checkedAt, flight));
      && reply == (if Current(sha, calls, id, prunedAt) && past.bytes.Some?
                      && Granted(sha, past, Download, token, checkedAt)
                   then Delivered(past.bytes.value) else Refused)
      && after.log == (if reply.Refused? then w.log
                       else w.log + [Downloaded(id, token, past.bytes.value, prunedAt, checkedAt)])
      && after.flights == (if reply.Refused? then w.flights else w.flights[flight := past.bytes.value])
  {
    PrunedHoldsTheCurrent(sha, calls, id, prunedAt);
  }

  /** Bytes are published exactly when they fit the limit and the free capacity, and the registry has room
      for their fresh identifier. */
  lemma PublishesExactly(sha: Bytes -> Digest, calls: seq<Call>, owner: string, bytes: Bytes, drawn: Option<Id>,
                         prunedAt: nat, createdAt: nat)
    requires AllNumbered(sha, calls)
    ensures var w := Run(sha, calls);
      var (after, reply) := Apply(sha, w, Publish(owner, bytes, drawn, prunedAt, createdAt));
      && reply == (if |bytes| <= 2_097_152 && drawn.Some? && |Pruned(w, prunedAt).entries| < 64
                      && |bytes| + InUse(Pruned(w, prunedAt)) <= 16 * 1024 * 1024
                      && !Current(sha, calls, drawn.value, prunedAt) then Done else Refused)
      && after.log == w.log + if reply.Refused? then [] else
           [Created(drawn.value, owner, false, None, None, createdAt), Filled(drawn.value, bytes)]
  {
    if drawn.Some? { PrunedHoldsTheCurrent(sha, calls, drawn.value, prunedAt); }
    PrunedCapacity(sha, calls, prunedAt);
    PublishApplies(sha, Run(sha, calls), owner, bytes, drawn, prunedAt, createdAt);
  }

  lemma PublishApplies(sha: Bytes -> Digest, w: World, owner: string, bytes: Bytes, drawn: Option<Id>, prunedAt: nat,
                       createdAt: nat)
    ensures var (after, reply) := Apply(sha, w, Publish(owner, bytes, drawn, prunedAt, createdAt));
      var p := Pruned(w, prunedAt);
      && reply == (if |bytes| <= 2_097_152 && drawn.Some? && |p.entries| < 64 && |bytes| <= p.available
                      && drawn.value !in p.entries then Done else Refused)
      && after.log == w.log + if reply.Refused? then [] else
           [Created(drawn.value, owner, false, None, None, createdAt), Filled(drawn.value, bytes)]
  {}

  /** An upload is taken exactly by its owner, when it is current and complete, and then with its bytes. */
  lemma TakesExactly(sha: Bytes -> Digest, calls: seq<Call>, owner: string, named: Option<Id>, prunedAt: nat)
    requires AllNumbered(sha, calls)
    ensures var w := Run(sha, calls);
      var (after, reply) := Apply(sha, w, Take(owner, named, prunedAt));
      var past := if named.Some? then PastOf(w.log, named.value) else Before();
      && reply == (if named.Some? && Current(sha, calls, named.value, prunedAt)
                      && past.created.value.owner == owner && past.created.value.uploaded && past.bytes.Some?
                   then Delivered(past.bytes.value) else Refused)
      && after.log == w.log
           + if reply.Refused? then [] else [Taken(named.value, owner, past.bytes.value, prunedAt)]
  {
    if named.Some? { PrunedHoldsTheCurrent(sha, calls, named.value, prunedAt); }
    TakeApplies(sha, Run(sha, calls), owner, named, prunedAt);
  }

  lemma TakeApplies(sha: Bytes -> Digest, w: World, owner: string, named: Option<Id>, prunedAt: nat)
    ensures var (after, reply) := Apply(sha, w, Take(owner, named, prunedAt));
      var entries := Pruned(w, prunedAt).entries;
      if named.Some? && named.value in entries && entries[named.value].owner == owner
        && entries[named.value].uploaded && entries[named.value].bytes.Some?
      then
        && reply == Delivered(entries[named.value].bytes.value)
        && after.log == w.log + [Taken(named.value, owner, entries[named.value].bytes.value, prunedAt)]
      else reply == Refused && after.log == w.log
  {}
}
