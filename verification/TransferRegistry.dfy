/** The registry object and the download body, each method proved against its specification. */
module TransferRegistry {
  import opened Json
  import opened Transfers
  import opened TransferInvariant

  class TransferFiles {
    const sha: Bytes -> Digest
    var entries: map<Id, Entry>
    var available: int
    ghost var flights: map<nat, Bytes>
    ghost var log: seq<Event>

    ghost function State(): World
      reads this
    {
      World(entries, available, flights, log)
    }

    constructor (sha: Bytes -> Digest)
      ensures State() == Initial() && this.sha == sha
    {
      this.sha := sha;
      entries, available, flights, log := map[], MAX_STORED_BYTES, map[], [];
    }

    /** Dropping an entry returns the permits of its bytes. */
    method Drop(id: Id)
      requires id in entries
      modifies this`entries, this`available
      ensures entries == old(entries) - {id}
      ensures available + Stored(entries) == old(available + Stored(entries))
    {
      StoredWithout(entries, id);
      available := available + SizeOf(entries[id]);
      entries := entries - {id};
    }

    method Prune(now: nat)
      modifies this`entries, this`available
      ensures State() == Pruned(old(State()), now)
    {
      ghost var start := entries;
      var todo := entries.Keys;
      while todo != {}
        invariant todo <= entries.Keys <= start.Keys
        invariant forall id | id in start :: id in entries <==> id in todo || start[id].expires > now
        invariant forall id | id in entries :: entries[id] == start[id]
        invariant available + Stored(entries) == old(available + Stored(entries))
        decreases todo
      {
        var id :| id in todo;
        todo := todo - {id};
        if entries[id].expires <= now { Drop(id); }
      }
      assert entries == Live(start, now);
    }

    method Clear()
      modifies this`entries, this`available
      ensures State() == Apply(sha, old(State()), Shutdown).0
    {
      while entries != map[]
        invariant available + Stored(entries) == old(available + Stored(entries))
        decreases |entries|
      {
        var id :| id in entries;
        Drop(id);
      }
    }

    method Expire(now: nat)
      modifies this`entries, this`available
      ensures State() == Apply(sha, old(State()), Call.Expire(now)).0
    {
      Prune(now);
    }

    method AuthorizeUpload(owner: string, metadataFits: bool, size: Option<nat>, digest: DeclaredDigest,
                           drawn: Option<Id>, token: Bytes, issuedAt: nat, prunedAt: nat, createdAt: nat)
        returns (reply: Reply)
      modifies this
      ensures (State(), reply) == Apply(sha, old(State()),
        Call.AuthorizeUpload(owner, metadataFits, size, digest, drawn, token, issuedAt, prunedAt, createdAt))
    {
      if size.Some? && size.value > MAX_UPLOAD_BYTES { return Refused; }
      if !metadataFits || digest.Unsupported? || drawn.None? { return Refused; }
      var grant := Grant(sha(token), issuedAt + GRANT_TTL, Upload);
      ghost var c :=
        Call.AuthorizeUpload(owner, metadataFits, size, digest, drawn, token, issuedAt, prunedAt, createdAt);
      Prune(prunedAt);
      assert Apply(sha, old(State()), c) == UploadAuthorized(sha, State(), c);
      var e := Entry(owner, None, DigestOf(digest), size, createdAt + FILE_TTL, Some(grant), true);
      reply := InsertUpload(drawn.value, e, issuedAt, createdAt);
    }

    /** Insert an entry that waits for its upload, unless the registry is full or has the identifier. */
    method InsertUpload(id: Id, e: Entry, ghost issuedAt: nat, ghost createdAt: nat) returns (reply: Reply)
      requires e.grant.Some?
      modifies this`entries, this`log
      ensures reply == if |old(entries)| >= MAX_ENTRIES || id in old(entries) then Refused else Done
      ensures reply.Refused? ==> entries == old(entries) && log == old(log)
      ensures reply.Done? ==> entries == old(entries)[id := e]
      ensures reply.Done? ==> log == old(log) + [
        Created(id, e.owner, true, e.expectedSize, e.expectedDigest, createdAt),
        Issued(id, Upload, e.grant.value.hash, issuedAt)]
    {
      if |entries| >= MAX_ENTRIES || id in entries { return Refused; }
      entries := entries[id := e];
      log := log + [Created(id, e.owner, true, e.expectedSize, e.expectedDigest, createdAt),
                    Issued(id, Upload, e.grant.value.hash, issuedAt)];
      reply := Done;
    }

    method AuthorizeDownload(owner: string, named: Option<Id>, token: Bytes, issuedAt: nat, prunedAt: nat)
        returns (reply: Reply)
      modifies this
      ensures (State(), reply) ==
        Apply(sha, old(State()), Call.AuthorizeDownload(owner, named, token, issuedAt, prunedAt))
    {
      if named.None? { return Refused; }
      var id := named.value;
      var grant := Grant(sha(token), issuedAt + GRANT_TTL, Download);
      Prune(prunedAt);
      if id !in entries || entries[id].owner != owner || entries[id].bytes.None? { return Refused; }
      entries := entries[id := entries[id].(grant := Some(grant))];
      log := log + [Issued(id, Download, sha(token), issuedAt)];
      reply := Done;
    }

    /** Acquire permits for `amount` bytes, or none at all. */
    method TryAcquire(amount: nat) returns (ok: bool)
      modifies this`available
      ensures ok <==> amount <= old(available)
      ensures available == if ok then old(available) - amount else old(available)
    {
      ok := amount <= available;
      if ok { available := available - amount; }
    }

    method AdmitsGrant(id: Id, token: Bytes, direction: Direction, prunedAt: nat, checkedAt: nat) returns (ok: bool)
      modifies this`entries, this`available
      ensures State() == Pruned(old(State()), prunedAt)
      ensures ok <==> Admits(sha, entries, id, token, direction, checkedAt)
    {
      Prune(prunedAt);
      ok := id in entries && ValidGrant(sha, entries[id], token, direction, checkedAt)
        && entries[id].bytes.Some? == (direction == Download);
    }

    method PutBytes(id: Id, token: Bytes, bytes: Bytes, prunedAt: nat, checkedAt: nat) returns (reply: Reply)
      modifies this
      ensures (State(), reply) == Apply(sha, old(State()), Call.PutBytes(id, token, bytes, prunedAt, checkedAt))
    {
      Prune(prunedAt);
      if id !in entries || entries[id].bytes.Some? { return Refused; }
      if !ValidGrant(sha, entries[id], token, Upload, checkedAt) { return Refused; }
      if |bytes| > MAX_UPLOAD_BYTES { return Refused; }
      if !Matches(sha, entries[id].expectedSize, entries[id].expectedDigest, bytes) { return Refused; }
      var ok := TryAcquire(|bytes|);
      if !ok { return Refused; }
      entries := entries[id := entries[id].(bytes := Some(bytes), grant := None)];
      log := log + [Completed(id, token, bytes, prunedAt, checkedAt)];
      reply := Done;
    }

    /** The permits stay taken: they travel with the body that carries the bytes. */
    method GetBytes(id: Id, token: Bytes, prunedAt: nat, checkedAt: nat, ghost flight: nat) returns (reply: Reply)
      requires flight !in flights
      modifies this
      ensures (State(), reply) == Apply(sha, old(State()), Call.GetBytes(id, token, prunedAt, checkedAt, flight))
    {
      Prune(prunedAt);
      if id !in entries || entries[id].bytes.None? { return Refused; }
      if !ValidGrant(sha, entries[id], token, Download, checkedAt) { return Refused; }
      var bytes := entries[id].bytes.value;
      entries := entries - {id};
      flights := flights[flight := bytes];
      log := log + [Downloaded(id, token, bytes, prunedAt, checkedAt)];
      reply := Delivered(bytes);
    }

    /** A body that goes away, read to its end or not, returns its permits. */
    method DropBody(ghost flight: nat, size: nat)
      requires flight in flights && size == |flights[flight]|
      modifies this
      ensures State() == Apply(sha, old(State()), Call.DropBody(flight)).0
    {
      flights := flights - {flight};
      available := available + size;
    }

    /** Permits acquired for bytes that cannot be inserted are given back. */
    method Publish(owner: string, bytes: Bytes, drawn: Option<Id>, prunedAt: nat, createdAt: nat)
        returns (reply: Reply)
      modifies this
      ensures (State(), reply) == Apply(sha, old(State()), Call.Publish(owner, bytes, drawn, prunedAt, createdAt))
    {
      if |bytes| > MAX_DOWNLOAD_BYTES || drawn.None? { return Refused; }
      var id := drawn.value;
      Prune(prunedAt);
      if |entries| >= MAX_ENTRIES { return Refused; }
      var ok := TryAcquire(|bytes|);
      if !ok { return Refused; }
      if id in entries {
        available := available + |bytes|;
        return Refused;
      }
      entries := entries[id := Entry(owner, Some(bytes), None, None, createdAt + FILE_TTL, None, false)];
      log := log + [Created(id, owner, false, None, None, createdAt), Filled(id, bytes)];
      reply := Done;
    }

    method Take(owner: string, named: Option<Id>, prunedAt: nat) returns (reply: Reply)
      modifies this
      ensures (State(), reply) == Apply(sha, old(State()), Call.Take(owner, named, prunedAt))
    {
      if named.None? { return Refused; }
      var id := named.value;
      Prune(prunedAt);
      if id !in entries || entries[id].owner != owner || !entries[id].uploaded || entries[id].bytes.None? {
        return Refused;
      }
      var bytes := entries[id].bytes.value;
      Drop(id);
      log := log + [Taken(id, owner, bytes, prunedAt)];
      reply := Delivered(bytes);
    }
  }

  // ---- the body of a download

  const FRAME_BYTES: nat := 16 * 1024

  /** The frames still to come after `offset`. */
  function Frames(stored: Bytes, offset: nat): seq<Bytes>
    requires offset <= |stored|
    decreases |stored| - offset
  {
    if offset == |stored| then [] else
    var end := if |stored| - offset < FRAME_BYTES then |stored| else offset + FRAME_BYTES;
    [stored[offset..end]] + Frames(stored, end)
  }

  function Joined(frames: seq<Bytes>): Bytes {
    if frames == [] then [] else frames[0] + Joined(frames[1..])
  }

  /** The frames are of 16 KiB each, except that the last one may be shorter, but not empty; and together
      they are the remaining bytes. */
  lemma {:induction false} FramesRebuildBytes(stored: Bytes, offset: nat)
    requires offset <= |stored|
    ensures Joined(Frames(stored, offset)) == stored[offset..]
    ensures forall k | 0 <= k < |Frames(stored, offset)| :: 0 < |Frames(stored, offset)[k]| <= 16_384
    ensures forall k | 0 <= k < |Frames(stored, offset)| - 1 :: |Frames(stored, offset)[k]| == 16_384
    decreases |stored| - offset
  {
    if offset < |stored| {
      var end := if |stored| - offset < FRAME_BYTES then |stored| else offset + FRAME_BYTES;
      FramesRebuildBytes(stored, end);
      assert Frames(stored, offset)[1..] == Frames(stored, end);
      assert stored[offset..end] + stored[end..] == stored[offset..];
    }
  }

  class DownloadBody {
    const stored: Bytes
    var offset: nat

    constructor (stored: Bytes)
      ensures this.stored == stored && offset == 0
    {
      this.stored := stored;
      offset := 0;
    }

    /** Each poll hands out the next of the remaining frames, and the end once there is none. */
    method PollFrame() returns (frame: Option<Bytes>)
      requires offset <= |stored|
      modifies this`offset
      ensures offset <= |stored|
      ensures frame.None? <==> Frames(stored, old(offset)) == []
      ensures frame.Some? ==> Frames(stored, old(offset)) == [frame.value] + Frames(stored, offset)
      ensures frame.None? ==> offset == old(offset)
    {
      var remaining := stored[offset..];
      if remaining == [] { return None; }
      var count := if |remaining| < FRAME_BYTES then |remaining| else FRAME_BYTES;
      frame := Some(remaining[..count]);
      assert remaining[..count] == stored[offset..offset + count];
      offset := offset + count;
    }
  }
}
