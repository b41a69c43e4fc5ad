/** The credential transfer registry: what one locked operation does to the stored files. */
module Transfers {
  import opened Json
  import opened Sequences

  type Byte = x: int | 0 <= x < 256
  type Bytes = seq<Byte>
  type Id = string
  type Digest = seq<Byte>

  const MAX_UPLOAD_BYTES: nat := 256 * 1024
  const MAX_DOWNLOAD_BYTES: nat := 2 * 1024 * 1024
  const MAX_ENTRIES: nat := 64
  const MAX_STORED_BYTES: nat := 16 * 1024 * 1024

  /** Lifetimes in milliseconds. */
  const FILE_TTL: nat := 5 * 60 * 1000
  const GRANT_TTL: nat := 60 * 1000

  datatype Direction = Upload | Download

  datatype Grant = Grant(hash: Digest, expires: nat, direction: Direction)

  datatype Entry = Entry(owner: string, bytes: Option<Bytes>, expectedDigest: Option<Digest>,
                         expectedSize: Option<nat>, expires: nat, grant: Option<Grant>, uploaded: bool)

  /** What happened to a file, in the order it happened. */
  datatype Event =
    | Created(id: Id, owner: string, uploaded: bool, size: Option<nat>, digest: Option<Digest>, at: nat)
    | Issued(id: Id, direction: Direction, hash: Digest, at: nat)
    | Filled(id: Id, bytes: Bytes)
    | Completed(id: Id, token: Bytes, bytes: Bytes, prunedAt: nat, checkedAt: nat)
    | Taken(id: Id, owner: string, bytes: Bytes, prunedAt: nat)
    | Downloaded(id: Id, token: Bytes, bytes: Bytes, prunedAt: nat, checkedAt: nat)

  /** The registry, the download bodies that still hold permits, and the history. */
  datatype World = World(entries: map<Id, Entry>, available: int, flights: map<nat, Bytes>, log: seq<Event>)

  datatype DeclaredDigest = Undeclared | Unsupported | Declared(digest: Digest)

  /** One operation, with every clock reading it makes and the identifier it draws, if any. */
  datatype Call =
    | AuthorizeUpload(owner: string, metadataFits: bool, size: Option<nat>, digest: DeclaredDigest,
                      drawn: Option<Id>, token: Bytes, issuedAt: nat, prunedAt: nat, createdAt: nat)
    | AuthorizeDownload(owner: string, named: Option<Id>, token: Bytes, issuedAt: nat, prunedAt: nat)
    | PutBytes(id: Id, token: Bytes, bytes: Bytes, prunedAt: nat, checkedAt: nat)
    | GetBytes(id: Id, token: Bytes, prunedAt: nat, checkedAt: nat, flight: nat)
    | Publish(owner: string, bytes: Bytes, drawn: Option<Id>, prunedAt: nat, createdAt: nat)
    | Take(owner: string, named: Option<Id>, prunedAt: nat)
    | Expire(prunedAt: nat)
    | Shutdown
    | DropBody(flight: nat)

  datatype Reply = Refused | Done | Delivered(bytes: Bytes)

  // ---- bytes that hold permits

  function SizeOf(e: Entry): nat { if e.bytes.Some? then |e.bytes.value| else 0 }

  ghost function Stored(entries: map<Id, Entry>): nat { Total(entries, SizeOf) }

  ghost function InFlight(flights: map<nat, Bytes>): nat { Total(flights, (bytes: Bytes) => |bytes|) }

  lemma StoredWithout(entries: map<Id, Entry>, id: Id)
    requires id in entries
    ensures Stored(entries) == SizeOf(entries[id]) + Stored(entries - {id})
  {
    TotalWithout(entries, SizeOf, id);
  }

  lemma StoredWith(entries: map<Id, Entry>, id: Id, e: Entry)
    ensures Stored(entries[id := e])
         == Stored(entries) - (if id in entries then SizeOf(entries[id]) else 0) + SizeOf(e)
  {
    TotalWith(entries, SizeOf, id, e);
  }

  lemma InFlightWithout(flights: map<nat, Bytes>, f: nat)
    requires f in flights
    ensures InFlight(flights) == |flights[f]| + InFlight(flights - {f})
  {
    TotalWithout(flights, (bytes: Bytes) => |bytes|, f);
  }

  lemma InFlightWith(flights: map<nat, Bytes>, f: nat, bytes: Bytes)
    requires f !in flights
    ensures InFlight(flights[f := bytes]) == InFlight(flights) + |bytes|
  {
    TotalWith(flights, (bytes: Bytes) => |bytes|, f, bytes);
  }

  // ---- the operations

  /** Keep some entries; the permits of the others are released. */
  ghost function Keep(w: World, kept: map<Id, Entry>): World {
    w.(entries := kept, available := w.available + Stored(w.entries) - Stored(kept))
  }

  function Live(entries: map<Id, Entry>, now: nat): map<Id, Entry> {
    map id | id in entries && entries[id].expires > now :: entries[id]
  }

  ghost function Pruned(w: World, now: nat): World { Keep(w, Live(w.entries, now)) }

  predicate ValidGrant(sha: Bytes -> Digest, e: Entry, token: Bytes, direction: Direction, now: nat) {
    && e.grant.Some? && e.grant.value.direction == direction
    && e.grant.value.expires > now && sha(token) == e.grant.value.hash
  }

  /** Whether a token is let through to transfer the bytes of a file, before any of them is read. */
  predicate Admits(sha: Bytes -> Digest, entries: map<Id, Entry>, id: Id, token: Bytes, direction: Direction,
                   now: nat) {
    id in entries && ValidGrant(sha, entries[id], token, direction, now)
    && (entries[id].bytes.Some? <==> direction == Download)
  }

  /** Whether declared facts about an upload fit the bytes received. */
  predicate Matches(sha: Bytes -> Digest, size: Option<nat>, digest: Option<Digest>, bytes: Bytes) {
    (size.Some? ==> size.value == |bytes|) && (digest.Some? ==> digest.value == sha(bytes))
  }

  function DigestOf(d: DeclaredDigest): Option<Digest> { if d.Declared? then Some(d.digest) else None }

  // Each effect below starts from the registry `p` that pruning has left.

  ghost function UploadAuthorized(sha: Bytes -> Digest, p: World, c: Call): (World, Reply)
    requires c.AuthorizeUpload? && c.drawn.Some?
  {
    var id := c.drawn.value;
    if |p.entries| >= MAX_ENTRIES || id in p.entries then (p, Refused) else
    var grant := Grant(sha(c.token), c.issuedAt + GRANT_TTL, Upload);
    var e := Entry(c.owner, None, DigestOf(c.digest), c.size, c.createdAt + FILE_TTL, Some(grant), true);
    (p.(entries := p.entries[id := e],
        log := p.log + [Created(id, c.owner, true, c.size, DigestOf(c.digest), c.createdAt),
                        Issued(id, Upload, sha(c.token), c.issuedAt)]), Done)
  }

  ghost function DownloadAuthorized(sha: Bytes -> Digest, p: World, c: Call): (World, Reply)
    requires c.AuthorizeDownload? && c.named.Some?
  {
    var id := c.named.value;
    if id !in p.entries || p.entries[id].owner != c.owner || p.entries[id].bytes.None? then (p, Refused) else
    var grant := Grant(sha(c.token), c.issuedAt + GRANT_TTL, Download);
    (p.(entries := p.entries[id := p.entries[id].(grant := Some(grant))],
        log := p.log + [Issued(id, Download, sha(c.token), c.issuedAt)]), Done)
  }

  ghost function BytesPut(sha: Bytes -> Digest, p: World, c: Call): (World, Reply)
    requires c.PutBytes?
  {
    if || c.id !in p.entries || p.entries[c.id].bytes.Some?
       || !ValidGrant(sha, p.entries[c.id], c.token, Upload, c.checkedAt)
       || |c.bytes| > MAX_UPLOAD_BYTES
       || !Matches(sha, p.entries[c.id].expectedSize, p.entries[c.id].expectedDigest, c.bytes)
       || |c.bytes| > p.available
    then (p, Refused) else
    (p.(entries := p.entries[c.id := p.entries[c.id].(bytes := Some(c.bytes), grant := None)],
        available := p.available - |c.bytes|,
        log := p.log + [Completed(c.id, c.token, c.bytes, c.prunedAt, c.checkedAt)]), Done)
  }

  ghost function BytesGot(sha: Bytes -> Digest, p: World, c: Call): (World, Reply)
    requires c.GetBytes?
  {
    if || c.id !in p.entries || p.entries[c.id].bytes.None?
       || !ValidGrant(sha, p.entries[c.id], c.token, Download, c.checkedAt)
    then (p, Refused) else
    var bytes := p.entries[c.id].bytes.value;
    (p.(entries := p.entries - {c.id}, flights := p.flights[c.flight := bytes],
        log := p.log + [Downloaded(c.id, c.token, bytes, c.prunedAt, c.checkedAt)]), Delivered(bytes))
  }

  ghost function Published(p: World, c: Call): (World, Reply)
    requires c.Publish? && c.drawn.Some?
  {
    var id := c.drawn.value;
    if |p.entries| >= MAX_ENTRIES || |c.bytes| > p.available || id in p.entries then (p, Refused) else
    var e := Entry(c.owner, Some(c.bytes), None, None, c.createdAt + FILE_TTL, None, false);
    (p.(entries := p.entries[id := e], available := p.available - |c.bytes|,
        log := p.log + [Created(id, c.owner, false, None, None, c.createdAt), Filled(id, c.bytes)]), Done)
  }

  ghost function BytesTaken(p: World, c: Call): (World, Reply)
    requires c.Take? && c.named.Some?
  {
    var id := c.named.value;
    if || id !in p.entries || p.entries[id].owner != c.owner
       || !p.entries[id].uploaded || p.entries[id].bytes.None?
    then (p, Refused) else
    var bytes := p.entries[id].bytes.value;
    (Keep(p, p.entries - {id}).(log := p.log + [Taken(id, c.owner, bytes, c.prunedAt)]), Delivered(bytes))
  }

  /** Whether a call is refused before it takes the lock. */
  predicate RefusedOutright(c: Call) {
    match c
    case AuthorizeUpload(_, metadataFits, size, digest, drawn, _, _, _, _) =>
      (size.Some? && size.value > MAX_UPLOAD_BYTES) || !metadataFits || digest.Unsupported? || drawn.None?
    case AuthorizeDownload(_, named, _, _, _) => named.None?
    case Publish(_, bytes, drawn, _, _) => |bytes| > MAX_DOWNLOAD_BYTES || drawn.None?
    case Take(_, named, _) => named.None?
    case _ => false
  }

  /** The effect of one operation and its reply. */
  ghost function Apply(sha: Bytes -> Digest, w: World, c: Call): (World, Reply) {
    if RefusedOutright(c) then (w, Refused) else
    match c
    case AuthorizeUpload(_, _, _, _, _, _, _, prunedAt, _) => UploadAuthorized(sha, Pruned(w, prunedAt), c)
    case AuthorizeDownload(_, _, _, _, prunedAt) => DownloadAuthorized(sha, Pruned(w, prunedAt), c)
    case PutBytes(_, _, _, prunedAt, _) => BytesPut(sha, Pruned(w, prunedAt), c)
    case GetBytes(_, _, prunedAt, _, _) => BytesGot(sha, Pruned(w, prunedAt), c)
    case Publish(_, _, _, prunedAt, _) => Published(Pruned(w, prunedAt), c)
    case Take(_, _, prunedAt) => BytesTaken(Pruned(w, prunedAt), c)
    case Expire(prunedAt) => (Pruned(w, prunedAt), Done)
    case Shutdown => (Keep(w, map[]), Done)
    case DropBody(flight) =>
      if flight !in w.flights then (w, Refused) else
      (w.(flights := w.flights - {flight}, available := w.available + |w.flights[flight]|), Done)
  }

  // ---- what the history says about one file

  datatype Creation = Creation(owner: string, uploaded: bool, size: Option<nat>, digest: Option<Digest>, at: nat)

  datatype Issue = Issue(direction: Direction, hash: Digest, at: nat)

  /** The latest creation of an identifier, the bytes since then, the latest grant since then that an
      upload has not used up, and how often the identifier was created, filled and delivered in all. */
  datatype Past = Past(created: Option<Creation>, bytes: Option<Bytes>, issued: Option<Issue>,
                       creations: nat, fills: nat, deliveries: nat)

  function Before(): Past { Past(None, None, None, 0, 0, 0) }

  function After(p: Past, e: Event): Past {
    match e
    case Created(_, owner, uploaded, size, digest, at) =>
      p.(created := Some(Creation(owner, uploaded, size, digest, at)), bytes := None, issued := None,
         creations := p.creations + 1)
    case Issued(_, direction, hash, at) => p.(issued := Some(Issue(direction, hash, at)))
    case Filled(_, bytes) => p.(bytes := Some(bytes), fills := p.fills + 1)
    case Completed(_, _, bytes, _, _) => p.(bytes := Some(bytes), issued := None, fills := p.fills + 1)
    case Taken(_, _, _, _) => p.(deliveries := p.deliveries + 1)
    case Downloaded(_, _, _, _, _) => p.(deliveries := p.deliveries + 1)
  }

  function PastOf(log: seq<Event>, id: Id): Past {
    if log == [] then Before() else
    var earlier := PastOf(log[..|log| - 1], id);
    if log[|log| - 1].id == id then After(earlier, log[|log| - 1]) else earlier
  }

  /** A token opens a file in one direction: it is the token of the latest grant, which is of that
      direction and younger than a minute, for a file created less than five minutes ago. */
  predicate Opens(sha: Bytes -> Digest, p: Past, token: Bytes, direction: Direction, prunedAt: nat, checkedAt: nat) {
    && p.issued.Some? && p.issued.value.direction == direction && p.issued.value.hash == sha(token)
    && checkedAt < p.issued.value.at + GRANT_TTL
    && p.created.Some? && prunedAt < p.created.value.at + FILE_TTL
  }

  /** Whether an event was allowed, given what had happened to the file before. */
  predicate Justified(sha: Bytes -> Digest, p: Past, e: Event) {
    match e
    case Created(_, _, _, _, _, _) => true
    case Issued(_, direction, _, _) => p.created.Some? && (direction == Download ==> p.bytes.Some?)
    case Filled(_, bytes) =>
      p.created.Some? && !p.created.value.uploaded && p.bytes.None? && |bytes| <= MAX_DOWNLOAD_BYTES
    case Completed(_, token, bytes, prunedAt, checkedAt) =>
      && Opens(sha, p, token, Upload, prunedAt, checkedAt)
      && p.created.value.uploaded && p.bytes.None? && |bytes| <= MAX_UPLOAD_BYTES
      && Matches(sha, p.created.value.size, p.created.value.digest, bytes)
    case Taken(_, owner, bytes, prunedAt) =>
      && p.created.Some? && prunedAt < p.created.value.at + FILE_TTL
      && p.created.value.uploaded && p.created.value.owner == owner && p.bytes == Some(bytes)
    case Downloaded(_, token, bytes, prunedAt, checkedAt) =>
      Opens(sha, p, token, Download, prunedAt, checkedAt) && p.bytes == Some(bytes)
  }

  ghost predicate AllJustified(sha: Bytes -> Digest, log: seq<Event>) {
    forall n | 0 <= n < |log| :: Justified(sha, PastOf(log[..n], log[n].id), log[n])
  }
}
