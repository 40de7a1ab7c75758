/** The audit trail of a credential: a bounded hot trail whose oldest entries move into numbered,
    digest-protected archives. */
module AuditTrail {
  import opened Host
  import opened AuditCodec

  const DEFAULT_RETENTION_SECS: u64 := 90 * 24 * 60 * 60
  const MIN_RETENTION_SECS: u64 := 7 * 24 * 60 * 60
  const MAX_RETENTION_SECS: u64 := 5 * 365 * 24 * 60 * 60
  const MAX_HOT_ENTRIES: nat := 200
  const MAX_ENTRIES_PER_ARCHIVE: nat := 50
  const MAX_COMPRESSION_LOG: nat := 100

  datatype Archive = Archive(
    credential: Address, archiveId: u32, createdAt: u64, entryCount: u32,
    oldest: u64, newest: u64, dataHash: seq<byte>, payload: seq<byte>)

  datatype RetentionConfig = RetentionConfig(periodSecs: u64, lastCompressionAt: u64, totalArchives: u32)

  datatype Compression = Compression(at: u64, archiveId: u32, entryCount: u32)

  /** What storage holds for one credential. */
  datatype Trail = Trail(
    hot: seq<AuditEntry>, config: RetentionConfig,
    archives: map<u32, Archive>, compressions: seq<Compression>)

  type State = map<Address, Trail>

  /** SHA-256, of which nothing is assumed. */
  type Hash = seq<byte> -> seq<byte>

  const DEFAULT_CONFIG := RetentionConfig(DEFAULT_RETENTION_SECS, 0, 0)

  const EMPTY_TRAIL := Trail([], DEFAULT_CONFIG, map[], [])

  function TrailOf(s: State, c: Address): Trail {
    if c in s then s[c] else EMPTY_TRAIL
  }

  // ---------- reading the archives ----------

  function DigestInput(archiveId: u32, entryCount: u32, payload: seq<byte>): seq<byte> {
    ToBigEndian(archiveId, 4) + ToBigEndian(entryCount, 4) + payload
  }

  function Digest(h: Hash, archiveId: u32, entryCount: u32, payload: seq<byte>): seq<byte> {
    h(DigestInput(archiveId, entryCount, payload))
  }

  predicate Intact(a: Archive, h: Hash) {
    Digest(h, a.archiveId, a.entryCount, a.payload) == a.dataHash
  }

  function ReadArchive(a: Archive, h: Hash): Result<seq<AuditEntry>> {
    if Intact(a, h) then Decode(a.payload, a.entryCount) else Err(ArchiveIntegrityFailed)
  }

  function ArchiveEntries(t: Trail, h: Hash, id: u32): Result<seq<AuditEntry>> {
    if id in t.archives then ReadArchive(t.archives[id], h) else Err(ArchiveNotFound)
  }

  // ---------- the transitions ----------

  function Append(t: Trail, event: seq<byte>, now: u64): (Trail, Result<nat>) {
    if !ValidEvent(event) then (t, Err(InvalidAuditEvent))
    else if |t.hot| >= MAX_HOT_ENTRIES then (t, Err(AuditTrailFull))
    else (t.(hot := t.hot + [AuditEntry(now, event)]), Ok(|t.hot| + 1))
  }

  /** The entries that move to an archive with room for `room`, and the entries that stay. */
  function Split(trail: seq<AuditEntry>, olderThan: u64, room: nat): (r: (seq<AuditEntry>, seq<AuditEntry>))
    ensures |r.0| <= room && |r.0| + |r.1| == |trail|
  {
    if trail == [] then ([], [])
    else if trail[0].timestamp < olderThan && room > 0 then
      var (moved, kept) := Split(trail[1..], olderThan, room - 1);
      ([trail[0]] + moved, kept)
    else
      var (moved, kept) := Split(trail[1..], olderThan, room);
      (moved, [trail[0]] + kept)
  }

  /** The archive that records `moved` under `id`. */
  function Sealed(h: Hash, c: Address, id: u32, now: u64, moved: seq<AuditEntry>): Archive
    requires 0 < |moved| <= U32_MAX
  {
    Archive(c, id, now, |moved|, moved[0].timestamp, moved[|moved| - 1].timestamp,
            Digest(h, id, |moved|, Packed(moved)), Packed(moved))
  }

  function Recorded(log: seq<Compression>, entry: Compression): seq<Compression> {
    (if |log| >= MAX_COMPRESSION_LOG then log[1..] else log) + [entry]
  }

  /** The trail after `moved` went to the next archive and `kept` stayed hot. */
  function Archiving(t: Trail, h: Hash, c: Address, moved: seq<AuditEntry>, kept: seq<AuditEntry>, now: u64): Trail
    requires 0 < |moved| <= U32_MAX && t.config.totalArchives < U32_MAX
  {
    var id := t.config.totalArchives;
    Trail(kept,
          t.config.(totalArchives := id + 1, lastCompressionAt := now),
          t.archives[id := Sealed(h, c, id, now, moved)],
          Recorded(t.compressions, Compression(now, id, |moved|)))
  }

  function Compress(t: Trail, h: Hash, c: Address, olderThan: u64, now: u64): (Trail, Result<u32>) {
    var (moved, kept) := Split(t.hot, olderThan, MAX_ENTRIES_PER_ARCHIVE);
    var id := t.config.totalArchives;
    if moved == [] then (t, Err(NoEventsToCompress))
    else if !AllValid(moved) then (t, Err(InvalidAuditEvent))
    else if id == U32_MAX then (t, Err(Overflow))
    else (Archiving(t, h, c, moved, kept, now), Ok(id))
  }

  function Cutoff(t: Trail, now: u64): u64 {
    Max(0, now - t.config.periodSecs)
  }

  function SetRetention(t: Trail, secs: u64): (Trail, Result<()>) {
    if MIN_RETENTION_SECS <= secs <= MAX_RETENTION_SECS
    then (t.(config := t.config.(periodSecs := secs)), Ok(()))
    else (t, Err(InvalidRetentionPeriod))
  }

  // ---------- runs ----------

  datatype Op =
    | DoAppend(c: Address, now: u64, event: seq<byte>)
    | DoCompress(c: Address, now: u64, olderThan: u64)
    | DoCompressExpired(c: Address, now: u64)
    | DoSetRetention(c: Address, now: u64, secs: u64)

  function StepTrail(t: Trail, h: Hash, op: Op): Trail {
    match op
    case DoAppend(_, now, event) => Append(t, event, now).0
    case DoCompress(c, now, olderThan) => Compress(t, h, c, olderThan, now).0
    case DoCompressExpired(c, now) => Compress(t, h, c, Cutoff(t, now), now).0
    case DoSetRetention(_, _, secs) => SetRetention(t, secs).0
  }

  function Step(s: State, h: Hash, op: Op): State {
    s[op.c := StepTrail(TrailOf(s, op.c), h, op)]
  }

  function Run(s: State, h: Hash, ops: seq<Op>): State
    decreases |ops|
  {
    if ops == [] then s else Run(Step(s, h, ops[0]), h, ops[1..])
  }

  /** The clock never runs backwards, from `clock` on. */
  predicate Clocked(ops: seq<Op>, clock: u64) {
    ops == [] || (clock <= ops[0].now && Clocked(ops[1..], ops[0].now))
  }

  /** The entries that `op` appends to the trail of `c`: one if it is an append to `c` that succeeds. */
  function AppendedBy(s: State, op: Op, c: Address): seq<AuditEntry> {
    if op.DoAppend? && op.c == c && Append(TrailOf(s, c), op.event, op.now).1.Ok?
    then [AuditEntry(op.now, op.event)] else []
  }

  /** Everything a run appends to the trail of `c`, in order: the plain log that the store refines. */
  function Appended(s: State, h: Hash, ops: seq<Op>, c: Address): seq<AuditEntry>
    decreases |ops|
  {
    if ops == [] then []
    else AppendedBy(s, ops[0], c) + Appended(Step(s, h, ops[0]), h, ops[1..], c)
  }

  /** What a reader sees of the first `n` archives, in id order. */
  function ArchivedBelow(t: Trail, h: Hash, n: nat): seq<AuditEntry> {
    if n == 0 || n > U32_MAX then []
    else
      ArchivedBelow(t, h, n - 1) +
      (match ArchiveEntries(t, h, n - 1) case Ok(xs) => xs case Err(_) => [])
  }

  /** What a reader sees of a credential: all its archives and then its hot trail. */
  function FullHistory(t: Trail, h: Hash): seq<AuditEntry> {
    ArchivedBelow(t, h, t.config.totalArchives) + t.hot
  }

  // ---------- the invariant ----------

  predicate Ordered(trail: seq<AuditEntry>) {
    forall i, j :: 0 <= i < j < |trail| ==> trail[i].timestamp <= trail[j].timestamp
  }

  /** A hot trail within its bound, of valid events in time order, none later than the clock. */
  predicate GoodHot(hot: seq<AuditEntry>, clock: u64) {
    && |hot| <= MAX_HOT_ENTRIES
    && AllValid(hot) && Ordered(hot)
    && forall i :: 0 <= i < |hot| ==> hot[i].timestamp <= clock
  }

  /** An archive that belongs to `c` under `id`, passes its digest check and holds 1 to 50 entries,
      of which it states the number and the first and last timestamp. */
  ghost predicate GoodArchive(a: Archive, h: Hash, c: Address, id: u32) {
    && a.credential == c && a.archiveId == id
    && Intact(a, h)
    && 1 <= a.entryCount <= MAX_ENTRIES_PER_ARCHIVE
    && Holds(a, ReadArchive(a, h))
  }

  ghost predicate Holds(a: Archive, r: Result<seq<AuditEntry>>) {
    && r.Ok? && |r.value| == a.entryCount && a.entryCount > 0
    && a.oldest == r.value[0].timestamp && a.newest == r.value[a.entryCount - 1].timestamp
  }

  ghost predicate GoodArchives(archives: map<u32, Archive>, total: u32, h: Hash, c: Address) {
    && (forall id: u32 :: id in archives <==> id < total)
    && (forall id: u32 :: id in archives ==> GoodArchive(archives[id], h, c, id))
  }

  /** The compression log lists the latest archives, at most a hundred of them. */
  ghost predicate GoodLog(log: seq<Compression>, archives: map<u32, Archive>, total: u32) {
    && |log| == Min(total, MAX_COMPRESSION_LOG)
    && forall i :: 0 <= i < |log| ==>
         && log[i].archiveId == total - |log| + i && log[i].archiveId in archives
         && log[i].at == archives[log[i].archiveId].createdAt
         && log[i].entryCount == archives[log[i].archiveId].entryCount
  }

  ghost predicate Sound(t: Trail, h: Hash, c: Address, clock: u64) {
    && GoodHot(t.hot, clock)
    && GoodArchives(t.archives, t.config.totalArchives, h, c)
    && GoodLog(t.compressions, t.archives, t.config.totalArchives)
  }

  // ---------- what the transitions keep ----------

  /** On a trail in time order, the entries that move are a prefix: the oldest ones, as many as
      qualify and fit. */
  lemma {:induction false} SplitOfOrdered(trail: seq<AuditEntry>, olderThan: u64, room: nat) returns (k: nat)
    requires Ordered(trail)
    ensures k <= |trail| && Split(trail, olderThan, room) == (trail[..k], trail[k..])
    ensures k <= room && forall i :: 0 <= i < k ==> trail[i].timestamp < olderThan
    ensures k < |trail| && k < room ==> trail[k].timestamp >= olderThan
  {
    if trail == [] || room == 0 || trail[0].timestamp >= olderThan {
      k := 0;
      NothingMoves(trail, olderThan, room);
    } else {
      var k' := SplitOfOrdered(trail[1..], olderThan, room - 1);
      k := k' + 1;
      assert trail[..k] == [trail[0]] + trail[1..][..k'];
      assert trail[k..] == trail[1..][k'..];
    }
  }

  lemma {:induction false} NothingMoves(trail: seq<AuditEntry>, olderThan: u64, room: nat)
    requires room == 0 || forall i :: 0 <= i < |trail| ==> trail[i].timestamp >= olderThan
    ensures Split(trail, olderThan, room) == ([], trail)
  {
    if trail == [] {
    } else {
      NothingMoves(trail[1..], olderThan, room);
      assert trail == [trail[0]] + trail[1..];
    }
  }

  lemma {:induction false} SameArchives(t: Trail, u: Trail, h: Hash, n: nat)
    requires forall id: u32 :: id < n ==> (id in t.archives <==> id in u.archives)
    requires forall id: u32 :: id < n && id in t.archives ==> t.archives[id] == u.archives[id]
    ensures ArchivedBelow(t, h, n) == ArchivedBelow(u, h, n)
  {
    if n == 0 || n > U32_MAX {
    } else {
      SameArchives(t, u, h, n - 1);
      assert ArchiveEntries(t, h, n - 1) == ArchiveEntries(u, h, n - 1);
    }
  }

  lemma AppendKeeps(t: Trail, h: Hash, c: Address, event: seq<byte>, now: u64, clock: u64)
    requires Sound(t, h, c, clock) && clock <= now
    ensures var (t', r) := Append(t, event, now);
            && Sound(t', h, c, now)
            && FullHistory(t', h) == FullHistory(t, h) + if r.Ok? then [AuditEntry(now, event)] else []
  {
    var t' := Append(t, event, now).0;
    SameArchives(t, t', h, t.config.totalArchives);
    hide GoodArchives, GoodLog, ArchiveEntries;
    assert GoodHot(t'.hot, now);
  }

  lemma RetentionKeeps(t: Trail, h: Hash, c: Address, secs: u64, clock: u64)
    requires Sound(t, h, c, clock)
    ensures Sound(SetRetention(t, secs).0, h, c, clock)
    ensures FullHistory(SetRetention(t, secs).0, h) == FullHistory(t, h)
  {
    SameArchives(t, SetRetention(t, secs).0, h, t.config.totalArchives);
  }

  lemma SealedIsGood(h: Hash, c: Address, id: u32, now: u64, moved: seq<AuditEntry>)
    requires 0 < |moved| <= MAX_ENTRIES_PER_ARCHIVE && AllValid(moved)
    ensures var a := Sealed(h, c, id, now, moved);
            GoodArchive(a, h, c, id) && ReadArchive(a, h) == Ok(moved)
  {
    DecodeEncode(moved);
  }

  /** In a sound state, compression fails only for want of entries or of archive ids; otherwise it
      archives a prefix of the hot trail. */
  lemma CompressMovesPrefix(t: Trail, h: Hash, c: Address, olderThan: u64, now: u64, clock: u64) returns (k: nat)
    requires GoodHot(t.hot, clock)
    ensures k <= |t.hot| && k <= MAX_ENTRIES_PER_ARCHIVE && forall i :: 0 <= i < k ==> t.hot[i].timestamp < olderThan
    ensures var (t', r) := Compress(t, h, c, olderThan, now);
            if |t.hot| == 0 || t.hot[0].timestamp >= olderThan then (t', r) == (t, Err(NoEventsToCompress))
            else if t.config.totalArchives == U32_MAX then (t', r) == (t, Err(Overflow))
            else
              && 0 < k && r == Ok(t.config.totalArchives)
              && t' == Archiving(t, h, c, t.hot[..k], t.hot[k..], now)
    ensures k < |t.hot| && k < MAX_ENTRIES_PER_ARCHIVE ==> t.hot[k].timestamp >= olderThan
  {
    k := SplitOfOrdered(t.hot, olderThan, MAX_ENTRIES_PER_ARCHIVE);
    assert AllValid(t.hot[..k]);
  }

  lemma RecordedKeepsLog(
    log: seq<Compression>, archives: map<u32, Archive>, total: u32, a: Archive, h: Hash, c: Address)
    requires GoodLog(log, archives, total) && total < U32_MAX
    requires GoodArchives(archives, total, h, c)
    ensures GoodLog(Recorded(log, Compression(a.createdAt, total, a.entryCount)), archives[total := a], total + 1)
  {
  }

  lemma ArchivingKeepsArchives(archives: map<u32, Archive>, total: u32, a: Archive, h: Hash, c: Address)
    requires GoodArchives(archives, total, h, c) && total < U32_MAX && GoodArchive(a, h, c, total)
    ensures GoodArchives(archives[total := a], total + 1, h, c)
  {
  }

  lemma ArchivingKeepsHistory(t: Trail, h: Hash, c: Address, k: nat, now: u64)
    requires 0 < k <= |t.hot| && k <= MAX_ENTRIES_PER_ARCHIVE && AllValid(t.hot)
    requires t.config.totalArchives < U32_MAX
    ensures FullHistory(Archiving(t, h, c, t.hot[..k], t.hot[k..], now), h) == FullHistory(t, h)
  {
    var t' := Archiving(t, h, c, t.hot[..k], t.hot[k..], now);
    var id, moved := t.config.totalArchives, t.hot[..k];
    ArchivingAddsArchive(t, h, c, moved, t.hot[k..], now);
    hide Sealed, Recorded, ArchiveEntries;
    SameArchives(t, t', h, id);
    var below := ArchivedBelow(t, h, id);
    assert ArchivedBelow(t', h, id + 1) == below + moved;
    assert (below + moved) + t.hot[k..] == below + t.hot;
  }

  lemma ArchivingAddsArchive(t: Trail, h: Hash, c: Address, moved: seq<AuditEntry>, kept: seq<AuditEntry>, now: u64)
    requires 0 < |moved| <= MAX_ENTRIES_PER_ARCHIVE && AllValid(moved) && t.config.totalArchives < U32_MAX
    ensures ArchiveEntries(Archiving(t, h, c, moved, kept, now), h, t.config.totalArchives) == Ok(moved)
  {
    SealedIsGood(h, c, t.config.totalArchives, now, moved);
    hide Sealed, Recorded, ReadArchive, GoodArchive, AllValid;
  }

  lemma ArchivingKeepsSound(t: Trail, h: Hash, c: Address, k: nat, now: u64, clock: u64)
    requires Sound(t, h, c, clock) && clock <= now
    requires 0 < k <= |t.hot| && k <= MAX_ENTRIES_PER_ARCHIVE && t.config.totalArchives < U32_MAX
    ensures Sound(Archiving(t, h, c, t.hot[..k], t.hot[k..], now), h, c, now)
  {
    var id, moved := t.config.totalArchives, t.hot[..k];
    var a := Sealed(h, c, id, now, moved);
    assert GoodHot(t.hot[k..], now);
    hide GoodArchives, GoodLog, GoodArchive;
    SealedIsGood(h, c, id, now, moved);
    hide GoodHot, Recorded;
    ArchivingKeepsArchives(t.archives, id, a, h, c);
    RecordedKeepsLog(t.compressions, t.archives, id, a, h, c);
  }

  lemma SoundLater(t: Trail, h: Hash, c: Address, clock: u64, now: u64)
    requires Sound(t, h, c, clock) && clock <= now
    ensures Sound(t, h, c, now)
  {
    hide GoodArchives, GoodLog;
  }

  lemma CompressKeeps(t: Trail, h: Hash, c: Address, olderThan: u64, now: u64, clock: u64)
    requires Sound(t, h, c, clock) && clock <= now
    ensures Sound(Compress(t, h, c, olderThan, now).0, h, c, now)
    ensures FullHistory(Compress(t, h, c, olderThan, now).0, h) == FullHistory(t, h)
  {
    hide Compress, Archiving, GoodArchives, GoodLog, FullHistory;
    var k := CompressMovesPrefix(t, h, c, olderThan, now, clock);
    if Compress(t, h, c, olderThan, now).1.Ok? {
      ArchivingKeepsSound(t, h, c, k, now, clock);
      ArchivingKeepsHistory(t, h, c, k, now);
    } else {
      SoundLater(t, h, c, clock, now);
    }
  }

  lemma StepKeeps(s: State, h: Hash, op: Op, c: Address, clock: u64)
    requires Sound(TrailOf(s, c), h, c, clock) && clock <= op.now
    ensures Sound(TrailOf(Step(s, h, op), c), h, c, op.now)
    ensures FullHistory(TrailOf(Step(s, h, op), c), h) == FullHistory(TrailOf(s, c), h) + AppendedBy(s, op, c)
  {
    var t := TrailOf(s, c);
    assert FullHistory(t, h) + [] == FullHistory(t, h);
    if op.c == c {
      match op
      case DoAppend(_, now, event) => AppendKeeps(t, h, c, event, now, clock);
      case DoCompress(_, now, olderThan) => CompressKeeps(t, h, c, olderThan, now, clock);
      case DoCompressExpired(_, now) => CompressKeeps(t, h, c, Cutoff(t, now), now, clock);
      case DoSetRetention(_, now, secs) => RetentionKeeps(t, h, c, secs, clock);
    }
  }

  // ---------- the main results ----------

  lemma {:induction false} RunRefinesLogFrom(s: State, h: Hash, ops: seq<Op>, c: Address, clock: u64)
    returns (end: u64)
    requires Sound(TrailOf(s, c), h, c, clock) && Clocked(ops, clock)
    ensures Sound(TrailOf(Run(s, h, ops), c), h, c, end)
    ensures FullHistory(TrailOf(Run(s, h, ops), c), h) == FullHistory(TrailOf(s, c), h) + Appended(s, h, ops, c)
    decreases |ops|
  {
    hide Sound, FullHistory;
    if ops == [] {
      end := clock;
      assert FullHistory(TrailOf(s, c), h) + [] == FullHistory(TrailOf(s, c), h);
    } else {
      var s' := Step(s, h, ops[0]);
      StepKeeps(s, h, ops[0], c, clock);
      end := RunRefinesLogFrom(s', h, ops[1..], c, ops[0].now);
      var before, first, later :=
        FullHistory(TrailOf(s, c), h), AppendedBy(s, ops[0], c), Appended(s', h, ops[1..], c);
      assert before + first + later == before + (first + later);
    }
  }

  /** For every run under a clock that never runs backwards: the archives followed by the hot trail
      read back exactly the events ever appended, and the bounds, digests and log hold. */
  lemma RunRefinesLog(h: Hash, ops: seq<Op>, c: Address) returns (end: u64)
    requires Clocked(ops, 0)
    ensures Sound(TrailOf(Run(map[], h, ops), c), h, c, end)
    ensures FullHistory(TrailOf(Run(map[], h, ops), c), h) == Appended(map[], h, ops, c)
  {
    EmptyTrailSound(h, c);
    hide Sound, FullHistory;
    end := RunRefinesLogFrom(map[], h, ops, c, 0);
  }

  lemma EmptyTrailSound(h: Hash, c: Address)
    ensures Sound(EMPTY_TRAIL, h, c, 0) && FullHistory(EMPTY_TRAIL, h) == []
  {
  }

  /** In every reachable state the hot trail is within its bound, an archive id below the counter
      reads back 1 to 50 entries, and any other id is reported missing. */
  lemma ReachableArchivesReadable(h: Hash, ops: seq<Op>, c: Address, id: u32)
    requires Clocked(ops, 0)
    ensures var t := TrailOf(Run(map[], h, ops), c);
            && |t.hot| <= MAX_HOT_ENTRIES
            && if id < t.config.totalArchives
               then ArchiveEntries(t, h, id).Ok? && 1 <= |ArchiveEntries(t, h, id).value| <= MAX_ENTRIES_PER_ARCHIVE
               else ArchiveEntries(t, h, id) == Err(ArchiveNotFound)
  {
    var end := RunRefinesLog(h, ops, c);
  }

  /** In every reachable state compression succeeds exactly when the oldest hot entry qualifies,
      unless the archive ids are used up; encoding never fails. */
  lemma ReachableCompressOutcome(h: Hash, ops: seq<Op>, c: Address, olderThan: u64, now: u64)
    requires Clocked(ops, 0)
    ensures var t := TrailOf(Run(map[], h, ops), c);
            Compress(t, h, c, olderThan, now).1 ==
            if |t.hot| == 0 || t.hot[0].timestamp >= olderThan then Err(NoEventsToCompress)
            else if t.config.totalArchives == U32_MAX then Err(Overflow)
            else Ok(t.config.totalArchives)
  {
    var end := RunRefinesLog(h, ops, c);
    var k := CompressMovesPrefix(TrailOf(Run(map[], h, ops), c), h, c, olderThan, now, end);
  }

  /** What archiving the first `k` hot entries does: they read back from the new archive, which has the next
      number, and the rest stays hot. */
  ghost predicate ArchivedPrefix(t: Trail, t': Trail, h: Hash, c: Address, k: nat, now: u64)
    requires 0 < k <= |t.hot| && t.config.totalArchives < U32_MAX
  {
    var id := t.config.totalArchives;
    && t'.hot == t.hot[k..]
    && t'.config == RetentionConfig(t.config.periodSecs, now, id + 1)
    && ArchiveEntries(t', h, id) == Ok(t.hot[..k])
    && t'.archives == t.archives[id := t'.archives[id]]
    && t'.archives[id].credential == c && t'.archives[id].createdAt == now
    && t'.archives[id].oldest == t.hot[0].timestamp && t'.archives[id].newest == t.hot[k - 1].timestamp
    && t'.compressions ==
       (if |t.compressions| < 100 then t.compressions else t.compressions[1..]) + [Compression(now, id, k as int)]
  }

  /** In every reachable state compression archives the oldest hot entries below the cutoff, up to fifty. */
  lemma ReachableCompressEffect(h: Hash, ops: seq<Op>, c: Address, olderThan: u64, now: u64) returns (k: nat)
    requires Clocked(ops, 0)
    ensures var t := TrailOf(Run(map[], h, ops), c);
            var (t', r) := Compress(t, h, c, olderThan, now);
            && k <= |t.hot| && k <= 50
            && (forall i :: 0 <= i < k ==> t.hot[i].timestamp < olderThan)
            && (k < |t.hot| && k < 50 ==> t.hot[k].timestamp >= olderThan)
            && (r.Ok? <==> k > 0 && t.config.totalArchives < U32_MAX)
            && (r.Err? ==> t' == t)
            && (r.Ok? ==> ArchivedPrefix(t, t', h, c, k, now))
  {
    var end := RunRefinesLog(h, ops, c);
    var t := TrailOf(Run(map[], h, ops), c);
    k := CompressMovesPrefix(t, h, c, olderThan, now, end);
    assert AllValid(t.hot);
    hide *;
    if k > 0 && t.config.totalArchives < U32_MAX {
      ArchivingMovesPrefix(t, h, c, k, now);
    }
  }

  lemma ArchivingMovesPrefix(t: Trail, h: Hash, c: Address, k: nat, now: u64)
    requires 0 < k <= |t.hot| && k <= MAX_ENTRIES_PER_ARCHIVE && AllValid(t.hot)
    requires t.config.totalArchives < U32_MAX
    ensures ArchivedPrefix(t, Archiving(t, h, c, t.hot[..k], t.hot[k..], now), h, c, k, now)
  {
    assert AllValid(t.hot[..k]);
    ArchivingAddsArchive(t, h, c, t.hot[..k], t.hot[k..], now);
    hide ArchiveEntries, Digest, AllValid;
  }

  /** Retention holds: in every reachable state, compressing what expired archives a prefix of entries that
      are all older than the retention period, at most fifty, and an entry within the period stays hot. */
  lemma RetentionRespected(h: Hash, ops: seq<Op>, c: Address, now: u64) returns (k: nat)
    requires Clocked(ops, 0)
    ensures var t := TrailOf(Run(map[], h, ops), c);
            var t' := StepTrail(t, h, DoCompressExpired(c, now));
            && k <= |t.hot| && k <= 50 && t'.hot == t.hot[k..]
            && (forall i :: 0 <= i < k ==> t.hot[i].timestamp + t.config.periodSecs < now)
            && (forall i :: 0 <= i < |t.hot| && t.hot[i].timestamp + t.config.periodSecs >= now ==> t.hot[i] in t'.hot)
            && (k < |t.hot| && k < 50 && t.config.totalArchives < U32_MAX ==>
                  t.hot[k].timestamp + t.config.periodSecs >= now)
  {
    var t := TrailOf(Run(map[], h, ops), c);
    k := ReachableCompressEffect(h, ops, c, Cutoff(t, now), now);
    hide Run, Compress;
    if Compress(t, h, c, Cutoff(t, now), now).1.Err? {
      k := 0;
    }
    forall i | 0 <= i < |t.hot| && t.hot[i].timestamp + t.config.periodSecs >= now ensures t.hot[i] in t.hot[k..] {
      assert i >= k && t.hot[k..][i - k] == t.hot[i];
    }
  }

  /** An entry is appended exactly when its event has 1 to 256 bytes and fewer than 200 entries are hot. */
  lemma AppendOutcome(t: Trail, event: seq<byte>, now: u64)
    ensures var (t', r) := Append(t, event, now);
            && r == (if |event| == 0 || |event| > 256 then Err(InvalidAuditEvent)
                     else if |t.hot| >= 200 then Err(AuditTrailFull)
                     else Ok(|t.hot| + 1))
            && t' == if r.Ok? then t.(hot := t.hot + [AuditEntry(now, event)]) else t
  {
  }

  /** A retention period is accepted exactly from seven days to five years; it alone is stored. */
  lemma RetentionOutcome(t: Trail, secs: u64)
    ensures var (t', r) := SetRetention(t, secs);
            && r == (if 604_800 <= secs <= 157_680_000 then Ok(()) else Err(InvalidRetentionPeriod))
            && t'.config.periodSecs == (if r.Ok? then secs else t.config.periodSecs)
            && t' == t.(config := t.config.(periodSecs := t'.config.periodSecs))
    ensures EMPTY_TRAIL.config.periodSecs == 7_776_000
  {
  }

  lemma StepKeepsArchive(s: State, h: Hash, op: Op, c: Address, id: u32, clock: u64)
    requires Sound(TrailOf(s, c), h, c, clock) && id in TrailOf(s, c).archives
    ensures id in TrailOf(Step(s, h, op), c).archives
    ensures TrailOf(Step(s, h, op), c).archives[id] == TrailOf(s, c).archives[id]
  {
    assert id < TrailOf(s, c).config.totalArchives;
    hide Sealed, Split, Sound;
  }

  /** An archive, once written, is never changed or removed by any later operation. */
  lemma {:induction false} ArchivesImmutable(s: State, h: Hash, ops: seq<Op>, c: Address, id: u32, clock: u64)
    requires Sound(TrailOf(s, c), h, c, clock) && Clocked(ops, clock) && id in TrailOf(s, c).archives
    ensures id in TrailOf(Run(s, h, ops), c).archives
    ensures TrailOf(Run(s, h, ops), c).archives[id] == TrailOf(s, c).archives[id]
    decreases |ops|
  {
    if ops == [] {
    } else {
      StepKeeps(s, h, ops[0], c, clock);
      StepKeepsArchive(s, h, ops[0], c, id, clock);
      hide Sound, Step;
      ArchivesImmutable(Step(s, h, ops[0]), h, ops[1..], c, id, ops[0].now);
    }
  }

  /** The history of a credential is in time order. */
  lemma {:induction false} HistoryOrdered(s: State, h: Hash, ops: seq<Op>, c: Address, clock: u64)
    requires Clocked(ops, clock)
    ensures Ordered(Appended(s, h, ops, c))
    ensures forall i :: 0 <= i < |Appended(s, h, ops, c)| ==> clock <= Appended(s, h, ops, c)[i].timestamp
    decreases |ops|
  {
    if ops == [] {
    } else {
      HistoryOrdered(Step(s, h, ops[0]), h, ops[1..], c, ops[0].now);
    }
  }

  /** The digest binds id, count and payload: two archives that differ in any of them agree on the
      digest only if the hash function collides on their two digest inputs. */
  lemma DigestBinds(h: Hash, id: u32, count: u32, payload: seq<byte>, id': u32, count': u32, payload': seq<byte>)
    requires (id, count, payload) != (id', count', payload')
    requires Digest(h, id, count, payload) == Digest(h, id', count', payload')
    ensures var x, y := DigestInput(id, count, payload), DigestInput(id', count', payload');
            x != y && h(x) == h(y)
  {
    var x, y := DigestInput(id, count, payload), DigestInput(id', count', payload');
    Widths();
    BigEndianRoundTrip(id, 4);
    BigEndianRoundTrip(id', 4);
    BigEndianRoundTrip(count, 4);
    BigEndianRoundTrip(count', 4);
    assert x[..4] == ToBigEndian(id, 4) && y[..4] == ToBigEndian(id', 4);
    assert x[4..8] == ToBigEndian(count, 4) && y[4..8] == ToBigEndian(count', 4);
    assert x[8..] == payload && y[8..] == payload';
  }

  /** A reader is never handed tampered data: when id, count or payload of a sound archive differ from
      what its digest was taken over, reading is refused, or the hash function has a collision. */
  lemma TamperedArchiveRejected(a: Archive, tampered: Archive, h: Hash, c: Address, id: u32)
    requires GoodArchive(a, h, c, id) && tampered.dataHash == a.dataHash
    requires (tampered.archiveId, tampered.entryCount, tampered.payload) != (a.archiveId, a.entryCount, a.payload)
    ensures var x := DigestInput(a.archiveId, a.entryCount, a.payload);
            var y := DigestInput(tampered.archiveId, tampered.entryCount, tampered.payload);
            ReadArchive(tampered, h) == Err(ArchiveIntegrityFailed) || (x != y && h(x) == h(y))
  {
    if Intact(tampered, h) {
      DigestBinds(h, a.archiveId, a.entryCount, a.payload,
                  tampered.archiveId, tampered.entryCount, tampered.payload);
    }
  }

  // ---------- the store ----------

  lemma SplitStep(trail: seq<AuditEntry>, i: nat, olderThan: u64, room: nat)
    requires i < |trail|
    ensures var e := trail[i];
            if e.timestamp < olderThan && room > 0
            then var rest := Split(trail[i + 1..], olderThan, room - 1);
                 Split(trail[i..], olderThan, room) == ([e] + rest.0, rest.1)
            else var rest := Split(trail[i + 1..], olderThan, room);
                 Split(trail[i..], olderThan, room) == (rest.0, [e] + rest.1)
  {
    assert trail[i..][1..] == trail[i + 1..];
  }

  class AuditStore {
    const sha256: Hash
    var trails: map<Address, seq<AuditEntry>>
    var configs: map<Address, RetentionConfig>
    var archives: map<Address, map<u32, Archive>>
    var compressions: map<Address, seq<Compression>>

    /** What is stored for `c`; a credential without a record has an empty trail. */
    ghost function View(c: Address): Trail
      reads this
    {
      Trail(if c in trails then trails[c] else [],
            if c in configs then configs[c] else DEFAULT_CONFIG,
            if c in archives then archives[c] else map[],
            if c in compressions then compressions[c] else [])
    }

    /** The records of all credentials that have any. */
    ghost function Contents(): State
      reads this
    {
      map c | c in trails.Keys + configs.Keys + archives.Keys + compressions.Keys :: View(c)
    }

    constructor (sha256: Hash)
      ensures forall c :: View(c) == EMPTY_TRAIL
      ensures this.sha256 == sha256
    {
      this.sha256 := sha256;
      trails, configs, archives, compressions := map[], map[], map[], map[];
    }

    method AppendEntry(c: Address, event: seq<byte>, now: u64) returns (r: Result<nat>)
      modifies `trails
      ensures (View(c), r) == Append(old(View(c)), event, now)
      ensures forall d :: d != c ==> View(d) == old(View(d))
      ensures Contents() == if r.Ok? then old(Contents())[c := View(c)] else old(Contents())
    {
      if |event| == 0 || |event| > MAX_AUDIT_EVENT_BYTES {
        return Err(InvalidAuditEvent);
      }
      var trail := if c in trails then trails[c] else [];
      if |trail| >= MAX_HOT_ENTRIES {
        return Err(AuditTrailFull);
      }
      trail := trail + [AuditEntry(now, event)];
      trails := trails[c := trail];
      return Ok(|trail|);
    }

    /** The loop that separates the entries to archive from those that stay. */
    method Partition(trail: seq<AuditEntry>, olderThan: u64)
      returns (archived: seq<AuditEntry>, remaining: seq<AuditEntry>)
      ensures (archived, remaining) == Split(trail, olderThan, MAX_ENTRIES_PER_ARCHIVE)
    {
      archived, remaining := [], [];
      ghost var whole := Split(trail, olderThan, MAX_ENTRIES_PER_ARCHIVE);
      assert trail[0..] == trail;
      assert [] + whole.0 == whole.0 && [] + whole.1 == whole.1;
      for i := 0 to |trail|
        invariant |archived| <= MAX_ENTRIES_PER_ARCHIVE
        invariant var rest := Split(trail[i..], olderThan, MAX_ENTRIES_PER_ARCHIVE - |archived|);
                  whole == (archived + rest.0, remaining + rest.1)
      {
        SplitStep(trail, i, olderThan, MAX_ENTRIES_PER_ARCHIVE - |archived|);
        hide Split;
        var entry := trail[i];
        if entry.timestamp < olderThan && |archived| < MAX_ENTRIES_PER_ARCHIVE {
          ghost var rest := Split(trail[i + 1..], olderThan, MAX_ENTRIES_PER_ARCHIVE - |archived| - 1);
          assert archived + ([entry] + rest.0) == archived + [entry] + rest.0;
          archived := archived + [entry];
        } else {
          ghost var rest := Split(trail[i + 1..], olderThan, MAX_ENTRIES_PER_ARCHIVE - |archived|);
          assert remaining + ([entry] + rest.1) == remaining + [entry] + rest.1;
          remaining := remaining + [entry];
        }
      }
      assert archived + [] == archived && remaining + [] == remaining;
    }

    /** Encodes `archived` and binds the payload to its id and entry count. */
    method Seal(c: Address, id: u32, now: u64, archived: seq<AuditEntry>) returns (r: Result<Archive>)
      requires 0 < |archived| <= U32_MAX
      ensures AllValid(archived) ==> r == Ok(Sealed(sha256, c, id, now, archived))
      ensures !AllValid(archived) ==> r == Err(InvalidAuditEvent)
    {
      var encoded := EncodeEntries(archived);
      if encoded.Err? {
        return Err(encoded.error);
      }
      var payload, entryCount: u32 := encoded.value, |archived|;
      return Ok(Archive(c, id, now, entryCount, archived[0].timestamp, archived[entryCount - 1].timestamp,
                        Digest(sha256, id, entryCount, payload), payload));
    }

    method CompressTrail(c: Address, olderThan: u64, now: u64) returns (r: Result<u32>)
      modifies this
      ensures (View(c), r) == Compress(old(View(c)), sha256, c, olderThan, now)
      ensures forall d :: d != c ==> View(d) == old(View(d))
    {
      hide Split;
      var trail := if c in trails then trails[c] else [];
      var archived, remaining := Partition(trail, olderThan);
      if archived == [] {
        return Err(NoEventsToCompress);
      }
      var config := if c in configs then configs[c] else DEFAULT_CONFIG;
      var archiveId := config.totalArchives;
      var sealed := Seal(c, archiveId, now, archived);
      if sealed.Err? {
        return Err(sealed.error);
      }
      if archiveId == U32_MAX {
        return Err(Overflow);
      }
      var log := if c in compressions then compressions[c] else [];
      if |log| >= MAX_COMPRESSION_LOG {
        log := log[1..];
      }
      log := log + [Compression(now, archiveId, |archived|)];
      Write(c, sealed.value, config.(totalArchives := archiveId + 1, lastCompressionAt := now), remaining, log);
      return Ok(archiveId);
    }

    /** The storage writes of a successful compression. */
    method Write(c: Address, archive: Archive, config: RetentionConfig,
                 remaining: seq<AuditEntry>, log: seq<Compression>)
      modifies this
      ensures View(c) == Trail(remaining, config, old(View(c)).archives[archive.archiveId := archive], log)
      ensures forall d :: d != c ==> View(d) == old(View(d))
    {
      var earlier := if c in archives then archives[c] else map[];
      archives := archives[c := earlier[archive.archiveId := archive]];
      configs := configs[c := config];
      trails := trails[c := remaining];
      compressions := compressions[c := log];
    }

    method CompressExpired(c: Address, now: u64) returns (r: Result<u32>)
      modifies this
      ensures (View(c), r) == Compress(old(View(c)), sha256, c, Cutoff(old(View(c)), now), now)
      ensures forall d :: d != c ==> View(d) == old(View(d))
    {
      var retention := (if c in configs then configs[c] else DEFAULT_CONFIG).periodSecs;
      var cutoff: u64 := if now >= retention then now - retention else 0;
      r := CompressTrail(c, cutoff, now);
    }

    method SetRetentionConfig(c: Address, secs: u64) returns (r: Result<()>)
      modifies this
      ensures (View(c), r) == SetRetention(old(View(c)), secs)
      ensures forall d :: d != c ==> View(d) == old(View(d))
    {
      if secs < MIN_RETENTION_SECS || secs > MAX_RETENTION_SECS {
        return Err(InvalidRetentionPeriod);
      }
      var config := if c in configs then configs[c] else DEFAULT_CONFIG;
      configs := configs[c := config.(periodSecs := secs)];
      return Ok(());
    }

    method GetArchiveEntries(c: Address, id: u32) returns (r: Result<seq<AuditEntry>>)
      ensures r == ArchiveEntries(View(c), sha256, id)
    {
      if c !in archives || id !in archives[c] {
        return Err(ArchiveNotFound);
      }
      var archive := archives[c][id];
      if Digest(sha256, archive.archiveId, archive.entryCount, archive.payload) != archive.dataHash {
        return Err(ArchiveIntegrityFailed);
      }
      r := DecodeEntries(archive.payload, archive.entryCount);
    }
  }
}
