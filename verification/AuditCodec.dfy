/** The packed binary encoding of archived audit entries: for each entry a big-endian timestamp of
    eight bytes, a big-endian length of four bytes, and the event's bytes. */
module AuditCodec {
  import opened Host

  const MAX_AUDIT_EVENT_BYTES: nat := 256
  const ENTRY_HEADER_BYTES: nat := 12

  datatype AuditEntry = AuditEntry(timestamp: u64, event: seq<byte>)

  predicate ValidEvent(event: seq<byte>) {
    1 <= |event| <= MAX_AUDIT_EVENT_BYTES
  }

  predicate AllValid(entries: seq<AuditEntry>) {
    forall i :: 0 <= i < |entries| ==> ValidEvent(entries[i].event)
  }

  // ---------- big-endian numbers ----------

  function Pow256(width: nat): (p: nat)
    ensures p > 0
  {
    if width == 0 then 1 else 256 * Pow256(width - 1)
  }

  function ToBigEndian(n: nat, width: nat): (b: seq<byte>)
    ensures |b| == width
  {
    if width == 0 then [] else ToBigEndian(n / 256, width - 1) + [n % 256]
  }

  function FromBigEndian(b: seq<byte>): nat {
    if b == [] then 0 else 256 * FromBigEndian(b[..|b| - 1]) + b[|b| - 1]
  }

  lemma {:induction false} BigEndianRoundTrip(n: nat, width: nat)
    requires n < Pow256(width)
    ensures FromBigEndian(ToBigEndian(n, width)) == n
  {
    if width == 0 {
    } else {
      BigEndianRoundTrip(n / 256, width - 1);
      var b := ToBigEndian(n, width);
      assert b[..|b| - 1] == ToBigEndian(n / 256, width - 1);
    }
  }

  lemma {:induction false} BigEndianInverse(b: seq<byte>)
    ensures FromBigEndian(b) < Pow256(|b|)
    ensures ToBigEndian(FromBigEndian(b), |b|) == b
  {
    if b == [] {
    } else {
      var front, last := b[..|b| - 1], b[|b| - 1];
      BigEndianInverse(front);
      var n := FromBigEndian(b);
      assert n / 256 == FromBigEndian(front) && n % 256 == last;
      assert b == front + [last];
    }
  }

  /** The first byte of a number is its most significant one. */
  lemma {:induction false} BigEndianFirst(b: byte, rest: seq<byte>)
    ensures FromBigEndian([b] + rest) == b * Pow256(|rest|) + FromBigEndian(rest)
  {
    if rest == [] {
      assert [b] + rest == [b];
    } else {
      var front := rest[..|rest| - 1];
      BigEndianFirst(b, front);
      assert ([b] + rest)[..|rest|] == [b] + front;
      assert b * (256 * Pow256(|front|)) == 256 * (b * Pow256(|front|));
    }
  }

  lemma Widths()
    ensures Pow256(4) == U32_MAX + 1
    ensures Pow256(8) == U64_MAX + 1
  {
    assert Pow256(2) == 0x1_0000;
    assert Pow256(4) == 0x1_0000_0000;
    assert Pow256(6) == 0x1_0000_0000_0000;
  }

  // ---------- the encoding ----------

  function PackEntry(e: AuditEntry): seq<byte> {
    ToBigEndian(e.timestamp, 8) + ToBigEndian(|e.event|, 4) + e.event
  }

  function Packed(entries: seq<AuditEntry>): seq<byte> {
    if entries == [] then [] else PackEntry(entries[0]) + Packed(entries[1..])
  }

  lemma {:induction false} PackedAppend(xs: seq<AuditEntry>, ys: seq<AuditEntry>)
    ensures Packed(xs + ys) == Packed(xs) + Packed(ys)
  {
    if xs == [] {
      assert xs + ys == ys;
    } else {
      PackedAppend(xs[1..], ys);
      assert (xs + ys)[0] == xs[0] && (xs + ys)[1..] == xs[1..] + ys;
      hide PackEntry;
    }
  }

  /** Packs entries into one payload, refusing a list with an event that is empty or too long. */
  method EncodeEntries(entries: seq<AuditEntry>) returns (r: Result<seq<byte>>)
    ensures AllValid(entries) ==> r == Ok(Packed(entries))
    ensures !AllValid(entries) ==> r == Err(InvalidAuditEvent)
  {
    var out: seq<byte> := [];
    for i := 0 to |entries|
      invariant AllValid(entries[..i])
      invariant out == Packed(entries[..i])
    {
      var entry := entries[i];
      var len := |entry.event|;
      if len == 0 || len > MAX_AUDIT_EVENT_BYTES {
        return Err(InvalidAuditEvent);
      }
      out := out + ToBigEndian(entry.timestamp, 8);
      out := out + ToBigEndian(len, 4);
      out := out + entry.event;

      assert entries[..i + 1] == entries[..i] + [entry];
      PackedAppend(entries[..i], [entry]);
      assert Packed([entry]) == PackEntry(entry) + Packed([]);
      assert out == Packed(entries[..i]) + PackEntry(entry);
    }
    assert entries[..|entries|] == entries;
    return Ok(out);
  }

  // ---------- reading the encoding back ----------

  /** The entry at the head of `p`, if `p` starts with a well-formed one. */
  function ReadEntry(p: seq<byte>): (r: Option<AuditEntry>)
    ensures r.Some? ==> ValidEvent(r.value.event)
    ensures r.Some? ==> ENTRY_HEADER_BYTES + |r.value.event| <= |p|
  {
    if |p| < ENTRY_HEADER_BYTES then None
    else
      var len := FromBigEndian(p[8..12]);
      if len == 0 || len > MAX_AUDIT_EVENT_BYTES || |p| - ENTRY_HEADER_BYTES < len then None
      else
        BigEndianInverse(p[..8]);
        Widths();
        Some(AuditEntry(FromBigEndian(p[..8]), p[ENTRY_HEADER_BYTES..ENTRY_HEADER_BYTES + len]))
  }

  function Unpacked(p: seq<byte>): Option<seq<AuditEntry>>
    decreases |p|
  {
    if p == [] then Some([])
    else
      match ReadEntry(p)
      case None => None
      case Some(e) =>
        match Unpacked(p[ENTRY_HEADER_BYTES + |e.event|..])
        case None => None
        case Some(rest) => Some([e] + rest)
  }

  /** The result of decoding payload `p` when `count` entries are expected. */
  function Decode(p: seq<byte>, count: nat): Result<seq<AuditEntry>> {
    match Unpacked(p)
    case None => Err(ArchiveCorrupted)
    case Some(xs) => if |xs| == count then Ok(xs) else Err(ArchiveCorrupted)
  }

  lemma ReadPacked(e: AuditEntry, rest: seq<byte>)
    requires ValidEvent(e.event)
    ensures ReadEntry(PackEntry(e) + rest) == Some(e)
    ensures |PackEntry(e)| == ENTRY_HEADER_BYTES + |e.event|
  {
    var p := PackEntry(e) + rest;
    Widths();
    assert p[..8] == ToBigEndian(e.timestamp, 8);
    assert p[8..12] == ToBigEndian(|e.event|, 4);
    assert p[12..12 + |e.event|] == e.event;
    BigEndianRoundTrip(e.timestamp, 8);
    BigEndianRoundTrip(|e.event|, 4);
  }

  /** A record is eight bytes of timestamp, four bytes of length, and the event. */
  lemma RecordLayout(e: AuditEntry)
    requires ValidEvent(e.event)
    ensures var p := PackEntry(e);
            && |p| == 12 + |e.event|
            && FromBigEndian(p[..8]) == e.timestamp && FromBigEndian(p[8..12]) == |e.event| && p[12..] == e.event
  {
    ReadPacked(e, []);
    assert PackEntry(e) + [] == PackEntry(e);
  }

  lemma PackRead(p: seq<byte>, e: AuditEntry)
    requires ReadEntry(p) == Some(e)
    ensures PackEntry(e) == p[..ENTRY_HEADER_BYTES + |e.event|]
  {
    BigEndianInverse(p[..8]);
    BigEndianInverse(p[8..12]);
    assert p[..12 + |e.event|] == p[..8] + p[8..12] + p[12..12 + |e.event|];
  }

  lemma {:induction false} UnpackPacked(xs: seq<AuditEntry>)
    requires AllValid(xs)
    ensures Unpacked(Packed(xs)) == Some(xs)
  {
    if xs == [] {
    } else {
      var rest := Packed(xs[1..]);
      ReadPacked(xs[0], rest);
      assert (PackEntry(xs[0]) + rest)[|PackEntry(xs[0])|..] == rest;
      UnpackPacked(xs[1..]);
      assert [xs[0]] + xs[1..] == xs;
    }
  }

  lemma {:induction false} PackUnpacked(p: seq<byte>, xs: seq<AuditEntry>)
    requires Unpacked(p) == Some(xs)
    ensures AllValid(xs) && Packed(xs) == p
    decreases |p|
  {
    if p == [] {
    } else {
      var e := ReadEntry(p).value;
      PackRead(p, e);
      var k := ENTRY_HEADER_BYTES + |e.event|;
      PackUnpacked(p[k..], xs[1..]);
      assert p == p[..k] + p[k..];
    }
  }

  /** Decoding undoes encoding, for every list of valid entries. */
  lemma DecodeEncode(xs: seq<AuditEntry>)
    requires AllValid(xs)
    ensures Decode(Packed(xs), |xs|) == Ok(xs)
  {
    UnpackPacked(xs);
  }

  /** Decoding accepts exactly the payloads that encode `count` valid entries, and yields those. */
  lemma DecodeAcceptsExactlyEncodings(p: seq<byte>, count: nat, xs: seq<AuditEntry>)
    ensures Decode(p, count) == Ok(xs) <==> AllValid(xs) && |xs| == count && Packed(xs) == p
    ensures Decode(p, count).Err? ==> Decode(p, count) == Err(ArchiveCorrupted)
  {
    if Decode(p, count) == Ok(xs) {
      PackUnpacked(p, xs);
    }
    if AllValid(xs) && Packed(xs) == p {
      UnpackPacked(xs);
    }
  }

  /** No two lists of valid entries share a payload. */
  lemma PackedInjective(xs: seq<AuditEntry>, ys: seq<AuditEntry>)
    requires AllValid(xs) && AllValid(ys)
    ensures Packed(xs) == Packed(ys) ==> xs == ys
  {
    UnpackPacked(xs);
    UnpackPacked(ys);
  }

  /** The decoding of a payload of which `entries` have been read and `rest` remains. */
  ghost function Continues(entries: seq<AuditEntry>, rest: seq<byte>): Option<seq<AuditEntry>> {
    match Unpacked(rest)
    case None => None
    case Some(xs) => Some(entries + xs)
  }

  /** Reading at a position of the payload is reading the head of what remains there. */
  lemma ReadAt(p: seq<byte>, pos: nat)
    requires pos < |p|
    ensures |p| - pos < ENTRY_HEADER_BYTES ==> ReadEntry(p[pos..]) == None
    ensures |p| - pos >= ENTRY_HEADER_BYTES ==>
              && FromBigEndian(p[pos..pos + 8]) <= U64_MAX
              && var len := FromBigEndian(p[pos + 8..pos + 12]);
                 ReadEntry(p[pos..]) ==
                 if len == 0 || len > MAX_AUDIT_EVENT_BYTES || |p| - pos - ENTRY_HEADER_BYTES < len then None
                 else Some(AuditEntry(FromBigEndian(p[pos..pos + 8]), p[pos + 12..pos + 12 + len]))
  {
    if |p| - pos >= ENTRY_HEADER_BYTES {
      var here := p[pos..];
      assert here[..8] == p[pos..pos + 8] && here[8..12] == p[pos + 8..pos + 12];
      BigEndianInverse(p[pos..pos + 8]);
      Widths();
      var len := FromBigEndian(p[pos + 8..pos + 12]);
      if len <= |p| - pos - ENTRY_HEADER_BYTES {
        assert here[12..12 + len] == p[pos + 12..pos + 12 + len];
      }
    }
  }

  lemma ContinuesStep(p: seq<byte>, pos: nat, entries: seq<AuditEntry>)
    requires pos < |p|
    ensures match ReadEntry(p[pos..])
            case None => Continues(entries, p[pos..]) == None
            case Some(e) =>
              var next := pos + ENTRY_HEADER_BYTES + |e.event|;
              next <= |p| && Continues(entries, p[pos..]) == Continues(entries + [e], p[next..])
  {
    var r := ReadEntry(p[pos..]);
    if r.Some? {
      var e, k := r.value, ENTRY_HEADER_BYTES + |r.value.event|;
      assert p[pos..][k..] == p[pos + k..];
      var rest := Unpacked(p[pos + k..]);
      if rest.Some? {
        assert entries + ([e] + rest.value) == entries + [e] + rest.value;
      }
    }
  }

  /** Decodes a payload.  Every read is inside the payload and no length subtraction goes below zero. */
  method DecodeEntries(payload: seq<byte>, expectedCount: u32) returns (r: Result<seq<AuditEntry>>)
    ensures r == Decode(payload, expectedCount)
  {
    var total: nat := |payload|;
    var entries: seq<AuditEntry> := [];
    var pos: nat := 0;
    assert payload[0..] == payload;
    assert Unpacked(payload).Some? ==> [] + Unpacked(payload).value == Unpacked(payload).value;
    while pos < total
      invariant pos <= total
      invariant Unpacked(payload) == Continues(entries, payload[pos..])
      decreases total - pos
    {
      ReadAt(payload, pos);
      ContinuesStep(payload, pos, entries);
      hide Unpacked, ReadEntry, FromBigEndian;
      var left: nat := total - pos;
      if left < ENTRY_HEADER_BYTES {
        return Err(ArchiveCorrupted);
      }
      var timestamp: u64 := FromBigEndian(payload[pos..pos + 8]);
      var len: nat := FromBigEndian(payload[pos + 8..pos + 12]);
      pos := pos + ENTRY_HEADER_BYTES;
      left := total - pos;
      if len == 0 || len > MAX_AUDIT_EVENT_BYTES || left < len {
        return Err(ArchiveCorrupted);
      }
      entries := entries + [AuditEntry(timestamp, payload[pos..pos + len])];
      pos := pos + len;
    }
    assert payload[pos..] == [] && entries + [] == entries;
    if |entries| != expectedCount {
      return Err(ArchiveCorrupted);
    }
    return Ok(entries);
  }
}
