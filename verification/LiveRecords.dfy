// Records on the live link: how one is laid out, and what a reader that finds its way back
// after damage makes of a stream of bytes.
module LiveRecords {
  import opened Bytes
  import opened Registers
  import opened FastCrc

  const SYNC0: byte := 0x9E
  const SYNC1: byte := 0xC5

  const MFM: byte := 1
  const FLUX: byte := 2
  const EVENT: byte := 3
  const HELLO: byte := 4
  const STATUS: byte := 5
  const ACK: byte := 6
  const NAK: byte := 7
  const TEST: byte := 8

  const HEADER := 12
  const LONGEST := 12 + 2 * 0xFFFF + 2

  datatype Record = Record(kind: byte, flags: byte, count: nat, ticks: nat, index: nat, payload: seq<byte>)
  {
    predicate Valid()
    {
      && count < 0x1_0000 && ticks < 0x1_0000 && index < 0x1_0000_0000
      && Recognised(kind, PayloadBytes(kind, count))
      && |payload| == PayloadBytes(kind, count)
    }
  }

  function PayloadBytes(kind: byte, count: nat): (p: nat)
    ensures kind == 1 ==> 8 * (p - 1) < count <= 8 * p
    ensures (kind == 2 ==> p == count + count) && (kind == 8 ==> p == count)
    ensures (kind == 3 ==> p == 16) && (kind == 4 || kind == 5 ==> p == 32) && (kind == 6 || kind == 7 ==> p == 4)
    ensures kind == 0 || kind > 8 ==> p == 0
  {
    if kind == MFM then (count + 7) / 8
    else if kind == FLUX then 2 * count
    else if kind == EVENT then 16
    else if kind == HELLO || kind == STATUS then 32
    else if kind == ACK || kind == NAK then 4
    else if kind == TEST then count
    else 0
  }

  /** A type with no payload is only a record if its payload can be empty. */
  predicate Recognised(kind: byte, length: nat)
  {
    !(length == 0 && kind != MFM && kind != FLUX && kind != TEST)
  }

  // The trailer.

  function Crc16(data: seq<byte>): (r: Bits)
    ensures |r| == 16
  {
    CatalogueValid();
    CCITT.Crc(data)
  }

  /** The CRC that bytes `at` and `at + 1` hold, low byte first. */
  function TrailerAt(s: seq<byte>, at: nat): Bits
    requires at + 2 <= |s|
  {
    Bits8(s[at]) + Bits8(s[at + 1])
  }

  function Body(r: Record): (s: seq<byte>)
    requires r.Valid()
    ensures |s| == HEADER + |r.payload|
  {
    [SYNC0, SYNC1, r.kind, r.flags] + Le16(r.count) + Le16(r.ticks) + Le32(r.index) + r.payload
  }

  function Encode(r: Record): (s: seq<byte>)
    requires r.Valid()
    ensures |s| == HEADER + |r.payload| + 2
  {
    var crc := Crc16(Body(r));
    Body(r) + [ByteOf(crc[..8]), ByteOf(crc[8..])]
  }

  /** Where everything is in an encoded record. */
  lemma EncodedLayout(r: Record)
    requires r.Valid()
    ensures var u, n := Encode(r), |r.payload|;
      && |u| == 14 + n && u[0] == 0x9E && u[1] == 0xC5 && u[2] == r.kind && u[3] == r.flags
      && u[4] as int + 256 * u[5] as int == r.count && u[6] as int + 256 * u[7] as int == r.ticks
      && u[8] as int + 256 * u[9] as int + 0x1_0000 * u[10] as int + 0x100_0000 * u[11] as int == r.index
      && u[12..12 + n] == r.payload
      && Bits8(u[12 + n]) + Bits8(u[13 + n]) == Crc16(u[..12 + n])
  {
    hide Crc16, PayloadBytes, Recognised;
    var body, crc := Body(r), Crc16(Body(r));
    var u, n := Encode(r), |r.payload|;
    assert u[..12 + n] == body && crc[..8] + crc[8..] == crc;
    var counts, ticks, index := Le16(r.count), Le16(r.ticks), Le32(r.index);
    assert u[4] == counts[0] && u[5] == counts[1] && u[6] == ticks[0] && u[7] == ticks[1];
    assert u[8] == index[0] && u[9] == index[1] && u[10] == index[2] && u[11] == index[3];
    assert Word16(counts, 0) == r.count && Word16(ticks, 0) == r.ticks && Word32(index, 0) == r.index;
  }

  // Reading.

  predicate IsSync(s: seq<byte>, i: nat)
  {
    i + 1 < |s| && s[i] == SYNC0 && s[i + 1] == SYNC1
  }

  /** Where the first sync pair is, or -1. */
  function FindSync(s: seq<byte>): (i: int)
    ensures i == -1 || (0 <= i && IsSync(s, i))
    ensures forall j {:trigger IsSync(s, j)} :: 0 <= j && (i < 0 || j < i) ==> !IsSync(s, j)
  {
    FindFrom(s, 0)
  }

  function FindFrom(s: seq<byte>, from: nat): (i: int)
    ensures i == -1 || (from <= i && IsSync(s, i))
    ensures forall j {:trigger IsSync(s, j)} :: from <= j && (i < 0 || j < i) ==> !IsSync(s, j)
    decreases |s| - from
  {
    if from + 1 >= |s| then -1
    else if IsSync(s, from) then from
    else FindFrom(s, from + 1)
  }

  lemma FindUnique(s: seq<byte>, i: nat)
    requires IsSync(s, i) && forall j {:trigger IsSync(s, j)} :: 0 <= j < i ==> !IsSync(s, j)
    ensures FindSync(s) == i
  {
    assert FindSync(s) >= 0 ==> IsSync(s, FindSync(s));
  }

  /** What a sync pair turns out to start. */
  datatype Head = Wait | Reject(badCrc: bool) | Accept(total: nat, record: Record)

  function HeadOf(u: seq<byte>): (h: Head)
    requires IsSync(u, 0)
    ensures h.Accept? ==> HEADER + 2 <= h.total <= |u| && h.total == HEADER + 2 + |h.record.payload|
  {
    if |u| < HEADER then Wait
    else
      var length := PayloadBytes(u[2], Word16(u, 4));
      var total := HEADER + length + 2;
      if !Recognised(u[2], length) then Reject(false)
      else if |u| < total then Wait
      else if Crc16(u[..HEADER + length]) != TrailerAt(u, HEADER + length) then Reject(true)
      else Accept(total, Record(u[2], u[3], Word16(u, 4), Word16(u, 6), Word32(u, 8), u[HEADER..HEADER + length]))
  }

  lemma HeadTail(u: seq<byte>, t: seq<byte>)
    requires |u| >= HEADER
    ensures Word16(u + t, 4) == Word16(u, 4) && Word16(u + t, 6) == Word16(u, 6) && Word32(u + t, 8) == Word32(u, 8)
    ensures forall at {:trigger TrailerAt(u, at)} :: 0 <= at <= |u| - 2 ==> TrailerAt(u + t, at) == TrailerAt(u, at)
  {
  }

  /** More bytes do not change a verdict. */
  lemma HeadStable(u: seq<byte>, t: seq<byte>)
    requires IsSync(u, 0)
    ensures IsSync(u + t, 0)
    ensures HeadOf(u) != Wait ==> HeadOf(u + t) == HeadOf(u)
  {
    hide Crc16, TrailerAt, Word16, Word32, PayloadBytes, Recognised;
    if |u| >= HEADER {
      HeadTail(u, t);
      var length := PayloadBytes(u[2], Word16(u, 4));
      assert (u + t)[2] == u[2] && (u + t)[3] == u[3];
      if Recognised(u[2], length) && |u| >= HEADER + length + 2 {
        assert (u + t)[..HEADER + length] == u[..HEADER + length];
        assert (u + t)[HEADER..HEADER + length] == u[HEADER..HEADER + length];
      }
    }
  }

  // A whole stream, read at leisure.

  /** A record and the bytes of the stream that it took up. */
  datatype Hit = Hit(at: nat, end: nat, record: Record)

  /** The records in a stream, how many candidates failed their CRC, and where the reader ended up waiting. */
  datatype Report = Report(hits: seq<Hit>, bad: nat, stop: nat)

  /** `base` is the place of `s` in the whole stream. */
  function Scan(s: seq<byte>, base: nat): (r: Report)
    decreases |s|
  {
    var i := FindSync(s);
    if i < 0 then Report([], 0, base + |s|)
    else
      match HeadOf(s[i..])
      case Wait => Report([], 0, base + i)
      case Reject(badCrc) =>
        var rest := Scan(s[i + 2..], base + i + 2);
        if badCrc then rest.(bad := rest.bad + 1) else rest
      case Accept(total, record) =>
        var rest := Scan(s[i + total..], base + i + total);
        rest.(hits := [Hit(base + i, base + i + total, record)] + rest.hits)
  }

  /** What is accepted is a record as it is encoded, check bytes and all. */
  lemma AcceptedIsEncoded(u: seq<byte>)
    requires IsSync(u, 0) && HeadOf(u).Accept?
    ensures var total, r := HeadOf(u).total, HeadOf(u).record; r.Valid() && u[..total] == Encode(r)
  {
    hide Crc16, PayloadBytes, Recognised, Bits8, ByteOf, Le16, Le32, Word16, Word32;
    var total, r := HeadOf(u).total, HeadOf(u).record;
    var n := total - 2;
    WordBack(u, 4);
    WordBack(u, 6);
    LongBack(u, 8);
    assert u[..n] == u[..4] + u[4..6] + u[6..8] + u[8..12] + u[12..n];
    assert u[..4] == [SYNC0, SYNC1, r.kind, r.flags];
    assert Body(r) == u[..n];
    var crc := Crc16(Body(r));
    assert crc[..8] == Bits8(u[n]) && crc[8..] == Bits8(u[n + 1]);
    ByteBack(u[n]);
    ByteBack(u[n + 1]);
    assert u[..total] == u[..n] + [u[n], u[n + 1]];
  }

  lemma WordBack(u: seq<byte>, at: nat)
    requires at + 2 <= |u|
    ensures Le16(Word16(u, at)) == u[at..at + 2]
  {
  }

  lemma LongBack(u: seq<byte>, at: nat)
    requires at + 4 <= |u|
    ensures Le32(Word32(u, at)) == u[at..at + 4]
  {
    hide Le16, Word16;
    WordBack(u, at);
    WordBack(u, at + 2);
    var low, high := Word16(u, at), Word16(u, at + 2);
    assert Word32(u, at) % 0x1_0000 == low && Word32(u, at) / 0x1_0000 == high;
    assert u[at..at + 4] == u[at..at + 2] + u[at + 2..at + 4];
  }

  /** A record that was read stands in the stream just where it was found. */
  ghost predicate Stands(s: seq<byte>, base: nat, h: Hit)
  {
    && base <= h.at <= h.end <= base + |s|
    && h.record.Valid() && s[h.at - base..h.end - base] == Encode(h.record)
  }

  /** Everything that is read stands in the stream. */
  lemma {:induction false} HitsStand(s: seq<byte>, base: nat)
    ensures forall h :: h in Scan(s, base).hits ==> Stands(s, base, h)
    decreases |s|
  {
    hide HeadOf, FindSync, Encode, Record.Valid, Stands;
    var i := FindSync(s);
    if i >= 0 {
      match HeadOf(s[i..])
      case Wait =>
      case Reject(_) =>
        HitsStand(s[i + 2..], base + i + 2);
        StandsFurther(s, base, i + 2);
      case Accept(total, record) =>
        HitsStand(s[i + total..], base + i + total);
        StandsFurther(s, base, i + total);
        AcceptedStands(s, base, i);
    }
  }

  lemma AcceptedStands(s: seq<byte>, base: nat, i: nat)
    requires i < |s| && IsSync(s[i..], 0) && HeadOf(s[i..]).Accept?
    ensures var head := HeadOf(s[i..]); Stands(s, base, Hit(base + i, base + i + head.total, head.record))
  {
    hide HeadOf, Encode, Record.Valid;
    AcceptedIsEncoded(s[i..]);
    var total := HeadOf(s[i..]).total;
    assert s[i..][..total] == s[i..i + total];
  }

  lemma StandsFurther(s: seq<byte>, base: nat, n: nat)
    requires n <= |s|
    ensures forall h :: Stands(s[n..], base + n, h) ==> Stands(s, base, h)
  {
    hide Encode, Record.Valid;
    forall h | Stands(s[n..], base + n, h)
      ensures Stands(s, base, h)
    {
      assert s[n..][h.at - base - n..h.end - base - n] == s[h.at - base..h.end - base];
    }
  }

  /** Bytes before the first sync pair make no difference. */
  lemma ScanGarbage(s: seq<byte>, base: nat, n: nat)
    requires n <= |s| && forall j {:trigger IsSync(s, j)} :: 0 <= j < n ==> !IsSync(s, j)
    ensures Scan(s, base) == Scan(s[n..], base + n)
  {
    hide HeadOf, FindSync;
    var i, u := FindSync(s), s[n..];
    if i < 0 {
      assert FindSync(u) >= 0 ==> IsSync(s, n + FindSync(u));
    } else {
      forall j | 0 <= j < i - n
        ensures !IsSync(u, j)
      {
        assert !IsSync(s, n + j);
      }
      FindUnique(u, i - n);
      var k := i - n;
      assert u[k..] == s[i..];
      if HeadOf(s[i..]).Accept? {
        var total := HeadOf(s[i..]).total;
        assert u[k + total..] == s[i + total..];
      } else {
        assert u[k + 2..] == s[i + 2..];
      }
    }
  }

  /** A verdict on the bytes at hand stands when the rest of the stream is added. */
  lemma ScanVerdict(u: seq<byte>, t: seq<byte>, base: nat)
    requires IsSync(u, 0) && HeadOf(u) != Wait
    ensures HeadOf(u).Reject? ==>
      Scan(u + t, base) == (var rest := Scan(u[2..] + t, base + 2);
                            if HeadOf(u).badCrc then rest.(bad := rest.bad + 1) else rest)
    ensures HeadOf(u).Accept? ==>
      var total := HeadOf(u).total;
      var rest := Scan(u[total..] + t, base + total);
      Scan(u + t, base) == rest.(hits := [Hit(base, base + total, HeadOf(u).record)] + rest.hits)
  {
    hide HeadOf, FindSync;
    HeadStable(u, t);
    FindUnique(u + t, 0);
    assert (u + t)[0..] == u + t;
    assert (u + t)[2..] == u[2..] + t;
    if HeadOf(u).Accept? {
      assert (u + t)[HeadOf(u).total..] == u[HeadOf(u).total..] + t;
    }
  }

  function Records(hits: seq<Hit>): (r: seq<Record>)
    ensures |r| == |hits|
  {
    if hits == [] then [] else [hits[0].record] + Records(hits[1..])
  }

  // A stream of records and nothing else.

  predicate AllValid(rs: seq<Record>)
  {
    forall r :: r in rs ==> r.Valid()
  }

  function EncodeAll(rs: seq<Record>): seq<byte>
    requires AllValid(rs)
  {
    if rs == [] then [] else Encode(rs[0]) + EncodeAll(rs[1..])
  }

  ghost predicate Clean(s: seq<byte>)
  {
    exists rs: seq<Record> {:trigger EncodeAll(rs)} :: AllValid(rs) && s == EncodeAll(rs)
  }

  lemma BodyFields(r: Record)
    requires r.Valid()
    ensures var b := Body(r);
            && b[0] == SYNC0 && b[1] == SYNC1 && b[2] == r.kind && b[3] == r.flags
            && Word16(b, 4) == r.count && Word16(b, 6) == r.ticks && Word32(b, 8) == r.index
            && b[HEADER..] == r.payload
  {
    var b := Body(r);
    assert b[4..6] == Le16(r.count) && b[6..8] == Le16(r.ticks) && b[8..12] == Le32(r.index);
    assert b[4] == Le16(r.count)[0] && b[5] == Le16(r.count)[1];
    assert b[6] == Le16(r.ticks)[0] && b[7] == Le16(r.ticks)[1];
    forall k | 0 <= k < 4
      ensures b[8 + k] == Le32(r.index)[k]
    {
    }
  }

  /** An encoded record reads back as itself, whatever follows. */
  lemma EncodedAccepted(r: Record, t: seq<byte>)
    requires r.Valid()
    ensures IsSync(Encode(r) + t, 0)
    ensures HeadOf(Encode(r) + t) == Accept(|Encode(r)|, r)
  {
    hide Crc16, Body, FindSync;
    var u, b, crc := Encode(r), Body(r), Crc16(Body(r));
    BodyFields(r);
    assert u[..|b|] == b;
    assert forall k :: 0 <= k < |b| ==> u[k] == b[k];
    assert u[HEADER..|b|] == r.payload;
    assert TrailerAt(u, |b|) == crc[..8] + crc[8..] == crc;
    HeadStable(u, t);
  }

  /** A candidate is accepted if and only if an encoded record stands there; it has a bad CRC if and
      only if none does though a record could begin so and all its bytes are there. */
  lemma VerdictsMean(u: seq<byte>)
    requires IsSync(u, 0)
    ensures HeadOf(u).Accept? <==> exists r: Record :: r.Valid() && Encode(r) <= u
    ensures HeadOf(u) == Reject(true)
       <==> !(exists r: Record :: r.Valid() && Encode(r) <= u)
            && |u| >= 12 && var n := PayloadBytes(u[2], Word16(u, 4)); Recognised(u[2], n) && 14 + n <= |u|
    ensures HeadOf(u) == Reject(false) <==> |u| >= 12 && !Recognised(u[2], PayloadBytes(u[2], Word16(u, 4)))
  {
    hide Crc16, TrailerAt, Word16, Word32, PayloadBytes, Recognised, Encode, Record.Valid;
    if HeadOf(u).Accept? {
      AcceptedIsEncoded(u);
      assert Encode(HeadOf(u).record) <= u;
    }
    if r: Record :| r.Valid() && Encode(r) <= u {
      EncodedAccepted(r, u[|Encode(r)|..]);
      assert u == Encode(r) + u[|Encode(r)|..];
    }
  }

  lemma EncodeNext(rs: seq<Record>)
    requires AllValid(rs) && rs != []
    ensures rs[0].Valid() && AllValid(rs[1..])
    ensures EncodeAll(rs) == Encode(rs[0]) + EncodeAll(rs[1..])
  {
  }

  lemma ScanEmpty(base: nat)
    ensures Scan([], base) == Report([], 0, base) && Records([]) == [] && EncodeAll([]) == []
  {
  }

  lemma RecordsMore(h: Hit, rest: seq<Hit>)
    ensures Records([h] + rest) == [h.record] + Records(rest)
  {
    assert ([h] + rest)[1..] == rest;
  }

  /** A stream of encoded records comes back exactly, in order, and nothing fails its CRC. */
  lemma {:induction false} RoundTrip(rs: seq<Record>, base: nat)
    requires AllValid(rs)
    ensures var report := Scan(EncodeAll(rs), base);
            && Records(report.hits) == rs && report.bad == 0 && report.stop == base + |EncodeAll(rs)|
    decreases |rs|
  {
    hide HeadOf, FindSync, Encode, Scan, AllValid, Records;
    if rs == [] {
      ScanEmpty(base);
    } else {
      EncodeNext(rs);
      var r, t := rs[0], EncodeAll(rs[1..]);
      EncodedAccepted(r, []);
      assert Encode(r) + [] == Encode(r);
      ScanVerdict(Encode(r), t, base);
      assert Encode(r)[|Encode(r)|..] + t == t;
      RoundTrip(rs[1..], base + |Encode(r)|);
      RecordsMore(Hit(base, base + |Encode(r)|, r), Scan(t, base + |Encode(r)|).hits);
      assert [r] + rs[1..] == rs;
    }
  }

  /** The start of a clean stream: no garbage, no verdict against it, and clean after the
      first record too. */
  lemma CleanStart(buf: seq<byte>, t: seq<byte>)
    requires Clean(buf + t)
    ensures |buf| >= 2 ==> IsSync(buf, 0) && !HeadOf(buf).Reject?
    ensures |buf| >= 2 && HeadOf(buf).Accept? ==> Clean(buf[HeadOf(buf).total..] + t)
  {
    hide HeadOf, Encode;
    var rs: seq<Record> :| AllValid(rs) && buf + t == EncodeAll(rs);
    if |buf| >= 2 {
      assert rs != [];
      EncodeNext(rs);
      EncodedAccepted(rs[0], EncodeAll(rs[1..]));
      assert buf[0] == (buf + t)[0] && buf[1] == (buf + t)[1];
      HeadStable(buf, t);
      if HeadOf(buf).Accept? {
        assert buf[HeadOf(buf).total..] + t == (buf + t)[HeadOf(buf).total..] == EncodeAll(rs[1..]);
      }
    }
  }

  // No intact record is lost without cause.

  /** What became of the record at `k`: read, swallowed by an earlier one, or still behind a
      candidate that is not complete. */
  ghost predicate Accounted(report: Report, k: nat, r: Record)
  {
    || Hit(k, k + HEADER + |r.payload| + 2, r) in report.hits
    || (exists h :: h in report.hits && h.at < k < h.end)
    || report.stop < k
  }

  lemma AccountedMore(report: Report, more: Report, k: nat, r: Record)
    requires Accounted(report, k, r)
    requires more.stop == report.stop && forall h :: h in report.hits ==> h in more.hits
    ensures Accounted(more, k, r)
  {
  }

  /** Where the record is, there is a sync pair; the first one may be earlier, but not by one byte. */
  lemma RecordInside(s: seq<byte>, k: nat, r: Record)
    requires r.Valid() && k + |Encode(r)| <= |s| && s[k..k + |Encode(r)|] == Encode(r)
    ensures 0 <= FindSync(s) <= k && FindSync(s) != k - 1
    ensures IsSync(s[k..], 0) && HeadOf(s[k..]) == Accept(|Encode(r)|, r)
  {
    hide Encode, HeadOf;
    var n := |Encode(r)|;
    EncodedAccepted(r, s[k + n..]);
    assert s[k..] == Encode(r) + s[k + n..];
    assert s[k] == s[k..][0] && s[k + 1] == s[k..][1];
    assert IsSync(s, k);
  }

  /** One step of the reader, from the first sync pair on. */
  lemma ScanStep(s: seq<byte>, base: nat)
    requires FindSync(s) >= 0
    ensures var i := FindSync(s);
      match HeadOf(s[i..])
      case Wait => Scan(s, base) == Report([], 0, base + i)
      case Reject(badCrc) =>
        && Scan(s, base).hits == Scan(s[i + 2..], base + i + 2).hits
        && Scan(s, base).stop == Scan(s[i + 2..], base + i + 2).stop
      case Accept(total, record) =>
        && Scan(s, base).hits == [Hit(base + i, base + i + total, record)] + Scan(s[i + total..], base + i + total).hits
        && Scan(s, base).stop == Scan(s[i + total..], base + i + total).stop
  {
  }

  lemma {:induction false} NothingLost(s: seq<byte>, base: nat, k: nat, r: Record)
    requires r.Valid() && k + |Encode(r)| <= |s| && s[k..k + |Encode(r)|] == Encode(r)
    ensures Accounted(Scan(s, base), base + k, r)
    decreases |s|
  {
    hide Encode, HeadOf, Scan, FindSync;
    var i := FindSync(s);
    RecordInside(s, k, r);
    ScanStep(s, base);
    var head, report := HeadOf(s[i..]), Scan(s, base);
    if head.Reject? {
      NothingLostAfter(s, base, k, r, i + 2);
      AccountedMore(Scan(s[i + 2..], base + i + 2), report, base + k, r);
    } else if head.Accept? {
      var hit := Hit(base + i, base + i + head.total, head.record);
      assert hit in report.hits;
      if i + head.total <= k {
        NothingLostAfter(s, base, k, r, i + head.total);
        AccountedMore(Scan(s[i + head.total..], base + i + head.total), report, base + k, r);
      }
    }
  }

  lemma NothingLostAfter(s: seq<byte>, base: nat, k: nat, r: Record, from: nat)
    requires r.Valid() && k + |Encode(r)| <= |s| && s[k..k + |Encode(r)|] == Encode(r)
    requires 0 < from <= k
    ensures Accounted(Scan(s[from..], base + from), base + k, r)
    decreases |s|, 0
  {
    hide *;
    var u, n := s[from..], |Encode(r)|;
    assert u[k - from..k - from + n] == s[k..k + n];
    NothingLost(u, base + from, k - from, r);
  }

  lemma WaitIsShort(u: seq<byte>)
    requires IsSync(u, 0) && HeadOf(u) == Wait
    ensures |u| < LONGEST
  {
    hide Crc16, TrailerAt, Word32;
  }

  /** The reader never waits further back than the longest record there can be. */
  lemma {:induction false} StopIsNear(s: seq<byte>, base: nat)
    ensures base + |s| < Scan(s, base).stop + LONGEST
    decreases |s|
  {
    hide HeadOf, FindSync, Scan;
    var i := FindSync(s);
    if i < 0 {
      ScanNothing(s, base);
    } else {
      ScanStep(s, base);
      var head := HeadOf(s[i..]);
      if head.Wait? {
        WaitIsShort(s[i..]);
      } else if head.Reject? {
        StopIsNear(s[i + 2..], base + i + 2);
      } else {
        StopIsNear(s[i + head.total..], base + i + head.total);
      }
    }
  }

  lemma ScanNothing(s: seq<byte>, base: nat)
    requires FindSync(s) < 0
    ensures Scan(s, base) == Report([], 0, base + |s|)
  {
  }

  /** Once enough of the stream has followed it, an intact record has been read, unless a record
      with a good CRC of its own ran over its start. */
  lemma IntactRecordRead(s: seq<byte>, base: nat, k: nat, r: Record)
    requires r.Valid() && k + |Encode(r)| <= |s| && s[k..k + |Encode(r)|] == Encode(r)
    requires k + LONGEST <= |s|
    ensures var hits := Scan(s, base).hits;
      || Hit(base + k, base + k + |Encode(r)|, r) in hits
      || exists h :: h in hits && h.at < base + k < h.end
  {
    hide *;
    NothingLost(s, base, k, r);
    StopIsNear(s, base);
    AccountedPast(Scan(s, base), base + k, r);
  }

  lemma AccountedPast(report: Report, k: nat, r: Record)
    requires Accounted(report, k, r) && report.stop >= k
    ensures || Hit(k, k + HEADER + |r.payload| + 2, r) in report.hits
            || exists h :: h in report.hits && h.at < k < h.end
  {
  }
}
