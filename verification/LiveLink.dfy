// The host's end of the live link. Bytes arrive in whatever pieces the driver hands over, and
// some reads bring nothing; the records that come out are those of the whole stream.
module LiveLink {
  import opened Bytes
  import opened Registers
  import opened Crc
  import opened FastCrc
  import opened LiveRecords
  import opened Options

  /** What one read of the port brings, and whether the caller's deadline has passed by then. */
  datatype Arrival = Arrival(chunk: seq<byte>, late: bool)

  function Pending(arrivals: seq<Arrival>): seq<byte>
  {
    if arrivals == [] then [] else arrivals[0].chunk + Pending(arrivals[1..])
  }

  /** Some reads were made, and the last of them brought nothing with the deadline past. */
  ghost predicate GaveUp(before: seq<Arrival>, after: seq<Arrival>)
  {
    || after == []
    || (|after| < |before| && before[|before| - |after| - 1] == Arrival([], true))
  }

  /** What is left of a script of reads. */
  ghost predicate Later(before: seq<Arrival>, after: seq<Arrival>)
  {
    |after| <= |before| && after == before[|before| - |after|..]
  }

  lemma LaterAgain(before: seq<Arrival>, after: seq<Arrival>)
    requires Later(before, after) && after != []
    ensures Later(before, after[1..])
    ensures after[0] == Arrival([], true) ==> GaveUp(before, after[1..])
  {
  }

  lemma LaterNow(arrivals: seq<Arrival>)
    ensures Later(arrivals, arrivals)
  {
  }

  lemma LaterOver(before: seq<Arrival>)
    ensures GaveUp(before, [])
  {
  }

  // The reader's steps on the bytes at hand, `p` being those still to come.

  /** Bytes that cannot start a record can go; the last one stays, in case it is half a sync pair. */
  lemma GarbageGone(buf: seq<byte>, p: seq<byte>, base: nat, n: nat)
    requires n < |buf| && forall j {:trigger IsSync(buf, j)} :: 0 <= j < n ==> !IsSync(buf, j)
    ensures Scan(buf + p, base) == Scan(buf[n..] + p, base + n)
  {
    hide Scan;
    forall j | 0 <= j < n
      ensures !IsSync(buf + p, j)
    {
      assert !IsSync(buf, j);
    }
    ScanGarbage(buf + p, base, n);
    assert (buf + p)[n..] == buf[n..] + p;
  }

  /** Nothing can be read from bytes without a sync pair, or whose candidate is not complete. */
  lemma NothingYet(buf: seq<byte>, base: nat)
    requires FindSync(buf) < 0 || (IsSync(buf, 0) && HeadOf(buf) == Wait)
    ensures Scan(buf, base).hits == [] && Scan(buf, base).bad == 0
  {
    hide HeadOf, FindSync;
    if FindSync(buf) >= 0 {
      FindUnique(buf, 0);
      assert buf[0..] == buf;
    }
  }

  /** The start of a clean stream needs no resynchronising. */
  lemma CleanNeedsNoResync(buf: seq<byte>, p: seq<byte>)
    requires Clean(buf + p)
    ensures FindSync(buf) < 0 ==> |buf| <= 1
    ensures FindSync(buf) <= 0
  {
    hide HeadOf, FindSync, Encode;
    CleanStart(buf, p);
    if |buf| >= 2 {
      FindUnique(buf, 0);
    }
  }

  lemma SyncAtFront(buf: seq<byte>, i: nat)
    requires IsSync(buf, i)
    ensures i + 1 < |buf| && IsSync(buf[i..], 0)
  {
  }

  lemma TailOfShort(buf: seq<byte>)
    requires |buf| <= 1
    ensures FindSync(buf) < 0
  {
  }

  lemma Exhausted(arrivals: seq<Arrival>)
    requires arrivals == []
    ensures Pending(arrivals) == []
  {
  }

  lemma NoRecords(hits: seq<Hit>)
    requires hits == []
    ensures Records(hits) == []
  {
  }

  lemma CleanEncoded(rs: seq<Record>)
    requires AllValid(rs)
    ensures Clean(EncodeAll(rs))
  {
  }

  /** Command, length, payload, and a check byte that brings the CRC of the whole to nothing. */
  ghost predicate IsFrame(frame: seq<byte>, command: byte, payload: seq<byte>)
  {
    && |frame| == |payload| + 3 && frame[0] == command && frame[1] == |payload|
    && frame[2..|payload| + 2] == payload
    && Straight(CRC8, Zeros(8), frame) == Zeros(8)
  }

  const CMD_SYNC0: byte := 0xA5
  const CMD_SYNC1: byte := 0x5A

  class Link {
    var buf: seq<byte>
    var badCrc: nat
    var resyncs: nat
    var bytesIn: nat

    /** What the port has still to deliver. */
    var arrivals: seq<Arrival>

    /** How many bytes have left the front of the buffer. */
    ghost var taken: nat

    var written: seq<byte>

    constructor (arrivals: seq<Arrival>)
      ensures written == []
      ensures Stream() == Pending(arrivals) && taken == badCrc == resyncs == bytesIn == 0
    {
      this.arrivals := arrivals;
      buf, badCrc, resyncs, bytesIn, taken := [], 0, 0, 0, 0;
      written := [];
    }

    /** Everything from the front of the buffer on. */
    ghost function Stream(): seq<byte>
      reads this
    {
      buf + Pending(arrivals)
    }

    ghost function Report(): Report
      reads this
    {
      Scan(Stream(), taken)
    }

    method Fill() returns (n: nat, late: bool)
      modifies this`buf, this`bytesIn, this`arrivals
      ensures Stream() == old(Stream()) && bytesIn == old(bytesIn) + n
      ensures old(arrivals) != [] ==> arrivals == old(arrivals[1..])
      ensures n == 0 ==> buf == old(buf)
      ensures old(arrivals) != [] ==> n == |old(arrivals[0].chunk)| && late == old(arrivals[0].late)
      ensures old(arrivals) == [] ==> arrivals == [] && n == 0 && late
    {
      if arrivals == [] {
        return 0, true;
      }
      var chunk := arrivals[0].chunk;
      n, late := |chunk|, arrivals[0].late;
      if n > 0 {
        buf := buf + chunk;
        bytesIn := bytesIn + n;
      }
      arrivals := arrivals[1..];
    }

    /** What reading on must keep: the records to come, the candidates that fail, and that a
        clean stream stays clean and counts nothing against it. */
    ghost predicate Keeps(was: Report, failures: nat, clean: bool, resyncsBefore: nat)
      reads this
    {
      && Report().hits == was.hits && Report().stop == was.stop
      && badCrc + Report().bad == failures
      && (clean ==> Clean(Stream()) && resyncs == resyncsBefore)
    }

    /** Moves to the first sync pair, if there is one. */
    method Seek() returns (found: bool)
      modifies this`buf, this`resyncs, this`taken
      ensures Keeps(old(Report()), old(badCrc + Report().bad), old(Clean(Stream())), old(resyncs))
      ensures |buf| <= |old(buf)| && buf == old(buf)[|old(buf)| - |buf|..]
      ensures taken == old(taken) + |old(buf)| - |buf|
      ensures found == (FindSync(old(buf)) >= 0)
      ensures if found then IsSync(buf, 0) && |old(buf)| - |buf| == FindSync(old(buf))
              else FindSync(buf) < 0 && |buf| == if old(buf) == [] then 0 else 1
      ensures resyncs == old(resyncs) + if found && |buf| < |old(buf)| then 1 else 0
    {
      hide Scan, FindSync, Clean, Pending, IsSync;
      var i := FindSync(buf);
      if Clean(Stream()) {
        CleanNeedsNoResync(buf, Pending(arrivals));
      }
      if i < 0 {
        TailOfShort(if buf == [] then [] else buf[|buf| - 1..]);
        if |buf| > 1 {
          Drop(|buf| - 1);
        }
        return false;
      }
      SyncAtFront(buf, i);
      if i != 0 {
        resyncs := resyncs + 1;
        Drop(i);
      }
      return true;
    }

    /** Bytes before which no sync pair starts go. */
    method Drop(n: nat)
      requires n < |buf| && forall j {:trigger IsSync(buf, j)} :: 0 <= j < n ==> !IsSync(buf, j)
      modifies this`buf, this`taken
      ensures buf == old(buf)[n..] && taken == old(taken) + n && Report() == old(Report())
    {
      hide Scan, IsSync;
      GarbageGone(buf, Pending(arrivals), taken, n);
      buf, taken := buf[n..], taken + n;
    }

    /** What the candidate at the front comes to. */
    method Judge() returns (head: Head)
      requires IsSync(buf, 0)
      ensures head == HeadOf(buf)
    {
      hide Word16, Word32, PayloadBytes, Recognised, Crc16, TrailerAt;
      if |buf| < HEADER {
        return Wait;
      }
      var length := PayloadBytes(buf[2], Word16(buf, 4));
      var total := HEADER + length + 2;
      if !Recognised(buf[2], length) {
        return Reject(false);
      }
      if |buf| < total {
        return Wait;
      }
      var body := buf[..HEADER + length];
      var crc := CrcOf(body);
      if crc != TrailerAt(buf, HEADER + length) {
        return Reject(true);
      }
      return Accept(total, Record(buf[2], buf[3], Word16(buf, 4), Word16(buf, 6), Word32(buf, 8), body[HEADER..]));
    }

    /** A candidate that was not a record: only its sync pair goes. */
    method Discard(badCrc: bool)
      requires IsSync(buf, 0) && HeadOf(buf) == Reject(badCrc)
      modifies this`buf, this`resyncs, this`badCrc, this`taken
      ensures buf == old(buf)[2..] && taken == old(taken) + 2
      ensures this.badCrc == old(this.badCrc) + (if badCrc then 1 else 0)
      ensures resyncs == old(resyncs) + if badCrc then 0 else 1
      ensures Keeps(old(Report()), old(this.badCrc + Report().bad), old(Clean(Stream())), old(resyncs))
    {
      hide Scan, HeadOf, FindSync, Clean, Pending;
      ghost var p := Pending(arrivals);
      ScanVerdict(buf, p, taken);
      if Clean(buf + p) {
        CleanStart(buf, p);
      }
      if badCrc {
        this.badCrc := this.badCrc + 1;
      } else {
        resyncs := resyncs + 1;
      }
      buf, taken := buf[2..], taken + 2;
    }

    /** A record: it leaves the buffer, and heads the records to come no more. */
    method Deliver(total: nat, record: Record)
      requires IsSync(buf, 0) && HeadOf(buf) == Accept(total, record)
      modifies this`buf, this`taken
      ensures buf == old(buf)[total..] && taken == old(taken) + total && total == HEADER + |record.payload| + 2
      ensures old(Report()).hits == [Hit(old(taken), taken, record)] + Report().hits
      ensures Report().stop == old(Report()).stop && Report().bad == old(Report()).bad
      ensures old(Clean(Stream())) ==> Clean(Stream())
    {
      hide Scan, FindSync, Clean, Pending, Crc16, TrailerAt, Word16, Word32, PayloadBytes, Recognised;
      ghost var p := Pending(arrivals);
      ScanVerdict(buf, p, taken);
      if Clean(buf + p) {
        CleanStart(buf, p);
      }
      buf, taken := buf[total..], taken + total;
    }

    /** The next record of the stream, or nothing if there is no complete one yet. Nothing
        readable is ever lost, and a clean stream is read without a resync or a bad CRC. */
    method ReadRecord() returns (r: Option<Record>)
      modifies this
      ensures r.None? ==> Keeps(old(Report()), old(badCrc + Report().bad), old(Clean(Stream())), old(resyncs))
      ensures r.None? ==> Scan(buf, taken).hits == [] && Scan(buf, taken).bad == 0
      ensures r.Some? ==>
        var total := HEADER + |r.value.payload| + 2;
        && total <= taken
        && old(Report()).hits == [Hit(taken - total, taken, r.value)] + Report().hits
        && Report().stop == old(Report()).stop
        && badCrc + Report().bad == old(badCrc + Report().bad)
        && (old(Clean(Stream())) ==> Clean(Stream()) && resyncs == old(resyncs))
      ensures Later(old(arrivals), arrivals) && (r.None? ==> GaveUp(old(arrivals), arrivals))
      ensures r.None? && old(arrivals) != [] ==> |arrivals| < |old(arrivals)|
      ensures old(resyncs) <= resyncs <= old(resyncs) + (taken - old(taken))
    {
      hide Scan, FindSync, HeadOf, Clean, Pending, Later, GaveUp;
      LaterNow(arrivals);
      while true
        invariant Keeps(old(Report()), old(badCrc + Report().bad), old(Clean(Stream())), old(resyncs))
        invariant Later(old(arrivals), arrivals) && |arrivals| <= |old(arrivals)|
        invariant old(resyncs) <= resyncs <= old(resyncs) + (taken - old(taken))
        decreases |arrivals|, |buf|
      {
        var found := Seek();
        var head := Wait;
        if found {
          head := Judge();
        }
        if head.Wait? {
          NothingYet(buf, taken);
          if arrivals == [] {
            LaterOver(old(arrivals));
          } else {
            LaterAgain(old(arrivals), arrivals);
          }
          var n, late := Fill();
          if n == 0 && late {
            return None;
          }
        } else if head.Reject? {
          Discard(head.badCrc);
        } else {
          Deliver(head.total, head.record);
          return Some(head.record);
        }
      }
    }

    /** Reading until the port has nothing left: the records are those of the stream, however it
        came in, and a stream of encoded records gives back just those. */
    method ReadAll() returns (records: seq<Record>)
      modifies this
      ensures records == Records(old(Report()).hits)
      ensures badCrc == old(badCrc) + old(Report()).bad
      ensures forall rs {:trigger EncodeAll(rs)} :: AllValid(rs) && old(Stream()) == EncodeAll(rs) ==>
        records == rs && resyncs == old(resyncs) && badCrc == old(badCrc)
    {
      hide Scan, Clean, Pending, Records, AllValid, GaveUp;
      records := [];
      while true
        invariant Records(old(Report()).hits) == records + Records(Report().hits)
        invariant badCrc + Report().bad == old(badCrc + Report().bad)
        invariant old(Clean(Stream())) ==> Clean(Stream()) && resyncs == old(resyncs)
        decreases |arrivals|, |Report().hits|
      {
        ghost var was := Report().hits;
        var last := arrivals == [];
        var r := ReadRecord();
        match r {
          case Some(record) =>
            RecordsMore(was[0], Report().hits);
            records := records + [record];
          case None =>
            if last {
              break;
            }
        }
      }
      Exhausted(arrivals);
      assert Stream() == buf;
      NoRecords(Report().hits);
      forall rs | AllValid(rs) && old(Stream()) == EncodeAll(rs)
        ensures records == rs && resyncs == old(resyncs) && badCrc == old(badCrc)
      {
        RoundTrip(rs, old(taken));
        CleanEncoded(rs);
      }
    }

    /** A command frame. A payload that does not fit its length byte is refused. */
    method Send(command: byte, payload: seq<byte>) returns (ok: bool)
      modifies this`written
      ensures ok == (|payload| < 256)
      ensures !ok ==> written == old(written)
      ensures ok ==> exists frame :: IsFrame(frame, command, payload) &&
                       written == old(written) + [CMD_SYNC0, CMD_SYNC1] + frame
    {
      hide Straight, Bits8;
      if |payload| >= 256 {
        return false;
      }
      var body := [command, |payload|] + payload;
      var crc := XclCrc8(body);
      OwnValueClears(CRC8, Zeros(8), body, ByteOf(crc));
      ghost var frame := body + [ByteOf(crc)];
      written := written + [CMD_SYNC0, CMD_SYNC1] + body + [ByteOf(crc)];
      assert written == old(written) + [CMD_SYNC0, CMD_SYNC1] + frame;
      assert IsFrame(frame, command, payload) by {
        assert frame[2..|payload| + 2] == payload;
      }
      return true;
    }
  }

  /** `crc16`, on integers of any size that are cut to 16 bits after every shift. */
  method CrcOf(data: seq<byte>) returns (crc: Bits)
    ensures crc == Crc16(data)
  {
    hide ShiftLeft, ToBits, Bits8, AllOnes;
    StartsWithOnes();
    crc := ToBits(0xFFFF, 16);
    for i := 0 to |data|
      invariant |crc| == 16 && crc == Straight(CCITT.alg.poly, AllOnes(16), data[..i])
    {
      assert data[..i + 1][..i] == data[..i];
      crc := Xor(crc, Zeros(8) + Bits8(data[i]));
      ghost var first := crc;
      for n := 0 to 8
        invariant |crc| == 16 && LeftSteps(CCITT.alg.poly, crc, 8 - n) == LeftSteps(CCITT.alg.poly, first, 8)
      {
        CutShift(crc);
        var shifted := [false] + crc;
        crc := (if crc[15] then Xor(shifted, ToBits(0x1021, 17)) else shifted)[..16];
      }
    }
    assert data[..|data|] == data;
  }

  lemma StartsWithOnes()
    ensures ToBits(0xFFFF, 16) == AllOnes(16) == CCITT.init
  {
    OnesOfByte();
    assert Ones(10) == 0x3FF;
    assert Ones(12) == 0xFFF;
    assert Ones(14) == 0x3FFF;
    assert Ones(16) == 0xFFFF;
    AllSet(16);
    assert ToBits(0xFFFF, 16) == AllOnes(16);
  }

  lemma {:induction false} AllSet(n: nat)
    ensures forall i :: 0 <= i < n ==> ToBits(Ones(n), n)[i]
  {
    if n > 0 {
      AllSet(n - 1);
      var rest := Ones(n - 1);
      assert Ones(n) % 2 == 1 && Ones(n) / 2 == rest;
      assert ToBits(Ones(n), n) == [true] + ToBits(rest, n - 1);
    }
  }

  /** Shifting in 17 bits and cutting to 16 is shifting a 16-bit register. */
  lemma CutShift(crc: Bits)
    requires |crc| == 16
    ensures var shifted := [false] + crc;
      ShiftLeft(CCITT.alg.poly, crc) == (if crc[15] then Xor(shifted, ToBits(0x1021, 17)) else shifted)[..16]
  {
    hide ToBits;
    OneBitLess(0x1021, 16);
    var wide := ToBits(0x1021, 17);
    forall i | 0 <= i < 16
      ensures wide[i] == CCITT.alg.poly[i]
    {
      assert wide[..16][i] == wide[i];
    }
  }

  lemma {:induction false} OneBitLess(v: nat, n: nat)
    ensures ToBits(v, n + 1)[..n] == ToBits(v, n)
  {
    if n > 0 {
      OneBitLess(v / 2, n - 1);
    }
  }
}
