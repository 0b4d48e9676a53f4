// Flux intervals as samples of 16 bits, after the SuperCard Pro image format: a sample of zero
// stands for 65536 ticks without a transition.
module Flux {
  import opened Sequences
  import opened Bytes

  type Ticks = t: int | 0 <= t < 0x1_0000_0000
  type Sample = s: int | 0 <= s < 0x1_0000

  const OVERFLOW := 0x1_0000

  function Samples(ticks: nat): (s: seq<Sample>)
    ensures |s| > 0
  {
    if ticks >= OVERFLOW then [0] + Samples(ticks - OVERFLOW) else [if ticks == 0 then 1 else ticks]
  }

  function SampleCount(ticks: Ticks): nat
  {
    ticks / OVERFLOW + 1
  }

  lemma {:induction false} CountIsRight(ticks: nat)
    ensures |Samples(ticks)| == ticks / OVERFLOW + 1
    decreases ticks
  {
    if ticks >= OVERFLOW {
      CountIsRight(ticks - OVERFLOW);
      assert ticks / OVERFLOW == (ticks - OVERFLOW) / OVERFLOW + 1;
    }
  }

  /** All but the last of an interval's samples are zero, for 65536 ticks each; the last holds the rest,
      or a tick if there is none. */
  lemma {:induction false} SamplesAre(ticks: nat)
    ensures var s, n := Samples(ticks), ticks / 65536;
      && |s| == n + 1 && (forall i :: 0 <= i < n ==> s[i] == 0)
      && s[n] == if ticks % 65536 == 0 then 1 else ticks % 65536
    decreases ticks
  {
    if ticks >= OVERFLOW {
      SamplesAre(ticks - OVERFLOW);
      assert ticks / OVERFLOW == (ticks - OVERFLOW) / OVERFLOW + 1;
    }
  }

  function EmitAll(intervals: seq<Ticks>): seq<Sample>
  {
    if intervals == [] then [] else EmitAll(intervals[..|intervals| - 1]) + Samples(intervals[|intervals| - 1])
  }

  // Big-endian samples.

  function Be16(s: Sample): seq<byte>
  {
    [s / 256, s % 256]
  }

  function GetBe16(b: seq<byte>, at: nat): Sample
    requires at + 2 <= |b|
  {
    256 * b[at] as int + b[at + 1] as int
  }

  function Encoded(samples: seq<Sample>): (b: seq<byte>)
    ensures |b| == 2 * |samples|
  {
    if samples == [] then [] else Be16(samples[0]) + Encoded(samples[1..])
  }

  lemma {:induction false} EncodedReadsBack(samples: seq<Sample>, k: nat)
    requires k < |samples|
    ensures GetBe16(Encoded(samples), 2 * k) == samples[k]
    ensures 256 * Encoded(samples)[2 * k] as int + Encoded(samples)[2 * k + 1] as int == samples[k]
    decreases k
  {
    if k > 0 {
      EncodedReadsBack(samples[1..], k - 1);
      var b, rest := Encoded(samples), Encoded(samples[1..]);
      assert b[2 * k] == rest[2 * (k - 1)] && b[2 * k + 1] == rest[2 * (k - 1) + 1];
    }
  }

  /** Writes an interval at `at`, and nothing else. */
  method EmitFlux(dst: array<byte>, at: nat, interval: Ticks) returns (written: nat)
    requires at + 2 * SampleCount(interval) <= dst.Length
    modifies dst
    ensures written == SampleCount(interval)
    ensures dst[at..at + 2 * written] == Encoded(Samples(interval))
    ensures dst[..at] == old(dst[..at]) && dst[at + 2 * written..] == old(dst[at + 2 * written..])
  {
    hide Samples, Encoded, Patched;
    var ticks := interval;
    written := 0;
    CountIsRight(interval);
    ghost var start, all := dst[..], Encoded(Samples(interval));
    PatchedNone(start, at, all);
    assert all[0..] == all;
    while ticks >= OVERFLOW
      invariant 0 <= ticks <= interval && |Samples(ticks)| + written == SampleCount(interval)
      invariant 2 * written <= |all| && all[2 * written..] == Encoded(Samples(ticks))
      invariant dst[..] == Patched(start, at, all, 2 * written)
    {
      LongGap(ticks);
      Put(dst, at, 0, start, all, 2 * written);
      written := written + 1;
      ticks := ticks - OVERFLOW;
    }
    LastSample(ticks);
    Put(dst, at, if ticks != 0 then ticks else 1, start, all, 2 * written);
    written := written + 1;
    PatchedAll(start, at, all);
  }

  lemma LongGap(ticks: nat)
    requires ticks >= OVERFLOW
    ensures |Samples(ticks)| == |Samples(ticks - OVERFLOW)| + 1
    ensures Encoded(Samples(ticks)) == Be16(0) + Encoded(Samples(ticks - OVERFLOW))
  {
  }

  lemma LastSample(ticks: nat)
    requires ticks < OVERFLOW
    ensures |Samples(ticks)| == 1 && Encoded(Samples(ticks)) == Be16(if ticks == 0 then 1 else ticks)
  {
  }

  /** Puts one sample where the next two bytes of `all` belong. */
  method Put(dst: array<byte>, at: nat, v: Sample, ghost start: seq<byte>, ghost all: seq<byte>, n: nat)
    requires at + |all| <= |start| == dst.Length && n + 2 <= |all|
    requires dst[..] == Patched(start, at, all, n) && all[n..n + 2] == Be16(v)
    modifies dst
    ensures dst[..] == Patched(start, at, all, n + 2)
  {
    hide Patched;
    PatchedNext(start, at, all, n);
    PatchedNext(start, at, all, n + 1);
    assert all[n..n + 2][0] == all[n] && all[n..n + 2][1] == all[n + 1];
    dst[at + n] := v / 256;
    dst[at + n + 1] := v % 256;
  }

  // Reading.

  /** `scpFluxDuration`, in 32 bits. */
  function Duration(duration: Ticks, sample: Sample): Ticks
  {
    (duration + if sample != 0 then sample else OVERFLOW) % 0x1_0000_0000
  }

  /** The intervals in a run of samples, and what is left of one that is not over. */
  datatype Replayed = Replayed(durations: seq<Ticks>, pending: Ticks)

  function Replay(samples: seq<Sample>): Replayed
  {
    if samples == [] then Replayed([], 0)
    else
      var n := |samples| - 1;
      var before := Replay(samples[..n]);
      var pending := Duration(before.pending, samples[n]);
      if samples[n] == 0 then Replayed(before.durations, pending)
      else Replayed(before.durations + [pending], 0)
  }

  /** How long a run of samples lasts. */
  function Lasts(samples: seq<Sample>): nat
  {
    if samples == [] then 0
    else Lasts(samples[..|samples| - 1]) + (var s := samples[|samples| - 1]; if s == 0 then 65536 else s)
  }

  function Total(durations: seq<Ticks>): nat
  {
    if durations == [] then 0 else Total(durations[..|durations| - 1]) + durations[|durations| - 1]
  }

  function Pulses(samples: seq<Sample>): nat
  {
    if samples == [] then 0
    else Pulses(samples[..|samples| - 1]) + if samples[|samples| - 1] == 0 then 0 else 1
  }

  /** Reading loses no time: the intervals and what is left over last as long as the samples, and
      there is an interval for every sample that is not zero. */
  lemma {:induction false} NoTimeLost(samples: seq<Sample>)
    requires Lasts(samples) < 0x1_0000_0000
    ensures var r := Replay(samples);
      Total(r.durations) + r.pending == Lasts(samples) && |r.durations| == Pulses(samples)
    decreases |samples|
  {
    hide Duration;
    if samples != [] {
      var n := |samples| - 1;
      NoTimeLost(samples[..n]);
      var before := Replay(samples[..n]);
      DurationFits(before.pending, samples[n]);
      TotalMore(before.durations, Duration(before.pending, samples[n]));
    }
  }

  lemma DurationFits(pending: Ticks, s: Sample)
    ensures var longer := pending + if s == 0 then 65536 else s;
      longer < 0x1_0000_0000 ==> Duration(pending, s) == longer
  {
  }

  lemma TotalMore(durations: seq<Ticks>, d: Ticks)
    ensures Total(durations + [d]) == Total(durations) + d
  {
    assert (durations + [d])[..|durations|] == durations;
  }

  /** An interval of a whole number of 65536 ticks, none included, comes back one tick longer. */
  function Restored(ticks: Ticks): nat
  {
    if ticks % OVERFLOW == 0 then ticks + 1 else ticks
  }

  function AllRestored(intervals: seq<Ticks>): seq<nat>
  {
    seq(|intervals|, i requires 0 <= i < |intervals| => Restored(intervals[i]))
  }

  lemma ReplayNext(samples: seq<Sample>, s: Sample)
    ensures var before := Replay(samples); var pending := Duration(before.pending, s);
      Replay(samples + [s]) == if s == 0 then Replayed(before.durations, pending)
                               else Replayed(before.durations + [pending], 0)
  {
    assert (samples + [s])[..|samples|] == samples;
  }

  /** One interval, in the middle of which the reader may already be. */
  lemma {:induction false} ReplayOne(samples: seq<Sample>, ticks: nat)
    requires Replay(samples).pending + ticks < 0x1_0000_0000
    requires Replay(samples).pending % OVERFLOW == 0
    ensures var total := Replay(samples).pending + ticks;
      Replay(samples + Samples(ticks)) == Replayed(Replay(samples).durations + [Restored(total)], 0)
    decreases ticks
  {
    hide Replay;
    var pending := Replay(samples).pending;
    if ticks >= OVERFLOW {
      ReplayNext(samples, 0);
      ReplayOne(samples + [0], ticks - OVERFLOW);
      assert samples + Samples(ticks) == samples + [0] + Samples(ticks - OVERFLOW);
    } else {
      ReplayNext(samples, if ticks == 0 then 1 else ticks);
    }
  }

  /** What was emitted is what is read, but for the tick that the format gives away. */
  lemma {:induction false} RoundTrip(intervals: seq<Ticks>)
    ensures Replay(EmitAll(intervals)).pending == 0
    ensures Replay(EmitAll(intervals)).durations == AllRestored(intervals)
    decreases |intervals|
  {
    hide Replay, Samples;
    if intervals == [] {
      ReplayNone();
    } else {
      var n := |intervals| - 1;
      RoundTrip(intervals[..n]);
      ReplayOne(EmitAll(intervals[..n]), intervals[n]);
      assert AllRestored(intervals) == AllRestored(intervals[..n]) + [Restored(intervals[n])];
    }
  }

  lemma ReplayNone()
    ensures Replay([]) == Replayed([], 0)
  {
  }

  // The replay of a track, a buffer of samples at a time.

  const BUFFER := 128

  /** What the decoder is fed for an interval, with the image's resolution. */
  function Fed(duration: Ticks, scale: nat): (f: nat)
    ensures duration <= 4096 ==> 5 * f <= 3 * (duration * scale) < 5 * (f + 1)
    ensures duration > 4096 ==> 5 * f <= 12288 * scale < 5 * (f + 1)
  {
    (if duration > 4096 then 4096 else duration) * scale * 3 / 5
  }

  function AllFed(durations: seq<Ticks>, scale: nat): (f: seq<nat>)
    ensures |f| == |durations|
  {
    seq(|durations|, i requires 0 <= i < |durations| => Fed(durations[i], scale))
  }

  function Joined(chunks: seq<seq<Sample>>): seq<Sample>
  {
    if chunks == [] then [] else Joined(chunks[..|chunks| - 1]) + chunks[|chunks| - 1]
  }

  lemma JoinedNext(chunks: seq<seq<Sample>>, n: nat)
    requires n < |chunks|
    ensures Joined(chunks[..n + 1]) == Joined(chunks[..n]) + chunks[n]
  {
    assert chunks[..n + 1][..n] == chunks[..n];
  }

  lemma {:induction false} ReplayGrows(a: seq<Sample>, b: seq<Sample>)
    ensures Replay(a).durations <= Replay(a + b).durations
    decreases |b|
  {
    hide Replay;
    if b == [] {
      assert a + b == a;
    } else {
      var n := |b| - 1;
      ReplayGrows(a, b[..n]);
      ReplayNext(a + b[..n], b[n]);
      assert a + b == a + b[..n] + [b[n]];
    }
  }

  lemma {:induction false} JoinedGrows(chunks: seq<seq<Sample>>, n: nat)
    requires n <= |chunks|
    ensures Joined(chunks[..n]) <= Joined(chunks)
    decreases |chunks| - n
  {
    if n == |chunks| {
      assert chunks[..n] == chunks;
    } else {
      JoinedNext(chunks, n);
      JoinedGrows(chunks, n + 1);
    }
  }

  /** Replays a revolution into a decoder that has room for so many samples. Where one buffer ends
      and the next begins makes no difference: a gap is carried over. */
  method ReplayTrack(chunks: seq<seq<Sample>>, scale: nat, room: nat) returns (fed: seq<nat>)
    requires room > 0 && forall c :: c in chunks ==> 0 < |c| <= BUFFER
    ensures var all := AllFed(Replay(Joined(chunks)).durations, scale);
            fed == if |all| < room then all else all[..room]
  {
    hide Replay, Fed, Duration;
    var pending: Ticks := 0;
    var full := false;
    var n := 0;
    fed := [];
    ReplayNone();
    ghost var done: seq<Sample> := [];
    while !full && n < |chunks|
      invariant n <= |chunks| && done <= Joined(chunks)
      invariant fed == AllFed(Replay(done).durations, scale) && (if full then |fed| == room else |fed| < room)
      invariant !full ==> done == Joined(chunks[..n]) && pending == Replay(done).pending
      decreases |chunks| - n, if full then 0 else 1
    {
      JoinedNext(chunks, n);
      JoinedGrows(chunks, n + 1);
      fed, pending, full, done := ReplayBuffer(chunks[n], scale, room, fed, pending, done);
      n := n + 1;
    }
    if !full {
      assert chunks[..n] == chunks;
    } else {
      ghost var rest := Joined(chunks)[|done|..];
      assert Joined(chunks) == done + rest;
      ReplayGrows(done, rest);
    }
  }

  method ReplayBuffer(samples: seq<Sample>, scale: nat, room: nat, fedBefore: seq<nat>, pendingBefore: Ticks,
                      ghost before: seq<Sample>)
    returns (fed: seq<nat>, pending: Ticks, full: bool, ghost done: seq<Sample>)
    requires fedBefore == AllFed(Replay(before).durations, scale) && |fedBefore| < room
    requires pendingBefore == Replay(before).pending
    ensures before <= done <= before + samples
    ensures fed == AllFed(Replay(done).durations, scale) && (if full then |fed| == room else |fed| < room)
    ensures !full ==> done == before + samples && pending == Replay(done).pending
  {
    hide Replay, Fed;
    fed, pending, full, done := fedBefore, pendingBefore, false, before;
    for i := 0 to |samples|
      invariant done == before + samples[..i] && !full
      invariant fed == AllFed(Replay(done).durations, scale) && |fed| < room && pending == Replay(done).pending
    {
      ReplayNext(done, samples[i]);
      done := done + [samples[i]];
      pending := Duration(pending, samples[i]);
      if samples[i] != 0 {
        fed := fed + [Fed(pending, scale)];
        if |fed| >= room {
          full := true;
          return;
        }
        pending := 0;
      }
    }
  }
}
