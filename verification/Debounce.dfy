// A debounced switch on a millisecond clock that wraps.
module Debounce {

  const WRAP := 0x1_0000_0000

  type Millis = x: nat | x < WRAP

  /** What `millis()` shows at a point in time. */
  function Clock(time: nat): Millis
  {
    time % WRAP
  }

  /** The difference of two clock readings, in 32 bits. */
  function Elapsed(now: Millis, before: Millis): Millis
  {
    (now - before) % WRAP
  }

  /** A wrapped difference is never more than the time that passed, and is that time if the
      clock did not go all the way round. */
  lemma ElapsedIsSafe(now: nat, before: nat)
    requires before <= now
    ensures Elapsed(Clock(now), Clock(before)) <= now - before
    ensures now - before < WRAP ==> Elapsed(Clock(now), Clock(before)) == now - before
  {
    var q, p, d := now / WRAP, before / WRAP, now - before;
    assert d == (q - p) * WRAP + (Clock(now) - Clock(before));
    assert (Clock(now) - Clock(before)) % WRAP == d % WRAP by {
      SameRemainder(Clock(now) - Clock(before), q - p);
    }
  }

  lemma SameRemainder(x: int, k: int)
    ensures (k * WRAP + x) % WRAP == x % WRAP
  {
    var q, r := x / WRAP, x % WRAP;
    var q1, r1 := (k * WRAP + x) / WRAP, (k * WRAP + x) % WRAP;
    assert (k + q - q1) * WRAP == r1 - r;
  }

  // One pass over a switch.

  /** The clock as one pass reads it: when the pin is sampled, when the interval is checked and
      the new start of the count is stored, and the same two for the hold interval. */
  datatype Pass = Pass(sampled: nat, checked: nat, stored: nat, holdChecked: nat, holdStored: nat)
  {
    predicate InOrder(from: nat)
    {
      from <= sampled <= checked <= stored <= holdChecked <= holdStored
    }
  }

  datatype Sample = Sample(time: nat, reading: bool)

  /** The switch and what has happened to it: every reading, of which those from `steady` on are
      all the same; when the count that `previous` shows began; when the debounced state changed;
      when the hold began that `changedAt` shows; and when the last pass was over. */
  datatype State = State(interval: nat, holdInterval: nat, debounced: bool, unstable: bool, changed: bool,
                         heldOn: bool, previous: Millis, changedAt: Millis,
                         samples: seq<Sample>, steady: nat, since: nat, changes: seq<nat>, holdSince: nat, until: nat)

  /** All readings from `from` on are the same. */
  ghost predicate AllRead(samples: seq<Sample>, from: nat, reading: bool)
  {
    forall i :: from <= i < |samples| ==> samples[i].reading == reading
  }

  lemma AllReadMore(samples: seq<Sample>, from: nat, reading: bool, more: Sample)
    requires AllRead(samples, from, reading)
    ensures more.reading == reading ==> AllRead(samples + [more], from, reading)
  {
  }

  /** What holds of every switch at all times. In particular no two changes are less than the
      interval apart. */
  ghost predicate Sound(s: State)
  {
    && s.steady < |s.samples|
    && AllRead(s.samples, s.steady, s.unstable)
    && s.samples[s.steady].time <= s.since <= s.until
    && s.previous == Clock(s.since)
    && Spaced(s.changes, s.interval)
    && (s.changes != [] ==> s.changes[|s.changes| - 1] <= s.since)
    && (s.changedAt != 0 ==>
          s.changes != [] && s.changes[|s.changes| - 1] <= s.holdSince <= s.until && s.changedAt == Clock(s.holdSince))
  }

  ghost predicate Spaced(times: seq<nat>, distance: nat)
  {
    forall i, j :: 0 <= i < j < |times| ==> times[i] + distance <= times[j]
  }

  lemma SpacedMore(times: seq<nat>, distance: nat, time: nat)
    requires Spaced(times, distance) && (times != [] ==> times[|times| - 1] + distance <= time)
    ensures Spaced(times + [time], distance)
  {
  }

  /** What a pass does to the debounced state. It becomes what every reading of at least the
      interval was, and does so as soon as that is the case, unless the clock has gone all the way
      round; the count begins again with every reading that differs and with every change. */
  ghost predicate Settled(s: State, p: Pass, reading: bool, t: State)
  {
    && t.interval == s.interval && t.unstable == reading
    && t.samples == s.samples + [Sample(p.sampled, reading)] && t.until == p.holdStored
    && t.debounced == (if t.changed then reading else s.debounced)
    && (if reading != s.unstable || t.changed then t.steady == |s.samples| && t.since == p.stored
        else t.steady == s.steady && t.since == s.since)
    && t.changes == (if t.changed then s.changes + [p.stored] else s.changes)
    && (t.changed ==>
          && s.unstable == reading && s.debounced != reading && s.since + s.interval <= p.checked
          && AllRead(t.samples, s.steady, reading))
    && (s.unstable == reading && s.debounced != reading && s.since + s.interval <= p.checked < s.since + WRAP ==>
          t.changed)
  }

  /** What it does to the mark of a button that is held: never set by a change, set once the
      hold interval has passed since one, and cleared by the next. */
  ghost predicate HoldSettled(s: State, p: Pass, t: State)
  {
    && t.holdInterval == s.holdInterval
    && (t.changed ==> !t.heldOn)
    && (s.heldOn && !t.changed ==> t.heldOn)
    && (t.heldOn && !s.heldOn ==>
          && !t.changed && s.changedAt != 0 && t.changedAt == 0
          && s.holdSince + s.holdInterval <= p.holdChecked)
    && (!t.changed && s.changedAt != 0 && s.holdSince + s.holdInterval <= p.holdChecked < s.holdSince + WRAP ==>
          t.heldOn)
    && (t.changed && s.heldOn ==> t.changedAt == 0)
    && (t.changed && !s.heldOn ==>
          if Elapsed(Clock(p.holdChecked), s.changedAt) < s.holdInterval then t.changedAt == 0
          else t.changedAt == Clock(p.holdStored) && t.holdSince == p.holdStored)
    && (!t.changed ==> t.changedAt == 0 || (t.changedAt == s.changedAt && t.holdSince == s.holdSince))
  }

  ghost predicate OnePass(s: State, p: Pass, reading: bool, t: State)
  {
    Settled(s, p, reading, t) && HoldSettled(s, p, t)
  }

  /** What holds of the count, and of the mark. */
  ghost predicate CountSound(s: State)
  {
    && s.steady < |s.samples| && AllRead(s.samples, s.steady, s.unstable)
    && s.samples[s.steady].time <= s.since <= s.until && s.previous == Clock(s.since)
    && Spaced(s.changes, s.interval) && (s.changes != [] ==> s.changes[|s.changes| - 1] <= s.since)
  }

  lemma PassCounts(s: State, p: Pass, reading: bool, t: State)
    requires CountSound(s) && p.InOrder(s.until) && Settled(s, p, reading, t) && t.previous == Clock(t.since)
    ensures CountSound(t)
  {
    hide Clock, Spaced, AllRead;
    AllReadMore(s.samples, s.steady, s.unstable, Sample(p.sampled, reading));
    ReadLast(t.samples);
    if t.changed {
      SpacedMore(s.changes, s.interval, p.stored);
    }
  }

  lemma ReadLast(samples: seq<Sample>)
    requires samples != []
    ensures AllRead(samples, |samples| - 1, samples[|samples| - 1].reading)
  {
  }

  /** A pass keeps everything sound. */
  lemma PassSound(s: State, p: Pass, reading: bool, t: State)
    requires Sound(s) && p.InOrder(s.until) && OnePass(s, p, reading, t) && t.previous == Clock(t.since)
    ensures Sound(t)
  {
    hide Clock, Elapsed, Spaced, AllRead;
    PassCounts(s, p, reading, t);
  }

  // The three ways in which a pass can go.

  lemma Restarts(s: State, p: Pass, reading: bool)
    requires reading != s.unstable
    ensures Settled(s, p, reading,
      s.(samples := s.samples + [Sample(p.sampled, reading)], until := p.holdStored, changed := false,
         unstable := reading, previous := Clock(p.stored), steady := |s.samples|, since := p.stored))
  {
    hide Clock, AllRead;
  }

  lemma Stays(s: State, p: Pass, reading: bool)
    requires reading == s.unstable && s.previous == Clock(s.since) && s.since <= p.checked
    requires s.debounced == reading || Elapsed(Clock(p.checked), s.previous) < s.interval
    ensures Settled(s, p, reading,
      s.(samples := s.samples + [Sample(p.sampled, reading)], until := p.holdStored, changed := false))
  {
    hide Clock, Elapsed, AllRead;
    ElapsedIsSafe(p.checked, s.since);
  }

  lemma Changes(s: State, p: Pass, reading: bool)
    requires reading == s.unstable && s.previous == Clock(s.since) && s.since <= p.checked
    requires s.debounced != reading && Elapsed(Clock(p.checked), s.previous) >= s.interval
    requires AllRead(s.samples, s.steady, s.unstable)
    ensures Settled(s, p, reading,
      s.(samples := s.samples + [Sample(p.sampled, reading)], until := p.holdStored, changed := true,
         debounced := reading, previous := Clock(p.stored), steady := |s.samples|, since := p.stored,
         changes := s.changes + [p.stored]))
  {
    hide Clock, Elapsed, AllRead;
    ElapsedIsSafe(p.checked, s.since);
    AllReadMore(s.samples, s.steady, s.unstable, Sample(p.sampled, reading));
  }

  // Runs.

  /** The states of a switch over a run of passes. */
  ghost predicate Trace(states: seq<State>, passes: seq<Pass>, readings: seq<bool>)
  {
    && |states| == |passes| + 1 == |readings| + 1
    && forall i {:trigger StepOf(states, passes, readings, i)} :: 0 <= i < |passes| ==>
         StepOf(states, passes, readings, i)
  }

  ghost predicate StepOf(states: seq<State>, passes: seq<Pass>, readings: seq<bool>, i: nat)
    requires i < |passes| == |readings| < |states|
  {
    && Sound(states[i]) && Sound(states[i + 1])
    && passes[i].InOrder(states[i].until)
    && OnePass(states[i], passes[i], readings[i], states[i + 1])
  }

  /** While all passes read the same, the count does not begin again but for the change itself. */
  lemma {:induction false} CountRuns(states: seq<State>, passes: seq<Pass>, readings: seq<bool>, r: bool, n: nat)
    requires Trace(states, passes, readings) && (forall b :: b in readings ==> b == r) && 1 <= n <= |passes|
    ensures states[n].unstable == r && states[n].interval == states[0].interval
    ensures states[n].debounced == r ||
      (states[0].since <= states[n].since <= passes[0].stored && states[n].debounced == states[0].debounced)
    decreases n
  {
    hide HoldSettled, Clock, Elapsed, Spaced;
    assert readings[n - 1] in readings;
    assert StepOf(states, passes, readings, n - 1);
    if n > 1 {
      CountRuns(states, passes, readings, r, n - 1);
    }
  }

  /** A switch that reads the same for the interval from the first of at least two passes on has
      that as its debounced state, unless the clock has gone all the way round meanwhile. */
  lemma Settles(states: seq<State>, passes: seq<Pass>, readings: seq<bool>, r: bool)
    requires Trace(states, passes, readings) && (forall b :: b in readings ==> b == r) && |passes| >= 2
    requires passes[0].stored + states[0].interval <= passes[|passes| - 1].checked < states[0].since + WRAP
    ensures states[|passes|].debounced == r
  {
    hide HoldSettled, Clock, Elapsed, Spaced;
    var n := |passes| - 1;
    CountRuns(states, passes, readings, r, n);
    assert readings[n] in readings;
    assert StepOf(states, passes, readings, n);
  }

  class Bounce {
    var interval: nat
    var holdInterval: nat
    var debounced: bool
    var unstable: bool
    var changed: bool
    var heldOn: bool
    var previous: Millis
    var changedAt: Millis

    ghost var samples: seq<Sample>
    ghost var steady: nat
    ghost var since: nat
    ghost var changes: seq<nat>
    ghost var holdSince: nat
    ghost var until: nat

    ghost function Now(): State
      reads this
    {
      State(interval, holdInterval, debounced, unstable, changed, heldOn, previous, changedAt,
            samples, steady, since, changes, holdSince, until)
    }

    ghost predicate Valid()
      reads this
    {
      Sound(Now())
    }

    /** `attach`: the state starts from the first reading. */
    constructor (interval: nat, holdInterval: nat, sampled: nat, stored: nat, reading: bool)
      requires sampled <= stored
      ensures Valid() && until == stored
      ensures Now() == State(interval, holdInterval, reading, reading, false, false, Clock(stored), 0,
                             [Sample(sampled, reading)], 0, stored, [], 0, stored)
    {
      this.interval, this.holdInterval := interval, holdInterval;
      debounced, unstable, changed, heldOn := reading, reading, false, false;
      previous, changedAt := Clock(stored), 0;
      samples, steady, since, changes, holdSince, until := [Sample(sampled, reading)], 0, stored, [], 0, stored;
    }

    predicate Fell()
      reads this
    {
      !debounced && changed
    }

    predicate Rose()
      reads this
    {
      debounced && changed
    }

    /** The mark as the number that the stick reports. */
    function Held(): nat
      reads this
    {
      if heldOn then 1 else 0
    }

    method Update(p: Pass, reading: bool)
      requires Valid() && p.InOrder(until)
      modifies this
      ensures Valid() && OnePass(old(Now()), p, reading, Now())
    {
      hide Clock, Elapsed, Spaced;
      ghost var was := Now();
      Settle(p, reading);
      Hold(p);
      PassSound(was, p, reading, Now());
    }

    method Settle(p: Pass, reading: bool)
      requires AllRead(samples, steady, unstable) && previous == Clock(since) && since <= p.checked
      modifies this`samples, this`steady, this`since, this`changes, this`until
      modifies this`unstable, this`debounced, this`changed, this`previous
      ensures Settled(old(Now()), p, reading, Now()) && previous == Clock(since)
    {
      hide Clock, Elapsed, Settled, AllRead;
      ghost var was := Now();
      samples, until := samples + [Sample(p.sampled, reading)], p.holdStored;
      changed := false;
      if reading != unstable {
        Restarts(was, p, reading);
        unstable := reading;
        BeginCount(p);
      } else if Elapsed(Clock(p.checked), previous) >= interval {
        if debounced != reading {
          Changes(was, p, reading);
          BeginCount(p);
          debounced := !debounced;
          changed := true;
          changes := changes + [p.stored];
        } else {
          Stays(was, p, reading);
        }
      } else {
        Stays(was, p, reading);
      }
    }

    /** The count begins with the last reading. */
    method BeginCount(p: Pass)
      requires samples != []
      modifies this`previous, this`steady, this`since
      ensures Now() == old(Now()).(previous := Clock(p.stored), steady := |samples| - 1, since := p.stored)
    {
      hide Clock;
      previous, steady, since := Clock(p.stored), |samples| - 1, p.stored;
    }

    /** Whether the debounced state has been the same for the hold interval. */
    method Hold(p: Pass)
      requires p.holdChecked <= p.holdStored
      requires changedAt != 0 ==> holdSince <= p.holdChecked && changedAt == Clock(holdSince)
      modifies this`heldOn, this`changedAt, this`holdSince
      ensures HoldSettled(old(Now()), p, Now())
    {
      hide Clock, Elapsed;
      if changedAt != 0 {
        ElapsedIsSafe(p.holdChecked, holdSince);
      }
      if changed && !heldOn {
        if Elapsed(Clock(p.holdChecked), changedAt) < holdInterval {
          changedAt := 0;
        } else {
          changedAt, holdSince := Clock(p.holdStored), p.holdStored;
        }
      } else if changed && heldOn {
        heldOn := false;
        changedAt := 0;
      } else if changedAt != 0 {
        if Elapsed(Clock(p.holdChecked), changedAt) >= holdInterval {
          heldOn := true;
          changedAt := 0;
        }
      }
    }
  }
}
