// The analog audio output: blocks come in from the mixer and go out from an interrupt that may
// strike between any two steps of the update in which interrupts are not off.
module Dac {
  import opened Options
  import opened Sequences

  const SAMPLES := 128

  type Sample = x: int | -0x8000 <= x < 0x8000

  type Samples = s: seq<Sample> | |s| == SAMPLES witness seq(SAMPLES, _ => 0)

  datatype Block = Block(id: nat, data: Samples)

  function Held(slot: Option<Block>): seq<Block>
  {
    if slot.Some? then [slot.value] else []
  }

  /** Where `update` is: outside, with a block it has not yet queued, or with one it has to release. */
  datatype Place = Outside | Queueing(block: Block) | Releasing(block: Block)

  datatype Step = Receive(block: Option<Block>) | Queue | Release | Interrupt(firstHalf: bool)

  /** What the converter gets for a sample. */
  function Level(s: Sample): (v: nat)
    ensures v < 0x1000 && 16 * v <= s + 0x8000 < 16 * (v + 1)
  {
    (s + 0x8000) / 16
  }

  const SILENCE := 2048

  /** Silence is what a sample of zero gives. */
  lemma SilenceIsZero()
    ensures Level(0) == SILENCE
  {
  }

  /** What a half of the buffer is filled with. */
  function Levels(slot: Option<Block>): (r: seq<nat>)
    ensures |r| == SAMPLES && forall i :: 0 <= i < SAMPLES ==> r[i] < 0x1000
  {
    seq(SAMPLES, i requires 0 <= i < SAMPLES => if slot.Some? then Level(slot.value.data[i]) else SILENCE)
  }

  lemma LevelsAt(slot: Option<Block>, i: nat)
    requires i < SAMPLES
    ensures Levels(slot)[i] == if slot.Some? then Level(slot.value.data[i]) else SILENCE
  {
  }

  /** A block that has left the queue, played or dropped. */
  datatype Gone = Gone(block: Block, played: bool)

  function Blocks(gone: seq<Gone>): (r: seq<Block>)
    ensures |r| == |gone| && forall i :: 0 <= i < |r| ==> r[i] == gone[i].block
  {
    seq(|gone|, i requires 0 <= i < |gone| => gone[i].block)
  }

  /** The output and what has happened to it: the blocks that are queued, where `update` is, all
      blocks that came in, all that left the queue, all that were given back, and the buffer. */
  datatype State = State(queue: seq<Block>, place: Place, received: seq<Block>, gone: seq<Gone>,
                         released: seq<Block>, buffer: seq<nat>)

  const ROOM := 2

  /** One half of the buffer is sent while the other is filled. */
  ghost function Filled(buffer: seq<nat>, sendingFirstHalf: bool, levels: seq<nat>): seq<nat>
    requires |buffer| == 2 * SAMPLES == 2 * |levels|
  {
    if sendingFirstHalf then buffer[..SAMPLES] + levels else levels + buffer[SAMPLES..]
  }

  /** The half that is not sent has the block's levels, or silence; the other one stays. */
  ghost predicate IdleFilled(before: seq<nat>, after: seq<nat>, sendingFirstHalf: bool, slot: Option<Block>)
  {
    && |before| == |after| == 2 * SAMPLES
    && var sending, idle := if sendingFirstHalf then 0 else SAMPLES, if sendingFirstHalf then SAMPLES else 0;
      forall i :: 0 <= i < SAMPLES ==>
        && after[sending + i] == before[sending + i]
        && after[idle + i] == if slot.Some? then Level(slot.value.data[i]) else SILENCE
  }

  lemma IdleHalf(buffer: seq<nat>, sendingFirstHalf: bool, slot: Option<Block>)
    requires |buffer| == 2 * SAMPLES
    ensures IdleFilled(buffer, Filled(buffer, sendingFirstHalf, Levels(slot)), sendingFirstHalf, slot)
  {
    hide Level, Levels;
    forall i | 0 <= i < SAMPLES
      ensures Levels(slot)[i] == if slot.Some? then Level(slot.value.data[i]) else SILENCE
    {
      LevelsAt(slot, i);
    }
  }

  lemma PatchedEnds(buffer: seq<nat>, start: nat, levels: seq<nat>)
    requires |buffer| == 2 * SAMPLES == 2 * |levels| && (start == 0 || start == SAMPLES)
    ensures Patched(buffer, start, levels, 0) == buffer
    ensures Patched(buffer, start, levels, SAMPLES) == Filled(buffer, start == SAMPLES, levels)
  {
  }

  /** What a step does; one that is not possible just then does nothing. The queue has room for two
      blocks, and the oldest makes room for a third. */
  ghost function Next(s: State, step: Step): State
    requires |s.buffer| == 2 * SAMPLES
  {
    match step
    case Receive(block) =>
      if s.place.Outside? && block.Some?
      then s.(place := Queueing(block.value), received := s.received + [block.value])
      else s
    case Queue =>
      if !s.place.Queueing? then s
      else if |s.queue| < ROOM then s.(queue := s.queue + [s.place.block], place := Outside)
      else s.(queue := s.queue[1..] + [s.place.block], place := Releasing(s.queue[0]),
              gone := s.gone + [Gone(s.queue[0], false)])
    case Release =>
      if s.place.Releasing? then s.(place := Outside, released := s.released + [s.place.block]) else s
    case Interrupt(firstHalf) =>
      if s.queue == [] then s.(buffer := Filled(s.buffer, firstHalf, Levels(None)))
      else s.(queue := s.queue[1..], gone := s.gone + [Gone(s.queue[0], true)],
              released := s.released + [s.queue[0]], buffer := Filled(s.buffer, firstHalf, Levels(Some(s.queue[0]))))
  }

  /** The state after a run of steps. */
  ghost function After(s: State, steps: seq<Step>): (t: State)
    requires |s.buffer| == 2 * SAMPLES
    ensures |t.buffer| == 2 * SAMPLES
  {
    if steps == [] then s else Next(After(s, steps[..|steps| - 1]), steps[|steps| - 1])
  }

  ghost function Start(buffer: seq<nat>): State
  {
    State([], Outside, [], [], [], buffer)
  }

  // The accounts.

  /** The blocks that came in are, in their order, those that left the queue and those that wait;
      each of them has been given back, or is owned. */
  ghost predicate Conserved(received: seq<Block>, gone: seq<Gone>, waiting: seq<Block>,
                            released: seq<Block>, owned: multiset<Block>)
  {
    && received == Blocks(gone) + waiting
    && multiset(received) == multiset(released) + owned
  }

  lemma OneIn(received: seq<Block>, gone: seq<Gone>, waiting: seq<Block>, released: seq<Block>, owned: multiset<Block>,
              b: Block)
    requires Conserved(received, gone, waiting, released, owned)
    ensures Conserved(received + [b], gone, waiting + [b], released, owned + multiset{b})
  {
  }

  lemma OneGone(received: seq<Block>, gone: seq<Gone>, waiting: seq<Block>, released: seq<Block>,
                owned: multiset<Block>, b: Block, rest: seq<Block>, played: bool)
    requires Conserved(received, gone, waiting, released, owned) && waiting == [b] + rest
    ensures Conserved(received, gone + [Gone(b, played)], rest, released, owned)
  {
    assert Blocks(gone + [Gone(b, played)]) == Blocks(gone) + [b];
  }

  lemma OneBack(received: seq<Block>, gone: seq<Gone>, waiting: seq<Block>, released: seq<Block>,
                owned: multiset<Block>, b: Block, rest: multiset<Block>)
    requires Conserved(received, gone, waiting, released, owned) && owned == multiset{b} + rest
    ensures Conserved(received, gone, waiting, released + [b], rest)
  {
  }

  /** The blocks that wait, in the order they came in. */
  ghost function Waiting(s: State): seq<Block>
  {
    s.queue + if s.place.Queueing? then [s.place.block] else []
  }

  /** The blocks it owns. */
  ghost function Owned(s: State): multiset<Block>
  {
    multiset(s.queue) + if s.place.Outside? then multiset{} else multiset{s.place.block}
  }

  ghost predicate Accounts(s: State)
  {
    && |s.queue| <= ROOM && |s.buffer| == 2 * SAMPLES
    && Conserved(s.received, s.gone, Waiting(s), s.released, Owned(s))
  }

  lemma TakenIn(s: State, b: Block)
    requires Accounts(s) && s.place.Outside?
    ensures Accounts(s.(place := Queueing(b), received := s.received + [b]))
  {
    hide Conserved;
    var t := s.(place := Queueing(b), received := s.received + [b]);
    OneIn(s.received, s.gone, Waiting(s), s.released, Owned(s), b);
    assert Waiting(t) == Waiting(s) + [b];
  }

  lemma Queued(s: State)
    requires Accounts(s) && s.place.Queueing? && |s.queue| < ROOM
    ensures Accounts(s.(queue := s.queue + [s.place.block], place := Outside))
  {
    hide Conserved;
    var t := s.(queue := s.queue + [s.place.block], place := Outside);
    assert Waiting(t) == Waiting(s) && Owned(t) == Owned(s);
  }

  lemma Dropped(s: State)
    requires Accounts(s) && s.place.Queueing? && |s.queue| == ROOM
    ensures Accounts(s.(queue := s.queue[1..] + [s.place.block], place := Releasing(s.queue[0]),
                        gone := s.gone + [Gone(s.queue[0], false)]))
  {
    hide Conserved;
    var t := s.(queue := s.queue[1..] + [s.place.block], place := Releasing(s.queue[0]));
    assert s.queue == [s.queue[0]] + s.queue[1..];
    assert Waiting(s) == [s.queue[0]] + Waiting(t);
    assert Owned(t) == Owned(s);
    OneGone(s.received, s.gone, Waiting(s), s.released, Owned(s), s.queue[0], Waiting(t), false);
  }

  lemma GivenBack(s: State)
    requires Accounts(s) && s.place.Releasing?
    ensures Accounts(s.(place := Outside, released := s.released + [s.place.block]))
  {
    hide Conserved;
    var t := s.(place := Outside);
    assert Waiting(t) == Waiting(s) && Owned(s) == multiset{s.place.block} + Owned(t);
    OneBack(s.received, s.gone, Waiting(s), s.released, Owned(s), s.place.block, Owned(t));
  }

  lemma Played(s: State, buffer: seq<nat>)
    requires Accounts(s) && s.queue != [] && |buffer| == 2 * SAMPLES
    ensures Accounts(s.(queue := s.queue[1..], gone := s.gone + [Gone(s.queue[0], true)],
                        released := s.released + [s.queue[0]], buffer := buffer))
  {
    hide Conserved;
    var b, t := s.queue[0], s.(queue := s.queue[1..], gone := s.gone + [Gone(s.queue[0], true)]);
    assert s.queue == [b] + s.queue[1..];
    assert Waiting(s) == [b] + Waiting(t) && Owned(s) == multiset{b} + Owned(t);
    OneGone(s.received, s.gone, Waiting(s), s.released, Owned(s), b, Waiting(t), true);
    OneBack(s.received, t.gone, Waiting(t), s.released, Owned(s), b, Owned(t));
  }

  lemma Silent(s: State, buffer: seq<nat>)
    requires Accounts(s) && |buffer| == 2 * SAMPLES
    ensures Accounts(s.(buffer := buffer))
  {
    hide Conserved;
  }

  /** Every step keeps the accounts. */
  lemma StepKeeps(s: State, step: Step)
    requires Accounts(s)
    ensures Accounts(Next(s, step))
  {
    hide Conserved, Levels, Waiting, Owned;
    match step
    case Receive(block) =>
      if s.place.Outside? && block.Some? {
        TakenIn(s, block.value);
      }
    case Queue =>
      if s.place.Queueing? {
        if |s.queue| < ROOM {
          Queued(s);
        } else {
          Dropped(s);
        }
      }
    case Release =>
      if s.place.Releasing? {
        GivenBack(s);
      }
    case Interrupt(firstHalf) =>
      if s.queue != [] {
        Played(s, Filled(s.buffer, firstHalf, Levels(Some(s.queue[0]))));
      } else {
        Silent(s, Filled(s.buffer, firstHalf, Levels(None)));
      }
  }

  /** Under every interleaving blocks leave the queue in the order they came in, and each is given
      back once or is still owned. */
  lemma {:induction false} RunKeeps(s: State, steps: seq<Step>)
    requires Accounts(s)
    ensures Accounts(After(s, steps))
  {
    hide Conserved, Next;
    if steps != [] {
      RunKeeps(s, steps[..|steps| - 1]);
      StepKeeps(After(s, steps[..|steps| - 1]), steps[|steps| - 1]);
    } else {
      assert After(s, steps) == s;
    }
  }

  lemma AtFirst(buffer: seq<nat>)
    requires |buffer| == 2 * SAMPLES
    ensures Accounts(Start(buffer))
  {
    assert Blocks([]) == [];
  }

  /** A step that is not possible does nothing. */
  lemma NotNow(s: State, step: Step)
    requires |s.buffer| == 2 * SAMPLES
    requires match step
      case Receive(_) => !s.place.Outside?
      case Queue => !s.place.Queueing?
      case Release => !s.place.Releasing?
      case Interrupt(_) => false
    ensures Next(s, step) == s
  {
  }

  // Which blocks are played.

  /** What the n-th step finds. */
  ghost function Before(s: State, steps: seq<Step>, n: nat): (t: State)
    requires |s.buffer| == 2 * SAMPLES && n <= |steps|
    ensures |t.buffer| == 2 * SAMPLES
  {
    After(s, steps[..n])
  }

  /** A block for which both slots are taken. */
  ghost predicate Full(s: State, step: Step)
  {
    step.Queue? && s.place.Queueing? && |s.queue| == ROOM
  }

  /** A step takes the oldest block out of the queue: an interrupt fills a half of the buffer with
      it, or it is dropped because both slots are taken. */
  ghost predicate Leaves(g: Gone, s: State, step: Step)
    requires |s.buffer| == 2 * SAMPLES
  {
    var t := Next(s, step);
    && s.queue != [] && s.queue[0] == g.block && t.gone == s.gone + [g]
    && if g.played then step.Interrupt? && IdleFilled(s.buffer, t.buffer, step.firstHalf, Some(g.block))
       else Full(s, step)
  }

  lemma StepLeaves(s: State, step: Step)
    requires Accounts(s)
    ensures Next(s, step).gone == s.gone || exists g :: Next(s, step).gone == s.gone + [g] && Leaves(g, s, step)
  {
    hide Conserved, Levels, Filled, IdleFilled;
    var t := Next(s, step);
    if step.Interrupt? && s.queue != [] {
      IdleHalf(s.buffer, step.firstHalf, Some(s.queue[0]));
    }
    if t.gone != s.gone {
      assert Leaves(t.gone[|s.gone|], s, step);
    }
  }

  /** The k-th block to leave is the k-th that came in. */
  lemma InTurn(s: State, k: nat)
    requires Accounts(s) && k < |s.gone|
    ensures k < |s.received| && s.gone[k].block == s.received[k]
  {
    assert s.received[k] == Blocks(s.gone)[k];
  }

  /** Every block that has left the queue was the oldest one there, and left in one of the two ways. */
  lemma {:induction false} Fate(s: State, steps: seq<Step>, k: nat) returns (n: nat)
    requires Accounts(s) && |s.gone| <= k < |After(s, steps).gone|
    ensures k < |After(s, steps).received| && After(s, steps).gone[k].block == After(s, steps).received[k]
    ensures n < |steps| && |Before(s, steps, n).gone| == k
    ensures Leaves(After(s, steps).gone[k], Before(s, steps, n), steps[n])
  {
    hide Conserved, Next, Full, Leaves;
    RunKeeps(s, steps);
    InTurn(After(s, steps), k);
    assert steps != [];
    n := |steps| - 1;
    var t := After(s, steps[..n]);
    RunKeeps(s, steps[..n]);
    StepLeaves(t, steps[n]);
    if k < |t.gone| {
      var m := Fate(s, steps[..n], k);
      assert steps[..n][..m] == steps[..m];
      n := m;
    }
  }

  lemma GoneGrows(s: State, steps: seq<Step>, n: nat)
    requires Accounts(s) && n <= |steps|
    ensures Before(s, steps, n).gone <= After(s, steps).gone
  {
    hide Conserved, Next, Full, Leaves;
    if n < |steps| {
      var m := |steps| - 1;
      assert steps[..m][..n] == steps[..n];
      GoneGrows(s, steps[..m], n);
      RunKeeps(s, steps[..m]);
      StepLeaves(After(s, steps[..m]), steps[m]);
    } else {
      assert steps[..n] == steps;
    }
  }

  /** What the next step finds. */
  lemma BeforeNext(s: State, steps: seq<Step>, n: nat)
    requires |s.buffer| == 2 * SAMPLES && n < |steps|
    ensures Before(s, steps, n + 1) == Next(Before(s, steps, n), steps[n])
  {
    hide Next;
    assert steps[..n + 1][..n] == steps[..n];
  }

  lemma DropsThere(s: State, steps: seq<Step>, n: nat)
    requires Accounts(s) && n < |steps| && Full(Before(s, steps, n), steps[n])
    ensures exists g :: g in After(s, steps).gone && !g.played
  {
    hide Conserved, Before, After;
    var t := Before(s, steps, n);
    BeforeNext(s, steps, n);
    GoneGrows(s, steps, n + 1);
    var g := Gone(t.queue[0], false);
    assert Next(t, steps[n]).gone[|t.gone|] == g;
    assert g in After(s, steps).gone;
  }

  /** A block is dropped exactly where one comes for which both slots are taken. */
  lemma DroppedWhereFull(s: State, steps: seq<Step>)
    requires Accounts(s) && s.gone == []
    ensures (forall g :: g in After(s, steps).gone ==> g.played)
       <==> forall n :: 0 <= n < |steps| ==> !Full(Before(s, steps, n), steps[n])
  {
    hide Conserved, Before, After, Next, Full;
    var gone := After(s, steps).gone;
    if k: nat :| k < |gone| && !gone[k].played {
      var n := Fate(s, steps, k);
    } else if n: nat :| n < |steps| && Full(Before(s, steps, n), steps[n]) {
      DropsThere(s, steps, n);
    }
  }

  // How many blocks the queue can take.

  /** By how many the blocks brought to the queue outnumber the interrupts over a stretch of steps. */
  ghost function Surplus(s: State, steps: seq<Step>, i: nat, j: nat): int
    requires |s.buffer| == 2 * SAMPLES && i <= j <= |steps|
    decreases j
  {
    if i == j then 0
    else Surplus(s, steps, i, j - 1) + Gain(Before(s, steps, j - 1), steps[j - 1])
  }

  ghost function Gain(s: State, step: Step): int
  {
    if step.Interrupt? then -1 else if step.Queue? && s.place.Queueing? then 1 else 0
  }

  lemma StepGains(s: State, step: Step)
    requires Accounts(s)
    ensures !Full(s, step) ==> |Next(s, step).queue| >= |s.queue| + Gain(s, step)
    ensures |Next(s, step).queue| <= if |s.queue| + Gain(s, step) < 0 then 0 else |s.queue| + Gain(s, step)
    ensures Full(s, step) <==> |s.queue| + Gain(s, step) > ROOM
  {
    hide Conserved;
  }

  /** Without a drop no stretch brings more than is queued at its end. */
  lemma {:induction false} AllQueued(s: State, steps: seq<Step>, i: nat, j: nat)
    requires Accounts(s) && i <= j <= |steps|
    requires forall n :: 0 <= n < |steps| ==> !Full(Before(s, steps, n), steps[n])
    ensures |Before(s, steps, j).queue| >= |Before(s, steps, i).queue| + Surplus(s, steps, i, j)
    decreases j
  {
    hide Conserved, Next, Full, Gain;
    if i < j {
      AllQueued(s, steps, i, j - 1);
      RunKeeps(s, steps[..j - 1]);
      StepGains(Before(s, steps, j - 1), steps[j - 1]);
      BeforeNext(s, steps, j - 1);
    }
  }

  /** What is queued has been brought by some stretch that ends now. */
  lemma {:induction false} Brought(s: State, steps: seq<Step>, j: nat) returns (i: nat)
    requires Accounts(s) && s.queue == [] && j <= |steps|
    ensures i <= j && |Before(s, steps, j).queue| <= Surplus(s, steps, i, j)
    decreases j
  {
    hide Conserved, Next, Full, Gain;
    i := j;
    if j > 0 && |Before(s, steps, j).queue| > 0 {
      i := Brought(s, steps, j - 1);
      RunKeeps(s, steps[..j - 1]);
      StepGains(Before(s, steps, j - 1), steps[j - 1]);
      BeforeNext(s, steps, j - 1);
    }
  }

  /** Nothing is dropped if and only if no stretch of steps brings over two blocks more than it has
      interrupts. */
  lemma DropsExactly(s: State, steps: seq<Step>)
    requires Accounts(s) && s.queue == [] && s.gone == []
    ensures (forall g :: g in After(s, steps).gone ==> g.played)
       <==> forall i, j :: 0 <= i <= j <= |steps| ==> Surplus(s, steps, i, j) <= ROOM
  {
    hide Conserved, Next, Full, Gain;
    DroppedWhereFull(s, steps);
    if forall n :: 0 <= n < |steps| ==> !Full(Before(s, steps, n), steps[n]) {
      forall i, j | 0 <= i <= j <= |steps|
        ensures Surplus(s, steps, i, j) <= ROOM
      {
        AllQueued(s, steps, i, j);
        RunKeeps(s, steps[..j]);
      }
    } else {
      var n :| 0 <= n < |steps| && Full(Before(s, steps, n), steps[n]);
      var i := Brought(s, steps, n);
      RunKeeps(s, steps[..n]);
      StepGains(Before(s, steps, n), steps[n]);
      assert Surplus(s, steps, i, n + 1) > ROOM;
    }
  }

  class AudioOutputAnalog {
    var first: Option<Block>
    var second: Option<Block>
    var place: Place
    const buffer: array<nat>

    /** All blocks that came in, all that left the queue, and all that were given back. */
    ghost var received: seq<Block>
    ghost var gone: seq<Gone>
    ghost var released: seq<Block>

    ghost function Now(): State
      reads this, buffer
    {
      State(Held(first) + Held(second), place, received, gone, released, buffer[..])
    }

    /** The second slot is only taken if the first one is, and the accounts are right. */
    ghost predicate Valid()
      reads this, buffer
    {
      (second.Some? ==> first.Some?) && Accounts(Now())
    }

    constructor ()
      ensures Valid() && Now() == Start(buffer[..]) && fresh(buffer)
    {
      first, second, place := None, None, Outside;
      buffer := new nat[2 * SAMPLES](_ => 0);
      received, gone, released := [], [], [];
      new;
      AtFirst(buffer[..]);
    }

    /** `update` asks for a block. */
    method TakeIn(block: Option<Block>)
      requires Valid() && place.Outside?
      modifies this`place, this`received
      ensures Valid() && Now() == Next(old(Now()), Receive(block))
      ensures received == old(received) + Held(block)
      ensures place == if block.Some? then Queueing(block.value) else Outside
    {
      hide Accounts;
      StepKeeps(Now(), Receive(block));
      if block.Some? {
        place := Queueing(block.value);
        received := received + [block.value];
      }
    }

    /** The part with interrupts off. When both slots are taken, the oldest block makes room. */
    method Enqueue()
      requires Valid() && place.Queueing?
      modifies this`first, this`second, this`place, this`gone
      ensures Valid() && Now() == Next(old(Now()), Queue)
      ensures place == if old(second).Some? then Releasing(old(first).value) else Outside
      ensures Held(first) + Held(second) ==
        (if old(second).Some? then Held(old(second)) else Held(old(first))) + [old(place.block)]
      ensures gone == if old(second).Some? then old(gone) + [Gone(old(first).value, false)] else old(gone)
    {
      hide Accounts;
      StepKeeps(Now(), Queue);
      ghost var queue := Now().queue;
      var block := place.block;
      if first == None {
        first, place := Some(block), Outside;
      } else if second == None {
        second, place := Some(block), Outside;
      } else {
        var tmp := first.value;
        first := second;
        second := Some(block);
        place := Releasing(tmp);
        gone := gone + [Gone(tmp, false)];
      }
      assert Held(first) + Held(second) == (if |queue| == ROOM then queue[1..] else queue) + [block];
    }

    /** The last part of `update`. */
    method GiveBack()
      requires Valid() && place.Releasing?
      modifies this`place, this`released
      ensures Valid() && Now() == Next(old(Now()), Release)
      ensures place == Outside && released == old(released) + [old(place.block)]
    {
      hide Accounts;
      StepKeeps(Now(), Release);
      released := released + [place.block];
      place := Outside;
    }

    /** The interrupt: refills the half that is not being sent, and releases the block it played. */
    method Isr(sendingFirstHalf: bool)
      requires Valid()
      modifies this`first, this`second, this`gone, this`released, buffer
      ensures Valid() && Now() == Next(old(Now()), Interrupt(sendingFirstHalf))
      ensures first == old(second) && second == None
      ensures IdleFilled(old(buffer[..]), buffer[..], sendingFirstHalf, old(first))
    {
      hide Accounts, Levels, Filled, IdleFilled;
      SizesRight();
      IdleHalf(buffer[..], sendingFirstHalf, first);
      StepKeeps(Now(), Interrupt(sendingFirstHalf));
      ghost var queue := Now().queue;
      Fill(if sendingFirstHalf then SAMPLES else 0);
      assert buffer[..] == Filled(old(buffer[..]), sendingFirstHalf, Levels(first));
      if first.Some? {
        released := released + [first.value];
        gone := gone + [Gone(first.value, true)];
        first := second;
        second := None;
        assert Held(first) + Held(second) == queue[1..];
      } else {
        assert queue == [];
      }
    }

    lemma SizesRight()
      requires Valid()
      ensures buffer.Length == 2 * SAMPLES
    {
    }

    /** Converts the block that is next, or fills in silence. */
    method Fill(start: nat)
      requires buffer.Length == 2 * SAMPLES && (start == 0 || start == SAMPLES)
      modifies buffer
      ensures buffer[..] == Filled(old(buffer[..]), start == SAMPLES, Levels(first))
    {
      hide Level, Levels, Patched;
      var end := start + SAMPLES;
      var dest := start;
      PatchedEnds(buffer[..], start, Levels(first));
      if first.Some? {
        var src := 0;
        while dest < end
          invariant start <= dest <= end && src == dest - start
          invariant buffer[..] == Patched(old(buffer[..]), start, Levels(first), src)
        {
          LevelsAt(first, src);
          PatchedNext(old(buffer[..]), start, Levels(first), src);
          buffer[dest] := Level(first.value.data[src]);
          dest, src := dest + 1, src + 1;
        }
      } else {
        while dest < end
          invariant start <= dest <= end
          invariant buffer[..] == Patched(old(buffer[..]), start, Levels(first), dest - start)
        {
          LevelsAt(first, dest - start);
          PatchedNext(old(buffer[..]), start, Levels(first), dest - start);
          buffer[dest] := SILENCE;
          dest := dest + 1;
        }
      }
    }

    /** Any interleaving of the steps; one that is not possible just then is left out. */
    method Run(steps: seq<Step>)
      requires Valid()
      modifies this, buffer
      ensures Valid() && Now() == After(old(Now()), steps)
    {
      hide Conserved, Next, Levels;
      assert Now() == After(Now(), []);
      for n := 0 to |steps|
        invariant Valid() && Now() == Before(old(Now()), steps, n)
      {
        BeforeNext(old(Now()), steps, n);
        match steps[n] {
          case Receive(block) =>
            if place.Outside? {
              TakeIn(block);
            } else {
              NotNow(Now(), steps[n]);
            }
          case Queue =>
            if place.Queueing? {
              Enqueue();
            } else {
              NotNow(Now(), steps[n]);
            }
          case Release =>
            if place.Releasing? {
              GiveBack();
            } else {
              NotNow(Now(), steps[n]);
            }
          case Interrupt(firstHalf) =>
            Isr(firstHalf);
        }
      }
      assert steps[..|steps|] == steps;
    }
  }
}
