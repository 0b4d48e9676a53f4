// The five-way stick: edges of debounced buttons, and a repeat while up or down is held.
module Navigation {
  import opened Debounce
  import opened Options

  datatype Button = Up | Down | Left | Right | Push

  /** Something for each of the five buttons. */
  datatype Five<T> = Five(up: T, down: T, left: T, right: T, push: T)
  {
    function At(b: Button): T
    {
      match b
      case Up => up
      case Down => down
      case Left => left
      case Right => right
      case Push => push
    }
  }

  /** The buttons in which two sets of pressed ones differ. */
  function Mask(p: Five<bool>, q: Five<bool>): (m: set<Button>)
    ensures (Up in m <==> p.up != q.up) && (Down in m <==> p.down != q.down)
    ensures (Left in m <==> p.left != q.left) && (Right in m <==> p.right != q.right)
    ensures Push in m <==> p.push != q.push
  {
    set b: Button | p.At(b) != q.At(b)
  }

  /** The direction that repeats: down, if a shorted pin has both read as pressed. */
  function Direction(p: Five<bool>): (d: Option<Button>)
    ensures (d == Some(Down) <==> p.down) && (d == Some(Up) <==> p.up && !p.down)
    ensures d == None <==> !p.up && !p.down
  {
    if p.down then Some(Down) else if p.up then Some(Up) else None
  }

  datatype Event = Event(mask: set<Button>, pressed: Five<bool>, duration: nat, repeated: bool)

  /** The clock as one pass over the stick reads it: for each button, and then for the deadline
      of the repeat, when it is set, checked and set again. */
  datatype Tick = Tick(passes: Five<Pass>, armed: nat, checked: nat, rearmed: nat)
  {
    predicate InOrder(from: nat)
    {
      && passes.up.InOrder(from) && passes.down.InOrder(passes.up.holdStored)
      && passes.left.InOrder(passes.down.holdStored) && passes.right.InOrder(passes.left.holdStored)
      && passes.push.InOrder(passes.right.holdStored)
      && passes.push.holdStored <= armed <= checked <= rearmed
    }
  }

  // The buttons.

  ghost predicate AllPass(s: Five<State>, tick: Tick, pins: Five<bool>, t: Five<State>)
  {
    forall b: Button :: OnePass(s.At(b), tick.passes.At(b), pins.At(b), t.At(b))
  }

  lemma MaskIs(p: Five<bool>, q: Five<bool>)
    ensures Mask(p, q)
      == (if p.up != q.up then {Up} else {}) + (if p.down != q.down then {Down} else {})
       + (if p.left != q.left then {Left} else {}) + (if p.right != q.right then {Right} else {})
       + (if p.push != q.push then {Push} else {})
  {
  }

  lemma SomeMask(p: Five<bool>, q: Five<bool>)
    ensures Mask(p, q) != {} <==> p != q
  {
    if Mask(p, q) == {} {
      assert Up !in Mask(p, q) && Down !in Mask(p, q) && Left !in Mask(p, q);
      assert Right !in Mask(p, q) && Push !in Mask(p, q);
    }
  }

  lemma AllPassed(s: Five<State>, tick: Tick, pins: Five<bool>, t: Five<State>)
    requires OnePass(s.up, tick.passes.up, pins.up, t.up) && OnePass(s.down, tick.passes.down, pins.down, t.down)
    requires OnePass(s.left, tick.passes.left, pins.left, t.left)
    requires OnePass(s.right, tick.passes.right, pins.right, t.right)
    requires OnePass(s.push, tick.passes.push, pins.push, t.push) && tick.InOrder(0)
    ensures AllPass(s, tick, pins, t)
    ensures t.up.until <= tick.armed && t.down.until <= tick.armed && t.left.until <= tick.armed
    ensures t.right.until <= tick.armed && t.push.until <= tick.armed
  {
    assert AllPass(s, tick, pins, t) by {
      hide OnePass;
    }
  }

  /** Whether a button counts as pressed: a pin that falls presses it, one that rises releases it. */
  function After(was: bool, s: State): bool
  {
    if s.changed then !s.debounced else was
  }

  function AllAfter(was: Five<bool>, s: Five<State>): Five<bool>
  {
    Five(After(was.up, s.up), After(was.down, s.down), After(was.left, s.left), After(was.right, s.right),
         After(was.push, s.push))
  }

  /** A button whose debounced pin fell at some time and has been low since. */
  ghost predicate Low(s: State)
  {
    !s.debounced && s.changes != []
  }

  /** ... and since no later than this. */
  ghost predicate LowSince(s: State, time: nat)
  {
    Low(s) && s.changes[|s.changes| - 1] <= time
  }

  /** The buttons that are low are those that count as pressed. */
  ghost predicate Pressing(p: Five<bool>, s: Five<State>)
  {
    forall b: Button :: p.At(b) <==> Low(s.At(b))
  }

  /** An edge comes from a change, which has cleared the mark of a button that is held. */
  ghost predicate EdgesAreNew(p: Five<bool>, q: Five<bool>, s: Five<State>)
  {
    forall b: Button :: p.At(b) != q.At(b) ==> s.At(b).changed && !s.At(b).heldOn
  }

  lemma NewEdges(p: Five<bool>, q: Five<bool>, s: Five<State>)
    requires EdgesAreNew(p, q, s)
    ensures (p.up != q.up ==> !s.up.heldOn) && (p.down != q.down ==> !s.down.heldOn)
    ensures (p.left != q.left ==> !s.left.heldOn) && (p.right != q.right ==> !s.right.heldOn)
    ensures p.push != q.push ==> !s.push.heldOn
  {
    assert p.At(Up) == p.up && p.At(Down) == p.down && p.At(Left) == p.left && p.At(Right) == p.right;
    assert p.At(Push) == p.push;
  }

  lemma LowAfter(was: bool, s: State, p: Pass, pin: bool, t: State)
    requires OnePass(s, p, pin, t) && (was <==> Low(s))
    ensures After(was, t) <==> Low(t)
    ensures After(was, t) != was ==> t.changed && !t.heldOn
    ensures was && After(was, t) ==> t.changes == s.changes
  {
  }

  lemma AllAfterAt(was: Five<bool>, s: Five<State>, b: Button)
    ensures AllAfter(was, s).At(b) == After(was.At(b), s.At(b))
  {
  }

  lemma PressingAfter(was: Five<bool>, s: Five<State>, tick: Tick, pins: Five<bool>, t: Five<State>)
    requires AllPass(s, tick, pins, t) && Pressing(was, s)
    ensures Pressing(AllAfter(was, t), t) && EdgesAreNew(AllAfter(was, t), was, t)
  {
    hide OnePass, After, Low, AllAfter, Five.At;
    forall b: Button
      ensures AllAfter(was, t).At(b) <==> Low(t.At(b))
      ensures AllAfter(was, t).At(b) != was.At(b) ==> t.At(b).changed && !t.At(b).heldOn
    {
      AllAfterAt(was, t, b);
      LowAfter(was.At(b), s.At(b), tick.passes.At(b), pins.At(b), t.At(b));
    }
  }

  lemma PressedAre(p: Five<bool>, s: Five<State>)
    requires Pressing(p, s)
    ensures (p.up <==> Low(s.up)) && (p.down <==> Low(s.down)) && (p.left <==> Low(s.left))
    ensures (p.right <==> Low(s.right)) && (p.push <==> Low(s.push))
  {
    assert p.At(Up) == p.up && p.At(Down) == p.down && p.At(Left) == p.left && p.At(Right) == p.right;
    assert p.At(Push) == p.push;
  }

  lemma NonePressing(s: Five<State>)
    requires s.up.changes == s.down.changes == s.left.changes == s.right.changes == s.push.changes == []
    ensures Pressing(Five(false, false, false, false, false), s)
  {
  }

  /** A direction that goes on being held has been low all the time. */
  lemma StillLow(was: Five<bool>, s: Five<State>, tick: Tick, pins: Five<bool>, t: Five<State>, b: Button, since: nat)
    requires AllPass(s, tick, pins, t) && Pressing(was, s)
    requires Direction(was) == Direction(AllAfter(was, t)) == Some(b)
    requires LowSince(s.At(b), since)
    ensures LowSince(t.At(b), since)
  {
    hide OnePass, Low, AllAfter, After;
    AllAfterAt(was, t, b);
    LowAfter(was.At(b), s.At(b), tick.passes.At(b), pins.At(b), t.At(b));
  }

  /** A direction that is held now has been low since some time. */
  lemma NowLow(p: Five<bool>, s: Five<State>, time: nat)
    requires Pressing(p, s) && Direction(p).Some?
    requires Sound(s.up) && Sound(s.down) && s.up.until <= time && s.down.until <= time
    ensures LowSince(s.At(Direction(p).value), time)
  {
    var b := Direction(p).value;
    assert p.At(b) && Low(s.At(b));
  }

  // The repeat.

  /** One direction being held: since when, when it has repeated, and when it is due to again. */
  datatype Holding = Holding(since: nat, repeats: seq<nat>, due: nat)

  /** No repeat before the delay, and none within the rate of the last one. */
  ghost predicate Timely(h: Holding, delay: nat, rate: nat)
  {
    && (forall i :: 0 <= i < |h.repeats| ==> h.since + delay <= h.repeats[i])
    && Spaced(h.repeats, rate)
    && h.since + delay <= h.due
    && (h.repeats != [] ==> h.repeats[|h.repeats| - 1] + rate <= h.due)
  }

  /** A repeat at its due time or later keeps the distances. */
  lemma TimelyMore(h: Holding, delay: nat, rate: nat, time: nat, due: nat)
    requires Timely(h, delay, rate) && h.due <= time && time + rate <= due
    ensures Timely(Holding(h.since, h.repeats + [time], due), delay, rate)
  {
    SpacedMore(h.repeats, rate, time);
  }

  const HALF := 0x8000_0000

  /** The signed comparison with a deadline that is not far off tells whether it has passed. */
  lemma DeadlinePassed(time: nat, due: nat)
    requires due <= time + 0xFFFF
    ensures Elapsed(Clock(time), Clock(due)) < HALF ==> due <= time
    ensures due <= time < due + HALF ==> Elapsed(Clock(time), Clock(due)) < HALF
  {
    if due <= time {
      ElapsedIsSafe(time, due);
    } else {
      var q, p := time / WRAP, due / WRAP;
      var x := Clock(time) - Clock(due);
      assert (p - q) * WRAP + (time - due) == x;
      SameRemainder(time - due, p - q);
      SameRemainder(time - due, 1);
      assert (WRAP + (time - due)) % WRAP == WRAP + (time - due);
    }
  }

  class FivePosNavigation {
    const up: Bounce
    const down: Bounce
    const left: Bounce
    const right: Bounce
    const push: Bounce
    var state: Five<bool>
    var callback: bool
    var repeatMask: Option<Button>
    var repeatNext: Millis
    var repeatDelay: nat
    var repeatRate: nat

    ghost var holding: Holding
    ghost var now: nat

    ghost predicate Apart()
    {
      && up != down && up != left && up != right && up != push
      && down != left && down != right && down != push
      && left != right && left != push && right != push
    }

    ghost function Switches(): Five<State>
      reads up, down, left, right, push
    {
      Five(up.Now(), down.Now(), left.Now(), right.Now(), push.Now())
    }

    ghost predicate Buttons(time: nat)
      reads up, down, left, right, push
    {
      && Apart()
      && up.Valid() && down.Valid() && left.Valid() && right.Valid() && push.Valid()
      && up.until <= time && down.until <= time && left.until <= time && right.until <= time && push.until <= time
    }

    /** The deadline of the repeat, as known at a point in time. */
    ghost predicate RepeatingAt(time: nat)
      reads this`repeatMask, this`repeatNext, this`repeatDelay, this`repeatRate, this`holding
    {
      && repeatDelay <= 0xFFFF && repeatRate <= 0xFFFF
      && (repeatMask.Some? ==>
            && Timely(holding, repeatDelay, repeatRate)
            && repeatNext == Clock(holding.due) && holding.due <= time + 0xFFFF)
    }

    /** A button counts as pressed if and only if its debounced pin fell at some time and has been low
        since. */
    ghost predicate StateIsLow()
      reads this`state, up, down, left, right, push
    {
      && (state.up <==> !up.debounced && up.changes != []) && (state.down <==> !down.debounced && down.changes != [])
      && (state.left <==> !left.debounced && left.changes != [])
      && (state.right <==> !right.debounced && right.changes != [])
      && (state.push <==> !push.debounced && push.changes != [])
    }

    /** What repeats is what is held, and its pin has been low since the hold began. */
    ghost predicate Held()
      reads this`state, this`repeatMask, this`holding, up, down, left, right, push
    {
      && Pressing(state, Switches())
      && (repeatMask.Some? ==>
            repeatMask == Direction(state) && LowSince(Switches().At(repeatMask.value), holding.since))
    }

    ghost predicate Valid()
      reads this, up, down, left, right, push
    {
      Buttons(now) && RepeatingAt(now) && Held()
    }

    /** `begin`: attaches the buttons. */
    constructor (interval: nat, time: nat, pins: Five<bool>, callback: bool)
      ensures Valid() && repeatMask == None && now == time && this.callback == callback
      ensures state == Five(false, false, false, false, false)
      ensures fresh(up) && fresh(down) && fresh(left) && fresh(right) && fresh(push)
    {
      hide Bounce.Valid, Bounce.Now, Pressing, Timely, Clock, LowSince, Five.At, Direction;
      up := new Bounce(interval, 500, time, time, pins.up);
      down := new Bounce(interval, 500, time, time, pins.down);
      left := new Bounce(interval, 500, time, time, pins.left);
      right := new Bounce(interval, 500, time, time, pins.right);
      push := new Bounce(interval, 500, time, time, pins.push);
      state := Five(false, false, false, false, false);
      this.callback := callback;
      repeatMask, repeatNext, repeatDelay, repeatRate := None, 0, 0, 0;
      holding := Holding(time, [], time);
      now := time;
      new;
      NonePressing(Switches());
    }

    method SetRepeat(delayMs: nat, rateMs: nat)
      requires Valid() && delayMs <= 0xFFFF && rateMs <= 0xFFFF
      modifies this`repeatDelay, this`repeatRate, this`repeatMask
      ensures Valid() && repeatDelay == delayMs && repeatRate == rateMs && repeatMask == None
    {
      hide Sound, Timely, Clock, Low, LowSince;
      repeatDelay, repeatRate, repeatMask := delayMs, rateMs, None;
    }

    /** One pass. Every button takes in its pin; an edge of the debounced pins is reported as one
        event, of duration zero, and never together with a repeat; a repeat is for the direction
        that is held and whose pin has been low since the hold began, not before the delay from
        then nor within the rate of the last one, and does come when it is due. */
    method Update(tick: Tick, pins: Five<bool>) returns (event: Option<Event>)
      requires Valid() && tick.InOrder(now)
      modifies this, up, down, left, right, push
      ensures Valid() && now == tick.rearmed
      ensures callback == old(callback) && repeatDelay == old(repeatDelay) && repeatRate == old(repeatRate)
      ensures AllPass(old(Switches()), tick, pins, Switches())
      ensures StateIsLow()
      ensures (repeatMask == Some(Down) <==> state.down) && (repeatMask == Some(Up) <==> state.up && !state.down)
      ensures state == AllAfter(old(state), Switches()) && repeatMask == Direction(state)
      ensures callback && state != old(state) ==> event == Some(Event(Mask(state, old(state)), state, 0, false))
      ensures event.Some? ==> callback && (event.value.repeated <==> state == old(state))
      ensures event.Some? && event.value.repeated ==>
        && repeatMask.Some? && event == Some(Event({repeatMask.value}, state, 0, true)) && repeatRate > 0
        && LowSince(Switches().At(repeatMask.value), holding.since)
      ensures holding.since == if repeatMask == old(repeatMask) then old(holding.since) else tick.armed
      ensures holding.repeats == (if repeatMask == old(repeatMask) then old(holding.repeats) else [])
              + (if event.Some? && event.value.repeated then [tick.checked] else [])
      ensures repeatMask.Some? ==> Timely(holding, repeatDelay, repeatRate)
      ensures callback && repeatRate > 0 && repeatMask.Some? && repeatMask == old(repeatMask) && state == old(state)
              && old(holding.due) <= tick.checked < old(holding.due) + HALF
              ==> event.Some?
    {
      hide Buttons, RepeatingAt, Held, Timely, Clock, AllPass, AllAfter, Mask, Direction, LowSince, Five.At;
      hide Bounce.Valid, Bounce.Now, Sound, StateIsLow;
      var mask, duration := Observe(tick, pins);
      now := tick.rearmed;
      if callback && mask != {} {
        event := Some(Event(mask, state, duration, false));
      } else {
        event := Repeat(tick);
      }
    }

    /** What is pressed and what is held, before anything is reported. */
    method Observe(tick: Tick, pins: Five<bool>) returns (mask: set<Button>, duration: nat)
      requires Valid() && tick.InOrder(now)
      modifies this`state, this`repeatMask, this`repeatNext, this`holding, up, down, left, right, push
      ensures Buttons(tick.rearmed) && RepeatingAt(tick.checked) && RepeatingAt(tick.rearmed) && Held()
      ensures AllPass(old(Switches()), tick, pins, Switches())
      ensures StateIsLow()
      ensures state == AllAfter(old(state), Switches()) && repeatMask == Direction(state)
      ensures mask == Mask(state, old(state)) && (mask != {} <==> state != old(state)) && duration == 0
      ensures repeatMask.Some? ==>
        Timely(holding, repeatDelay, repeatRate) && LowSince(Switches().At(repeatMask.value), holding.since)
      ensures holding == if repeatMask == old(repeatMask) then old(holding)
                         else Holding(tick.armed, [], tick.armed + repeatDelay)
    {
      hide Buttons, Timely, Clock, AllPass, AllAfter, Mask, Direction, Pressing, LowSince, Five.At;
      hide Bounce.Valid, Bounce.Now, Sound;
      var previous := state;
      ghost var before := Switches();
      mask, duration := Scan(tick, pins);
      LowOnes();
      Rearm(tick, pins, previous, before);
    }

    lemma LowOnes()
      requires Pressing(state, Switches())
      ensures StateIsLow()
    {
      hide Pressing;
      PressedAre(state, Switches());
    }

    /** The edges of the debounced pins. */
    method Scan(tick: Tick, pins: Five<bool>) returns (mask: set<Button>, duration: nat)
      requires Buttons(now) && Pressing(state, Switches()) && tick.InOrder(now)
      modifies this`state, up, down, left, right, push
      ensures Buttons(tick.armed) && AllPass(old(Switches()), tick, pins, Switches())
      ensures state == AllAfter(old(state), Switches()) && Pressing(state, Switches())
      ensures mask == Mask(state, old(state)) && (mask != {} <==> state != old(state)) && duration == 0
    {
      hide Buttons, AllPass, AllAfter, EdgesAreNew, Mask, Pressing;
      var previous := state;
      ghost var before := Switches();
      Sample(tick, pins);
      Edges(tick, pins, before);
      mask, duration := Changes(previous);
    }

    /** Every button takes in its pin. */
    method Sample(tick: Tick, pins: Five<bool>)
      requires Buttons(now) && tick.InOrder(now)
      modifies up, down, left, right, push
      ensures Buttons(tick.armed) && AllPass(old(Switches()), tick, pins, Switches())
    {
      hide Sound, Settled, HoldSettled, AllPass;
      ghost var before := Switches();
      up.Update(tick.passes.up, pins.up);
      down.Update(tick.passes.down, pins.down);
      left.Update(tick.passes.left, pins.left);
      right.Update(tick.passes.right, pins.right);
      push.Update(tick.passes.push, pins.push);
      AllPassed(before, tick, pins, Switches());
    }

    /** Takes over the edges; the change that makes one clears the mark of a button that is held. */
    method Edges(ghost tick: Tick, ghost pins: Five<bool>, ghost before: Five<State>)
      requires AllPass(before, tick, pins, Switches()) && Pressing(state, before)
      modifies this`state
      ensures state == AllAfter(old(state), Switches()) && Pressing(state, Switches())
      ensures EdgesAreNew(state, old(state), Switches())
    {
      hide Bounce.Valid, Bounce.Now, Sound, AllPass, Pressing, After, EdgesAreNew;
      PressingAfter(state, before, tick, pins, Switches());
      var u := Pressed(state.up, up);
      var d := Pressed(state.down, down);
      var l := Pressed(state.left, left);
      var r := Pressed(state.right, right);
      var p := Pressed(state.push, push);
      state := Five(u, d, l, r, p);
    }

    /** A pin that falls presses the button, one that rises releases it. */
    method Pressed(was: bool, button: Bounce) returns (pressed: bool)
      ensures pressed == After(was, button.Now())
    {
      pressed := was;
      if button.Fell() {
        pressed := true;
      } else if button.Rose() {
        pressed := false;
      }
    }

    /** Which buttons have an edge, and for how long the last of them was held: always zero. */
    method Changes(previous: Five<bool>) returns (mask: set<Button>, duration: nat)
      requires EdgesAreNew(state, previous, Switches())
      ensures mask == Mask(state, previous) && (mask != {} <==> state != previous) && duration == 0
    {
      hide EdgesAreNew, Mask;
      NewEdges(state, previous, Switches());
      mask, duration := {}, 0;
      if state.up != previous.up {
        mask, duration := mask + {Up}, up.Held();
      }
      if state.down != previous.down {
        mask, duration := mask + {Down}, down.Held();
      }
      if state.left != previous.left {
        mask, duration := mask + {Left}, left.Held();
      }
      if state.right != previous.right {
        mask, duration := mask + {Right}, right.Held();
      }
      if state.push != previous.push {
        mask, duration := mask + {Push}, push.Held();
      }
      MaskIs(state, previous);
      SomeMask(state, previous);
    }

    /** The delay starts anew when what is held changes, and only then; what is held has been low
        since. */
    method Rearm(tick: Tick, ghost pins: Five<bool>, ghost was: Five<bool>, ghost before: Five<State>)
      requires tick.InOrder(now) && RepeatingAt(now) && Buttons(tick.armed)
      requires AllPass(before, tick, pins, Switches()) && Pressing(was, before)
      requires state == AllAfter(was, Switches()) && Pressing(state, Switches())
      requires repeatMask.Some? ==>
        repeatMask == Direction(was) && LowSince(before.At(repeatMask.value), holding.since)
      modifies this`repeatMask, this`repeatNext, this`holding
      ensures Buttons(tick.rearmed) && RepeatingAt(tick.checked) && RepeatingAt(tick.rearmed)
      ensures Held() && repeatMask == Direction(state)
      ensures holding == if repeatMask == old(repeatMask) then old(holding)
                         else Holding(tick.armed, [], tick.armed + repeatDelay)
    {
      hide AllPass, AllAfter, Pressing, LowSince, Sound, Clock;
      var held := Direction(state);
      if held != repeatMask {
        repeatMask := held;
        repeatNext := Clock(tick.armed + repeatDelay);
        holding := Holding(tick.armed, [], tick.armed + repeatDelay);
        if held.Some? {
          NowLow(state, Switches(), tick.armed);
        }
      } else if held.Some? {
        StillLow(was, before, tick, pins, Switches(), held.value, holding.since);
      }
    }

    /** Repeats what is held if it is due. */
    method Repeat(tick: Tick) returns (event: Option<Event>)
      requires RepeatingAt(tick.checked) && RepeatingAt(tick.rearmed) && Held() && tick.checked <= tick.rearmed
      modifies this`repeatNext, this`holding
      ensures RepeatingAt(tick.rearmed) && Held()
      ensures event.Some? ==>
        callback && repeatMask.Some? && repeatRate > 0 && event == Some(Event({repeatMask.value}, state, 0, true))
      ensures repeatMask.Some? ==> Timely(holding, repeatDelay, repeatRate)
      ensures holding.since == old(holding.since)
      ensures holding.repeats == old(holding.repeats) + if event.Some? then [tick.checked] else []
      ensures callback && repeatRate > 0 && repeatMask.Some?
              && old(holding.due) <= tick.checked < old(holding.due) + HALF
              ==> event.Some?
    {
      hide Timely, Clock, Elapsed, Pressing, LowSince, Direction;
      event := None;
      if repeatMask.None? || repeatRate == 0 || !callback {
        return;
      }
      DeadlinePassed(tick.checked, holding.due);
      if Elapsed(Clock(tick.checked), repeatNext) >= HALF {
        return;
      }
      TimelyMore(holding, repeatDelay, repeatRate, tick.checked, tick.rearmed + repeatRate);
      repeatNext := Clock(tick.rearmed + repeatRate);
      holding := Holding(holding.since, holding.repeats + [tick.checked], tick.rearmed + repeatRate);
      event := Some(Event({repeatMask.value}, state, 0, true));
    }
  }
}
