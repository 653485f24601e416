/**
 The cooperative playback scheduler (`BuzzerPlayer`): a four-state machine
 that walks a compiled melody step by step. Each transition returns the new
 player state and the calls it made on the sound backend, in order
 (`start(hz)` / `stop()`), as an event trace. The microsecond clock is the
 `now` argument of `Update`; the step timer is the `Timer.Delay` model.
 */
module BuzzerPlayer {
  import opened Types
  import Timer

  /** The scheduler states `IDLE`, `START_STEP`, `PLAYING_STEP`, `ADVANCE_STEP`. */
  datatype State = Idle | StartStep | PlayingStep | AdvanceStep

  /** A call on the sound backend. */
  datatype Event = BackendStart(hz: U16) | BackendStop

  /** `melody == None` is the null melody pointer. */
  datatype Player = Player(melody: Option<Melody>, idx: nat, looping: bool, timer: Timer.Delay, state: State)

  /** A transition's result: the player afterwards and the backend calls made. */
  datatype Tick = Tick(player: Player, events: seq<Event>)

  /**
   The scheduler invariant: it is idle exactly when it holds no melody, and a
   held melody is non-empty, backed by its steps, with the index inside it —
   so reading the current step never leaves the melody. While a step plays,
   its timer is armed, so the step can end.
   */
  predicate Inv(p: Player)
  {
    && (p.state == Idle <==> p.melody.None?)
    && (p.state == PlayingStep ==> !p.timer.disarm)
    && (p.melody.Some? ==>
          && 0 < p.melody.value.count <= |p.melody.value.steps|
          && p.idx < p.melody.value.count)
  }

  /** `BuzzerPlayer(backend)`: idle, no melody, and the step timer armed with interval 0 at `now`. */
  function New(now: U32): (p: Player)
    ensures Inv(p) && p.state == Idle && p.melody.None? && p.idx == 0 && !p.looping
    ensures !p.timer.disarm && p.timer.delay == 0 && p.timer.prev == now
  {
    Player(None, 0, false, Timer.Init(Timer.Create(0), now), Idle)
  }

  /** `isPlaying()`: not idle; under the invariant, the same as holding a melody. */
  function IsPlaying(p: Player): (r: bool)
    ensures r <==> p.state != Idle
    ensures Inv(p) ==> (r <==> p.melody.Some?)
  {
    p.state != Idle
  }

  /**
   `stop()`: exactly one backend `stop`, then idle with no melody, index 0,
   looping off and the step timer disarmed.
   */
  function Stop(p: Player): (r: Tick)
    ensures r.events == [BackendStop]
    ensures r.player.state == Idle && r.player.melody.None? && r.player.idx == 0 && !r.player.looping
    ensures r.player.timer.disarm
    ensures r.player.timer.delay == p.timer.delay && r.player.timer.prev == p.timer.prev
    ensures Inv(r.player)
  {
    Tick(Player(None, 0, false, Timer.StopDelay(p.timer), Idle), [BackendStop])
  }

  /** Stopping twice is stopping once: same player, same single backend `stop`. */
  lemma StopIdempotent(p: Player)
    ensures Stop(Stop(p).player) == Stop(p)
  {
  }

  /**
   `play(melody, loop)`: silence the backend first only if something was
   playing, then load the melody from its first step. Nothing is started
   until the next `Update`. The source reads the first step on that update
   without a bounds check, so the melody must not be empty.
   */
  function Play(p: Player, m: Melody, loop: bool): (r: Tick)
    requires 0 < m.count <= |m.steps|
    ensures r.events == (if p.state != Idle then [BackendStop] else [])
    ensures r.player.state == StartStep && r.player.melody == Some(m)
    ensures r.player.idx == 0 && r.player.looping == loop
    ensures Inv(r.player)
  {
    var s := if IsPlaying(p) then Stop(p) else Tick(p, []);
    Tick(s.player.(melody := Some(m), looping := loop, idx := 0, state := StartStep), s.events)
  }

  /** `getCurrentStep()`: the step at the index, which lies within the melody. */
  function CurrentStep(p: Player): (s: Step)
    requires p.melody.Some? && p.idx < p.melody.value.count <= |p.melody.value.steps|
    ensures s in p.melody.value.steps[..p.melody.value.count]
  {
    assert p.melody.value.steps[..p.melody.value.count][p.idx] == p.melody.value.steps[p.idx];
    p.melody.value.steps[p.idx]
  }

  /** The step timer's interval: `durationMs * 1000UL` in 32-bit arithmetic. */
  function ArmDelayUs(durationMs: U32): (us: U32)
    ensures durationMs * 1000 < TWO_POW_32 ==> us == durationMs * 1000
    ensures us == (durationMs * 1000) % TWO_POW_32
  {
    Wrap32(durationMs * 1000)
  }

  /** Steps of up to 4294967 ms get their exact length; one more millisecond wraps to 704 µs. */
  lemma ArmDelayRange()
    ensures forall d: U32 :: d <= 4294967 ==> ArmDelayUs(d) == d * 1000
    ensures ArmDelayUs(4294968) == 704
  {
  }

  /**
   `advanceToNextStep()`: move to the next step; past the end either wrap to
   the first step (looping) or `stop()`.
   */
  function AdvanceToNextStep(p: Player): (r: Tick)
    requires Inv(p) && p.melody.Some?
    ensures Inv(r.player)
    ensures p.idx + 1 < p.melody.value.count ==>
      r.player == p.(idx := p.idx + 1, state := StartStep) && r.events == []
    ensures p.idx + 1 >= p.melody.value.count && p.looping ==>
      r.player == p.(idx := 0, state := StartStep) && r.events == []
    ensures p.idx + 1 >= p.melody.value.count && !p.looping ==> r == Stop(p)
  {
    var i := p.idx + 1;
    if p.melody.Some? && i >= p.melody.value.count then
      if p.melody.Some? && p.looping then Tick(p.(idx := 0, state := StartStep), [])
      else Stop(p.(idx := i))
    else
      Tick(p.(idx := i, state := StartStep), [])
  }

  /** The backend call that starts step `s`: a tone, or silence for a rest. */
  function StartEvent(s: Step): (e: Event)
    ensures e.BackendStart? <==> s.freqHz > 0
    ensures e.BackendStart? ==> e.hz == s.freqHz
  {
    if s.freqHz > 0 then BackendStart(s.freqHz) else BackendStop
  }

  /** `update()`: one bounded transition of the scheduler at clock reading `now`. */
  function Update(p: Player, now: U32): (r: Tick)
    requires Inv(p)
    ensures Inv(r.player)
    ensures |r.events| <= 1
    ensures p.state == Idle ==> r == Tick(p, [])
    ensures p.state == StartStep ==>
      && r.player == p.(timer := Timer.InitWith(p.timer, ArmDelayUs(CurrentStep(p).durationMs), now), state := PlayingStep)
      && r.events == [StartEvent(CurrentStep(p))]
    ensures p.state == PlayingStep ==>
      var c := Timer.IsDelayTimeElapsed(p.timer, now);
      && r.events == []
      && r.player == p.(timer := c.timer, state := if c.elapsed then AdvanceStep else PlayingStep)
    ensures p.state == AdvanceStep ==> r == AdvanceToNextStep(p)
    ensures r.player.state != Idle ==> r.player.melody == p.melody && r.player.looping == p.looping
    ensures r.player.state == Idle && p.state != Idle ==>
      p.state == AdvanceStep && !p.looping && r.events == [BackendStop]
  {
    match p.state
    case Idle => Tick(p, [])
    case StartStep =>
      var s := CurrentStep(p);
      Tick(p.(timer := Timer.InitWith(p.timer, ArmDelayUs(s.durationMs), now), state := PlayingStep), [StartEvent(s)])
    case PlayingStep =>
      var c := Timer.IsDelayTimeElapsed(p.timer, now);
      Tick(p.(timer := c.timer, state := if c.elapsed then AdvanceStep else PlayingStep), [])
    case AdvanceStep => AdvanceToNextStep(p)
  }

  /**
   A playing step ends (the scheduler moves to `ADVANCE_STEP`) exactly when the
   clock reads at least the step's interval past the timer's reference,
   counting across counter wraparound.
   */
  lemma StepEndsWhenIntervalPassed(p: Player, e: int)
    requires Inv(p) && p.state == PlayingStep
    requires 0 <= e < TWO_POW_32
    ensures Update(p, Wrap32(p.timer.prev + e)).player.state == AdvanceStep <==> e >= p.timer.delay
  {
    Timer.FiresIffIntervalPassed(p.timer, e);
  }

  /**
   A started step sounds for exactly its duration: after `START_STEP` at `now`,
   the step ends at the first reading `durationMs * 1000` microseconds later
   (for durations the 32-bit interval can hold).
   */
  lemma StepLastsItsDuration(p: Player, now: U32, e: int)
    requires Inv(p) && p.state == StartStep
    requires CurrentStep(p).durationMs <= 4294967
    requires 0 <= e < TWO_POW_32
    ensures var q := Update(p, now).player;
      Update(q, Wrap32(now + e)).player.state == AdvanceStep <==> e >= CurrentStep(p).durationMs * 1000
  {
    var q := Update(p, now).player;
    assert q.timer.prev == now && q.timer.delay == CurrentStep(p).durationMs * 1000;
    StepEndsWhenIntervalPassed(q, e);
  }

  /** Poll the scheduler once per clock reading, collecting the backend calls. */
  function Run(p: Player, clock: seq<U32>): (r: Tick)
    requires Inv(p)
    ensures Inv(r.player)
    decreases |clock|
  {
    if |clock| == 0 then Tick(p, [])
    else
      var t := Update(p, clock[0]);
      var rest := Run(t.player, clock[1..]);
      Tick(rest.player, t.events + rest.events)
  }

  /** The player holds `m` or nothing. */
  predicate Holds(p: Player, m: Melody)
  {
    p.melody.None? || p.melody == Some(m)
  }

  /**
   Over any run, the player never switches to another melody on its own and
   every tone it starts is a non-zero frequency of one of the melody's steps.
   */
  lemma {:induction false} RunPlaysOnlyTheMelody(p: Player, m: Melody, clock: seq<U32>)
    requires Inv(p) && Holds(p, m) && WfMelody(m)
    ensures Holds(Run(p, clock).player, m)
    ensures forall k :: 0 <= k < |Run(p, clock).events| && Run(p, clock).events[k].BackendStart? ==>
      Run(p, clock).events[k].hz > 0 && exists j :: 0 <= j < m.count && m.steps[j].freqHz == Run(p, clock).events[k].hz
    decreases |clock|
  {
    if |clock| > 0 {
      var t := Update(p, clock[0]);
      assert Holds(t.player, m);
      if p.state == StartStep {
        var j := p.idx;
        assert m.steps[j] == CurrentStep(p);
      }
      RunPlaysOnlyTheMelody(t.player, m, clock[1..]);
    }
  }

  /** An idle player stays idle and silent, whatever the clock does. */
  lemma {:induction false} IdleStaysIdle(p: Player, clock: seq<U32>)
    requires Inv(p) && p.state == Idle
    ensures Run(p, clock) == Tick(p, [])
    decreases |clock|
  {
    if |clock| > 0 {
      IdleStaysIdle(p, clock[1..]);
    }
  }

  // ---------------------------------------------------------------- scenarios

  /** A 440 Hz step of 100 ms followed by a 50 ms rest. */
  const TWO_STEPS: Melody := Melody([Step(440, 100), Step(0, 50)], 2)

  /** Clock readings: start, tone elapsed, advance, start rest, rest elapsed, advance. */
  const TWO_STEP_CLOCK: seq<U32> := [0, 100000, 100000, 100000, 150000, 150000]

  /** With looping on, the melody wraps back to its first step instead of going idle. */
  lemma LoopingScenario()
    ensures var r := Run(Play(New(0), TWO_STEPS, true).player, TWO_STEP_CLOCK);
      && r.player.state == StartStep && r.player.idx == 0 && r.player.melody == Some(TWO_STEPS)
      && r.events == [BackendStart(440), BackendStop]
  {
    var p0 := Play(New(0), TWO_STEPS, true).player;
    var t1 := Update(p0, 0);
    assert t1.player.state == PlayingStep && t1.player.timer == Timer.Delay(100000, 0, false);
    var t2 := Update(t1.player, 100000);
    assert t2.player.state == AdvanceStep && t2.player.idx == 0;
    var t3 := Update(t2.player, 100000);
    assert t3.player.state == StartStep && t3.player.idx == 1;
    var t4 := Update(t3.player, 100000);
    assert t4.player.timer == Timer.Delay(50000, 100000, false);
    var t5 := Update(t4.player, 150000);
    assert t5.player.state == AdvanceStep;
    var t6 := Update(t5.player, 150000);
    assert t6.player.state == StartStep && t6.player.idx == 0;
    assert Run(t5.player, TWO_STEP_CLOCK[5..]) == Tick(t6.player, []) by {
      assert TWO_STEP_CLOCK[5..][1..] == [];
    }
  }

  /** With looping off, the last step's expiry ends in idle with one final backend `stop`. */
  lemma NonLoopingScenario()
    ensures var r := Run(Play(New(0), TWO_STEPS, false).player, TWO_STEP_CLOCK);
      && r.player.state == Idle && r.player.melody.None?
      && r.events == [BackendStart(440), BackendStop, BackendStop]
  {
    var p0 := Play(New(0), TWO_STEPS, false).player;
    var t1 := Update(p0, 0);
    var t2 := Update(t1.player, 100000);
    assert t2.player.state == AdvanceStep;
    var t3 := Update(t2.player, 100000);
    var t4 := Update(t3.player, 100000);
    var t5 := Update(t4.player, 150000);
    assert t5.player.state == AdvanceStep && t5.player.idx == 1;
    var t6 := Update(t5.player, 150000);
    assert t6 == Stop(t5.player);
    assert Run(t5.player, TWO_STEP_CLOCK[5..]) == Tick(t6.player, [BackendStop]) by {
      assert TWO_STEP_CLOCK[5..][1..] == [];
    }
  }

  /** Until the step's time is up the scheduler keeps waiting in `PLAYING_STEP`. */
  lemma WaitsForTimer()
    ensures var p := Update(Play(New(0), TWO_STEPS, false).player, 0).player;
      var t := Update(p, 99999);
      t.player.state == PlayingStep && t.events == []
  {
  }
}
