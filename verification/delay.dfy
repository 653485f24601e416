/**
 The non-blocking elapsed-time primitive (`Delay`) over a free-running 32-bit
 microsecond counter. The clock reading is passed in as `now`; where the
 source re-reads the clock inside one call (`restartTimer` from
 `isDelayTimeElapsed`), the model uses the same reading `now`.
 */
module Timer {
  import opened Types

  /** `delay` is the interval, `prev` the reference timestamp, `disarm` the stop flag. */
  datatype Delay = Delay(delay: U32, prev: U32, disarm: bool)

  /** Outcome of one elapsed check: whether it fired, and the timer afterwards. */
  datatype Check = Check(elapsed: bool, timer: Delay)

  /** Time since `prev` as unsigned 32-bit subtraction (wraps modulo 2^32). */
  function Elapsed(now: U32, prev: U32): U32
  {
    Wrap32(now - prev)
  }

  /** Unsigned subtraction recovers the true elapsed time across counter wraparound. */
  lemma ElapsedWrapSafe(prev: U32, e: int)
    requires 0 <= e < TWO_POW_32
    ensures Elapsed(Wrap32(prev + e), prev) == e
  {
    if prev + e >= TWO_POW_32 {
      assert Wrap32(prev + e) == prev + e - TWO_POW_32;
      assert Wrap32(prev + e) - prev == e - TWO_POW_32;
    } else {
      assert Wrap32(prev + e) == prev + e;
    }
  }

  /** `Delay(d)`: interval `d`, reference 0, armed. */
  function Create(d: U32): (t: Delay)
    ensures t.delay == d && t.prev == 0 && !t.disarm
  {
    Delay(d, 0, false)
  }

  /** `init()`: re-arm from the current clock, keeping the interval. */
  function Init(t: Delay, now: U32): (r: Delay)
    ensures !r.disarm && r.prev == now && r.delay == t.delay
  {
    Delay(t.delay, now, false)
  }

  /** `init(d)`: arm from the current clock with interval `d`. */
  function InitWith(t: Delay, d: U32, now: U32): (r: Delay)
    ensures !r.disarm && r.prev == now && r.delay == d
    ensures r == Init(UpdateDelayTime(t, d), now)
  {
    Delay(d, now, false)
  }

  /** `stopDelay()`: disarm; nothing else changes. */
  function StopDelay(t: Delay): (r: Delay)
    ensures r.disarm && r.delay == t.delay && r.prev == t.prev
  {
    t.(disarm := true)
  }

  /** `restartTimer()`: take a new reference timestamp; nothing else changes. */
  function RestartTimer(t: Delay, now: U32): (r: Delay)
    ensures r.prev == now && r.delay == t.delay && r.disarm == t.disarm
  {
    t.(prev := now)
  }

  /** `updateDelayTime(d)`: change only the interval. */
  function UpdateDelayTime(t: Delay, d: U32): (r: Delay)
    ensures r.delay == d && r.prev == t.prev && r.disarm == t.disarm
  {
    t.(delay := d)
  }

  /**
   `isDelayTimeElapsed()`: fires when armed and at least `delay` microseconds
   have passed since `prev`; firing re-arms from `now`.
   */
  function IsDelayTimeElapsed(t: Delay, now: U32): (r: Check)
    ensures t.disarm ==> !r.elapsed
    ensures !t.disarm && t.delay == 0 ==> r.elapsed
    ensures !r.elapsed ==> r.timer == t
    ensures r.elapsed ==> r.timer == RestartTimer(t, now)
  {
    if !t.disarm then
      if Elapsed(now, t.prev) >= t.delay then Check(true, RestartTimer(t, now))
      else Check(false, t)
    else
      Check(false, t)
  }

  /**
   Wraparound-correct firing: when `now` is `e` microseconds after `prev`
   (modulo the counter), the check fires exactly when the timer is armed and
   `e` reaches the interval.
   */
  lemma FiresIffIntervalPassed(t: Delay, e: int)
    requires 0 <= e < TWO_POW_32
    ensures IsDelayTimeElapsed(t, Wrap32(t.prev + e)).elapsed <==> !t.disarm && e >= t.delay
  {
    ElapsedWrapSafe(t.prev, e);
  }

  /** After a firing, the timer stays silent until another full interval has passed. */
  lemma {:induction false} FiresOncePerInterval(t: Delay, now: U32, e: int)
    requires IsDelayTimeElapsed(t, now).elapsed
    requires 0 <= e < t.delay
    ensures !IsDelayTimeElapsed(IsDelayTimeElapsed(t, now).timer, Wrap32(now + e)).elapsed
  {
    var t' := IsDelayTimeElapsed(t, now).timer;
    assert t'.prev == now && t'.delay == t.delay;
    FiresIffIntervalPassed(t', e);
  }

  /** Checks on a timer in sequence; returns the timer afterwards and whether any fired. */
  function CheckAll(t: Delay, clock: seq<U32>): (r: Check)
    decreases |clock|
  {
    if |clock| == 0 then Check(false, t)
    else
      var c := IsDelayTimeElapsed(t, clock[0]);
      var rest := CheckAll(c.timer, clock[1..]);
      Check(c.elapsed || rest.elapsed, rest.timer)
  }

  /** After `stopDelay()`, no check fires and the timer is left as it is, however many checks run. */
  lemma {:induction false} StoppedNeverFires(t: Delay, clock: seq<U32>)
    ensures !CheckAll(StopDelay(t), clock).elapsed
    ensures CheckAll(StopDelay(t), clock).timer == StopDelay(t)
  {
    if |clock| > 0 {
      StoppedNeverFires(t, clock[1..]);
    }
  }

  /** Concrete wraparound: armed just before the counter overflows, it fires after the overflow. */
  lemma WrapExample()
    ensures IsDelayTimeElapsed(Delay(1000, 0xFFFF_FF00, false), 744).elapsed
    ensures !IsDelayTimeElapsed(Delay(1000, 0xFFFF_FF00, false), 743).elapsed
  {
  }
}
