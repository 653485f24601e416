/**
 Shared data types of the melody compiler and the playback scheduler:
 fixed-width unsigned integers, the compiled `Step`, the borrowed `Melody`
 view, the notation-layer `ScoreNote`/`ScoreView`, and the builder's
 `Context` (tempo and articulation gap).
 */
module Types {

  /** Fixed-width unsigned integers of the target (AVR: `unsigned long` is 32 bits). */
  type U8 = x: int | 0 <= x < 0x100
  type U16 = x: int | 0 <= x < 0x1_0000
  type U32 = x: int | 0 <= x < 0x1_0000_0000

  const TWO_POW_32: int := 0x1_0000_0000

  /** Truncation of an unbounded value to 32 bits, as unsigned C arithmetic does. */
  function Wrap32(x: int): (r: U32)
    ensures 0 <= x < TWO_POW_32 ==> r == x
  {
    x % TWO_POW_32
  }

  /** The usual nullable pointer / optional value. */
  datatype Option<T> = None | Some(value: T)

  /** What the sound generator plays: a frequency (0 means silence) for a duration. */
  datatype Step = Step(freqHz: U16, durationMs: U32)

  /** A borrowed view over compiled steps: only the first `count` of `steps` are part of it. */
  datatype Melody = Melody(steps: seq<Step>, count: nat)

  /** The view refers to storage that really holds `count` steps. */
  predicate WfMelody(m: Melody)
  {
    m.count <= |m.steps|
  }

  /** A note of a score: frequency in Hz (0 is a rest) and a notated denominator (4 = quarter). */
  datatype ScoreNote = ScoreNote(hz: U16, denom: U8)

  /** A read-only `(pointer, count)` view of a score; `data == None` is the null pointer. */
  datatype ScoreView = ScoreView(data: Option<seq<ScoreNote>>, count: U16)

  /** Compilation context: tempo in beats (quarter notes) per minute and articulation gap in ms. */
  datatype Context = Context(bpm: U16, gapMs: U16)

  const DEFAULT_BPM: U16 := 120
  const DEFAULT_GAP_MS: U16 := 0
  /** Shortest audible part of a split tone, in milliseconds. */
  const MIN_PLAY_MS: U16 := 10
  const MAX_BPM: int := 300
  const MAX_GAP_MS: int := 1000

  /** The value-initialised context `MelodyContext{}`. */
  const DEFAULT_CONTEXT: Context := Context(DEFAULT_BPM, DEFAULT_GAP_MS)

  /** Notated durations. */
  const WHOLE: U8 := 1
  const HALF: U8 := 2
  const QUARTER: U8 := 4
  const EIGHTH: U8 := 8
  const SIXTEENTH: U8 := 16
  const THIRTY_SECOND: U8 := 32

  /** Sum of the durations of a sequence of steps. */
  function TotalMs(steps: seq<Step>): nat
  {
    if |steps| == 0 then 0 else TotalMs(steps[..|steps| - 1]) + steps[|steps| - 1].durationMs
  }

  lemma {:induction false} TotalMsAppend(a: seq<Step>, b: seq<Step>)
    ensures TotalMs(a + b) == TotalMs(a) + TotalMs(b)
    decreases |b|
  {
    if |b| == 0 {
      assert a + b == a;
    } else {
      assert (a + b)[..|a + b| - 1] == a + b[..|b| - 1];
      TotalMsAppend(a, b[..|b| - 1]);
    }
  }
}
