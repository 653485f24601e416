/**
 The melody compiler (`MelodyBuilder`): a fixed-capacity step buffer, the
 compilation context and a sticky validity flag, with every public
 operation a pure transition `Builder -> Builder`.

 Faithful to the code where it departs from the documented intent:
 - `pushStep_` never looks at `ok_`, so single-note operations keep
   appending after the builder has become invalid; only the score loops
   stop once `ok_` is false.
 - `addRest` with a zero denominator still pushes a `(0 Hz, 0 ms)` step.
 - the reader overload of `appendScore` walks the existing steps
   (`buffer_`, `length_`) and ignores its `count` argument.
 */
module MelodyBuilder {
  import opened Types
  import opened AvrAlgorithms

  /**
   Builder state. `steps` holds the first `length_` entries of the buffer;
   `hasBuffer` is `buffer_ != nullptr`.
   */
  datatype Builder = Builder(steps: seq<Step>, capacity: nat, hasBuffer: bool, ctx: Context, ok: bool)

  /** Milliseconds of a whole note at one beat per minute: `60000 * 4`. */
  const WHOLE_NOTE_MS_AT_1_BPM: int := 240000

  /**
   Reachable builder states. A null buffer with non-zero capacity is
   excluded: the source would write through the null pointer on its first push.
   */
  predicate Wf(b: Builder)
  {
    && |b.steps| <= b.capacity
    && (b.hasBuffer || b.capacity == 0)
    && (b.ok ==> b.capacity > 0)
    && 1 <= b.ctx.bpm <= MAX_BPM
    && b.ctx.gapMs <= MAX_GAP_MS
  }

  /** Free slots left in the buffer. */
  function Room(b: Builder): nat
    requires |b.steps| <= b.capacity
  {
    b.capacity - |b.steps|
  }

  /** The fields an operation may never change: the buffer and its capacity. */
  predicate SameBuffer(b: Builder, r: Builder)
  {
    r.capacity == b.capacity && r.hasBuffer == b.hasBuffer
  }

  // ---------------------------------------------------------------- construction

  /** `MelodyBuilder(buffer, capacity)`: empty, default context, valid iff it has somewhere to write. */
  function New(hasBuffer: bool, capacity: nat): (r: Builder)
    ensures r.steps == [] && r.capacity == capacity && r.hasBuffer == hasBuffer
    ensures r.ctx == DEFAULT_CONTEXT
    ensures r.ok <==> hasBuffer && capacity > 0
    ensures (hasBuffer || capacity == 0) ==> Wf(r)
  {
    Builder([], capacity, hasBuffer, DEFAULT_CONTEXT, hasBuffer && capacity > 0)
  }

  /**
   `clearMelody(toDefault)`: forget all steps, reset the context only when
   asked, and re-validate exactly as the constructor does.
   */
  function ClearMelody(b: Builder, toDefault: bool): (r: Builder)
    ensures r.steps == [] && SameBuffer(b, r)
    ensures toDefault ==> r.ctx == DEFAULT_CONTEXT
    ensures !toDefault ==> r.ctx == b.ctx
    ensures r.ok <==> b.hasBuffer && b.capacity > 0
    ensures Wf(b) ==> Wf(r)
  {
    b.(steps := [], ctx := if toDefault then DEFAULT_CONTEXT else b.ctx, ok := b.hasBuffer && b.capacity > 0)
  }

  // ---------------------------------------------------------------- context

  /** `setTempo(bpm)`: store a tempo of 1..300; otherwise invalidate and keep the old tempo. */
  function SetTempo(b: Builder, bpm: int): (r: Builder)
    ensures r.steps == b.steps && SameBuffer(b, r) && r.ctx.gapMs == b.ctx.gapMs
    ensures 1 <= bpm <= MAX_BPM ==> r.ctx.bpm == bpm && r.ok == b.ok
    ensures !(1 <= bpm <= MAX_BPM) ==> r.ctx == b.ctx && !r.ok
    ensures Wf(b) ==> Wf(r)
  {
    if bpm <= 0 || bpm > MAX_BPM then b.(ok := false)
    else b.(ctx := b.ctx.(bpm := bpm))
  }

  /** `gap(gapMs)`: store a gap of at most 1000 ms; otherwise invalidate and keep the old gap. */
  function Gap(b: Builder, gapMs: U16): (r: Builder)
    ensures r.steps == b.steps && SameBuffer(b, r) && r.ctx.bpm == b.ctx.bpm
    ensures gapMs <= MAX_GAP_MS ==> r.ctx.gapMs == gapMs && r.ok == b.ok
    ensures gapMs > MAX_GAP_MS ==> r.ctx == b.ctx && !r.ok
    ensures Wf(b) ==> Wf(r)
  {
    if gapMs > MAX_GAP_MS then b.(ok := false)
    else b.(ctx := b.ctx.(gapMs := gapMs))
  }

  // ---------------------------------------------------------------- duration conversion

  /**
   Length in ms of a note of denominator `denom` at `bpm`: the floor of
   240000 / (bpm * denom), but never less than 1 ms.
   */
  function NoteMs(denom: U8, bpm: U16): (ms: U32)
    requires denom > 0 && bpm > 0
    ensures ms >= 1
    ensures bpm * denom <= WHOLE_NOTE_MS_AT_1_BPM ==>
      ms * (bpm * denom) <= WHOLE_NOTE_MS_AT_1_BPM < ms * (bpm * denom) + bpm * denom
    ensures bpm * denom > WHOLE_NOTE_MS_AT_1_BPM ==> ms == 1
  {
    var d := bpm * denom;
    DivBounds(WHOLE_NOTE_MS_AT_1_BPM, d);
    var q := WHOLE_NOTE_MS_AT_1_BPM / d;
    if q == 0 then 1 else q
  }

  /** Floor division: the quotient times the divisor is within one divisor below the dividend. */
  lemma DivBounds(n: nat, d: nat)
    requires d > 0
    ensures (n / d) * d <= n < (n / d) * d + d
    ensures n / d <= n
    ensures n < d ==> n / d == 0
  {
    assert n == (n / d) * d + n % d;
    MulLeft(n / d, 1, d);
  }

  /** Result of `denomToMs_`: the builder (it may clear `ok_`) and the duration. */
  datatype Conversion = Conversion(builder: Builder, ms: U32)

  /** `denomToMs_(denom, bpm)`: a zero input yields 0 ms and invalidates the builder. */
  function DenomToMs(b: Builder, denom: U8, bpm: U16): (r: Conversion)
    ensures denom == 0 || bpm == 0 ==> r.ms == 0 && r.builder == b.(ok := false)
    ensures denom > 0 && bpm > 0 ==> r.builder == b && r.ms == NoteMs(denom, bpm) && r.ms > 0
  {
    if denom == 0 || bpm == 0 then Conversion(b.(ok := false), 0)
    else Conversion(b, NoteMs(denom, bpm))
  }

  lemma {:induction false} MulLeft(q: nat, x: nat, y: nat)
    requires x <= y
    ensures q * x <= q * y
  {
    assert q * y - q * x == q * (y - x);
  }

  lemma {:induction false} MulRight(a: nat, b: nat, c: nat)
    requires a <= b
    ensures a * c <= b * c
  {
    assert b * c - a * c == (b - a) * c;
  }

  /** Division-free core of `DivAntitone`: a quotient bounded through the larger divisor is no larger. */
  lemma {:induction false} QuotientOrder(n: nat, x: nat, y: nat, p: nat, q: nat)
    requires 0 < x <= y
    requires q * y <= n < p * x + x
    ensures q <= p
  {
    if q > p {
      MulLeft(q, x, y);
      MulRight(p + 1, q, x);
      assert false;
    }
  }

  /** Floor division by a larger divisor gives a smaller quotient. */
  lemma {:induction false} DivAntitone(n: nat, x: nat, y: nat)
    requires 0 < x <= y
    ensures n / y <= n / x
  {
    DivBounds(n, y);
    DivBounds(n, x);
    QuotientOrder(n, x, y, n / x, n / y);
  }

  /** Longer denominators (shorter notes) and faster tempos never give longer durations. */
  lemma NoteMsMonotone(d1: U8, d2: U8, bpm1: U16, bpm2: U16)
    requires 0 < d1 <= d2 && 0 < bpm1 <= bpm2
    ensures NoteMs(d2, bpm1) <= NoteMs(d1, bpm1)
    ensures NoteMs(d1, bpm2) <= NoteMs(d1, bpm1)
  {
    MulLeft(bpm1, d1, d2);
    DivAntitone(WHOLE_NOTE_MS_AT_1_BPM, bpm1 * d1, bpm1 * d2);
    MulLeft(d1, bpm1, bpm2);
    assert d1 * bpm1 == bpm1 * d1 && d1 * bpm2 == bpm2 * d1;
    DivAntitone(WHOLE_NOTE_MS_AT_1_BPM, bpm1 * d1, bpm2 * d1);
  }

  /** At 120 bpm a quarter, half and whole note last 500, 1000 and 2000 ms. */
  lemma NoteMsAt120()
    ensures NoteMs(QUARTER, 120) == 500
    ensures NoteMs(HALF, 120) == 1000
    ensures NoteMs(WHOLE, 120) == 2000
    ensures NoteMs(THIRTY_SECOND, 300) == 25
  {
  }

  // ---------------------------------------------------------------- bounded append

  /**
   `pushStep_(hz, ms)`: append when there is room, otherwise drop the step
   and invalidate. Does not consult `ok_`.
   */
  function PushStep(b: Builder, s: Step): (r: Builder)
    ensures SameBuffer(b, r) && r.ctx == b.ctx
    ensures |b.steps| < b.capacity ==> r.steps == b.steps + [s] && r.ok == b.ok
    ensures |b.steps| >= b.capacity ==> r.steps == b.steps && !r.ok
    ensures Wf(b) ==> Wf(r)
  {
    if |b.steps| < b.capacity then b.(steps := b.steps + [s])
    else b.(ok := false)
  }

  /** Push steps one after another, as consecutive `pushStep_` calls do. */
  function PushAll(b: Builder, ss: seq<Step>): (r: Builder)
    ensures SameBuffer(b, r) && r.ctx == b.ctx
    ensures r.ok ==> b.ok
    ensures b.steps <= r.steps && |r.steps| <= |b.steps| + |ss|
    ensures Wf(b) ==> Wf(r)
    ensures Wf(b) && |ss| <= Room(b) ==> r.steps == b.steps + ss && r.ok == b.ok
    ensures Wf(b) && |ss| > Room(b) ==>
      r.steps == b.steps + ss[..Room(b)] && |r.steps| == b.capacity && !r.ok
    decreases |ss|
  {
    if |ss| == 0 then b
    else
      var r := PushAll(PushStep(b, ss[0]), ss[1..]);
      assert [ss[0]] + ss[1..] == ss;
      assert Wf(b) && 0 < Room(b) && |ss| > Room(b) ==> [ss[0]] + ss[1..][..Room(b) - 1] == ss[..Room(b)];
      r
  }

  // ---------------------------------------------------------------- notes and rests

  /**
   How `addNote` compiles a tone of converted length `ms` under gap `gapMs`:
   a tone followed by a clamped articulation rest, or a single step.
   */
  function Articulate(hz: U16, ms: U32, gapMs: U16): (ss: seq<Step>)
    ensures 1 <= |ss| <= 2 && ss[0].freqHz == hz
    ensures |ss| == 2 ==> ss[1].freqHz == 0 && ss[0].durationMs >= MIN_PLAY_MS
  {
    if hz > 0 && gapMs > 0 && ms > MIN_PLAY_MS then
      var restMs := if gapMs > ms - MIN_PLAY_MS then ms - MIN_PLAY_MS else gapMs;
      [Step(hz, ms - restMs), Step(0, restMs)]
    else
      [Step(hz, ms)]
  }

  /**
   The gap split: one or two steps, the first at the note's frequency and any
   second one silent; together they last exactly `ms`; the tone part keeps at
   least `MIN_PLAY_MS` whenever the note had that much; the rest part is
   `min(gap, ms - MIN_PLAY_MS)`.
   */
  lemma ArticulateSplit(hz: U16, ms: U32, gapMs: U16)
    ensures var ss := Articulate(hz, ms, gapMs);
      && 1 <= |ss| <= 2
      && ss[0].freqHz == hz
      && TotalMs(ss) == ms
      && (ms >= MIN_PLAY_MS ==> ss[0].durationMs >= MIN_PLAY_MS)
      && (|ss| == 2 <==> hz > 0 && gapMs > 0 && ms > MIN_PLAY_MS)
      && (|ss| == 2 ==> ss[1].freqHz == 0 && 0 < ss[1].durationMs <= gapMs
                        && ss[1].durationMs == Min(gapMs, ms - MIN_PLAY_MS))
  {
    var ss := Articulate(hz, ms, gapMs);
    if |ss| == 2 {
      assert ss == [ss[0]] + [ss[1]];
      TotalMsAppend([ss[0]], [ss[1]]);
      assert [ss[0]][..0] == [] && [ss[1]][..0] == [];
    } else {
      assert ss[..0] == [];
    }
  }

  /**
   `addNote(hz, denom)`: convert with the current tempo; a zero denominator
   invalidates and appends nothing; otherwise push the articulated note.
   */
  function AddNote(b: Builder, hz: U16, denom: U8): (r: Builder)
    ensures SameBuffer(b, r) && r.ctx == b.ctx
    ensures r.ok ==> b.ok
    ensures b.steps <= r.steps && |r.steps| <= |b.steps| + 2
    ensures Wf(b) ==> Wf(r)
    ensures denom == 0 || b.ctx.bpm == 0 ==> r.steps == b.steps && !r.ok
    ensures denom > 0 && b.ctx.bpm > 0 && Wf(b) ==>
      var ss := Articulate(hz, NoteMs(denom, b.ctx.bpm), b.ctx.gapMs);
      r == PushAll(b, ss)
  {
    var c := DenomToMs(b, denom, b.ctx.bpm);
    if c.ms == 0 then c.builder.(ok := false)
    else
      ArticulateSplit(hz, c.ms, b.ctx.gapMs);
      PushAll(c.builder, Articulate(hz, c.ms, b.ctx.gapMs))
  }

  /**
   A note that fits is appended whole: its steps last exactly the converted
   duration, a tone keeps at least `MIN_PLAY_MS` of it, and `ok` is untouched.
   */
  lemma AddNoteFits(b: Builder, hz: U16, denom: U8)
    requires Wf(b) && denom > 0 && Room(b) >= 2
    ensures var r := AddNote(b, hz, denom);
      var added := r.steps[|b.steps|..];
      && r.steps == b.steps + added
      && r.ok == b.ok
      && TotalMs(added) == NoteMs(denom, b.ctx.bpm)
      && added[0].freqHz == hz
      && (NoteMs(denom, b.ctx.bpm) >= MIN_PLAY_MS ==> added[0].durationMs >= MIN_PLAY_MS)
  {
    var ss := Articulate(hz, NoteMs(denom, b.ctx.bpm), b.ctx.gapMs);
    ArticulateSplit(hz, NoteMs(denom, b.ctx.bpm), b.ctx.gapMs);
    var r := AddNote(b, hz, denom);
    assert r.steps == b.steps + ss;
    assert r.steps[|b.steps|..] == ss;
  }

  /**
   `addRest(denom)`: one silent step of the converted length, never split.
   With a zero denominator it invalidates and still pushes a `(0, 0)` step.
   */
  function AddRest(b: Builder, denom: U8): (r: Builder)
    ensures SameBuffer(b, r) && r.ctx == b.ctx
    ensures r.ok ==> b.ok
    ensures Wf(b) ==> Wf(r)
    ensures |b.steps| < b.capacity && denom > 0 && b.ctx.bpm > 0 ==>
      r.steps == b.steps + [Step(0, NoteMs(denom, b.ctx.bpm))] && r.ok == b.ok
    ensures |b.steps| < b.capacity && denom == 0 ==> r.steps == b.steps + [Step(0, 0)] && !r.ok
    ensures |b.steps| >= b.capacity ==> r.steps == b.steps && !r.ok
  {
    var c := DenomToMs(b, denom, b.ctx.bpm);
    PushStep(c.builder, Step(0, c.ms))
  }

  /** `addToneMs(hz, ms)`: push the raw step unchanged. */
  function AddToneMs(b: Builder, hz: U16, durationMs: U32): (r: Builder)
    ensures SameBuffer(b, r) && r.ctx == b.ctx
    ensures r.ok ==> b.ok
    ensures Wf(b) ==> Wf(r)
    ensures |b.steps| < b.capacity ==> r.steps == b.steps + [Step(hz, durationMs)] && r.ok == b.ok
    ensures |b.steps| >= b.capacity ==> r.steps == b.steps && !r.ok
  {
    PushStep(b, Step(hz, durationMs))
  }

  /** `addRestMs(ms)`: push a raw silent step unchanged. */
  function AddRestMs(b: Builder, durationMs: U32): (r: Builder)
    ensures SameBuffer(b, r) && r.ctx == b.ctx
    ensures r.ok ==> b.ok
    ensures Wf(b) ==> Wf(r)
    ensures |b.steps| < b.capacity ==> r.steps == b.steps + [Step(0, durationMs)] && r.ok == b.ok
    ensures |b.steps| >= b.capacity ==> r.steps == b.steps && !r.ok
  {
    PushStep(b, Step(0, durationMs))
  }

  // ---------------------------------------------------------------- scores

  /** Body of the score loop: add the note only while the builder is still valid. */
  function ScoreStep(acc: Builder, note: ScoreNote, i: nat): Builder
  {
    if acc.ok then AddNote(acc, note.hz, note.denom) else acc
  }

  /** The steps a well-formed score compiles to under `ctx`, note by note. */
  function Compiled(ctx: Context, notes: seq<ScoreNote>): seq<Step>
    requires ctx.bpm > 0
    requires forall i :: 0 <= i < |notes| ==> notes[i].denom > 0
  {
    if |notes| == 0 then []
    else Articulate(notes[0].hz, NoteMs(notes[0].denom, ctx.bpm), ctx.gapMs) + Compiled(ctx, notes[1..])
  }

  /** Facts shared by every run of the score loop from index `from`. */
  lemma {:induction false} ScoreLoopFrame(notes: seq<ScoreNote>, from: nat, b: Builder)
    ensures var r := ForEachIndexedFrom(notes, from, b, ScoreStep);
      && SameBuffer(b, r) && r.ctx == b.ctx
      && (r.ok ==> b.ok)
      && b.steps <= r.steps
      && (Wf(b) ==> Wf(r))
      && (!b.ok ==> r == b)
    decreases |notes| - from
  {
    if from < |notes| {
      ScoreLoopFrame(notes, from + 1, ScoreStep(b, notes[from], from));
    }
  }

  /**
   `appendScore(score, count)`: a null score with notes is an error; otherwise
   `addNote` runs on the notes in order, only while the builder stays valid.
   */
  function AppendScore(b: Builder, score: Option<seq<ScoreNote>>, count: nat): (r: Builder)
    requires score.Some? ==> count <= |score.value|
    ensures SameBuffer(b, r) && r.ctx == b.ctx
    ensures r.ok ==> b.ok
    ensures b.steps <= r.steps
    ensures Wf(b) ==> Wf(r)
    ensures !b.ok ==> r.steps == b.steps
    ensures score.None? && count > 0 ==> r == b.(ok := false)
    ensures count == 0 ==> r == b
  {
    if score.None? && count > 0 then b.(ok := false)
    else if score.None? then b
    else
      ScoreLoopFrame(score.value[..count], 0, b);
      ForEachIndexed(score.value[..count], b, ScoreStep)
  }

  /** `appendScore(ScoreView)`: forwards to the pointer overload (and returns the builder). */
  function AppendScoreView(b: Builder, view: ScoreView): (r: Builder)
    requires view.data.Some? ==> view.count <= |view.data.value|
    ensures view.data.None? && view.count > 0 ==> r == b.(ok := false)
    ensures r == AppendScore(b, view.data, view.count)
  {
    AppendScore(b, view.data, view.count)
  }

  /** A score that fits is compiled completely, in order, and leaves the builder valid. */
  lemma {:induction false} ScoreLoopFits(notes: seq<ScoreNote>, from: nat, b: Builder)
    requires Wf(b) && b.ok && from <= |notes|
    requires forall i :: 0 <= i < |notes| ==> notes[i].denom > 0
    requires |Compiled(b.ctx, notes[from..])| <= Room(b)
    ensures ForEachIndexedFrom(notes, from, b, ScoreStep)
      == b.(steps := b.steps + Compiled(b.ctx, notes[from..]))
    decreases |notes| - from
  {
    if from == |notes| {
      assert b.steps + Compiled(b.ctx, notes[from..]) == b.steps;
    } else {
      var n := notes[from];
      var ss := Articulate(n.hz, NoteMs(n.denom, b.ctx.bpm), b.ctx.gapMs);
      assert notes[from..][1..] == notes[from + 1..];
      assert Compiled(b.ctx, notes[from..]) == ss + Compiled(b.ctx, notes[from + 1..]);
      var b1 := ScoreStep(b, n, from);
      assert b1 == b.(steps := b.steps + ss);
      ScoreLoopFits(notes, from + 1, b1);
    }
  }

  /** One valid step of the score loop pushes the note's steps, as many as fit. */
  lemma ScoreStepPushes(b: Builder, n: ScoreNote, i: nat)
    requires Wf(b) && b.ok && n.denom > 0
    ensures var ss := Articulate(n.hz, NoteMs(n.denom, b.ctx.bpm), b.ctx.gapMs);
      var b1 := ScoreStep(b, n, i);
      && (|ss| <= Room(b) ==> b1 == b.(steps := b.steps + ss))
      && (|ss| > Room(b) ==> b1.steps == b.steps + ss[..Room(b)] && !b1.ok && Wf(b1))
  {
  }

  /**
   A score that does not fit fills the buffer to capacity and leaves the
   builder invalid: the overflowing steps are dropped, never written.
   */
  lemma {:induction false} ScoreLoopOverflows(notes: seq<ScoreNote>, from: nat, b: Builder)
    requires Wf(b) && b.ok && from <= |notes|
    requires forall i :: 0 <= i < |notes| ==> notes[i].denom > 0
    requires |Compiled(b.ctx, notes[from..])| > Room(b)
    ensures var r := ForEachIndexedFrom(notes, from, b, ScoreStep);
      && !r.ok
      && |r.steps| == b.capacity
      && r.steps == b.steps + Compiled(b.ctx, notes[from..])[..Room(b)]
    decreases |notes| - from
  {
    var n := notes[from];
    var ss := Articulate(n.hz, NoteMs(n.denom, b.ctx.bpm), b.ctx.gapMs);
    assert notes[from..][1..] == notes[from + 1..];
    var rest := Compiled(b.ctx, notes[from + 1..]);
    assert Compiled(b.ctx, notes[from..]) == ss + rest;
    var b1 := ScoreStep(b, n, from);
    ScoreStepPushes(b, n, from);
    if |ss| > Room(b) {
      ScoreLoopFrame(notes, from + 1, b1);
      assert (ss + rest)[..Room(b)] == ss[..Room(b)];
    } else {
      assert b1 == b.(steps := b.steps + ss);
      ScoreLoopOverflows(notes, from + 1, b1);
      assert (ss + rest)[..Room(b)] == ss + rest[..Room(b1)];
    }
  }

  /** `appendScore` on a valid builder: the whole score when it fits, else a full buffer and `ok() == false`. */
  lemma AppendScoreCompiles(b: Builder, notes: seq<ScoreNote>)
    requires Wf(b) && b.ok
    requires forall i :: 0 <= i < |notes| ==> notes[i].denom > 0
    ensures var r := AppendScore(b, Some(notes), |notes|);
      && (|Compiled(b.ctx, notes)| <= Room(b) ==> r.steps == b.steps + Compiled(b.ctx, notes) && r.ok)
      && (|Compiled(b.ctx, notes)| > Room(b) ==> |r.steps| == b.capacity && !r.ok)
  {
    assert notes[..|notes|] == notes;
    assert notes[0..] == notes;
    if |Compiled(b.ctx, notes)| <= Room(b) {
      ScoreLoopFits(notes, 0, b);
    } else {
      ScoreLoopOverflows(notes, 0, b);
    }
  }

  /** A zero denominator part-way through a score stops it there, after the earlier notes. */
  lemma {:induction false} ScoreLoopStopsAtBadNote(notes: seq<ScoreNote>, k: nat, b: Builder)
    requires Wf(b) && b.ok && k < |notes| && notes[k].denom == 0
    requires forall i :: 0 <= i < k ==> notes[i].denom > 0
    requires |Compiled(b.ctx, notes[..k])| <= Room(b)
    ensures var r := AppendScore(b, Some(notes), |notes|);
      r.steps == b.steps + Compiled(b.ctx, notes[..k]) && !r.ok
  {
    assert notes[..|notes|] == notes;
    var pre := notes[..k];
    var post := notes[k..];
    assert notes == pre + post;
    ForEachIndexedSplit(pre, post, b);
    assert pre[0..] == pre;
    ScoreLoopFits(pre, 0, b);
    var b1 := ForEachIndexedFrom(pre, 0, b, ScoreStep);
    assert post[0] == notes[k];
    var b2 := ScoreStep(b1, post[0], |pre|);
    assert b2.steps == b1.steps && !b2.ok;
    ScoreLoopOffsetFrame(post, 1, |pre|, b2);
  }

  /** The score loop over `pre + post` is the loop over `pre` followed by the loop over `post`. */
  lemma {:induction false} ForEachIndexedSplit(pre: seq<ScoreNote>, post: seq<ScoreNote>, b: Builder)
    requires |post| > 0
    ensures ForEachIndexedFrom(pre + post, 0, b, ScoreStep)
      == ForEachIndexedOffset(post, 0, |pre|, ForEachIndexedFrom(pre, 0, b, ScoreStep))
    decreases |pre|
  {
    SplitFrom(pre, post, 0, b);
  }

  /** The score loop over `post` with indices shifted by `offset` (indices do not affect `ScoreStep`). */
  function ForEachIndexedOffset(post: seq<ScoreNote>, from: nat, offset: nat, b: Builder): Builder
    decreases |post| - from
  {
    if from >= |post| then b else ForEachIndexedOffset(post, from + 1, offset, ScoreStep(b, post[from], offset + from))
  }

  lemma {:induction false} SplitFrom(pre: seq<ScoreNote>, post: seq<ScoreNote>, from: nat, b: Builder)
    requires from <= |pre|
    ensures ForEachIndexedFrom(pre + post, from, b, ScoreStep)
      == ForEachIndexedOffset(post, 0, |pre|, ForEachIndexedFrom(pre, from, b, ScoreStep))
    decreases |pre| - from
  {
    if from < |pre| {
      assert (pre + post)[from] == pre[from];
      SplitFrom(pre, post, from + 1, ScoreStep(b, pre[from], from));
    } else {
      TailFrom(pre, post, 0, b);
    }
  }

  lemma {:induction false} TailFrom(pre: seq<ScoreNote>, post: seq<ScoreNote>, j: nat, b: Builder)
    requires j <= |post|
    ensures ForEachIndexedFrom(pre + post, |pre| + j, b, ScoreStep) == ForEachIndexedOffset(post, j, |pre|, b)
    decreases |post| - j
  {
    if j < |post| {
      assert (pre + post)[|pre| + j] == post[j];
      TailFrom(pre, post, j + 1, ScoreStep(b, post[j], |pre| + j));
    }
  }

  /** An invalid builder passes through the shifted loop unchanged. */
  lemma {:induction false} ScoreLoopOffsetFrame(post: seq<ScoreNote>, from: nat, offset: nat, b: Builder)
    requires !b.ok
    ensures ForEachIndexedOffset(post, from, offset, b) == b
    decreases |post| - from
  {
    if from < |post| {
      ScoreLoopOffsetFrame(post, from + 1, offset, b);
    }
  }

  // ---------------------------------------------------------------- reader overload

  /** State of the reader loop: the builder and the indices handed to `reader`, in call order. */
  datatype ReaderRun = ReaderRun(builder: Builder, visited: seq<nat>)

  /** Loop body: while valid, read note `i` and add it. */
  function ReaderStep(reader: nat -> ScoreNote, acc: ReaderRun, i: nat): ReaderRun
  {
    if acc.builder.ok then
      ReaderRun(AddNote(acc.builder, reader(i).hz, reader(i).denom), acc.visited + [i])
    else acc
  }

  /** The reader loop's callable, as passed to `for_index_n`. */
  function ReaderBody(reader: nat -> ScoreNote): (ReaderRun, nat) -> ReaderRun
  {
    (s: ReaderRun, i: nat) => ReaderStep(reader, s, i)
  }

  /** The same callable as passed to `for_each_indexed`, which also hands it the (unused) step. */
  function ReaderBodyIndexed(reader: nat -> ScoreNote): (ReaderRun, Step, nat) -> ReaderRun
  {
    (s: ReaderRun, st: Step, i: nat) => ReaderStep(reader, s, i)
  }

  /** Indices `0 .. n - 1`. */
  function Upto(n: nat): (r: seq<nat>)
    ensures |r| == n && forall j :: 0 <= j < n ==> r[j] == j
  {
    seq(n, j => j)
  }

  /** Facts about the reader loop run over indices `from .. n - 1`. */
  lemma {:induction false} ReaderLoop(reader: nat -> ScoreNote, n: nat, from: nat, acc: ReaderRun)
    requires from <= n
    requires acc.visited == Upto(from)
    ensures var r := ForIndexNFrom(n, from, acc, ReaderBody(reader));
      && SameBuffer(acc.builder, r.builder)
      && acc.builder.steps <= r.builder.steps
      && (r.builder.ok ==> acc.builder.ok)
      && (Wf(acc.builder) ==> Wf(r.builder))
      && from <= |r.visited| <= n
      && r.visited == Upto(|r.visited|)
      && (|r.visited| < n ==> !r.builder.ok)
      && (!acc.builder.ok ==> r == acc)
    decreases n - from
  {
    if from < n {
      var next := ReaderStep(reader, acc, from);
      if acc.builder.ok {
        assert next.visited == Upto(from + 1);
        ReaderLoop(reader, n, from + 1, next);
      } else {
        ReaderLoopFrame(reader, n, from + 1, acc);
      }
    }
  }

  lemma {:induction false} ReaderLoopFrame(reader: nat -> ScoreNote, n: nat, from: nat, acc: ReaderRun)
    requires !acc.builder.ok
    ensures ForIndexNFrom(n, from, acc, ReaderBody(reader)) == acc
    decreases n - from
  {
    if from < n {
      ReaderLoopFrame(reader, n, from + 1, acc);
    }
  }

  /**
   `appendScore(reader, count)` AS WRITTEN: it iterates over the builder's own
   steps (`buffer_`, `length_` at entry), calling `reader(i)` and `addNote`
   while valid; `count` is never used. What it appends is what the pointer
   overload appends for the notes `reader(0) .. reader(length_ - 1)`.
   */
  function AppendScoreReader(b: Builder, reader: nat -> ScoreNote, count: nat): (r: ReaderRun)
    ensures |r.visited| <= |b.steps| && r.visited == Upto(|r.visited|)
    ensures |r.visited| < |b.steps| ==> !r.builder.ok
    ensures !b.ok ==> r == ReaderRun(b, [])
    ensures b.steps <= r.builder.steps && SameBuffer(b, r.builder)
    ensures r.builder.ok ==> b.ok
    ensures Wf(b) ==> Wf(r.builder)
    ensures r.builder == AppendScore(b, Some(ReadAll(reader, |b.steps|)), |b.steps|)
  {
    ForEachIndexedIgnoresElements(b.steps, 0, ReaderRun(b, []), ReaderBodyIndexed(reader), ReaderBody(reader));
    assert Upto(0) == [];
    ReaderLoop(reader, |b.steps|, 0, ReaderRun(b, []));
    var notes := ReadAll(reader, |b.steps|);
    assert notes[..|b.steps|] == notes;
    ReaderMatches(reader, notes, 0, ReaderRun(b, []));
    ForEachIndexed(b.steps, ReaderRun(b, []), ReaderBodyIndexed(reader))
  }

  /** Consequence of the as-written loop: on an empty builder nothing is read or added, whatever `count` is. */
  lemma ReaderIgnoresCount(b: Builder, reader: nat -> ScoreNote, count: nat)
    requires b.steps == []
    ensures AppendScoreReader(b, reader, count) == ReaderRun(b, [])
  {
    assert ForEachIndexed(b.steps, ReaderRun(b, []), ReaderBodyIndexed(reader)) == ReaderRun(b, []);
  }

  /** Concrete instance: a fresh builder asked to read a three-note score ends up with no steps. */
  lemma ReaderAsWrittenExample()
    ensures var r := AppendScoreReader(New(true, 8), _ => ScoreNote(440, QUARTER), 3);
      r.builder.steps == [] && r.visited == []
  {
    ReaderIgnoresCount(New(true, 8), _ => ScoreNote(440, QUARTER), 3);
  }

  /**
   The evidently intended reader overload: `reader(i)` for `i = 0 .. count - 1`,
   with the same short-circuit as the pointer overload.
   */
  function AppendScoreReaderIntended(b: Builder, reader: nat -> ScoreNote, count: nat): (r: ReaderRun)
    ensures |r.visited| <= count && r.visited == Upto(|r.visited|)
    ensures |r.visited| < count ==> !r.builder.ok
    ensures !b.ok ==> r == ReaderRun(b, [])
    ensures b.steps <= r.builder.steps && SameBuffer(b, r.builder)
    ensures Wf(b) ==> Wf(r.builder)
  {
    assert Upto(0) == [];
    ReaderLoop(reader, count, 0, ReaderRun(b, []));
    ForIndexN(count, ReaderRun(b, []), ReaderBody(reader))
  }

  /** The notes `reader(0) .. reader(count - 1)`. */
  function ReadAll(reader: nat -> ScoreNote, count: nat): (notes: seq<ScoreNote>)
    ensures |notes| == count && forall i :: 0 <= i < count ==> notes[i] == reader(i)
  {
    seq(count, i requires 0 <= i => reader(i))
  }

  /** The intended reader overload compiles exactly what the pointer overload does on the notes it reads. */
  lemma ReaderIntendedMatchesPointer(b: Builder, reader: nat -> ScoreNote, count: nat)
    ensures AppendScoreReaderIntended(b, reader, count).builder
      == AppendScore(b, Some(ReadAll(reader, count)), count)
  {
    var notes := ReadAll(reader, count);
    assert notes[..count] == notes;
    assert Upto(0) == [];
    ReaderMatches(reader, notes, 0, ReaderRun(b, []));
  }

  lemma {:induction false} ReaderMatches(reader: nat -> ScoreNote, notes: seq<ScoreNote>, from: nat, acc: ReaderRun)
    requires from <= |notes|
    requires forall i :: 0 <= i < |notes| ==> notes[i] == reader(i)
    ensures ForIndexNFrom(|notes|, from, acc, ReaderBody(reader)).builder
      == ForEachIndexedFrom(notes, from, acc.builder, ScoreStep)
    decreases |notes| - from
  {
    if from < |notes| {
      ReaderMatches(reader, notes, from + 1, ReaderStep(reader, acc, from));
    }
  }

  // ---------------------------------------------------------------- compose, build, queries

  /** One builder call inside a `compose` callable. */
  datatype Cmd =
    | Clear(toDefault: bool)
    | Tempo(bpm: int)
    | SetGap(gapMs: U16)
    | Note(hz: U16, denom: U8)
    | Rest(denom: U8)
    | ToneMs(hz: U16, ms: U32)
    | RestMs(ms: U32)
    | Score(notes: seq<ScoreNote>)

  function Apply(b: Builder, c: Cmd): (r: Builder)
    ensures SameBuffer(b, r)
    ensures Wf(b) ==> Wf(r)
    ensures !c.Clear? ==> b.steps <= r.steps && (r.ok ==> b.ok)
  {
    match c
    case Clear(d) => ClearMelody(b, d)
    case Tempo(bpm) => SetTempo(b, bpm)
    case SetGap(g) => Gap(b, g)
    case Note(hz, d) => AddNote(b, hz, d)
    case Rest(d) => AddRest(b, d)
    case ToneMs(hz, ms) => AddToneMs(b, hz, ms)
    case RestMs(ms) => AddRestMs(b, ms)
    case Score(notes) => AppendScore(b, Some(notes), |notes|)
  }

  /**
   `compose(func)`: run the callable's builder calls, in order, on this very
   builder and hand the builder back. Without a `clearMelody` among them,
   earlier steps survive and validity can only be lost.
   */
  function Compose(b: Builder, body: seq<Cmd>): (r: Builder)
    ensures SameBuffer(b, r)
    ensures Wf(b) ==> Wf(r)
    ensures (forall i :: 0 <= i < |body| ==> !body[i].Clear?) ==> b.steps <= r.steps && (r.ok ==> b.ok)
    decreases |body|
  {
    if |body| == 0 then b else Compose(Apply(b, body[0]), body[1..])
  }

  /** Chained calls and grouped calls agree: composing `x` then `y` is composing `x + y`. */
  lemma {:induction false} ComposeConcat(b: Builder, x: seq<Cmd>, y: seq<Cmd>)
    ensures Compose(b, x + y) == Compose(Compose(b, x), y)
    decreases |x|
  {
    if |x| == 0 {
      assert x + y == y;
    } else {
      assert (x + y)[1..] == x[1..] + y;
      ComposeConcat(Apply(b, x[0]), x[1..], y);
    }
  }

  /** `build()`: a view of the compiled steps; the builder itself is not touched. */
  function Build(b: Builder): (m: Melody)
    ensures WfMelody(m) && m.count == |b.steps|
    ensures forall i :: 0 <= i < m.count ==> m.steps[i] == b.steps[i]
    ensures Wf(b) ==> m.count <= b.capacity
  {
    Melody(b.steps, |b.steps|)
  }

  /** `ok()`: a valid builder always has a buffer with room for at least one step. */
  function Ok(b: Builder): (r: bool)
    ensures Wf(b) && r ==> b.hasBuffer && b.capacity > 0
    ensures r <==> b.ok
  {
    b.ok
  }

  /** `size()`: the number of compiled steps, never more than the capacity. */
  function Size(b: Builder): (n: nat)
    ensures Wf(b) ==> n <= b.capacity
    ensures n == |Build(b).steps|
  {
    |b.steps|
  }

  // ---------------------------------------------------------------- examples

  /** At 76 bpm with a 15 ms gap, a G5 quarter (789 ms) compiles to 774 ms of tone and 15 ms of rest. */
  lemma GapSplitExample()
    ensures var b := Gap(SetTempo(ClearMelody(New(true, 64), true), 76), 15);
      var r := Compose(b, [Note(784, QUARTER)]);
      r.steps == [Step(784, 774), Step(0, 15)] && r.ok
  {
    var b := Gap(SetTempo(ClearMelody(New(true, 64), true), 76), 15);
    assert NoteMs(QUARTER, 76) == 789;
    assert Articulate(784, 789, 15) == [Step(784, 774), Step(0, 15)];
  }

  /** With room for one step, a split note overflows: one step is kept and the builder is invalid. */
  lemma OverflowExample()
    ensures var b := Gap(New(true, 1), 20);
      var r := AddNote(b, 440, QUARTER);
      r.steps == [Step(440, 480)] && !r.ok && Size(r) == 1
  {
    assert NoteMs(QUARTER, 120) == 500;
    assert Articulate(440, 500, 20) == [Step(440, 480), Step(0, 20)];
  }

  /** Single-note calls keep appending after the builder became invalid. */
  lemma AppendAfterInvalidExample()
    ensures var r := AddToneMs(SetTempo(New(true, 4), 0), 440, 100);
      r.steps == [Step(440, 100)] && !r.ok
  {
  }
}
