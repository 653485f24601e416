# Passive buzzer melody player — Dafny model

This project models the sequential core of a small Arduino library that plays
melodies on a passive buzzer. The model has four parts.

- **Melody compiler** (`MelodyBuilder`, `melody_builder.dfy`). It turns notes written
  as (frequency, note value) into timed `Step`s. The tempo converts a note value to
  milliseconds. An articulation gap splits each tone into an audible part of at least
  10 ms plus a short rest. Steps go into a fixed-capacity buffer, and a sticky `ok`
  flag records overflow and invalid input. The builder is an immutable record
  `(steps, capacity, hasBuffer, ctx, ok)`, and every public method is a pure transition
  on it. `Wf` is the well-formedness invariant every transition preserves.
- **Playback scheduler** (`BuzzerPlayer`, `buzzer_player.dfy`). A four-state machine
  (`IDLE`, `START_STEP`, `PLAYING_STEP`, `ADVANCE_STEP`) steps through a compiled
  melody, with play, stop and loop. Each transition returns the new player and the
  calls it made on the sound backend, as an `Event` trace (`BackendStart(hz)` /
  `BackendStop`).
- **Elapsed-time primitive** (`Timer`, `delay.dfy`). A non-blocking interval timer
  over a free-running 32-bit microsecond counter, using wraparound-safe unsigned
  subtraction. The counter reading `micros()` is an explicit `now` argument.
  `isDelayTimeElapsed` re-reads the counter inside `restartTimer`; the model uses the
  same reading `now` for both.
- **Generic algorithms** (`AvrAlgorithms`, `algorithms.dfy`). Copy with truncation and
  zero fill, swap-erase, stable `remove_if`, `find`/`find_if`, `count`/`count_if`,
  `for_each_until`, `any_of`, range-checked `apply_within_range`, and the indexed
  loops the builder uses. Buffers are `seq`s, and callables are pure functions.
  `T{}` (value initialisation) is an explicit `blank` argument.

Shared types are in `types.dfy` (`Types`):

- `U8`/`U16`/`U32` model the source's fixed-width integers.
- `Wrap32` is truncation to 32 bits. It is used where the source's `unsigned long`
  arithmetic can wrap: the timer's subtraction and `durationMs * 1000UL`.

Where the source and its documentation disagree, the model follows the code:

- Single-step calls keep appending after `ok` became false. `pushStep_` never checks
  `ok_`, so `addNote`, `addRest`, `addToneMs` and `addRestMs` still append.
- `addRest` with a zero note value still appends a `(0 Hz, 0 ms)` step.
- The reader overload of `appendScore` iterates over the builder's own steps. See
  Findings below.

## Model

| member | source | states |
|---|---|---|
| Timer.Create | src/Timer/Delay.cpp:5-9 | `Delay(d)` has interval `d`, reference 0, and is armed |
| Timer.Init | src/Timer/Delay.cpp:12-16 | `init()` re-arms at `now` and keeps the interval |
| Timer.InitWith | src/Timer/Delay.cpp:18-22 | `init(d)` arms at `now` with interval `d`; it is the same as `updateDelayTime(d)` followed by `init()` |
| Timer.StopDelay | src/Timer/Delay.cpp:54-56 | `stopDelay()` disarms and changes no other field |
| Timer.RestartTimer | src/Timer/Delay.cpp:59-61 | `restartTimer()` moves only the reference timestamp, to `now` |
| Timer.UpdateDelayTime | src/Timer/Delay.cpp:64-66 | `updateDelayTime(d)` changes only the interval |
| Timer.IsDelayTimeElapsed | src/Timer/Delay.cpp:26-46 | Never fires when disarmed. Always fires when armed with interval 0. When it does not fire, the timer is unchanged. When it fires, the timer re-arms from `now` |
| Timer.ElapsedWrapSafe | src/Timer/Delay.cpp:32 | Unsigned 32-bit `now - prev` gives the true elapsed time `e` even when the counter wrapped in between |
| Timer.FiresIffIntervalPassed | src/Timer/Delay.cpp:26-46 | At `e` µs after the reference (modulo 2^32), the check fires iff the timer is armed and `e >= delay` |
| Timer.FiresOncePerInterval | src/Timer/Delay.cpp:32-40 | After a firing at `now`, no check fires until a full interval past `now` |
| Timer.StoppedNeverFires | src/Timer/Delay.cpp:44-56 | After `stopDelay()`, no sequence of checks fires or changes the timer |
| Timer.WrapExample | src/Timer/Delay.cpp:32 | A 1000 µs timer armed at 0xFFFFFF00 fires at reading 744 (after the overflow) and not at 743 |
| AvrAlgorithms.ForEachIndexed | lib/avr_algorithms.h:277-284 | `for_each_indexed` over an empty range makes no call; otherwise its last call is on the last element with that element's index, after the loop over all earlier elements (the loop itself is `ForEachIndexedFrom`, started at index 0) |
| AvrAlgorithms.ForIndexN | lib/avr_algorithms.h:462-470 | `for_index_n(0)` makes no call; otherwise its last call is for index `n - 1`, after the loop up to `n - 1` (the loop itself is `ForIndexNFrom`, started at 0) |
| AvrAlgorithms.ForIndexNSnoc | lib/avr_algorithms.h:465-468 | Indices are visited in increasing order, each once; extending the bound by one adds exactly one last call for the new index |
| AvrAlgorithms.ForEachIndexedSnoc | lib/avr_algorithms.h:277-284 | `for_each_indexed` calls `func` on element `i` with index `i`, in increasing order; the last call gets the last element and its index |
| AvrAlgorithms.ForEachIndexedIgnoresElements | lib/avr_algorithms.h:277-284 | A `for_each_indexed` body that ignores its element is the `for_index_n` loop over the same length |
| AvrAlgorithms.ForEachUntil | lib/avr_algorithms.h:378-384 | Returns true iff every element satisfies `func` |
| AvrAlgorithms.AnyOf | lib/avr_algorithms.h:511-520 | Returns true iff some element among the first `count`, together with its index, satisfies the predicate |
| AvrAlgorithms.Find | lib/avr_algorithms.h:536-544 | Returns the first position holding `value`, or the end iff `value` is absent; no earlier element matches |
| AvrAlgorithms.FindIf | lib/avr_algorithms.h:603-611 | Returns the first position satisfying the predicate, or the end; no earlier element satisfies it |
| AvrAlgorithms.Count | lib/avr_algorithms.h:673-682 | Returns the multiplicity of `value` in the range, which is at most the range length |
| AvrAlgorithms.CountIf | lib/avr_algorithms.h:742-751 | Result is at most the length; 0 iff no element matches; the length iff all match |
| AvrAlgorithms.CountIfSnoc | lib/avr_algorithms.h:742-751 | Extending the range by one element adds 1 exactly when that element matches |
| AvrAlgorithms.CountIfPlusRejected | lib/avr_algorithms.h:1006-1016 | Matching elements counted by `count_if`, plus the elements `remove_if` keeps, make up the whole range; no kept element matches |
| AvrAlgorithms.CopyArray | lib/avr_algorithms.h:860-880 | `dest[i] = src[i]` for `i < min(count, N)`; every later slot becomes `T{}` |
| AvrAlgorithms.CopyImpl | lib/avr_algorithms.h:818-825 | Writes exactly `min(end - begin, max_count)` elements as a prefix of the destination; leaves the rest unchanged |
| AvrAlgorithms.Copy | lib/avr_algorithms.h:901-909 | Returns `min(end - begin, dest_size)` and copies exactly that prefix; leaves the rest of the destination unchanged |
| AvrAlgorithms.RemoveIf | lib/avr_algorithms.h:1006-1016 | The prefix up to the returned position is exactly the non-matching elements, in their original order (a stable filter); the rest keeps the original contents |
| AvrAlgorithms.EraseValue | lib/avr_algorithms.h:1073-1087 | Erases iff `value` occurs among the first `count` elements. If not, nothing changes. If so: the first occurrence takes the old last element, the last slot becomes `T{}`, `count` drops by one, earlier elements are unchanged, and the live elements lose exactly one copy of `value` |
| AvrAlgorithms.SwapEraseMultiset | lib/avr_algorithms.h:1080-1082 | Overwriting the first occurrence with the last live element and dropping the last slot removes exactly one copy of `value` |
| AvrAlgorithms.ApplyWithinRange | lib/avr_algorithms.h:1117-1130 | An invalid range (`start >= N`, `end > N` or `start >= end`) changes nothing; otherwise exactly the indices in `[start, end)` are mapped |
| MelodyBuilder.New | src/builder/MelodyBuilder.cpp:10-16 | Empty, default context `(120 bpm, 0 ms)`; `ok` iff there is a buffer and capacity > 0 |
| MelodyBuilder.ClearMelody | src/builder/MelodyBuilder.cpp:24-36 | Empties the melody and keeps the buffer; resets the context only when asked; sets `ok` back to (buffer ∧ capacity > 0) |
| MelodyBuilder.SetTempo | src/builder/MelodyBuilder.cpp:47-54 | Stores `bpm` iff `1 <= bpm <= 300`; otherwise keeps the tempo and clears `ok`; never touches steps or gap |
| MelodyBuilder.Gap | src/builder/MelodyBuilder.cpp:65-72 | Stores the gap iff it is at most 1000 ms; otherwise keeps it and clears `ok`; never touches steps or tempo |
| MelodyBuilder.NoteMs | src/builder/MelodyBuilder.cpp:325-331 | The result is at least 1 ms. It is the floor of `240000 / (bpm * denom)` when that is at least 1, characterised by `ms * d <= 240000 < ms * d + d`; otherwise it is 1 |
| MelodyBuilder.DenomToMs | src/builder/MelodyBuilder.cpp:317-336 | A zero note value or tempo gives 0 ms and clears `ok`; otherwise the positive `NoteMs` duration, with the builder unchanged |
| MelodyBuilder.NoteMsMonotone | src/builder/MelodyBuilder.cpp:325-331 | Shorter note values and faster tempos never give longer durations |
| MelodyBuilder.NoteMsAt120 | include/music/Durations.h:11 | At 120 bpm a quarter, half and whole note last 500, 1000 and 2000 ms; a thirty-second at 300 bpm lasts 25 ms |
| MelodyBuilder.PushStep | src/builder/MelodyBuilder.cpp:280-294 | Appends iff the length is below capacity. Otherwise steps are unchanged and `ok` is cleared. `ok` is never checked; earlier steps are never modified |
| MelodyBuilder.PushAll | src/builder/MelodyBuilder.cpp:280-294 | Consecutive pushes append all steps when they fit. Otherwise they append exactly the ones that fit, leave the buffer full and clear `ok` |
| MelodyBuilder.Articulate | src/builder/MelodyBuilder.cpp:155-172 | The steps one note compiles to: one or two steps, the first at the note's frequency. When there are two, the second is silent and the tone keeps at least 10 ms (durations and the split condition are in `ArticulateSplit`) |
| MelodyBuilder.ArticulateSplit | src/builder/MelodyBuilder.cpp:155-172 | One or two steps; the first plays `hz`. They last exactly the converted duration. The tone keeps at least 10 ms when the note had that much. A second, silent step exists iff `hz > 0`, gap > 0 and duration > 10, and it lasts `min(gap, duration - 10)` |
| MelodyBuilder.AddNote | src/builder/MelodyBuilder.cpp:135-180 | A zero note value appends nothing and clears `ok`. Otherwise the articulated note is pushed; at most 2 steps are added; earlier steps are kept; `ok` never turns true |
| MelodyBuilder.AddNoteFits | src/builder/MelodyBuilder.cpp:138-172 | With room for two steps, `addNote` appends steps lasting exactly the converted duration and leaves `ok` as it was |
| MelodyBuilder.AddRest | src/builder/MelodyBuilder.cpp:188-197 | Appends one silent step of the converted duration. A zero note value still appends `(0, 0)` and clears `ok`. A full buffer appends nothing and clears `ok` |
| MelodyBuilder.AddToneMs | src/builder/MelodyBuilder.cpp:206-212 | Appends `(hz, durationMs)` unchanged if there is room, else clears `ok` |
| MelodyBuilder.AddRestMs | src/builder/MelodyBuilder.cpp:221-227 | Appends `(0, durationMs)` unchanged if there is room, else clears `ok` |
| MelodyBuilder.AppendScore | src/builder/MelodyBuilder.cpp:87-107 | A null score with notes clears `ok` and appends nothing. An invalid builder appends nothing. Existing steps are kept; `ok` never turns true |
| MelodyBuilder.ScoreLoopFrame | src/builder/MelodyBuilder.cpp:97-104 | Once `ok` is false the score loop changes nothing; it only ever appends |
| MelodyBuilder.ScoreLoopFits | src/builder/MelodyBuilder.cpp:97-104 | A remaining score that fits is compiled note by note, in order, and appended whole |
| MelodyBuilder.ScoreLoopOverflows | src/builder/MelodyBuilder.cpp:97-104 | A remaining score that does not fit fills the buffer with its compiled prefix and clears `ok` |
| MelodyBuilder.AppendScoreCompiles | src/builder/MelodyBuilder.cpp:87-107 | On a valid builder: the whole compiled score when it fits, else a full buffer with `ok() == false` |
| MelodyBuilder.ScoreLoopStopsAtBadNote | src/builder/MelodyBuilder.cpp:97-104 | A zero note value stops the score there: the earlier notes are appended, the rest are skipped, and `ok` is cleared |
| MelodyBuilder.AppendScoreView | src/builder/MelodyBuilder.cpp:118-121 | The view overload forwards `(data, count)` to the pointer overload; a null view with notes clears `ok` |
| MelodyBuilder.ReaderLoop | include/builder/MelodyBuilder.h:131-142 | The reader loop calls `reader(0), reader(1), …` in order and stops reading once `ok` is false; it only appends |
| MelodyBuilder.AppendScoreReader | include/builder/MelodyBuilder.h:129-144 | As written: it reads at most as many indices as the builder already held steps, in increasing order; stopping early implies `ok` is false; it only appends. It builds exactly what the pointer overload builds on `reader(0) … reader(length_ - 1)`, with `length_` taken at entry: each note read is forwarded to `addNote` |
| MelodyBuilder.ReaderIgnoresCount | include/builder/MelodyBuilder.h:129-131 | As written: on an empty builder it reads nothing and adds nothing, whatever `count` is |
| MelodyBuilder.ReaderAsWrittenExample | include/builder/MelodyBuilder.h:129-144 | As written: a fresh builder asked for a three-note score ends with no steps |
| MelodyBuilder.AppendScoreReaderIntended | include/builder/MelodyBuilder.h:117-127 | Corrected: reads at most `count` indices, in increasing order; stopping early implies `ok` is false |
| MelodyBuilder.ReaderIntendedMatchesPointer | include/builder/MelodyBuilder.h:117-144 | Corrected: the reader overload builds exactly what the pointer overload builds on `reader(0) … reader(count-1)` |
| MelodyBuilder.Compose | include/builder/MelodyBuilder.h:159-165 | `compose(f)` runs `f` on this builder: the buffer is kept and well-formedness is preserved; without a `clearMelody` inside, steps only grow and `ok` never turns true |
| MelodyBuilder.ComposeConcat | include/builder/MelodyBuilder.h:159-165 | Composing two bodies in sequence is composing their concatenation (the builder is chained through) |
| MelodyBuilder.Build | src/builder/MelodyBuilder.cpp:236-239 | `build()` views exactly the appended steps, and never more than the capacity |
| MelodyBuilder.Ok | src/builder/MelodyBuilder.cpp:247-250 | `ok()` reports the flag; when it is true there is a buffer with capacity > 0 |
| MelodyBuilder.Size | src/builder/MelodyBuilder.cpp:257-260 | `size()` is the built melody's length and never exceeds the capacity |
| MelodyBuilder.GapSplitExample | src/main.cpp:77-83 | At 76 bpm with gap 15, a G5 quarter compiles to `(784, 774), (0, 15)`, and the builder stays valid |
| MelodyBuilder.OverflowExample | src/builder/MelodyBuilder.cpp:155-172 | With room for one step, a split quarter keeps only its tone `(440, 480)` and clears `ok`; the size is 1 |
| MelodyBuilder.AppendAfterInvalidExample | src/builder/MelodyBuilder.cpp:280-294 | After an invalid tempo, `addToneMs` still appends |
| BuzzerPlayer.New | src/player/BuzzerPlayer.cpp:9-18 | A new player is idle with no melody, index 0, looping off, and its timer armed with interval 0 at `now` |
| BuzzerPlayer.IsPlaying | src/player/BuzzerPlayer.cpp:81-84 | True iff the state is not `IDLE`; under the invariant, iff a melody is held |
| BuzzerPlayer.Stop | src/player/BuzzerPlayer.cpp:50-67 | Exactly one backend `stop`. Afterwards: no melody, index 0, looping off, `IDLE`, and the timer disarmed with interval and reference kept |
| BuzzerPlayer.StopIdempotent | src/player/BuzzerPlayer.cpp:50-67 | Stopping twice gives the same player and the same single event as stopping once |
| BuzzerPlayer.Play | src/player/BuzzerPlayer.cpp:28-44 | Emits a backend `stop` iff the player was not idle, then loads the melody at index 0 in `START_STEP` with the loop flag; no `start` yet |
| BuzzerPlayer.CurrentStep | src/player/BuzzerPlayer.cpp:165-168 | The current step is one of the melody's first `count` steps |
| BuzzerPlayer.ArmDelayUs | src/player/BuzzerPlayer.cpp:116 | The step interval is `durationMs * 1000` modulo 2^32, and is exact when the product fits |
| BuzzerPlayer.ArmDelayRange | src/player/BuzzerPlayer.cpp:116 | Durations up to 4294967 ms are exact; 4294968 ms wraps to 704 µs |
| BuzzerPlayer.AdvanceToNextStep | src/player/BuzzerPlayer.cpp:179-204 | Goes to the next step in `START_STEP`. Past the end it goes to step 0 when looping and to `stop()` otherwise. The invariant is kept |
| BuzzerPlayer.StartEvent | src/player/BuzzerPlayer.cpp:111-113 | Starting a step calls `start(f)` iff its frequency `f` is non-zero, with that frequency; a rest calls `stop()` |
| BuzzerPlayer.Update | src/player/BuzzerPlayer.cpp:94-154 | Idle does nothing. `START_STEP` emits `start(f)` (or `stop` for a rest), arms the timer with the step's interval at `now`, and moves to `PLAYING_STEP`. `PLAYING_STEP` moves on iff the timer fires. `ADVANCE_STEP` advances. At most one backend call; the invariant is kept; the player only becomes idle by stopping at the end of a non-looping melody |
| BuzzerPlayer.StepEndsWhenIntervalPassed | src/player/BuzzerPlayer.cpp:128-140 | A playing step ends exactly when the clock is at least the interval past the timer's reference, across counter wraparound |
| BuzzerPlayer.StepLastsItsDuration | src/player/BuzzerPlayer.cpp:106-140 | A step started at `now` ends exactly at the first reading `durationMs * 1000` µs later (durations up to 4294967 ms) |
| BuzzerPlayer.Run | src/player/BuzzerPlayer.cpp:94-154 | Any number of `update()` polls keep the invariant: idle iff no melody, index within the melody, the timer armed while a step plays |
| BuzzerPlayer.RunPlaysOnlyTheMelody | src/player/BuzzerPlayer.cpp:106-126 | Over any run the player holds only the melody it was given, and every tone started is a non-zero frequency of one of its steps |
| BuzzerPlayer.IdleStaysIdle | src/player/BuzzerPlayer.cpp:100-104 | An idle player stays unchanged and silent under any number of polls |
| BuzzerPlayer.LoopingScenario | src/player/BuzzerPlayer.cpp:185-192 | With looping, a 2-step melody plays `start(440)`, `stop` (the rest step), and wraps to step 0 in `START_STEP` |
| BuzzerPlayer.NonLoopingScenario | src/player/BuzzerPlayer.cpp:193-197 | Without looping, the same run ends idle with no melody after one final backend `stop` |
| BuzzerPlayer.WaitsForTimer | src/player/BuzzerPlayer.cpp:128-140 | One microsecond before a 100 ms step is up, the scheduler is still in `PLAYING_STEP` and silent |

## Left out

- Hardware backends (`tone()`, `noTone()`, pin setup) are not modelled; backend calls become the `Event` trace.
- `micros()` is not modelled; the clock is the `now` argument. `restartTimer` inside `isDelayTimeElapsed` uses that same reading, not a second, later one.
- Logging (`LOGI`/`LOGD`/`LOGE`) is left out because it has no effect on state. This includes the unbraced log line after the `PLAYING_STEP` check, which runs every poll.
- The application wiring in `src/main.cpp` is left out; its composition appears only as the concrete example in `MelodyBuilder.GapSplitExample`.
- Note, preset and configuration tables are left out because they are constant data. Only the note values are imported as constants.
- The empty `Delay()` constructor is left out because it leaves the fields uninitialised.
- `appendScore(ScoreView)` has no `return` statement, which is undefined behaviour in C++. The model takes the evident intent: it returns the builder.
- The loop helpers `repeat`, `repeat_while`, `repeat_withExitCondition`, the array `for_each`/`for_each_element`/`apply`, and the fixed-array overloads of the algorithms are not modelled separately. They are thin wrappers over the modelled loops with side-effecting callables; callables in the model are pure functions.
- Concurrency does not exist (a single cooperative poll loop), so none is modelled.
- MelodyBuilder.Compose: the callable is a fixed list of builder calls (`Cmd`): clear, tempo, gap, note, rest, raw tone, raw rest, and a score given as notes. Not expressible: calls that branch on `ok()` or `size()`, the reader and `ScoreView` overloads, a null score pointer, and nested `compose`. The contract covers only callables of that form.
- The memory lifetime of the melody a player points to (`const Melody*`) is not modelled; the player holds the melody value.
- MelodyBuilder.Wf: a builder with a null buffer but positive capacity is excluded. In the source, `pushStep_` would write through the null pointer, so every contract about it is stated under `Wf`.
- BuzzerPlayer.Play: requires a non-empty melody backed by its steps. On an empty melody, the source's next `update()` reads `steps[0]` out of bounds.
- MelodyBuilder.SetTempo: the `int` argument is an unbounded integer; C `int` range limits are not modelled.
- AvrAlgorithms.CopyImpl: the `unsigned` counters are unbounded (16 bits on the target), so copies of more than 65535 elements are not modelled.
- AvrAlgorithms.Copy: the same `unsigned` width limit as `CopyImpl` applies.
- The player's `size_t` index and the builder's `size_t` length are unbounded naturals; they cannot overflow within a buffer's capacity.

## Findings

| source | as written | input that shows it | evidently intended | confidence | as-written member | corrected member |
|---|---|---|---|---|---|---|
| include/builder/MelodyBuilder.h:129-142 | The reader overload of `appendScore` loops over the builder's own `buffer_, length_` and never uses `count`. With `0 < count < length_` it also calls `reader(i)` for `i >= count` | A fresh builder (no steps) with `count = 3` and a reader returning A4 quarters: nothing is read and nothing is appended. A builder already holding 4 steps with `count = 1` reads indices 0 to 3 | Call `reader(i)` for `i = 0 .. count-1`, like the pointer overload | high (not executed) | MelodyBuilder.AppendScoreReader, MelodyBuilder.ReaderIgnoresCount, MelodyBuilder.ReaderAsWrittenExample | MelodyBuilder.AppendScoreReaderIntended, MelodyBuilder.ReaderIntendedMatchesPointer |
