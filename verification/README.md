# Speech commands: the recognition smoother and the recording ring buffer

This project models the Android speech-commands demo in Dafny. It covers two parts of the app.

The first part is `RecognizeCommands`, the smoother between the keyword classifier and the user interface:
- It takes one vector of label scores per classifier run, with a timestamp.
- It keeps the recent vectors in a time window and averages them.
- It confirms a label as a new command only when the averaged top score is above a threshold, the label differs from the previous command, and the suppression period since that command has passed.

The second part is the sequential arithmetic inside `MainActivity`:
- the capture loop's write into the circular recording buffer, wrapping round its end;
- the recognition loop's read of that buffer, oldest sample first;
- the filter that builds the list of labels shown on screen;
- the test that decides whether a result flashes its label.

Files:
- `wrappers.dfy` holds `Option` and `Result`.
- `recognize_commands.dfy` (module `RecognizeCommands`) holds the state machine:
  - one call, `Step`, which returns `Err` for the two exceptions the Java method throws;
  - the pieces of that call;
  - `Run`, a sequence of calls, and the properties of runs.
- `recording_buffer.dfy` (module `RecordingBuffer`) holds `System.arraycopy` with its bounds, the ring write and the linearising read.
- `label_display.dfy` (module `LabelDisplay`) holds the label loading loop and the highlight test.
- `scenario.dfy` (module `CommandScenario`) proves a worked sequence of calls with the constants `MainActivity` uses, each call starting from the state the previous one left.
- `shared_scores.dfy` (module `SharedScores`) models how `MainActivity` actually passes its scores: one shared array, stored by reference (see "## Findings").

How Java values are represented:
- Scores, which are `float` in Java, are `real` here.
- Timestamps, which are `long`, are unbounded `int`s.
- `Long.MIN_VALUE` as "never" is `None`.
- `Long.MAX_VALUE` as "infinitely long ago" is the `Infinite` case of `Elapsed`.
- The history deque is a sequence with the oldest entry first.
- A stored score vector is a value: `Step` assumes the caller never changes a vector after passing it.

Behaviours of the code the model keeps as written:
- The time-order check compares with the oldest retained entry, not the newest.
- Rate limiting applies only when more than one entry is stored.
- The averages divide by the count before the insertion, not by the number of retained entries. With the app's constants and a steady "yes" at 0.9 every 50 ms, "yes" is confirmed on the fourth result (t = 150) with 3.6 / 3 = 1.2 (`YesConfirmed`).
- After a pause longer than the window only the new entry is kept, so the warm-up gate holds back a 0.95 "no" at t = 1800 (`PauseEmptiesWindow`). It is confirmed once the window has refilled, at t = 1950 (`NoConfirmed`).
- A previous top label of `_silence_` never suppresses the next command.

## Model

| member | source | states |
|---|---|---|
| RecognizeCommands.Init | app/src/main/java/org/tensorflow/speechcommands/RecognizeCommands.java:32-41 | the constructor's state is well formed for every configuration, with an empty (hence ordered) deque, and the time since the last command is infinite at every time |
| RecognizeCommands.Evicted | app/src/main/java/org/tensorflow/speechcommands/RecognizeCommands.java:103-106 | the pruning loop removes exactly the leading entries older than the limit: every removed one is older, the first kept one is not |
| RecognizeCommands.Prune | app/src/main/java/org/tensorflow/speechcommands/RecognizeCommands.java:102-106 | pruning leaves a suffix of the deque, everything removed was older than the limit, and the new front is not older |
| RecognizeCommands.Insert | app/src/main/java/org/tensorflow/speechcommands/RecognizeCommands.java:99-106 | after adding and pruning, the deque is non-empty, ends with the latest result, is a suffix of the old deque followed by it, and dropped only entries older than the window |
| RecognizeCommands.InsertSized | app/src/main/java/org/tensorflow/speechcommands/RecognizeCommands.java:99-106 | insertion keeps every stored vector at one score per label |
| RecognizeCommands.PruneKeepsSorted | app/src/main/java/org/tensorflow/speechcommands/RecognizeCommands.java:102-106 | pruning a time-ordered deque leaves it ordered, every entry within the limit |
| RecognizeCommands.InsertKeepsSorted | app/src/main/java/org/tensorflow/speechcommands/RecognizeCommands.java:99-106 | adding a result no older than the newest entry keeps the deque ordered and inside the window |
| RecognizeCommands.ArgMax | app/src/main/java/org/tensorflow/speechcommands/RecognizeCommands.java:129-139 | the chosen index holds the maximum average and every lower index holds strictly less (lowest index among equal maxima) |
| RecognizeCommands.StableTopUnique | app/src/main/java/org/tensorflow/speechcommands/RecognizeCommands.java:129-139 | the top of a stable descending sort is unique |
| RecognizeCommands.StableSortTop | app/src/main/java/org/tensorflow/speechcommands/RecognizeCommands.java:56-74 | the first element of any stable sort by `compareTo` (higher score first, ties in index order) is the `ArgMax` index |
| RecognizeCommands.AverageScores | app/src/main/java/org/tensorflow/speechcommands/RecognizeCommands.java:118-127 | the loop that adds each entry's score divided by the pre-insert count computes, per label, the column sum over all retained entries divided by that count |
| RecognizeCommands.Decide | app/src/main/java/org/tensorflow/speechcommands/RecognizeCommands.java:108-160 | the warm-up gate answers the previous label with score 0 and keeps the decision state; otherwise the answer is the stable top label of the averages with its average, it is new exactly when the trigger rule holds, a new command becomes the previous one with the call's time and score, and otherwise the decision state is kept |
| RecognizeCommands.Step | app/src/main/java/org/tensorflow/speechcommands/RecognizeCommands.java:76-161 | a call fails exactly when the vector has the wrong length or the time is earlier than the oldest stored entry, with the length error first, and a correctly sized vector earlier than the oldest entry gives `OutOfOrder` naming both times; a rate-limited call returns the previous label and score and leaves the state exactly unchanged; any other call stores the latest result by `Insert` and decides by `Decide` with the pre-insert count; a successful call keeps the state well formed |
| RecognizeCommands.StepDecision | app/src/main/java/org/tensorflow/speechcommands/RecognizeCommands.java:142-160 | a call answers the sentinel or a known label; it reports a new command only when the trigger rule allows it, and then the state remembers it with the call's time and score; otherwise the decision state is kept |
| RecognizeCommands.StepKeepsSorted | app/src/main/java/org/tensorflow/speechcommands/RecognizeCommands.java:82-106 | with a non-negative minimum gap, a successful call keeps a time-ordered deque ordered |
| RecognizeCommands.StepKeepsEntries | app/src/main/java/org/tensorflow/speechcommands/RecognizeCommands.java:90-106 | a call stores nothing but the latest result: every entry afterwards was stored before or is the new one |
| RecognizeCommands.Run | app/src/main/java/org/tensorflow/speechcommands/RecognizeCommands.java:76-161 | a successful sequence of calls answers once per input and keeps the state well formed |
| RecognizeCommands.RunLast | app/src/main/java/org/tensorflow/speechcommands/RecognizeCommands.java:142-159 | the last call of a run sees the state the earlier calls left; it confirms a command only as the trigger rule allows from that state, and the final state then remembers it with the last input's time |
| RecognizeCommands.RunPrefix | app/src/main/java/org/tensorflow/speechcommands/RecognizeCommands.java:76-161 | the calls before the last one of a successful run succeed on their own and give the run's answers for those inputs |
| RecognizeCommands.RunLastQuiet | app/src/main/java/org/tensorflow/speechcommands/RecognizeCommands.java:149-159 | a last call that confirms no command leaves the previous label, time and score as the earlier calls left them |
| RecognizeCommands.QuietRunKeepsDecision | app/src/main/java/org/tensorflow/speechcommands/RecognizeCommands.java:149-159 | a run that confirms no command leaves the previous label, time and score unchanged |
| RecognizeCommands.LastFireRemembered | app/src/main/java/org/tensorflow/speechcommands/RecognizeCommands.java:150-156 | after a run, the state remembers the last confirmed command with the time of the input that produced it |
| RecognizeCommands.FirstCommandAllowed | app/src/main/java/org/tensorflow/speechcommands/RecognizeCommands.java:142-156 | the first command a run confirms satisfies the trigger rule against the starting state: above the threshold, different from the previous label, and past the suppression period unless that label is `_silence_` or there was none |
| RecognizeCommands.NextCommandAllowed | app/src/main/java/org/tensorflow/speechcommands/RecognizeCommands.java:142-156 | two consecutive confirmed commands differ, so the same command never fires twice in a row; the later one is above the threshold; unless the earlier one is `_silence_`, they are more than the suppression period apart |
| RecognizeCommands.LastCommandAllowed | app/src/main/java/org/tensorflow/speechcommands/RecognizeCommands.java:142-156 | the same when the later command answers the last input of the run |
| RecognizeCommands.OrderedInputsNeverFail | app/src/main/java/org/tensorflow/speechcommands/RecognizeCommands.java:77-88 | correctly sized vectors fed in non-decreasing time order never raise either exception, and afterwards nothing stored is later than the last input |
| RecordingBuffer.Copy | app/src/main/java/org/tensorflow/speechcommands/MainActivity.java:234-235 | an in-bounds `System.arraycopy` writes the copied range from the source and leaves every other destination element alone |
| RecordingBuffer.ArrayCopy | app/src/main/java/org/tensorflow/speechcommands/MainActivity.java:234-235 | `System.arraycopy` succeeds exactly when its bounds hold and otherwise throws |
| RecordingBuffer.WriteSplit | app/src/main/java/org/tensorflow/speechcommands/MainActivity.java:228-231 | the two copy lengths add up to the number of samples read, and for a valid offset and at most a buffer's worth of samples both are non-negative, the first fits before the end and the second is zero exactly when nothing wraps |
| RecordingBuffer.Write | app/src/main/java/org/tensorflow/speechcommands/MainActivity.java:228-236 | a write succeeds exactly when the sample count is non-negative, within the audio read and at most twice the buffer minus the offset; the buffer keeps its length and the new offset is the old one plus the count, modulo the length |
| RecordingBuffer.WriteContents | app/src/main/java/org/tensorflow/speechcommands/MainActivity.java:234-235 | after a write, each position holds the sample whose index is its distance from the old offset when that distance is below the count, and its old sample otherwise |
| RecordingBuffer.WriteStoresSamples | app/src/main/java/org/tensorflow/speechcommands/MainActivity.java:234-235 | sample `k` of the write lands at position `(offset + k) % length` |
| RecordingBuffer.WriteKeepsOthers | app/src/main/java/org/tensorflow/speechcommands/MainActivity.java:234-235 | every position outside the wrapped positions the write covers keeps its sample |
| RecordingBuffer.Read | app/src/main/java/org/tensorflow/speechcommands/MainActivity.java:280-284 | the linear copy holds at index `i` the buffer element at `(offset + i) % length` |
| RecordingBuffer.ReadEndsWith | app/src/main/java/org/tensorflow/speechcommands/MainActivity.java:280-284 | a buffer holding `n` samples in the positions just before its offset reads back ending with those samples in order |
| RecordingBuffer.WriteThenRead | app/src/main/java/org/tensorflow/speechcommands/MainActivity.java:228-236 | a read right after a write of at most a buffer's worth of samples ends with exactly the samples written, in order |
| LabelDisplay.ActionableIndices | app/src/main/java/org/tensorflow/speechcommands/MainActivity.java:125-129 | the listed positions are in range, ascending, and each holds a line not starting with `_` |
| LabelDisplay.ActionableIndicesComplete | app/src/main/java/org/tensorflow/speechcommands/MainActivity.java:125-129 | a line's position is listed exactly when the line does not start with `_` |
| LabelDisplay.DisplayedIsFilter | app/src/main/java/org/tensorflow/speechcommands/MainActivity.java:125-129 | the displayed labels are the lines not starting with `_`, in file order, each with its first character upper-cased, and none of them starts with `_` |
| LabelDisplay.LoadLabels | app/src/main/java/org/tensorflow/speechcommands/MainActivity.java:125-129 | the loading loop keeps every line as a label and builds the displayed list |
| LabelDisplay.HighlightedIsDisplayed | app/src/main/java/org/tensorflow/speechcommands/MainActivity.java:304 | a highlighted result is a newly confirmed command, different from the previous one and remembered as the new one, whose capitalised form is among the displayed labels |
| CommandScenario.FirstResult | app/src/main/java/org/tensorflow/speechcommands/RecognizeCommands.java:108-116 | the first result is stored and answers `_silence_` with score 0, not new |
| CommandScenario.WindowFills | app/src/main/java/org/tensorflow/speechcommands/RecognizeCommands.java:99-116 | the calls at t = 50 and 100 store their results and are still held back by the warm-up gate, answering `_silence_` with score 0 |
| CommandScenario.YesOnTop | app/src/main/java/org/tensorflow/speechcommands/RecognizeCommands.java:118-139 | four "yes" vectors averaged over the pre-insert count 3 give "yes" 1.2, the top score |
| CommandScenario.YesDecided | app/src/main/java/org/tensorflow/speechcommands/RecognizeCommands.java:108-160 | with four entries and nothing confirmed before, "yes" is confirmed with score 1.2 at t = 150 |
| CommandScenario.YesConfirmed | app/src/main/java/org/tensorflow/speechcommands/RecognizeCommands.java:76-161 | the call at t = 150 after three stored "yes" vectors confirms "yes" with score 1.2 |
| CommandScenario.YesNotRepeated | app/src/main/java/org/tensorflow/speechcommands/RecognizeCommands.java:142-159 | "yes" stays on top at t = 200 (average 1.125) but is not confirmed again |
| CommandScenario.YesStillNotRepeated | app/src/main/java/org/tensorflow/speechcommands/RecognizeCommands.java:142-159 | nor at t = 300 (average 1.08) |
| CommandScenario.PauseEmptiesHistory | app/src/main/java/org/tensorflow/speechcommands/RecognizeCommands.java:99-106 | after a pause of 1500 ms only the new entry is retained |
| CommandScenario.PauseEmptiesWindow | app/src/main/java/org/tensorflow/speechcommands/RecognizeCommands.java:108-116 | the warm-up gate then answers the previous label "yes" with score 0, so a 0.95 "no" is not confirmed at t = 1800 |
| CommandScenario.WindowRefills | app/src/main/java/org/tensorflow/speechcommands/RecognizeCommands.java:99-116 | the calls at t = 1850 and 1900 refill the window and are still held back |
| CommandScenario.NoOnTop | app/src/main/java/org/tensorflow/speechcommands/RecognizeCommands.java:118-139 | with four "no" vectors "no" averages 3.8 / 3 and is the top label |
| CommandScenario.NoDecided | app/src/main/java/org/tensorflow/speechcommands/RecognizeCommands.java:142-160 | "no" differs from "yes" and 1800 ms have passed, more than 1500, so it is confirmed |
| CommandScenario.NoRetained | app/src/main/java/org/tensorflow/speechcommands/RecognizeCommands.java:99-106 | the call at t = 1950 keeps all four "no" entries |
| CommandScenario.NoConfirmed | app/src/main/java/org/tensorflow/speechcommands/RecognizeCommands.java:76-161 | the call at t = 1950 confirms "no" with score 3.8 / 3 |
| CommandScenario.TooSoonIgnored | app/src/main/java/org/tensorflow/speechcommands/RecognizeCommands.java:90-97 | a call 10 ms after the newest entry repeats the previous answer and stores nothing |
| SharedScores.AliasedStep | app/src/main/java/org/tensorflow/speechcommands/MainActivity.java:273-298 | with one array refilled before every call and every stored entry referring to it, a call still fails exactly when the vector has the wrong length or the time is earlier than the oldest stored entry |
| SharedScores.AliasedStepSharesVectors | app/src/main/java/org/tensorflow/speechcommands/RecognizeCommands.java:100 | when every entry stores a reference to the one array, each entry retained after a call reads the latest scores |
| SharedScores.MixedOnTop | app/src/main/java/org/tensorflow/speechcommands/RecognizeCommands.java:118-139 | three "yes" vectors and one "no" vector, averaged over 3, put "yes" on top at 0.9 |
| SharedScores.MixedDecided | app/src/main/java/org/tensorflow/speechcommands/RecognizeCommands.java:142-160 | from there "yes" is confirmed at t = 150 with score 0.9 |
| SharedScores.KeptVectorsConfirmYes | app/src/main/java/org/tensorflow/speechcommands/RecognizeCommands.java:76-161 | with each vector kept as passed, the call at t = 150 confirms "yes" |
| SharedScores.SharedOnTop | app/src/main/java/org/tensorflow/speechcommands/RecognizeCommands.java:118-139 | four references to the "no" vector, averaged over 3, put "no" on top at 3.8 / 3 |
| SharedScores.SharedDecided | app/src/main/java/org/tensorflow/speechcommands/RecognizeCommands.java:142-160 | from there "no" is confirmed at t = 150 |
| SharedScores.SharedArrayConfirmsNo | app/src/main/java/org/tensorflow/speechcommands/MainActivity.java:295-298 | with the app's shared array, the same call confirms "no" with score 3.8 / 3 and every stored entry holds the "no" vector |
| SharedScores.SharingChangesTheCommand | app/src/main/java/org/tensorflow/speechcommands/RecognizeCommands.java:100 | the same inputs confirm "yes" under the value model and "no" under the shared array, and the oldest stored vectors differ |

## Left out

- RecognizeCommands.Step: requires a configuration with at least one label, a non-negative window, and a minimum count of at least 1 unless the window is at least 4 ms. The Java constructor checks none of these. With no labels, warm-up calls return normally and the first call past the gate throws when it reads the top of an empty sort (RecognizeCommands.java:137). A negative window makes the pruning empty the deque, and the next `getFirst` throws. A minimum count of 0 or less with a window under 4 ms lets the first call divide by a count of zero; Java float division then gives Infinity or NaN averages and throws nothing, and `real` has no such values. A minimum count of 0 or less with a window of 4 ms or more behaves as a count of 1, and `ValidConfig` admits it.
- Threads, the `ReentrantLock` around the buffer, the `mShouldContinue*` flags and `Thread.sleep`: concurrency plumbing. The write and the read are modelled as sequential functions.
- `AudioRecord` and reading the label file from the app's assets: device and file I/O. The count `numberRead` and the file's lines are parameters. A negative `numberRead` (an error code) makes the first copy throw, which `Write` models as `None`.
- TensorFlow inference (`feed`, `run`, `fetch`) and the `System.currentTimeMillis()` clock: the score vector and the time are parameters of `Step`.
- Float rounding in the averaging and the `/ 32767.0f` normalisation of samples: scores are exact `real`s, so results that Java rounds differently, and NaN scores, are not modelled.
- `long` overflow in `currentTimeMS - mPreviousTopLabelTime` and `int` overflow in `mRecordingOffset + numberRead`: integers are unbounded.
- `toUpperCase` beyond ASCII: `LabelDisplay.ToUpper` upper-cases `a` to `z` only. Java's `toUpperCase()` uses the device's default locale, so under a Turkish locale a label starting with `i` shows as `İ`; the model does not follow the locale. Empty label lines, on which `charAt(0)` throws, are excluded by the `AllNonEmpty` precondition.
- The UI: the list adapter, the colour animation and the `labelIndex - 2` child-view lookup. `Log` calls have no behavioural effect.
- `Arrays.sort` itself is not modelled as an algorithm. `StableSortTop` proves that the head of any stable descending order is the `ArgMax` index, which is what the method reads.
- RecognizeCommands.OrderedInputsNeverFail: it assumes nothing stored is later than the first input. The code only needs each input to be no earlier than the oldest stored entry. The lemma covers the ordered feeding the app performs.
- RecognizeCommands.Step: stores the score vector as a value. `processLatestResults` stores the caller's array by reference (RecognizeCommands.java:100), and `MainActivity` refills one array before every call (MainActivity.java:273, 295, 298), so the Java deque holds the latest scores in every entry. `SharedScores` models that behaviour; see "## Findings".

## Findings

| source | as written | input that shows it | evidently intended | confidence | as-written member | corrected member |
|---|---|---|---|---|---|---|
| app/src/main/java/org/tensorflow/speechcommands/RecognizeCommands.java:100 | the deque stores a reference to the score array, which `MainActivity` refills in place before each call, so every retained entry reads the latest scores and the average is the latest vector times the entry count over the pre-insert count | app constants; scores (0.1, 0.9, 0.0) at t = 0, 50, 100, then (0.1, 0.0, 0.95) at t = 150: the shared array confirms "no" with 3.8 / 3 where the kept vectors confirm "yes" with 0.9 | each retained entry keeps the scores of its own call (store a copy of the array) | not executed | SharedScores.SharingChangesTheCommand | RecognizeCommands.StepKeepsEntries |
