# El Pot de la Sort — a verified model of the classroom toolkit's core

`app.js` is a single-page classroom helper with these parts:

- a store of classrooms (name and student list), saved in the browser;
- a group maker;
- a one-shot name picker;
- a turn-order caller that draws names without replacement;
- a countdown timer with an alert sound;
- a roulette wheel over saved option sets;
- JSON import and export of the whole document.

This project models the logic under the DOM wiring, animation and audio, and proves what that logic promises. Random draws, the clock, storage and id generation are parameters supplied by the caller.

| file | module | what it models |
|---|---|---|
| `wrappers.dfy` | `Wrappers` | `Option` and `Result` |
| `lists.dfy` | `ListOps` | `shuffle` (Fisher–Yates over caller-supplied draws `draws[i] <= i`); `parseList` (split on newlines, trim, drop blanks) with `Split`, `Join` and `Trim`; the exclusion filter |
| `numeric.dfy` | `Numeric` | the `Math.max(lo, Math.min(hi, x))` clamp |
| `groups.dfy` | `Groups` | `createGroups`: the group count with its "no lone student" rule, and the round-robin deal |
| `document.dfy` | `Documents` | the saved document as a datatype; its JSON encoding; `loadData`'s key-by-key merge over the defaults; `isValidImport`; `importData` |
| `store.dfy` | `Store` | the document store as a class: the classroom and roulette-set CRUD, selection, group generation, import, reset and the sound settings |
| `candidates.dfy` | `Candidates` | `getPickerList` and `getTurnCandidates`: the filtered list and the session key |
| `turns.dfy` | `Turns` | the turn session as a class: `resetTurnState`, `startTurns`, `handleTurnNext`, `handleTurnReset` and its exclusion set |
| `picker.dfy` | `Picker` | `animatePicker`'s reveal sequence, `handlePick` and the picker's exclusion set |
| `timer.dfy` | `Timer` | `formatTime`, and the countdown timer as a class with start, tick, pause, reset and the setters |
| `roulette.dfy` | `Roulette` | `getRandomIndex`, and `spinRoulette`'s choice of a winner that never repeats the previous one |
| `controller.dfy` | `Controller` | the class-selector and tab handlers, which also clear the exclusion sets |

The state the source keeps in `state.data` is the `data` field of `Store.DocumentStore`, and `localStorage` is its `stored` field. The turn pool, the timer and the roulette's last index are fields of `Turns.TurnSession`, `Timer.CountdownTimer` and `Roulette.Wheel`.

Each method states its whole new state. The main results are:

- **Shuffle.** `Shuffle` and `FisherYates` produce a permutation.
- **Parsing.** `parseList` is sound and complete with respect to the trimmed lines, and it keeps their order (`ParseListAppend`).
- **Groups.** The groups are a permutation of the roster. With at least two students, every group has at least two members and sizes differ by at most one.
- **Saved document.** A saved document loads back unchanged. An exported document imports back unchanged.
- **Turn session.** The called names plus the waiting pool always equal the list of the last reset, up to blank names. When the session reports completion, and the list has no blank names, everyone has been called.
- **Exclusions.** Toggling an exclusion never changes the session key, so it never forces a reshuffle.
- **Timer.** The rendered clock reads back as the remaining whole seconds.
- **Roulette.** The winner is never the previous winner, and every other segment can win.

## Model

| member | source | states |
|---|---|---|
| `ListOps.FisherYates` | app.js:83-90 | the swap-down pass over draws `draws[i] <= i` keeps the length of the input |
| `ListOps.SwapPermutes` | app.js:86-87 | the destructuring swap keeps the multiset of the elements |
| `ListOps.FisherYatesPermutes` | app.js:83-90 | whatever the draws, the shuffle is a permutation of its input |
| `ListOps.FisherYatesKeepsTail` | app.js:83-90 | the pass down to index `i` leaves every position above `i` untouched |
| `ListOps.FisherYatesPlacesDraw` | app.js:83-90 | position `i` ends up holding the element that was at the drawn index `draws[i]` |
| `ListOps.FisherYatesIdentityDraws` | app.js:83-90 | if every draw picks its own index, the shuffle is the identity |
| `ListOps.Shuffle` | app.js:83-90 | the array loop on a copy computes `FisherYates` of the input and returns a permutation of it; the input sequence is a value and stays unmodified |
| `ListOps.Split` | app.js:92-96 | `split("\n")` gives at least one piece |
| `ListOps.SplitPieces` | app.js:92-96 | no piece of a split contains the separator |
| `ListOps.SplitCons` | app.js:92-96 | a leading separator starts a new empty piece; any other leading character joins the first piece |
| `ListOps.JoinSplit` | app.js:92-96 | joining the pieces of a split with the separator gives back the text |
| `ListOps.SplitJoin` | app.js:797-812 | splitting a join of separator-free pieces gives back the pieces |
| `ListOps.SplitAppend` | app.js:92-96 | splitting `a + sep + b` is splitting `a` followed by splitting `b` |
| `ListOps.Trim` | app.js:92-96 | the result has no leading or trailing whitespace and is no longer than the input |
| `ListOps.TrimStartSuffix` | app.js:94 | dropping the leading whitespace leaves a suffix of the input |
| `ListOps.TrimEndPrefix` | app.js:94 | dropping the trailing whitespace leaves a prefix of the input |
| `ListOps.TrimSlice` | app.js:94 | the trimmed line is the contiguous slice of the input that starts right after the leading whitespace |
| `ListOps.TrimBlank` | app.js:94-96 | a line trims to the empty string iff every character of it is whitespace, so exactly the blank lines are filtered out |
| `ListOps.TrimOfTrimmed` | app.js:92-96 | trimming a string without outer whitespace changes nothing |
| `ListOps.TrimIdempotent` | app.js:92-96 | trimming twice is trimming once |
| `ListOps.TrimKeepsAbsent` | app.js:92-96 | trimming never introduces a character |
| `ListOps.ParseLines` | app.js:92-96 | the kept lines are non-empty and trimmed, and there are no more of them than input lines |
| `ListOps.ParseLinesSound` | app.js:92-96 | every kept line is the trim of some input line |
| `ListOps.ParseLinesComplete` | app.js:92-96 | the trim of every input line that is not blank is kept |
| `ListOps.ParseLinesAppend` | app.js:92-96 | the filter distributes over concatenation, so the input order is kept |
| `ListOps.ParseList` | app.js:92-96 | every parsed name is non-empty, trimmed and free of newlines |
| `ListOps.ParseListSound` | app.js:92-96 | every parsed name is the trimmed form of a line of the text |
| `ListOps.ParseListComplete` | app.js:92-96 | every line that is not blank appears, trimmed, in the parsed list (membership only; `ParseListAppend` and `ParseListOneLine` give the per-line order and multiplicity) |
| `ListOps.ParseListAppend` | app.js:92-96 | parsing `a + "\n" + b` is parsing `a` followed by parsing `b`: order is kept |
| `ListOps.ParseListOneLine` | app.js:92-96 | a text with no newline parses to its trimmed self, or to nothing when blank |
| `ListOps.Without` | app.js:616-625 | the `filter(!excluded.has)` result counts each name as the input does, except that excluded names occur zero times |
| `ListOps.WithoutAppend` | app.js:616-625 | filtering distributes over concatenation, so the order is kept |
| `ListOps.WithoutNothing` | app.js:616-625 | with no exclusions the list is unchanged |
| `Numeric.Clamp` | app.js:1145-1151 | the result lies in `[lo, hi]`, equals the input when it is in range, and equals the bound it crossed otherwise |
| `Groups.NormalizedSize` | app.js:453 | `Math.max(2, groupSize)`: at least 2 and at least the requested size, and equal to one of the two |
| `Groups.CeilDiv` | app.js:454 | the ceiling is the least `c` with `n <= c * s` |
| `Groups.GroupCount` | app.js:452-458 | there are no groups exactly when there are no students, and never more groups than students |
| `Groups.GroupCountBounds` | app.js:452-458 | the count is `ceil(n/s)`, less one exactly when `n % s == 1` and the ceiling exceeds 1; with `n >= 2` it is at most `n/2`; without a leftover the groups hold everyone at size `s`; they always do at size `s + 1` |
| `Groups.Deal` | app.js:460-465 | dealing into `g` groups makes exactly `g` groups |
| `Groups.DealPermutation` | app.js:460-465 | the dealt groups, concatenated, are a permutation of the students |
| `Groups.DealSizes` | app.js:460-465 | group `k` receives `n / g` students plus one when `k < n % g` |
| `Groups.PartitionShape` | app.js:452-468 | with at least two students, every group has at least two members, any two groups differ by at most one, and none exceeds `s + 1`, or `s` when there is no lone leftover |
| `Groups.NoEmptyGroup` | app.js:452-468 | with at least one student no group is empty, so a lone student forms one group of one |
| `Groups.BalancedGroups` | app.js:452-468 | the same shape, stated for all pairs of groups: at least two members, sizes differing by at most one, at most `s + 1` members, and at most `s` when `n % s != 1` |
| `Groups.SevenInThrees` | app.js:452-468 | seven students in groups of three make two groups of 4 and 3, with the lone leftover absorbed |
| `Groups.EightInThrees` | app.js:452-468 | eight students in groups of three make groups of 3, 3 and 2 |
| `Groups.Partition` | app.js:452-468 | the shuffled roster dealt round-robin makes exactly `GroupCount` groups |
| `Groups.PartitionBalanced` | app.js:452-468 | whatever the draws, the groups together are a permutation of the students, and with `n >= 2` every group has at least two members, sizes differ by at most one, and none exceeds `max(2, s) + 1`, or `max(2, s)` when no lone leftover was absorbed |
| `Groups.CreateGroups` | app.js:452-468 | the groups are the round-robin deal of the shuffled roster into `GroupCount` groups; together they are a permutation of the students; with `n >= 2` no group has fewer than two members, sizes differ by at most one, and no group exceeds `max(2, s)` unless a lone leftover was absorbed, and then by one at most |
| `Groups.DealRoundRobin` | app.js:460-465 | the `index % groupCount` push loop over pre-allocated buckets computes `Deal` |
| `Documents.FindEntry` | app.js:415-423 | `find(item => item.id === id)`: the first entry with the id, or none iff no entry has it |
| `Documents.ClassStudents` | app.js:616-625 | the students of the first classroom with the id, or the empty list when no classroom has it |
| `Documents.DecodeAll` | app.js:1451-1463 | `every`-style decoding succeeds iff every element decodes, and then it yields each element's value in order |
| `Documents.Merge` | app.js:53-62 | the `{...defaultData(), ...parsed}` spread: every one of the eight keys present with a value of its type overrides the base value, and every key absent from the object keeps the base value |
| `Documents.LoadData` | app.js:53-62 | missing storage, a non-object and an empty object all load as the defaults; a stored object loads as its fields merged over the defaults, so each present well-typed key overrides its default and each missing key keeps it |
| `Documents.WithDurationDefault` | app.js:1607-1609 | `timerSoundDurationSec \|\| 2`: a zero duration becomes 2, a non-zero one is kept, and nothing else changes |
| `Documents.StartupDocument` | app.js:1607-1609 | the loaded document, with an empty sound replaced by `"beep_long"` and a zero duration by 2; every other field is as loaded |
| `Documents.ImportData` | app.js:1465-1481 | a parsed file is accepted iff it passes the structural validator, and the accepted document is the file's object merged over the defaults |
| `Documents.DecodeEncodeAll` | app.js:64-66 | an array encoded element by element decodes back, given an element round trip |
| `Documents.DecodeEncodeStrings` | app.js:64-66 | a list of names round-trips through its JSON array |
| `Documents.DecodeEncodeEntry` | app.js:64-66 | a classroom or roulette set round-trips through its JSON object |
| `Documents.DecodeEncodeFields` | app.js:64-66 | the classroom, group and roulette-set arrays round-trip |
| `Documents.MergeEncode` | app.js:53-66 | merging a saved document over any base gives back that document |
| `Documents.LoadSaved` | app.js:53-66 | `loadData` after `saveData` gives back the saved document |
| `Documents.MergeExport` | app.js:1435-1439 | the export payload's extra `exportedAt` key does not disturb the merge |
| `Documents.ValidImportDecodes` | app.js:1451-1463 | the validator holds iff the value is an object whose `classrooms` decodes as a list of classrooms with string id, string name and string students |
| `Documents.EncodedIsValidImport` | app.js:1435-1463 | every saved document and every export passes the validator |
| `Documents.ImportExport` | app.js:1435-1481 | importing an exported document gives back exactly that document |
| `Documents.ImportTakesClassrooms` | app.js:1465-1481 | an accepted import takes its classrooms from the file |
| `Store.RemoveById` | app.js:425-434 | `filter(item.id !== id)`: each entry keeps its count except those with the id, which vanish |
| `Store.RemoveByIdAppend` | app.js:425-434 | the filter distributes over concatenation, so the kept entries stay in their order |
| `Store.UpdateFirst` | app.js:383-413 | editing replaces the first entry with the id and keeps every other entry and every id |
| `Store.ClearIfDeleted` | app.js:425-434 | the remembered id becomes `""` when it is the deleted one, and is kept otherwise |
| `Store.RemoveKeepsUniqueIds` | app.js:425-434 | deleting keeps ids unique |
| `Store.AppendFreshKeepsUniqueIds` | app.js:383-413 | appending an entry with a fresh id keeps ids unique |
| `Store.RemoveKeepsOthers` | app.js:425-434 | deleting one id leaves every other id resolvable |
| `Store.DeleteKeepsResolved` | app.js:425-434 | after a delete the remembered id is empty or still names an entry |
| `Store.DocumentStore.constructor` | app.js:1607-1609 | the store starts from the startup document over the stored copy, with nothing being edited |
| `Store.DocumentStore.Save` | app.js:64-66 | the stored copy is the encoded document, and loading it gives the document back |
| `Store.DocumentStore.SaveClassroom` | app.js:383-413 | the save succeeds exactly when the trimmed name is non-blank and the student list is non-empty; a refusal changes nothing; a success updates the edited classroom in place, or appends a new one; then the document is saved and editing ends; unique ids are kept |
| `Store.DocumentStore.SaveRouletteSet` | app.js:299-327 | as for classrooms: the save succeeds exactly when the name is non-blank and there are at least two options |
| `Store.DocumentStore.StartEditClassroom` | app.js:415-423 | editing starts only for an id that exists; nothing else changes |
| `Store.DocumentStore.StartEditRouletteSet` | app.js:329-339 | editing starts only for an id that exists; nothing else changes |
| `Store.DocumentStore.CancelEdit` | app.js:376-381 | the classroom form leaves editing mode and nothing else changes |
| `Store.DocumentStore.CancelRouletteEdit` | app.js:289-297 | the roulette-set form leaves editing mode and nothing else changes |
| `Store.DocumentStore.DeleteClassroom` | app.js:425-434 | unconfirmed: no change; confirmed: no classroom keeps the id, a dangling `lastClassId` is cleared, the document is saved, and unique ids and a resolving `lastClassId` are preserved |
| `Store.DocumentStore.DeleteRouletteSet` | app.js:341-350 | the same for roulette sets and `lastRouletteSetId` |
| `Store.DocumentStore.SelectClassroom` | app.js:436-441 | only `lastClassId` changes, and the document is saved |
| `Store.DocumentStore.SelectRouletteSet` | app.js:352-364 | only `lastRouletteSetId` changes, and the document is saved |
| `Store.DocumentStore.GenerateGroups` | app.js:595-607 | fewer than two students fail with no change; otherwise the groups are the `Partition` of the parsed students (a balanced permutation of them, by `PartitionBalanced`), the size (an empty field counts as 2) is remembered, and nothing is saved yet |
| `Store.DocumentStore.CommitGroups` | app.js:608-613 | after the animation the groups are stored and saved |
| `Store.DocumentStore.Import` | app.js:1465-1502 | succeeds iff the file is valid; an invalid file changes nothing; a valid one is saved as imported and then gets the sound-duration fallback |
| `Store.DocumentStore.Reset` | app.js:1504-1530 | once confirmed, storage is cleared, the defaults are in force and classroom editing ends |
| `Store.DocumentStore.SetTimerSound` | app.js:1678-1684 | only the sound changes, and it is saved |
| `Store.DocumentStore.AdjustSoundDuration` | app.js:1685-1700 | the duration moves by the step, clamped to 1–15 seconds, and is saved |
| `Candidates.PickerList` | app.js:616-625 | the picker's list counts every source name as the source does, except that excluded names are gone |
| `Candidates.TurnCandidates` | app.js:797-812 | the turn list is the same filtered list, and the key is never empty |
| `Candidates.TurnKeyIgnoresExclusions` | app.js:797-812 | the key does not depend on the exclusions or the classrooms |
| `Candidates.ManualAndClassKeysDiffer` | app.js:797-812 | a manual key never equals a class key |
| `Candidates.ClassKeyInjective` | app.js:797-812 | two class keys are equal iff the class ids are |
| `Candidates.ManualKeyInjective` | app.js:797-812 | for names without `\|`, two manual keys are equal iff the parsed lists are |
| `Candidates.ManualKeyCollision` | app.js:797-812 | one name containing `\|` and two separate names give the same key, although the lists differ |
| `Turns.TurnSession.constructor` | app.js:16-52 | the session starts empty with no key |
| `Turns.TurnSession.Reset` | app.js:863-869 | the pool becomes the shuffle of the list, nothing has been called, and the key is stored |
| `Turns.TurnSession.Next` | app.js:881-898 | an empty list changes nothing; a missing or changed key reshuffles first; the head of the pool is then called, or completion is reported when there is none; a called name is never blank and always from the list; called plus waiting stays the list up to blanks |
| `Turns.TurnSession.Advance` | app.js:886-897 | the same step for given candidates |
| `Turns.TurnSession.Draw` | app.js:890-897 | `shift` then `push`: a non-blank head moves to the called names; an empty pool or a blank head reports completion |
| `Turns.TurnSession.Start` | app.js:871-879 | an empty list changes nothing; otherwise a fresh shuffle whose first name is called at once |
| `Turns.TurnSession.ResetTurns` | app.js:900-907 | an empty list is refused; otherwise a fresh shuffle with nothing called |
| `Turns.TurnSession.ToggleExcluded` | app.js:830-836 | the name moves in or out of the exclusions; the session stays as it is |
| `Turns.TurnSession.ClearExcluded` | app.js:1671-1676 | the exclusions are emptied; the session stays as it is |
| `Turns.CallFirst` | app.js:890-897 | calling the head keeps called plus waiting equal to the list up to blanks |
| `Turns.DropBlank` | app.js:890-894 | a blank head leaves the pool, which is possible only when the list had a blank |
| `Turns.CompletedCallsEveryone` | app.js:881-898 | once the pool is empty, and the list has no blanks, the called names are a permutation of the list |
| `Turns.ExclusionsKeepSession` | app.js:881-898 | after the exclusions change, the next call does not reshuffle |
| `Picker.PickEach` | app.js:663-667 | the `list[floor(random * n)]` loop yields one name per draw, each the list's name at that draw's index |
| `Picker.PermutationMembers` | app.js:661-662 | every element of a permutation of the list is a member of the list |
| `Picker.RevealSequence` | app.js:655-674 | the sequence has `max(n, 20)` names: a shuffle, and so a permutation, when `n >= 20`, otherwise the drawn picks; every element is from the list, and the winner is the last one |
| `Picker.NamePicker.Pick` | app.js:909-917 | no winner iff the filtered list is empty; otherwise the winner is from the source list and never excluded |
| `Picker.NamePicker.ToggleExcluded` | app.js:641-650 | the name moves in or out of the picker's exclusions |
| `Picker.NamePicker.ClearExcluded` | app.js:1664-1669 | the picker's exclusions are emptied |
| `Timer.TotalSeconds` | app.js:926-927 | `max(0, ceil(ms / 1000))`: zero for no time left, otherwise the least whole number of seconds covering `ms` |
| `Timer.DigitChar` | app.js:926-931 | a digit's character has that digit's value |
| `Timer.Digits` | app.js:926-931 | `toString()` of a natural number is a non-empty string of digits with no leading zero |
| `Timer.DigitsRoundTrip` | app.js:926-931 | the decimal string reads back as the number |
| `Timer.PadStart2` | app.js:926-931 | `padStart(2, "0")` puts zeros before the string up to length 2 and keeps the string at the end |
| `Timer.PadKeepsValue` | app.js:926-931 | padding does not change the value read back |
| `Timer.FormatTime` | app.js:926-931 | the clock is at least five characters long: digits, a colon third from the end, then two digits |
| `Timer.FormatTimeFields` | app.js:926-931 | the digits before the colon show the whole minutes `t / 60`, and the two after it the seconds `t % 60`, always below 60 |
| `Timer.ClockRoundTrip` | app.js:926-931 | `MM:SS` of digit strings reads back as `MM * 60 + SS` |
| `Timer.FormatTimeRoundTrip` | app.js:926-931 | the rendered clock reads back as the remaining whole seconds |
| `Timer.StepSize` | app.js:1153-1160 | a step is 60 seconds above one minute and 5 at or below |
| `Timer.LongStepSize` | app.js:1162-1169 | a long step is 300 seconds above one minute and 5 at or below |
| `Timer.CountdownTimer.constructor` | app.js:16-52 | ten minutes, full, stopped |
| `Timer.CountdownTimer.Stop` | app.js:962-969 | the timer stops and forgets its end time; the times are kept |
| `Timer.CountdownTimer.Start` | app.js:1103-1110 | no effect while running; otherwise a spent timer is refilled, then it runs with `endAt = now + remainingMs` |
| `Timer.CountdownTimer.Tick` | app.js:1111-1121 | the remaining time becomes `max(0, endAt - now)`, and the timer stops exactly when it reaches 0 |
| `Timer.CountdownTimer.Pause` | app.js:1124-1128 | stops the timer and keeps the remaining time |
| `Timer.CountdownTimer.Reset` | app.js:1130-1134 | stops the timer and refills it to the full duration |
| `Timer.CountdownTimer.SetSeconds` | app.js:1145-1151 | the seconds are clamped to `[10, 3600]`, and the duration and the remaining time both become that many milliseconds |
| `Timer.CountdownTimer.SetDuration` | app.js:1136-1143 | the minutes are clamped to `[1, 60]`, and the duration and the remaining time are set from them |
| `Timer.CountdownTimer.ApplyPreset` | app.js:1751-1757 | a preset (an empty one counts as 10 minutes) sets the duration and leaves the timer stopped and full |
| `Timer.CountdownTimer.AdjustStep` | app.js:1153-1160 | no effect while running; otherwise the seconds move by the short step in the direction of `delta` and are clamped |
| `Timer.CountdownTimer.AdjustStepLong` | app.js:1162-1169 | no effect while running; otherwise the seconds move by the long step in the direction of `delta` and are clamped |
| `Timer.StepAroundOneMinute` | app.js:1153-1160 | around one minute the steps are not symmetric: 60 goes to 65, and 65 goes back to 10 |
| `Roulette.RandomIndex` | app.js:1237-1245 | 0 when `max <= 1`, otherwise an index below `max` |
| `Roulette.RandomIndexCovers` | app.js:1237-1245 | every index below `max` is produced by some 32-bit draw |
| `Roulette.TargetIndex` | app.js:1335-1339 | the winner is a valid segment and never the previous winner |
| `Roulette.TargetIndexCovers` | app.js:1335-1339 | every segment other than the previous winner can win |
| `Roulette.Wheel.Spin` | app.js:1327-1350 | ignored while spinning; fewer than two options are refused with no change; it spins exactly when idle with at least two options, and then the winner is a valid option, differs from the previous winner, is remembered, and the wheel spins |
| `Roulette.Wheel.Settle` | app.js:1346-1349 | the spin's timeout shows the pending option and stops the wheel |
| `Controller.OnPickerClassChange` | app.js:1664-1669 | the class is remembered and saved, and the picker's exclusions are cleared |
| `Controller.OnTurnClassChange` | app.js:1671-1676 | the class is remembered and saved, and the turn exclusions are cleared, leaving the session itself alone |
| `Controller.SwitchTab` | app.js:1705-1732 | both exclusion sets are cleared; the turn session stays |

## Left out

- Rendering, event wiring, modals and alerts are not modelled; the outcome datatypes stand for the alerts.
- The group shuffle cards, the picker's flip interval, the confetti and the dice are not modelled. They are animations driven by timers and floating-point geometry.
- The roulette's rotation angle and its random number of spins are floating-point and affect only the drawing.
- Web Audio playback is not modelled: it is foreign code.
- `exportToPDF` and the Blob download in `exportData` are browser I/O. Only the export payload is modelled, as `Documents.Export`.
- `localStorage`, `FileReader`, `JSON.parse` and `JSON.stringify` are foreign calls. The stored text is the `Json` value it parses to, and a parse failure is `None` or an invalid value.
- `crypto.randomUUID` becomes the `newId` parameter.
- `crypto.getRandomValues` becomes the `draw` parameter, and `Math.random` becomes the `draws` and `picks` parameters.
- The `Math.random` fallback of `getRandomIndex` is not modelled: a caller-chosen draw covers it.
- `confirm` becomes the `confirmed` parameter.
- Numbers are integers: JSON numbers, the group-size field, the preset minutes and the timer's milliseconds. A field that is empty or does not parse as a number is `0`, which is what `|| 2` and `|| 10` replace.
- Documents.Merge: a known key with a value of the wrong type is treated as absent, whereas JavaScript keeps the ill-typed value.
- Documents.Merge: unknown keys, including `exportedAt`, are dropped, whereas JavaScript keeps them in `state.data` and in the saved copy.
- Documents.AsEntry: extra keys on a stored or imported classroom or roulette set are dropped, because an entry is rebuilt from its id, name and items; JavaScript keeps them and saves them again.
- Documents.ImportData: the validator's checks on `classrooms` are modelled. The other keys are decoded by type, so an ill-typed one falls back to the default as above.
- `loadClassroomStudents` and `loadRouletteSetOptions` only fill text areas, so they are not modelled. The group panel's class selector is modelled only through `SelectClassroom`.
- The timer's press-and-hold repeat (`startTimerHold`/`stopTimerHold`) is scheduling. Each repeat is one `AdjustStepLong` call.
- The tick's sound and modal at zero are left out; `Tick` reports `finished` instead.
- `stopShuffleAnimation` and the 6500 ms delay are scheduling. The delayed write of the groups is the separate `CommitGroups` step.
- The random-letter and dice tools (`randomLetter`, `rollDice`) are outside the modelled core: the letter drawn, the dice faces and the displayed sum are not modelled.
- Turns.TurnSession.Next: the session invariant relates the called and waiting names to the list up to blank names, because the code treats a blank pooled name as the end of the turns.
- Turns.CompletedCallsEveryone: this holds only for lists without blank names, for the same reason. Names that come from `parseList` are never blank, but imported classrooms may hold blank names.
