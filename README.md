# Typing engine of the lyric typing trainer

The trainer shows song lyrics line by line while a video (or a practice
clock) plays. The player types each line's romaji. Every key is judged
against the expected character, and the session keeps these counters:

- correct and wrong keys;
- the running combo and the longest combo.

When the song is over, a one-shot summary shows the score.

This project models the engine of `js/app.js`:

- **`Romaji`** (`romaji.dfy`): `kanaToRomaji`, the table-driven kana to
  romaji transliterator.
  - Katakana is shifted onto hiragana by the code-point offset 0x60.
  - The text is then scanned left to right:
    - the small tsu doubles the next consonant;
    - two-kana digraphs are looked up before single kana;
    - anything in neither table is copied unchanged.
  - The loop of `kanaToRomaji` is the method `KanaToRomaji`. It is proved equal to
    the recursive function `Transliterate`, and the table and scan
    properties are lemmas about that function.
- **`Scoring`** (`scoring.dfy`): the accuracy reported by `getStats` and
  the final score formula of `updateFromPlayer`.
- **`Engine`** (`engine.dfy`): the `typingState` closure as values.
  - A `Session` record holds the closure's variables plus the module-level
    `songFinished` flag.
  - There is one function per transition: `LineReset`, `TimeoutMiss`,
    `AliasStep`/`FirstAlias`, `Keystroke`/`Judge`, `KeyEvent`,
    `TimeUpdate`, `Begin`, `StatsOf` and `Poll`.
  - Every transition keeps the invariant `Inv`:
    - one verdict per romaji character of the active line;
    - the cursor rests on a typable character or at the end of the line;
    - a verdict is Pending exactly at the non-typable characters and at
      or after the cursor;
    - `combo <= maxCombo`.
  - Lemmas state each transition's effect, including runs of events and
    typing a whole line.
- **`Typing`** (`typing_state.dfy`): the class `TypingState`.
  - Its fields are the closure's variables. Its methods update them in
    place with the JavaScript's loops (`skipNonTypable`'s `while`, the `for`
    loops of `markTimeoutMisses` and `updateByTime`).
  - Each method is proved to leave the fields equal to the corresponding
    `Engine` function applied to the old fields.
  - The methods that the rest of the app calls keep `Valid()`, which is
    `Inv` on the fields.

Inputs from outside the engine are parameters: the playback time, the key
string with its composition flag, and the lyric list.

Two behaviours of the code are easy to misstate, and the model follows the
code on both:

- Against the expected `"shi"`, the keys `s`, `i` are not a mismatch. With
  `s` correct, the `i` at index 1 meets alias rule 1 (`"h"`,`"i"` after a
  correct character), so both `h` and `i` become Correct
  (`ExampleShiAsSi`).
- A one-key song typed without a miss scores 12, not 10: the formula adds
  two points per unit of `maxCombo` (`ExampleOneKeySong`).

## Model

| member | source | states |
|---|---|---|
| Romaji.KanaToRomaji | js/app.js:196-274 | the loop returns exactly `Transliterate(jpText)`; the empty text gives `""` |
| Romaji.Hiraganize | js/app.js:199-202 | length is kept; each character in U+30A1..U+30F6 is moved down by 0x60, every other character is unchanged |
| Romaji.KanaRomaji | js/app.js:218-237 | definition of the single-kana table `map`, with `""` for a character outside it; its properties are in `KanaLowercase`, `TablesStartWithLetter` and `DigraphHeadIsKana` |
| Romaji.DigraphRomaji | js/app.js:203-216 | definition of the digraph table `comboMap`, with `""` for a pair outside it; its properties are in `DigraphLowercase`, `DigraphHeadIsKana` and `DigraphConsumesTwo` |
| Romaji.MoraRomaji | js/app.js:245-248 | definition of the romaji of the mora after a small tsu, digraph first; its properties are in `SokuonDoublesNextConsonant` |
| Romaji.Geminate | js/app.js:244-252 | definition of what a small tsu emits; its properties are in `SokuonDoublesNextConsonant` and `StepLowercase` |
| Romaji.ScanAt | js/app.js:241-271 | every scan step consumes one or two characters and stays inside the text, so the scan terminates |
| Romaji.RomanizeFrom | js/app.js:240-273 | definition of the left-to-right scan from an index; its properties are in `Advance`, `UnmappedStep`, `DigraphConsumesTwo` and `SokuonDoublesNextConsonant` |
| Romaji.Transliterate | js/app.js:196-274 | definition of `kanaToRomaji` as a function; `KanaToRomaji` is proved equal to it, and `AsciiUnchanged`, `ScriptInsensitive` and `MappedGivesLowercase` are about it |
| Romaji.KanaLowercase | js/app.js:219-238 | every entry of the single-kana table is lower-case ASCII |
| Romaji.DigraphLowercase | js/app.js:204-216 | every entry of the digraph table is lower-case ASCII |
| Romaji.TablesStartWithLetter | js/app.js:204-238 | every non-empty table entry starts with a lower-case letter, so the letter test on a found mora never rejects it |
| Romaji.DigraphHeadIsKana | js/app.js:204-238 | the first kana of every digraph is in the single table and is not the small tsu |
| Romaji.DigraphConsumesTwo | js/app.js:256-262 | a digraph pair emits its table value and the scan resumes two characters later |
| Romaji.SokuonDoublesNextConsonant | js/app.js:244-254 | the small tsu emits the first letter of the next mora, with the digraph looked up first; it emits nothing at the end or before an unmapped character; the scan resumes one character later |
| Romaji.UnmappedStep | js/app.js:264-270 | a character in neither table, at any position, is emitted as itself and the scan resumes at the next character |
| Romaji.UnmappedCopied | js/app.js:264-270 | by `UnmappedStep` at every position: text made only of characters in neither table is copied unchanged |
| Romaji.AsciiUnchanged | js/app.js:196-274 | pure ASCII input is returned as is |
| Romaji.ScriptInsensitive | js/app.js:199-202 | texts that agree up to katakana versus hiragana give the same romaji |
| Romaji.KatakanaCounterpart | js/app.js:199-202 | a katakana character and its hiragana counterpart map to the same hiragana, which is no longer katakana |
| Romaji.StepLowercase | js/app.js:241-271 | a scan step at a mapped kana emits only lower-case letters |
| Romaji.MappedGivesLowercase | js/app.js:241-271 | a text made only of mapped kana romanizes to lower-case ASCII letters, all of them typable |
| Romaji.ExampleDigraph | js/app.js:204-216 | きゃ and キャ both give "kya" |
| Romaji.ExampleSokuon | js/app.js:244-254 | った gives "tta"; a lone っ gives "" |
| Romaji.ExamplePassThrough | js/app.js:196-274 | "" gives ""; a kanji is copied, alone and after a kana ("か漢" gives "ka漢") |
| Scoring.Score | js/app.js:845-850 | the score is at least the raw formula 10·correct − 5·wrong + 2·maxCombo; it is that value when that value is non-negative, and 0 otherwise |
| Scoring.ScoreMonotone | js/app.js:845-850 | more correct keys or a longer combo never lower the score; more wrong keys never raise it |
| Scoring.Accuracy | js/app.js:792-797 | the accuracy lies in [0, 100]; it is 0 with no scored key or no correct key, and 100 with correct keys only |
| Scoring.AccuracyFull | js/app.js:792-797 | once a key is scored, the accuracy is 100 exactly when no key was wrong |
| Scoring.ScoreExamples | js/app.js:845-850 | concrete scores: (1,0,1) gives 12, (0,3,0) gives 0, (10,2,4) gives 98 |
| Engine.IsTypable | js/app.js:453-455 | definition of `isTypableChar`: an ASCII letter or digit in either case; its properties are in `Lower`, `SkipFrom` and `MappedGivesLowercase` |
| Engine.Lower | js/app.js:622-625 | ASCII lower-casing keeps typability and leaves no upper-case letter |
| Engine.LowerAll | js/app.js:625 | the lower-cased line has the same length and is lower-cased position by position |
| Engine.SkipSameTypability | js/app.js:457-465 | any string that agrees position by position with the line lower-cased is skipped to the same index |
| Engine.SkipLower | js/app.js:457-465 | skipping over the lower-cased line stops where skipping over the line itself stops |
| Engine.SkipFrom | js/app.js:457-465 | the skip stops at the first typable index at or after the start, or at the length, and passes only non-typable characters |
| Engine.InitialInv | js/app.js:439-451 | the initial state satisfies the invariant |
| Engine.LineReset | js/app.js:467-483 | definition of `resetLine`; its properties are in `LineResetShape` |
| Engine.LineResetShape | js/app.js:467-483 | for a valid index: one Pending verdict per romaji character and the cursor on the first typable index (or at the length); otherwise no verdicts and cursor 0; in both cases the line index is set, the counters are unchanged and the invariant holds |
| Engine.TimeoutMiss | js/app.js:485-503 | definition of `markTimeoutMisses`; its properties are in `TimeoutMissEffect` and `TimeoutMissInv` |
| Engine.Misses | js/app.js:494-500 | exactly the Pending typable positions of the range become Wrong; the rest is unchanged |
| Engine.MissesUpToStep | js/app.js:494-500 | one loop iteration turns a Pending typable position into Wrong, adds one wrong key and breaks the combo, and otherwise leaves the state as it was |
| Engine.MissCountIsTypableCount | js/app.js:494-500 | when everything from the cursor on is Pending, the number of misses is the number of typable characters left |
| Engine.TimeoutMissEffect | js/app.js:485-503 | on an active line, exactly the typable characters from the cursor on become Wrong, their number is added to the wrong keys, the combo is zeroed if there was any, the cursor goes to the length, and the invariant holds |
| Engine.TimeoutMissInv | js/app.js:485-503 | the timeout keeps the invariant |
| Engine.Applies | js/app.js:510-592 | definition of the five alias conditions; `FirstAlias`, `FirstAliasIsFirst` and `AliasWidthFits` are about them |
| Engine.Credit | js/app.js:519-524 | definition of an alias's credit block; its properties are in `MarkCorrect` and `AliasStepEffect` |
| Engine.AliasStep | js/app.js:506-604 | definition of `tryAlias` on a session; its properties are in `AliasStepEffect` |
| Engine.FirstAlias | js/app.js:506-604 | a rule that is chosen applies to the key at the index |
| Engine.FirstAliasIsFirst | js/app.js:506-604 | no rule tried earlier than the chosen one applies, and no rule is chosen exactly when none applies |
| Engine.AliasWidthFits | js/app.js:506-604 | a rule that applies resolves one or two positions, all inside the line and all typable |
| Engine.AliasStepEffect | js/app.js:506-604 | a hit happens exactly when a rule applies; a hit only sets the rule's one or two positions Correct, adds that number to the correct count and the combo, lets maxCombo follow the combo and moves the cursor by that number; a miss changes nothing |
| Engine.MarkCorrect | js/app.js:519-520 | exactly positions [i, i+n) become Correct |
| Engine.Keystroke | js/app.js:613-632 | definition of the guards of `handleKeydown`; its properties are in `KeystrokeIgnored`, `KeystrokeJudges` and `KeystrokeProgress` |
| Engine.Judge | js/app.js:634-661 | definition of how `handleKeydown` judges a key at the cursor; its properties are in `JudgeCases`, `JudgeMatch`, `JudgeAlias` and `JudgeMismatch` |
| Engine.JudgeCases | js/app.js:634-661 | the verdict has three outcomes: an exact match, the first alias, or a miss, in that order |
| Engine.SkipAtRest | js/app.js:628 | under the invariant the skip before judging does not move the cursor |
| Engine.CodeUnits | js/app.js:619-620 | a string's JavaScript length is at least its number of characters, and zero only for the empty string |
| Engine.OneCodeUnitIff | js/app.js:619-620 | the one-character guard of `Keystroke` holds exactly when the key's UTF-16 length is one |
| Engine.KeystrokeIgnored | js/app.js:613-632 | a key changes nothing when the session has not started, no line is active, the key is not one UTF-16 code unit long, or the line is done |
| Engine.KeystrokeJudges | js/app.js:613-634 | otherwise the key is judged at the cursor |
| Engine.JudgeMatch | js/app.js:636-646 | an exact match sets the position Correct, adds one to the correct count and the combo, sets maxCombo to the larger of maxCombo and combo+1, moves the cursor past the following separators, and keeps the invariant |
| Engine.JudgeAlias | js/app.js:648-651 | an alias hit credits the rule's positions, moves the cursor past them and the following separators, and keeps the invariant |
| Engine.JudgeMismatch | js/app.js:653-661 | a true mismatch at a typable position sets it Wrong, adds one wrong key, zeroes the combo, leaves correct and maxCombo, moves the cursor on, and keeps the invariant |
| Engine.KeystrokeProgress | js/app.js:606-662 | every key keeps the invariant, never lowers the correct count, the wrong count or maxCombo, never moves the cursor back, and moves it forward and counts one more judged key whenever the key is scored |
| Engine.TypeKeys | js/app.js:606-662 | any sequence of keys keeps the invariant |
| Engine.TypeFirstKey | js/app.js:636-646 | pressing the character at the cursor credits it and leaves the rest of the line to type |
| Engine.TypingTheRestOfTheLine | js/app.js:606-662 | typing exactly the typable characters left credits every one of them as Correct: the correct count and the combo grow by their number, no key is wrong, and the cursor reaches the end |
| Engine.FindLineFrom | js/app.js:687-694 | the result is the first index from k on whose half-open window contains t, or -1 when there is none |
| Engine.TargetLine | js/app.js:687-694 | the target is the first line in list order whose [start, end) contains t, or -1 |
| Engine.TimeUpdate | js/app.js:675-704 | definition of `updateByTime`; its properties are in `TimeUpdateInv`, `TimeUpdateSameLine`, `TimeUpdateNoPenalty` and `TimeUpdateSwitch` |
| Engine.TimeUpdateInv | js/app.js:676-704 | a time update keeps the invariant, lands on the target line, never changes the correct count, maxCombo or the flags, and never lowers the wrong count |
| Engine.TimeUpdateSameLine | js/app.js:696 | when the target is the current line nothing changes |
| Engine.TimeUpdateNoPenalty | js/app.js:696-701 | moving into or out of "no line" leaves the counters and the combo unchanged |
| Engine.TimeUpdateSwitch | js/app.js:696-701 | a direct line-to-line switch adds the typable characters left on the old line to the wrong keys, zeroes the combo if there were any, and installs the new line fresh |
| Engine.Begin | js/app.js:664-669 | definition of `start`: only the started flag becomes true; its properties are in `Step` and `ExampleOneKeySong` |
| Engine.StatsOf | js/app.js:792-805 | the reported counters are the session's, and the accuracy lies in [0, 100] and is 0 with no scored key |
| Engine.Poll | js/app.js:837-861 | definition of the time update and finish check of `updateFromPlayer`; its properties are in `PollFinish` and `FinishAtMostOnce` |
| Engine.PollFinish | js/app.js:837-861 | a poll keeps the invariant; the summary appears exactly when the song was not finished, there are lyrics, and t is past the last line's end plus 0.5; the summary carries the clamped score, the correct and wrong counts, the longest combo and the accuracy of those counts; a finished song stays finished |
| Engine.KeyEvent | js/app.js:606-611 | definition of the composition filter of `handleKeydown`; its properties are in `KeyEventFilter` |
| Engine.KeyEventFilter | js/app.js:606-611 | "Process" changes nothing; during composition only a single ASCII letter or digit gets through; otherwise the key is handled as usual |
| Engine.Step | js/app.js:439-861 | every event (key, poll, start, reset) keeps the invariant |
| Engine.FinishAtMostOnce | js/app.js:840-851 | between resets the summary is shown at most once, and never after the song has finished |
| Engine.ExampleShiAsSi | js/app.js:510-528 | the keys s, i against "shi" credit all three characters |
| Engine.ExampleChiAsTi | js/app.js:530-545 | the keys t, h, i against a line starting with "chi" credit all three characters |
| Engine.ExampleTiOnlyAtLineStart | js/app.js:530-545 | later in a line, "t" for the "c" of "chi" is a miss |
| Engine.ExampleTsuAsTu | js/app.js:547-566 | the keys t, u against "tsu" credit all three characters |
| Engine.ExampleHuAndZi | js/app.js:568-601 | the keys h, u against "fu" and z, i against "ji" credit both characters |
| Engine.ExampleMissAndSeparator | js/app.js:653-661 | a miss consumes its position, and the space in "ka na" is skipped |
| Engine.ExampleWideKeyIgnored | js/app.js:619-620 | a key outside the Basic Multilingual Plane is two code units long and changes nothing |
| Engine.ExampleOneKeySong | js/app.js:840-851 | a one-key song typed without a miss ends with the summary score 12, one correct key and accuracy 100 |
| Typing.TypingState.constructor | js/app.js:439-451 | a new object is in the initial state and valid |
| Typing.TypingState.SkipNonTypable | js/app.js:457-465 | the loop leaves the cursor where `SkipFrom` says, and changes nothing else |
| Typing.TypingState.ResetLine | js/app.js:467-483 | the new fields are `LineReset` of the old ones |
| Typing.TypingState.MarkTimeoutMisses | js/app.js:485-503 | the loop leaves the fields equal to `TimeoutMiss` of the old ones |
| Typing.TypingState.CreditKeys | js/app.js:519-524 | the credit step repeated in every branch: the new fields are `Credit` of the old ones, with the cursor n further |
| Typing.TypingState.TryAlias | js/app.js:506-604 | the hit flag and the new fields are `AliasStep` of the old ones |
| Typing.TypingState.HandleKeydown | js/app.js:606-662 | keeps `Valid()`; the new fields are `KeyEvent` of the old ones |
| Typing.TypingState.ScoreKey | js/app.js:613-662 | once the guards pass, the new fields are `Keystroke` of the old ones |
| Typing.TypingState.JudgeKey | js/app.js:634-661 | the new fields are `Judge` of the old ones at the cursor |
| Typing.TypingState.JudgeOther | js/app.js:648-661 | for a key other than the expected one, the new fields are `Judge` of the old ones |
| Typing.TypingState.JudgeExact | js/app.js:636-646 | an exact match credits the cursor position and skips the separators after it |
| Typing.TypingState.JudgeMiss | js/app.js:653-661 | a miss marks a typable position Wrong, adds a wrong key and zeroes the combo; the cursor moves on past the separators |
| Typing.TypingState.Start | js/app.js:664-669 | only the started flag becomes true; validity is kept |
| Typing.TypingState.UpdateByTime | js/app.js:676-704 | keeps `Valid()`; the new fields are `TimeUpdate` of the old ones |
| Typing.TypingState.ResetAll | js/app.js:775-790 | every counter is zero, not started, no line, no verdicts, not finished |
| Typing.TypingState.GetStats | js/app.js:792-805 | returns `StatsOf` of the fields |
| Typing.TypingState.UpdateFromPlayer | js/app.js:837-861 | keeps `Valid()`; the new fields and the summary are `Poll` of the old fields at t |

## Left out

- Rendering (`renderLyric`, `renderTime`, the text output of
  `updateStats`, the result panel): UI output only, with no effect on the
  state.
- Storage, song selection, the lyric editor (`parseLyricsText`,
  `formatLyricsText`, `extractVideoId`), and JSON export and import: I/O
  and editor glue. An object's lyric list is fixed when the object is
  created.
- The video player, the countdown timer and the 50 ms polling timer: a
  foreign library and timer plumbing. The playback time is the parameter
  of `UpdateByTime` and `UpdateFromPlayer`, and the end of the countdown
  is a call to `Start`.
- `getElapsedSeconds`, the start time and the typing speed (cpm): they
  read a wall clock.
- Times and the accuracy are exact `real`s: JavaScript's floating-point
  rounding is not modelled.
- Strings are sequences of Unicode scalar values, with one index per
  character.
  - `handleKeydown` indexes the romaji by UTF-16 code unit.
  - `resetLine` sizes `charStates` by code point (`Array.from`).
  - These differ only for characters outside the Basic Multilingual
    Plane.
  - The key's length test is modelled in code units (`CodeUnits`), so a
    key outside that plane is ignored as in `handleKeydown`.
- Lower-casing is ASCII only.
  - JavaScript's `toLowerCase` also maps non-ASCII letters; a few of them
    map to ASCII (the Kelvin sign to `k`) or change length.
  - Such keys and romaji are outside the model.
- HandleKeydown: the key is a string, and the judged character is its
  first (only) character lower-cased ASCII-wise.
- MarkTimeoutMisses: requires one verdict per romaji character of the
  active line and the cursor within it. `Valid()` guarantees both at
  every call. `markTimeoutMisses` would also run with a cursor past the end:
  its loop does nothing, and it moves the cursor back to the length.
- TryAlias: requires the index it is called with to be the cursor,
  inside the line, with one verdict per character, as at its only call
  site. `tryAlias` has the same precondition implicitly.
- ScoreKey, JudgeKey, JudgeOther, JudgeExact, JudgeMiss and CreditKeys:
  `handleKeydown` and `tryAlias` are split into these parts, so each part
  can be proved separately. Their requires restate what `handleKeydown`'s
  guards have already established at that point.
