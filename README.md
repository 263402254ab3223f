# Fuzzy text matching, modelled in Dafny

This project models the fuzzy text matcher of the repository. The matcher
ships in three language versions:

- **C++** (`code/fts_fuzzy_match.h`, module `FuzzyMatchCpp`). There are two
  overloads of `fts::fuzzy_match`:
  - the simple pointer walk, which answers whether the pattern occurs in the
    string;
  - the single-pass "best letter" scorer.

  Both walk NUL-terminated strings. A pointer is its offset into its string,
  and reading through it yields a character of the string or the terminator.
  The pointer comparison `patternIter != '\0'` on line 65 is kept as written:
  it is always true. `PointerGuardIsHarmless` proves that this changes
  nothing. `<ctype.h>` in the "C" locale is module `CType`.
- **C#** (`code/fts_fuzzy_match.cs`, module `FuzzyMatchCs`). There are two
  overloads of `FuzzyMatcher.FuzzyMatch`:
  - the index walk;
  - the same single-pass scorer, which also builds the `matchedIndices` list.

  `char.ToLower` and `char.ToUpper` depend on the current culture. They are
  therefore parameters, and every result holds for any pair of case maps.
- **JavaScript** (`code/fts_fuzzy_match.js`, module `FuzzyMatchJs`). It has:
  - `fuzzyMatchSimple`;
  - `fuzzyMatch`;
  - the recursive scorer `fuzzyMatchRecursive`. It tries every other placement
    of each matched letter by recursion, limited to depth 10 and 256 matches,
    scores each complete placement and keeps the best.

  `toLowerCase` and `toUpperCase` on one character are parameters too.

Every loop in the source is a loop in the model. Each loop is proved against
a specification function, as follows:

- **Greedy two-index walk.** The walk all three versions share is
  `Subsequence.Greedy`, the positions consumed after the first `k`
  characters. It is proved to decide `IsSubseqCI`, the case-insensitive
  subsequence relation, and to be optimal.
- **Single-pass scorers.** The C++ and C# scorers are `Step` and `Run`: one
  loop iteration, and the state after `k` characters. Each scorer's loop
  invariant is `state == Run(k)`. The facts the source relies on are proved as
  invariants of `Run`:
  - the greedy pattern index;
  - the candidate scores in [0, 25];
  - the previous-character flags;
  - the bounds of the score;
  - the increasing, matching `matchedIndices`.
- **Recursive scorer.** `fuzzyMatchRecursive` is specified by `Search`, with
  `Scan`, `Matched` and `Finish` for its loop, its match branch and its return.
  The method's loop invariant is that `Scan` of the current loop state is the
  call's answer. The properties proved about `Search` are:
  - it matches exactly in the greedy cases;
  - a failure scores 0;
  - every success scores a real placement of the pattern;
  - that score is at least the score of the greedy placement;
  - a level that matches scores at least as much as every recursive call
    that matched (`ScanKeepsBest`, `MatchedKeepsChild`).

  The scoring loop at the end of `fuzzyMatchRecursive` is the method
  `ScoreMatches`, proved to compute `OwnScore`.
- **Cross-version agreement.** Module `CrossVersion` proves that the C++ and C#
  scorers agree on C strings when the C# case maps are the ASCII ones. They go
  through the same states and return the same answer and score.

The JavaScript camel-case test compares each character with its own case
mapped forms and has no letter check. So a digit directly after a lower-case
letter also earns the camel bonus. So does any caseless character (a space,
a digit, `_`) directly after another caseless one, and an upper-case letter
directly after `_` or a space, which then earns both the camel and the
separator bonus. The model keeps all of these.

## Model

| member | source | states |
|---|---|---|
| `Subsequence.AppendIncreasing` | code/fts_fuzzy_match.cs:94 | Appending an index above every entry keeps a list of positions strictly increasing and below the bound. |
| `Subsequence.Greedy` | code/fts_fuzzy_match.js:37-42 | The positions the two-index walk consumes in the first `k` characters: at most one per pattern character, strictly increasing, all before `k`. One more character is consumed exactly when the pattern is not exhausted and the character matches the next pattern character. |
| `Subsequence.GreedyMatches` | code/fts_fuzzy_match.h:19-23 | Each position the walk consumes holds, up to case, the pattern character it was consumed for. |
| `Subsequence.GreedyPrefix` | code/fts_fuzzy_match.h:19-23 | The walk never takes anything back: what it consumed after `k` characters is a prefix of what it consumed after `k'`, and every later position is at least `k`. |
| `Subsequence.GreedyFirst` | code/fts_fuzzy_match.h:80-88 | The walk's first position is `i` exactly when nothing was consumed before `i` and `s[i]` matches the first pattern character. |
| `Subsequence.GreedyComplete` | code/fts_fuzzy_match.h:19 | Once the whole pattern is consumed, reading further changes nothing, so stopping the loop at the end of the pattern is the same as reading all of `str`. |
| `Subsequence.GreedyDominates` | code/fts_fuzzy_match.h:16 | The walk is optimal: for any embedding, once the walk passes the position the embedding uses for character `j`, it has consumed character `j` too. |
| `Subsequence.GreedyDecides` | code/fts_fuzzy_match.h:17-26 | The walk consumes the whole pattern if and only if the pattern is a case-insensitive subsequence of the string. |
| `Subsequence.EmptyCases` | code/fts_fuzzy_match.h:19-25 | The empty pattern occurs in every string; a non-empty pattern occurs in no empty string. |
| `CType.IsUpper` | code/fts_fuzzy_match.h:99 | `isupper` in the "C" locale: exactly the 26 ASCII upper-case letters. |
| `CType.IsLower` | code/fts_fuzzy_match.h:126 | `islower` in the "C" locale: exactly the 26 ASCII lower-case letters. |
| `CType.ToLower` | code/fts_fuzzy_match.h:20 | `tolower` in the "C" locale: an ASCII upper-case letter goes to its lower-case form, every other character to itself. |
| `CType.ToUpper` | code/fts_fuzzy_match.cs:84 | The ASCII upper-case map, taken as `char.ToUpper` when the C# scorer is compared with the C++ one: an ASCII lower-case letter goes to its upper-case form, every other character to itself. |
| `CType.ToLowerNul` | code/fts_fuzzy_match.h:65 | No character but NUL lowers to NUL. |
| `CType.IsUpperByCaseMaps` | code/fts_fuzzy_match.cs:122 | With ASCII case maps, the C# test `strChar == strUpper && strLower != strUpper` is exactly `isupper`. |
| `CType.IsLowerByCaseMaps` | code/fts_fuzzy_match.cs:151 | With ASCII case maps, the C# test `strChar == strLower && strLower != strUpper` is exactly `islower`. |
| `FuzzyMatchCpp.FuzzyMatch` | code/fts_fuzzy_match.h:17-26 | True if and only if the pattern is a `tolower`-case-insensitive subsequence of `str`; an empty pattern always matches; a non-empty pattern never matches an empty string. |
| `FuzzyMatchCpp.Deref` | code/fts_fuzzy_match.h:56-59 | `*patternIter` and `*strIter`: the character a pointer into a C string reads, the terminating NUL once it has passed every character. |
| `FuzzyMatchCpp.LeadingPenalty` | code/fts_fuzzy_match.h:82-85 | The leading penalty lies in [-9, 0], is 0 exactly when no letter precedes the match, and is -9 from three letters on. |
| `FuzzyMatchCpp.LetterScore` | code/fts_fuzzy_match.h:90-100 | A candidate score lies in [0, 25] and reaches the separator bonus exactly when the letter follows a separator or crosses a camel-case boundary. |
| `FuzzyMatchCpp.NextMatch` | code/fts_fuzzy_match.h:61 | The letter under `strIter` is the next pattern letter, up to `tolower`; at the terminator it never is. `TestsAgree` and `StepKeepsGreedy` state what follows from it. |
| `FuzzyMatchCpp.Rematch` | code/fts_fuzzy_match.h:62 | There is a best letter and the letter under `strIter` equals it up to `tolower`. |
| `FuzzyMatchCpp.Settles` | code/fts_fuzzy_match.h:64-65 | `advanced \|\| patternRepeat`, with the pointer test of line 65 kept as written; `PointerGuardIsHarmless` and `RepeatIsNextMatch` state what it amounts to on C strings. |
| `FuzzyMatchCpp.Step` | code/fts_fuzzy_match.h:58-129 | One iteration of the scored loop, branch for branch. What a step does is stated by `StepCosts` and by the `StepKeeps` lemmas below. |
| `FuzzyMatchCpp.PointerGuardIsHarmless` | code/fts_fuzzy_match.h:65 | Comparing the pointer with `'\0'` settles the best letter in exactly the steps in which the intended character comparison would. |
| `FuzzyMatchCpp.StepCosts` | code/fts_fuzzy_match.h:103-123 | A letter that is neither a next match nor a rematch costs exactly -1 beyond settling, clears `prevMatched` and keeps the pattern pointer; a displaced best letter costs -1; the pattern pointer advances exactly on a next match. |
| `FuzzyMatchCpp.Run` | code/fts_fuzzy_match.h:56-130 | After any prefix the pattern pointer stays within the pattern and a best letter lies before the current letter. |
| `FuzzyMatchCpp.RepeatIsNextMatch` | code/fts_fuzzy_match.h:62-65 | A rematch that also settles the best letter is a next match. |
| `FuzzyMatchCpp.StepKeepsGreedy` | code/fts_fuzzy_match.h:103-104 | `patternIter` advances exactly as the greedy walk does. |
| `FuzzyMatchCpp.StepKeepsBest` | code/fts_fuzzy_match.h:107-115 | The best letter's score stays in [0, 25], and is 0 when there is no best letter. |
| `FuzzyMatchCpp.StepKeepsTrack` | code/fts_fuzzy_match.h:126-127 | `prevLower` and `prevSeparator` describe the previous letter; the first letter counts as following a separator. |
| `FuzzyMatchCpp.StepKeepsScore` | code/fts_fuzzy_match.h:67-123 | Before the first match every letter costs 1; afterwards the score stays in [-9 - k, 25 * patternIter]. |
| `FuzzyMatchCpp.RunInvariant` | code/fts_fuzzy_match.h:56-130 | All of the above hold after every prefix of `str`. |
| `FuzzyMatchCpp.LeadingPenaltyAtFirstMatch` | code/fts_fuzzy_match.h:80-88 | The leading penalty is charged at exactly one step, the greedy walk's first match, so at most once and only while no pattern letter has been consumed. |
| `FuzzyMatchCpp.FinalScore` | code/fts_fuzzy_match.h:132-134 | The loop's score plus the pending best letter's score; `Outcome` bounds it. |
| `FuzzyMatchCpp.Outcome` | code/fts_fuzzy_match.h:132-141 | The pattern pointer ends on the terminator exactly when the pattern occurs in `str`; the final score is then within [-9 - \|str\|, 25 * \|pattern\|]. |
| `FuzzyMatchCpp.FuzzyMatchScored` | code/fts_fuzzy_match.h:31-142 | Same answer as the simple overload; on a match `outScore` receives the loop's final score; otherwise `outScore` is left untouched. |
| `FuzzyMatchCs.FuzzyMatch` | code/fts_fuzzy_match.cs:22-37 | True if and only if both strings are non-empty and the pattern is a case-insensitive subsequence of `str`. |
| `FuzzyMatchCs.LeadingPenalty` | code/fts_fuzzy_match.cs:107-111 | `Math.Max(strIdx * -3, -9)` lies in [-9, 0], is 0 exactly at index 0, and is -9 from index 3 on. |
| `FuzzyMatchCs.LetterScore` | code/fts_fuzzy_match.cs:113-123 | A candidate score lies in [0, 25] and reaches the separator bonus exactly after a separator or across a camel-case boundary. |
| `FuzzyMatchCs.Max` | code/fts_fuzzy_match.cs:109 | `Math.Max` on two integers; `LeadingPenalty` states the clamp it makes. |
| `FuzzyMatchCs.PatternChar` | code/fts_fuzzy_match.cs:79 | `patternChar`: the pattern character at `patternIdx`, or null once the pattern is used up. |
| `FuzzyMatchCs.PatternLower` | code/fts_fuzzy_match.cs:82 | `patternLower`: the lower-case form of `patternChar`, or null when it is null. |
| `FuzzyMatchCs.IsUpperCase` | code/fts_fuzzy_match.cs:122 | The "clever" letter test of the camel bonus, `strChar == strUpper && strLower != strUpper`; `CamelAfterLower` and `CType.IsUpperByCaseMaps` state what it amounts to. |
| `FuzzyMatchCs.IsLowerCase` | code/fts_fuzzy_match.cs:151 | The test that sets `prevLower`, `strChar == strLower && strLower != strUpper`; `StepKeepsTrack` and `CType.IsLowerByCaseMaps` state what it amounts to. |
| `FuzzyMatchCs.NextMatch` | code/fts_fuzzy_match.cs:79-86 | `patternChar` is not null and lowers to `strLower`. |
| `FuzzyMatchCs.Rematch` | code/fts_fuzzy_match.cs:87 | `bestLetter` is not null and `bestLower` equals `strLower`. |
| `FuzzyMatchCs.Settles` | code/fts_fuzzy_match.cs:89-91 | `advanced \|\| patternRepeat`; `CrossVersion.TestsAgree` shows it is the C++ test under ASCII case maps. |
| `FuzzyMatchCs.Step` | code/fts_fuzzy_match.cs:79-154 | One iteration of the scored loop, branch for branch, including the appends to `matchedIndices`. What a step does is stated by `StepCosts` and by the `StepKeeps` lemmas below. |
| `FuzzyMatchCs.StepCosts` | code/fts_fuzzy_match.cs:125-148 | A character that is neither a next match nor a rematch costs exactly -1 beyond settling and clears `prevMatched`; a displaced best letter costs -1; `patternIdx` grows by one exactly on a next match, never decreases and never passes the pattern's length. |
| `FuzzyMatchCs.Run` | code/fts_fuzzy_match.cs:77-155 | After any prefix `patternIdx` stays within the pattern and `bestLetterIdx` is set whenever `bestLetter` is. |
| `FuzzyMatchCs.StepKeepsGreedy` | code/fts_fuzzy_match.cs:126-127 | `patternIdx` advances exactly as the greedy walk does. |
| `FuzzyMatchCs.StepKeepsBest` | code/fts_fuzzy_match.cs:87-98 | The three nullable best-letter variables are null together; a best letter is an earlier character with its lower-case form, standing for the last pattern character consumed, scored in [0, 25]. |
| `FuzzyMatchCs.StepKeepsIndices` | code/fts_fuzzy_match.cs:91-99 | `matchedIndices` holds one strictly increasing, matching position before the current character for each settled pattern character, all before the pending best letter. |
| `FuzzyMatchCs.StepKeepsTrack` | code/fts_fuzzy_match.cs:150-152 | `prevLower` and `prevSeparator` describe the previous character; the first character counts as following a separator. |
| `FuzzyMatchCs.StepKeepsScore` | code/fts_fuzzy_match.cs:91-148 | Before the first match every character costs 1; afterwards the score stays in [-9 - k, 25 * patternIdx]. |
| `FuzzyMatchCs.RunKeepsGreedyBest` | code/fts_fuzzy_match.cs:86-140 | The greedy and best-letter invariants hold after every prefix. |
| `FuzzyMatchCs.RunKeepsIndices` | code/fts_fuzzy_match.cs:74-99 | The `matchedIndices` invariant holds after every prefix. |
| `FuzzyMatchCs.RunKeepsScore` | code/fts_fuzzy_match.cs:59-148 | The score invariant holds after every prefix. |
| `FuzzyMatchCs.RunInvariant` | code/fts_fuzzy_match.cs:77-155 | The whole loop invariant holds after every prefix of `str`. |
| `FuzzyMatchCs.LeadingPenaltyAtFirstMatch` | code/fts_fuzzy_match.cs:105-111 | The leading penalty is charged at exactly one step, the greedy walk's first match, so at most once and only while `patternIdx` is 0. |
| `FuzzyMatchCs.CamelAfterLower` | code/fts_fuzzy_match.cs:121-123 | The camel test holds exactly for an upper-case character (one whose case maps differ) directly after a lower-case one, never for the first character. |
| `FuzzyMatchCs.Scored` | code/fts_fuzzy_match.cs:157-165 | Adds the pending best letter's score and index after the loop, and reports `patternIdx == patternLength`; `ScoredOutcome` states what that means. |
| `FuzzyMatchCs.ScoredOutcome` | code/fts_fuzzy_match.cs:157-165 | The scored overload matches exactly when the pattern is a case-insensitive subsequence, an empty pattern included. The score is then within [-9 - \|str\|, 25 * \|pattern\|], and `matchedIndices` embeds the pattern in `str`. Matched or not, the final `matchedIndices`, after the append of the pending best letter, is strictly increasing and within `str`. |
| `FuzzyMatchCs.FuzzyMatchScored` | code/fts_fuzzy_match.cs:46-166 | Returns `patternIdx == patternLength`, the subsequence test; it is true for an empty pattern, unlike the simple overload. `outScore` is assigned on every path: the loop's final score. |
| `FuzzyMatchJs.FuzzyMatchSimple` | code/fts_fuzzy_match.js:31-47 | True if and only if both strings are non-empty and the pattern is a case-insensitive subsequence of `str`. |
| `FuzzyMatchJs.LeadingPenalty` | code/fts_fuzzy_match.js:156-161 | `max(-5 * matches[0], -15)` lies in [-15, 0], is 0 exactly when the first match is at index 0, and is -15 from index 3 on. |
| `FuzzyMatchJs.LetterBonus` | code/fts_fuzzy_match.js:168-196 | A matched position's bonus lies in [0, 75] and includes the first-letter bonus at index 0. |
| `FuzzyMatchJs.BonusSum` | code/fts_fuzzy_match.js:167-197 | The bonuses of `n` matched positions lie in [0, 75 * n]. |
| `FuzzyMatchJs.OwnScore` | code/fts_fuzzy_match.js:152-197 | A level's own score, 100 plus the leading penalty, minus one per unmatched letter, plus the bonuses, lies between 85 - unmatched and 100 - unmatched + 75 * nextMatch. |
| `FuzzyMatchJs.Search` | code/fts_fuzzy_match.js:88-98 | Whenever a call returns `matched` false, its score is 0, the early exits included. |
| `FuzzyMatchJs.Scan` | code/fts_fuzzy_match.js:107-148 | The loop's result scores 0 whenever it is not a match. `ScanKeepsBest` states that it keeps the best recursive score. |
| `FuzzyMatchJs.Matched` | code/fts_fuzzy_match.js:112-114 | Giving up past `maxMatches`, or any other failure from a matched letter, scores 0. |
| `FuzzyMatchJs.Finish` | code/fts_fuzzy_match.js:199-212 | Matched exactly when the whole pattern was consumed. Then the score is the larger of this level's own score and the best recursive score, and a tie keeps this level's score. Otherwise the score is 0. |
| `FuzzyMatchJs.Current` | code/fts_fuzzy_match.js:116-119 | The positions this level works on: the copy of `srcMatces` until the first match takes it, `matches` afterwards. |
| `FuzzyMatchJs.ScoreMatches` | code/fts_fuzzy_match.js:152-197 | The scoring loop computes `OwnScore` of the matched positions. |
| `FuzzyMatchJs.FuzzyMatchRecursive` | code/fts_fuzzy_match.js:76-213 | The loop and recursive calls compute `Search`. Recursion terminates: each call raises `recursionCount` towards the limit. Within a level the recorded positions stay strictly increasing and never more than `maxMatches`, as the loop invariant states. |
| `FuzzyMatchJs.FuzzyMatch` | code/fts_fuzzy_match.js:56-74 | Matches if and only if both strings are non-empty, the pattern has 1 to 256 characters and occurs in `str`, so it agrees with `fuzzyMatchSimple` on such patterns. A failure scores 0, an empty input included. A success scores a real placement of the pattern, at least the greedy placement's score. |
| `FuzzyMatchJs.TopLevel` | code/fts_fuzzy_match.js:56-74 | The call `fuzzyMatch` makes. An empty pattern or string never matches, and a failure scores 0. `FuzzyMatchOutcome` states the rest. |
| `FuzzyMatchJs.PrefixEmbedsAppend` | code/fts_fuzzy_match.js:144-145 | Recording a matching position after the earlier ones extends an increasing placement of the pattern's prefix. |
| `FuzzyMatchJs.ScanKeepsBest` | code/fts_fuzzy_match.js:135-142 | Once a recursive call has matched, a level that matches scores at least the best recursive score kept so far. |
| `FuzzyMatchJs.MatchedKeepsChild` | code/fts_fuzzy_match.js:121-142 | At a matching letter below `maxMatches`, when both the recursive call for the same pattern letter and the level match, the level scores at least what the call scored. |
| `FuzzyMatchJs.TopScanDecides` | code/fts_fuzzy_match.js:107-150 | At the outer level the positions recorded are the greedy walk's. The loop completes the pattern exactly when the walk does within `maxMatches`, and its answer is at least the greedy placement's score. |
| `FuzzyMatchJs.TopMatchedDecides` | code/fts_fuzzy_match.js:109-147 | The same at a matching letter. |
| `FuzzyMatchJs.SearchAchieves` | code/fts_fuzzy_match.js:76-213 | A call given a valid placement of the pattern's prefix returns, when matched, the score of a full placement. |
| `FuzzyMatchJs.ScanAchieves` | code/fts_fuzzy_match.js:107-148 | The same for the loop, given that the recursive score kept so far is one. |
| `FuzzyMatchJs.MatchedAchieves` | code/fts_fuzzy_match.js:116-146 | The same at a matching letter: the copied matches and the recorded position keep the placement of the prefix valid. |
| `FuzzyMatchJs.FuzzyMatchOutcome` | code/fts_fuzzy_match.js:56-74 | What `fuzzyMatch` returns, over all inputs: the match condition, score 0 on failure, the score of a real placement on success, at least the greedy one. |
| `CrossVersion.TestsAgree` | code/fts_fuzzy_match.h:61-65 | In agreeing states the C++ and C# scorers take the same next-match, rematch and settling branches and classify case alike. |
| `CrossVersion.StepsAgree` | code/fts_fuzzy_match.h:58-129 | One character moves agreeing C++ and C# states to agreeing states. |
| `CrossVersion.RunsAgree` | code/fts_fuzzy_match.h:56-130 | The C++ and C# loop states agree after every prefix of `str`. |
| `CrossVersion.ScorersAgree` | code/fts_fuzzy_match.h:132-141 | On C strings, with ASCII case maps, the C++ and C# scored overloads report a match in the same cases and with the same score. |

## Left out

- `ftsFuzzyMatchAsync` and the asynchronous helper in `code/util` are not part of this model. They slice the work over time with `setTimeout` and the clock.
- The PHP port, the Unity ballistic-trajectory code and game scripts, the test drivers, the timer, the hash utility and the amalgamation script are not part of this model. They are I/O, floating point or engine glue.
- 32-bit `int` overflow is not modelled; scores and penalties are unbounded integers. The leading-penalty product `strIdx * -3` (code/fts_fuzzy_match.cs:109, code/fts_fuzzy_match.h:83) leaves the `int` range once the first match is at index 715,827,883 or later. C# then wraps it to a large positive value, which `Math.Max` keeps; in C++ it is undefined behaviour. A running score gains at most 15 per letter, so it can overflow from about 143,165,577 matched letters on. Both sizes fit in a .NET string.
- The C# culture-dependent `char.ToLower` and `char.ToUpper` are arbitrary functions from a character to a character. So are JavaScript `toLowerCase` and `toUpperCase` on a one-character string. A JavaScript mapping that yields several characters, such as that of `'İ'`, is not modelled.
- A sequence element stands for one UTF-16 code unit in the C# and JavaScript versions and for one non-NUL byte in the C++ version. A Dafny `char` cannot hold a surrogate, so text outside the Basic Multilingual Plane (an emoji, say) and lone surrogates are not modelled. The source compares such text code unit by code unit, and walks UTF-8 text byte by byte, so its answers and its leading and unmatched penalties there count code units or bytes, not characters.
- Bytes above 0x7F in the C++ version are treated as caseless characters that `tolower` maps to themselves. Where `char` is signed (GCC and Clang on x86, MSVC), such a byte reaches `tolower`, `isupper` and `islower` (code/fts_fuzzy_match.h:20, code/fts_fuzzy_match.h:61-65, code/fts_fuzzy_match.h:99, code/fts_fuzzy_match.h:126) as a negative value other than `EOF`. That is undefined behaviour in C, and MSVC debug builds stop on an assertion there. The model's answer for such text is the one for an unsigned `char` in the "C" locale.
- Null string arguments are not modelled: C# throws `NullReferenceException` reading `pattern.Length` (code/fts_fuzzy_match.cs:26, code/fts_fuzzy_match.cs:61), and JavaScript throws a `TypeError`.
- JavaScript numbers are doubles. Scores and indices here are exact integers, which they stay in doubles for any realistic input.
- The JavaScript match arrays do not come back: `bestRecursiveMatches` is only ever a copy of the array the callee never writes. Scorers return only `[matched, score]`. The C# `matchedIndices` list is built and proved about, but is not returned, as in the source.
- FuzzyMatchJs.FuzzyMatchRecursive: its `requires` is the relation that both call sites establish between its arguments. The `nextMatch` count equals the pattern index and is at most `maxMatches`, and the inherited positions are that many, strictly increasing, and lie before `strCurrIndex`. Other arguments are not modelled.
- FuzzyMatchJs.FuzzyMatchRecursive: the final `[false, outScore]` branch inside the match block cannot be reached, because `matched` holds there. It is left out of the method rather than written as dead code.
