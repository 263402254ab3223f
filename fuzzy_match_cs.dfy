/** The C# class code/fts_fuzzy_match.cs, `fts.FuzzyMatcher`: the same two
    matchers over .NET strings, walked by index. `char.ToLower` and
    `char.ToUpper` follow the current culture; they are the parameters
    `lower` and `upper`, so every result here holds for any case mapping. */
module FuzzyMatchCs {
  import opened Optional
  import opened Subsequence

  // Score constants of the scored overload.
  const AdjacencyBonus := 5
  const SeparatorBonus := 10
  const CamelBonus := 10
  const LeadingLetterPenalty := -3
  const MaxLeadingLetterPenalty := -9
  const UnmatchedLetterPenalty := -1

  /** The largest candidate score a single letter can get. */
  const MaxLetterScore := AdjacencyBonus + SeparatorBonus + CamelBonus

  /** `FuzzyMatch(pattern, str)`: true iff both strings are non-empty and each
      character of the pattern is found, in order and ignoring case, within
      `str`. */
  method FuzzyMatch(pattern: seq<char>, str: seq<char>, lower: char -> char) returns (matched: bool)
    ensures matched <==> pattern != [] && str != [] && IsSubseqCI(pattern, str, lower)
  {
    var patternIdx := 0;
    var strIdx := 0;
    var patternLength := |pattern|;
    var strLength := |str|;

    while patternIdx != patternLength && strIdx != strLength
      invariant strIdx <= strLength
      invariant patternIdx == |Greedy(pattern, str, lower, strIdx)|
      decreases strLength - strIdx
    {
      if lower(pattern[patternIdx]) == lower(str[strIdx]) {
        patternIdx := patternIdx + 1;
      }
      strIdx := strIdx + 1;
    }
    if patternIdx == patternLength {
      GreedyComplete(pattern, str, lower, strIdx, strLength);
    }
    GreedyDecides(pattern, str, lower);
    matched := patternLength != 0 && strLength != 0 && patternIdx == patternLength;
  }

  /** The loop variables of the scored overload. The three nullable
      best-letter variables are set and cleared together. */
  datatype State = State(
    score: int,
    patternIdx: nat,
    prevMatched: bool,
    prevLower: bool,
    prevSeparator: bool,
    bestLetter: Option<char>,
    bestLower: Option<char>,
    bestLetterIdx: Option<nat>,
    bestLetterScore: int,
    matchedIndices: seq<nat>)

  /** The state before the loop; `prevSeparator` starts true so that a match
      on the first letter gets the separator bonus. */
  const Start := State(0, 0, false, false, true, None, None, None, 0, [])

  /** `Math.Max`. */
  function Max(a: int, b: int): int
  {
    if a >= b then a else b
  }

  /** Penalty for the `strIdx` letters of `str` before the first match, clamped. */
  function LeadingPenalty(strIdx: nat): (penalty: int)
    ensures MaxLeadingLetterPenalty <= penalty <= 0
    ensures penalty == 0 <==> strIdx == 0
    ensures 3 <= strIdx ==> penalty == MaxLeadingLetterPenalty
  {
    Max(strIdx * LeadingLetterPenalty, MaxLeadingLetterPenalty)
  }

  /** The candidate score `newScore` of a letter that matches. */
  function LetterScore(prevMatched: bool, prevSeparator: bool, camel: bool): (newScore: int)
    ensures 0 <= newScore <= MaxLetterScore
    ensures SeparatorBonus <= newScore <==> prevSeparator || camel
  {
    (if prevMatched then AdjacencyBonus else 0)
    + (if prevSeparator then SeparatorBonus else 0)
    + (if camel then CamelBonus else 0)
  }

  /** The requirements under which a step may index the pattern and convert
      `bestLetterIdx` to `int`. */
  predicate InBounds(pattern: seq<char>, st: State)
  {
    && st.patternIdx <= |pattern|
    && (st.bestLetter.Some? ==> st.bestLetterIdx.Some?)
  }

  /** `patternChar`: the next pattern character, or null at the end. */
  function PatternChar(pattern: seq<char>, st: State): Option<char>
    requires st.patternIdx <= |pattern|
  {
    if st.patternIdx != |pattern| then Some(pattern[st.patternIdx]) else None
  }

  /** `patternLower`: the lower-case form of `patternChar`, or null. */
  function PatternLower(pattern: seq<char>, lower: char -> char, st: State): Option<char>
    requires st.patternIdx <= |pattern|
  {
    var patternChar := PatternChar(pattern, st);
    if patternChar.Some? then Some(lower(patternChar.value)) else None
  }

  /** `nextMatch`: the character under `strIdx` is the next pattern character. */
  predicate NextMatch(pattern: seq<char>, str: seq<char>, lower: char -> char, st: State, strIdx: nat)
    requires st.patternIdx <= |pattern| && strIdx < |str|
  {
    PatternChar(pattern, st).Some? && PatternLower(pattern, lower, st) == Some(lower(str[strIdx]))
  }

  /** `rematch`: the character under `strIdx` is the same letter as the best one. */
  predicate Rematch(str: seq<char>, lower: char -> char, st: State, strIdx: nat)
    requires strIdx < |str|
  {
    st.bestLetter.Some? && st.bestLower == Some(lower(str[strIdx]))
  }

  /** `advanced || patternRepeat`: the best letter is settled, either because
      the pattern advances past it or because its letter is the next pattern
      character again. */
  predicate Settles(pattern: seq<char>, str: seq<char>, lower: char -> char, st: State, strIdx: nat)
    requires st.patternIdx <= |pattern| && strIdx < |str|
  {
    || (NextMatch(pattern, str, lower, st, strIdx) && st.bestLetter.Some?)
    || (st.bestLetter.Some? && PatternChar(pattern, st).Some? && st.bestLower == PatternLower(pattern, lower, st))
  }

  /** One iteration of the loop of the scored overload, over `str[strIdx]`:
      lines 91-99 settle the best letter into the score and `matchedIndices`;
      on a match (lines 101-143) the first match pays the leading penalty,
      the pattern advances on a next match, and the character becomes the
      best letter when its candidate score is at least the best's, a displaced
      best letter costing the unmatched penalty; any other character costs the
      unmatched penalty (lines 144-148). */
  function Step(pattern: seq<char>, str: seq<char>, lower: char -> char, upper: char -> char,
                st: State, strIdx: nat): State
    requires InBounds(pattern, st) && strIdx < |str|
  {
    var strChar := str[strIdx];
    var strLower := lower(strChar);
    var strUpper := upper(strChar);
    var nextMatch := NextMatch(pattern, str, lower, st, strIdx);
    var prevLower := strChar == strLower && strLower != strUpper;
    var prevSeparator := strChar == '_' || strChar == ' ';
    var settle := Settles(pattern, str, lower, st, strIdx);
    var score := if settle then st.score + st.bestLetterScore else st.score;
    var matchedIndices := if settle then st.matchedIndices + [st.bestLetterIdx.value] else st.matchedIndices;
    var bestLetter := if settle then None else st.bestLetter;
    var bestLower := if settle then None else st.bestLower;
    var bestLetterIdx := if settle then None else st.bestLetterIdx;
    var bestLetterScore := if settle then 0 else st.bestLetterScore;
    if nextMatch || Rematch(str, lower, st, strIdx) then
      var score := if st.patternIdx == 0 then score + LeadingPenalty(strIdx) else score;
      var newScore := LetterScore(st.prevMatched, st.prevSeparator,
                                  st.prevLower && strChar == strUpper && strLower != strUpper);
      var patternIdx := if nextMatch then st.patternIdx + 1 else st.patternIdx;
      if newScore >= bestLetterScore then
        var score := if bestLetter.Some? then score + UnmatchedLetterPenalty else score;
        State(score, patternIdx, true, prevLower, prevSeparator,
              Some(strChar), Some(lower(strChar)), Some(strIdx), newScore, matchedIndices)
      else
        State(score, patternIdx, true, prevLower, prevSeparator,
              bestLetter, bestLower, bestLetterIdx, bestLetterScore, matchedIndices)
    else
      State(score + UnmatchedLetterPenalty, st.patternIdx, false, prevLower, prevSeparator,
            bestLetter, bestLower, bestLetterIdx, bestLetterScore, matchedIndices)
  }

  /** Whether the step over `str[strIdx]` adds the leading-letter penalty:
      the pattern index is still 0 and the character matches. */
  predicate ChargesLeading(pattern: seq<char>, str: seq<char>, lower: char -> char, st: State, strIdx: nat)
    requires st.patternIdx <= |pattern| && strIdx < |str|
  {
    st.patternIdx == 0 && (NextMatch(pattern, str, lower, st, strIdx) || Rematch(str, lower, st, strIdx))
  }

  /** What a single character costs. One that is neither a next match nor a
      rematch costs exactly the unmatched penalty on top of settling the best
      letter, clears `prevMatched` and leaves `patternIdx` alone. A matching
      character that displaces a pending best letter costs the unmatched
      penalty too (plus the leading penalty while `patternIdx` is 0).
      `patternIdx` never decreases: it grows by one exactly on a next match,
      and never passes the pattern's length. */
  lemma StepCosts(pattern: seq<char>, str: seq<char>, lower: char -> char, upper: char -> char,
                  st: State, k: nat)
    requires InBounds(pattern, st) && k < |str| && InvBest(pattern, str, lower, k, st)
    ensures var next := Step(pattern, str, lower, upper, st, k);
            var settled := if Settles(pattern, str, lower, st, k) then st.score + st.bestLetterScore else st.score;
            var leading := if ChargesLeading(pattern, str, lower, st, k) then LeadingPenalty(k) else 0;
            && next.patternIdx == (if NextMatch(pattern, str, lower, st, k) then st.patternIdx + 1 else st.patternIdx)
            && st.patternIdx <= next.patternIdx <= |pattern|
            && next.prevMatched == (NextMatch(pattern, str, lower, st, k) || Rematch(str, lower, st, k))
            && (!next.prevMatched ==> next.score == settled + UnmatchedLetterPenalty)
            && (next.prevMatched && st.bestLetter.Some? && !Settles(pattern, str, lower, st, k)
                && next.bestLetterIdx == Some(k) ==>
                  next.score == st.score + leading + UnmatchedLetterPenalty)
  {
  }

  /** The loop state after the first `k` characters of `str`. */
  function Run(pattern: seq<char>, str: seq<char>, lower: char -> char, upper: char -> char, k: nat): (st: State)
    requires k <= |str|
    ensures InBounds(pattern, st)
  {
    if k == 0 then Start else Step(pattern, str, lower, upper, Run(pattern, str, lower, upper, k - 1), k - 1)
  }

  /** What the scored overload hands back, with the `matchedIndices` list it
      builds and then drops. */
  datatype Outcome = Outcome(matched: bool, score: int, matchedIndices: seq<nat>)

  /** Lines 157-165: the last best letter is added, and the match succeeded
      iff the whole pattern was consumed. */
  function Scored(pattern: seq<char>, str: seq<char>, lower: char -> char, upper: char -> char): Outcome
  {
    var st := Run(pattern, str, lower, upper, |str|);
    if st.bestLetter.Some? then
      Outcome(st.patternIdx == |pattern|, st.score + st.bestLetterScore, st.matchedIndices + [st.bestLetterIdx.value])
    else
      Outcome(st.patternIdx == |pattern|, st.score, st.matchedIndices)
  }

  /** The pattern index advances exactly as the greedy scan does. */
  ghost predicate InvGreedy(pattern: seq<char>, str: seq<char>, lower: char -> char, k: nat, st: State)
    requires k <= |str|
  {
    st.patternIdx == |Greedy(pattern, str, lower, k)|
  }

  /** The three best-letter variables are null together; a best letter is a
      character before `str[k]` with its lower-case form, it stands for the
      last pattern character consumed, and its score lies in [0, 25]. */
  predicate InvBest(pattern: seq<char>, str: seq<char>, lower: char -> char, k: nat, st: State)
    requires k <= |str|
  {
    && st.bestLetter.Some? == st.bestLower.Some? == st.bestLetterIdx.Some?
    && (st.bestLetter.Some? ==>
          && st.bestLetterIdx.value < k
          && 0 < st.patternIdx <= |pattern|
          && st.bestLetter.value == str[st.bestLetterIdx.value]
          && st.bestLower.value == lower(st.bestLetter.value)
          && st.bestLower.value == lower(pattern[st.patternIdx - 1]))
    && 0 <= st.bestLetterScore <= MaxLetterScore
    && (st.bestLetter.None? ==> st.bestLetterScore == 0)
  }

  /** `matchedIndices` holds one increasing index into the first `k`
      characters of `str` for each settled pattern character, each matching
      it, all before the pending best letter. */
  predicate InvIndices(pattern: seq<char>, str: seq<char>, lower: char -> char, k: nat, st: State)
    requires k <= |str|
  {
    var mi := st.matchedIndices;
    && |mi| + (if st.bestLetter.Some? then 1 else 0) == st.patternIdx <= |pattern|
    && Increasing(mi)
    && Below(mi, k)
    && (forall j :: 0 <= j < |mi| ==> lower(pattern[j]) == lower(str[mi[j]]))
    && (st.bestLetterIdx.Some? ==> Below(mi, st.bestLetterIdx.value))
  }

  /** `prevLower` and `prevSeparator` describe the character before `str[k]`;
      the first character follows a virtual separator. */
  predicate InvTrack(str: seq<char>, lower: char -> char, upper: char -> char, k: nat, st: State)
    requires k <= |str|
  {
    && st.prevSeparator == (k == 0 || str[k - 1] == '_' || str[k - 1] == ' ')
    && st.prevLower == (0 < k && str[k - 1] == lower(str[k - 1]) && lower(str[k - 1]) != upper(str[k - 1]))
  }

  /** Before the first match every character cost 1; afterwards the running
      score stays within [-9 - k, 25 * patternIdx], counting a pending best
      letter at its largest possible score. */
  predicate InvScore(k: nat, st: State)
  {
    && (st.patternIdx == 0 ==> st.score == -(k as int))
    && MaxLeadingLetterPenalty - k <= st.score
    && st.score + (if st.bestLetter.Some? then MaxLetterScore else 0) <= MaxLetterScore * st.patternIdx
  }

  /** What holds of the loop state after `k` characters. */
  ghost predicate Inv(pattern: seq<char>, str: seq<char>, lower: char -> char, upper: char -> char, k: nat, st: State)
    requires k <= |str|
  {
    && InvGreedy(pattern, str, lower, k, st)
    && InvBest(pattern, str, lower, k, st)
    && InvIndices(pattern, str, lower, k, st)
    && InvTrack(str, lower, upper, k, st)
    && InvScore(k, st)
  }

  lemma StepKeepsGreedy(pattern: seq<char>, str: seq<char>, lower: char -> char, upper: char -> char, k: nat)
    requires k < |str|
    requires InvGreedy(pattern, str, lower, k, Run(pattern, str, lower, upper, k))
    ensures InvGreedy(pattern, str, lower, k + 1, Run(pattern, str, lower, upper, k + 1))
  {
  }

  lemma StepKeepsBest(pattern: seq<char>, str: seq<char>, lower: char -> char, upper: char -> char,
                      st: State, k: nat)
    requires InBounds(pattern, st) && k < |str| && InvBest(pattern, str, lower, k, st)
    ensures InvBest(pattern, str, lower, k + 1, Step(pattern, str, lower, upper, st, k))
  {
  }

  lemma StepKeepsIndices(pattern: seq<char>, str: seq<char>, lower: char -> char, upper: char -> char,
                         st: State, k: nat)
    requires InBounds(pattern, st) && k < |str|
    requires InvBest(pattern, str, lower, k, st) && InvIndices(pattern, str, lower, k, st)
    ensures InvIndices(pattern, str, lower, k + 1, Step(pattern, str, lower, upper, st, k))
  {
    var mi := st.matchedIndices;
    var next := Step(pattern, str, lower, upper, st, k);
    if Settles(pattern, str, lower, st, k) {
      var idx := st.bestLetterIdx.value;
      AppendIncreasing(mi, idx, k + 1);
      assert next.matchedIndices == mi + [idx];
      assert next.bestLetterIdx.Some? ==> next.bestLetterIdx.value == k;
    } else {
      assert next.matchedIndices == mi;
      assert next.bestLetterIdx.Some? ==> next.bestLetterIdx.value == k || next.bestLetterIdx == st.bestLetterIdx;
    }
  }

  lemma StepKeepsTrack(pattern: seq<char>, str: seq<char>, lower: char -> char, upper: char -> char,
                       st: State, k: nat)
    requires InBounds(pattern, st) && k < |str|
    ensures InvTrack(str, lower, upper, k + 1, Step(pattern, str, lower, upper, st, k))
  {
  }

  lemma StepKeepsScore(pattern: seq<char>, str: seq<char>, lower: char -> char, upper: char -> char,
                       st: State, k: nat)
    requires InBounds(pattern, st) && k < |str|
    requires InvBest(pattern, str, lower, k, st) && InvScore(k, st)
    ensures InvScore(k + 1, Step(pattern, str, lower, upper, st, k))
  {
    assert MaxLetterScore * (st.patternIdx + 1) == MaxLetterScore * st.patternIdx + MaxLetterScore;
  }

  /** Each part of the invariant holds after every prefix of `str`. */
  lemma {:induction false} RunKeepsGreedyBest(pattern: seq<char>, str: seq<char>, lower: char -> char, upper: char -> char,
                                              k: nat)
    requires k <= |str|
    ensures InvGreedy(pattern, str, lower, k, Run(pattern, str, lower, upper, k))
    ensures InvBest(pattern, str, lower, k, Run(pattern, str, lower, upper, k))
  {
    if k > 0 {
      RunKeepsGreedyBest(pattern, str, lower, upper, k - 1);
      StepKeepsGreedy(pattern, str, lower, upper, k - 1);
      StepKeepsBest(pattern, str, lower, upper, Run(pattern, str, lower, upper, k - 1), k - 1);
    }
  }

  lemma {:induction false} RunKeepsIndices(pattern: seq<char>, str: seq<char>, lower: char -> char, upper: char -> char,
                                           k: nat)
    requires k <= |str|
    ensures InvIndices(pattern, str, lower, k, Run(pattern, str, lower, upper, k))
  {
    if k > 0 {
      RunKeepsIndices(pattern, str, lower, upper, k - 1);
      RunKeepsGreedyBest(pattern, str, lower, upper, k - 1);
      StepKeepsIndices(pattern, str, lower, upper, Run(pattern, str, lower, upper, k - 1), k - 1);
    }
  }

  lemma {:induction false} RunKeepsScore(pattern: seq<char>, str: seq<char>, lower: char -> char, upper: char -> char,
                                         k: nat)
    requires k <= |str|
    ensures InvScore(k, Run(pattern, str, lower, upper, k))
  {
    if k > 0 {
      RunKeepsScore(pattern, str, lower, upper, k - 1);
      RunKeepsGreedyBest(pattern, str, lower, upper, k - 1);
      StepKeepsScore(pattern, str, lower, upper, Run(pattern, str, lower, upper, k - 1), k - 1);
    }
  }

  /** The invariant holds of the loop state after every prefix of `str`. */
  lemma RunInvariant(pattern: seq<char>, str: seq<char>, lower: char -> char, upper: char -> char, k: nat)
    requires k <= |str|
    ensures Inv(pattern, str, lower, upper, k, Run(pattern, str, lower, upper, k))
  {
    RunKeepsGreedyBest(pattern, str, lower, upper, k);
    RunKeepsIndices(pattern, str, lower, upper, k);
    RunKeepsScore(pattern, str, lower, upper, k);
    if k > 0 {
      StepKeepsTrack(pattern, str, lower, upper, Run(pattern, str, lower, upper, k - 1), k - 1);
    }
  }

  /** The leading-letter penalty is charged at exactly one step, the one at
      which the greedy scan consumes the first pattern character: at most
      once, only while `patternIdx` is 0, and worth LeadingPenalty of that
      character's index, in [-9, 0]. */
  lemma LeadingPenaltyAtFirstMatch(pattern: seq<char>, str: seq<char>, lower: char -> char, upper: char -> char,
                                   i: nat)
    requires i < |str|
    ensures var g := Greedy(pattern, str, lower, |str|);
            ChargesLeading(pattern, str, lower, Run(pattern, str, lower, upper, i), i) <==> 0 < |g| && g[0] == i
  {
    var h := Greedy(pattern, str, lower, i);
    var takes := |h| == 0 && 0 < |pattern| && lower(pattern[0]) == lower(str[i]);
    assert ChargesLeading(pattern, str, lower, Run(pattern, str, lower, upper, i), i) <==> takes by {
      RunKeepsGreedyBest(pattern, str, lower, upper, i);
    }
    GreedyFirst(pattern, str, lower, i);
  }

  /** A lower-case character is its own lower-case form and has a distinct
      upper-case form; an upper-case one is its own upper-case form. */
  predicate IsLowerCase(c: char, lower: char -> char, upper: char -> char)
  {
    c == lower(c) && lower(c) != upper(c)
  }

  predicate IsUpperCase(c: char, lower: char -> char, upper: char -> char)
  {
    c == upper(c) && lower(c) != upper(c)
  }

  /** The camel test of the step over `str[k]` holds exactly when `str[k]` is
      upper case and directly follows a lower-case character; so the camel
      bonus never goes to the first character. */
  lemma CamelAfterLower(pattern: seq<char>, str: seq<char>, lower: char -> char, upper: char -> char, k: nat)
    requires k < |str|
    ensures var st := Run(pattern, str, lower, upper, k);
            var c := str[k];
            (st.prevLower && c == upper(c) && lower(c) != upper(c)) <==>
            0 < k && IsLowerCase(str[k - 1], lower, upper) && IsUpperCase(c, lower, upper)
  {
    if k > 0 {
      StepKeepsTrack(pattern, str, lower, upper, Run(pattern, str, lower, upper, k - 1), k - 1);
    }
  }

  /** The scored overload succeeds exactly when the pattern is a
      case-insensitive subsequence of `str` (an empty pattern included); its
      score then lies in [-9 - |str|, 25 * |pattern|], and `matchedIndices`
      is an embedding of the pattern into `str`: one increasing position per
      pattern character, each matching it. Matched or not, the final
      `matchedIndices` is strictly increasing and lies within `str`. */
  lemma ScoredOutcome(pattern: seq<char>, str: seq<char>, lower: char -> char, upper: char -> char)
    ensures var out := Scored(pattern, str, lower, upper);
            && (out.matched <==> IsSubseqCI(pattern, str, lower))
            && (out.matched ==> MaxLeadingLetterPenalty - |str| <= out.score <= MaxLetterScore * |pattern|)
            && (out.matched ==> Embeds(pattern, str, lower, out.matchedIndices))
            && Increasing(out.matchedIndices) && Below(out.matchedIndices, |str|)
  {
    RunInvariant(pattern, str, lower, upper, |str|);
    GreedyDecides(pattern, str, lower);
    var st := Run(pattern, str, lower, upper, |str|);
    if st.bestLetter.Some? {
      AppendIncreasing(st.matchedIndices, st.bestLetterIdx.value, |str|);
    }
  }

  /** `FuzzyMatch(pattern, str, out outScore)`: the greedy subsequence test,
      true for an empty pattern, with `outScore` assigned on every path. */
  method FuzzyMatchScored(pattern: seq<char>, str: seq<char>, lower: char -> char, upper: char -> char)
    returns (matched: bool, outScore: int)
    ensures matched == Scored(pattern, str, lower, upper).matched
    ensures outScore == Scored(pattern, str, lower, upper).score
    ensures matched <==> IsSubseqCI(pattern, str, lower)
    ensures matched ==> MaxLeadingLetterPenalty - |str| <= outScore <= MaxLetterScore * |pattern|
  {
    var score := 0;
    var patternIdx := 0;
    var patternLength := |pattern|;
    var strIdx := 0;
    var strLength := |str|;
    var prevMatched := false;
    var prevLower := false;
    var prevSeparator := true;

    var bestLetter: Option<char> := None;
    var bestLower: Option<char> := None;
    var bestLetterIdx: Option<nat> := None;
    var bestLetterScore := 0;

    var matchedIndices: seq<nat> := [];

    while strIdx != strLength
      invariant strIdx <= strLength
      invariant State(score, patternIdx, prevMatched, prevLower, prevSeparator,
                      bestLetter, bestLower, bestLetterIdx, bestLetterScore, matchedIndices)
                == Run(pattern, str, lower, upper, strIdx)
      decreases strLength - strIdx
    {
      var patternChar: Option<char> := if patternIdx != patternLength then Some(pattern[patternIdx]) else None;
      var strChar := str[strIdx];

      var patternLower: Option<char> := if patternChar.Some? then Some(lower(patternChar.value)) else None;
      var strLower := lower(strChar);
      var strUpper := upper(strChar);

      var nextMatch := patternChar.Some? && patternLower == Some(strLower);
      var rematch := bestLetter.Some? && bestLower == Some(strLower);

      var advanced := nextMatch && bestLetter.Some?;
      var patternRepeat := bestLetter.Some? && patternChar.Some? && bestLower == patternLower;

      ghost var before := State(score, patternIdx, prevMatched, prevLower, prevSeparator,
                                bestLetter, bestLower, bestLetterIdx, bestLetterScore, matchedIndices);
      assert nextMatch == NextMatch(pattern, str, lower, before, strIdx);
      assert rematch == Rematch(str, lower, before, strIdx);
      assert advanced || patternRepeat <==> Settles(pattern, str, lower, before, strIdx);
      if advanced || patternRepeat {
        score := score + bestLetterScore;
        matchedIndices := matchedIndices + [bestLetterIdx.value];
        bestLetter := None;
        bestLower := None;
        bestLetterIdx := None;
        bestLetterScore := 0;
      }

      if nextMatch || rematch {
        if patternIdx == 0 {
          var penalty := LeadingPenalty(strIdx);
          score := score + penalty;
        }
        var newScore := LetterScore(prevMatched, prevSeparator, prevLower && strChar == strUpper && strLower != strUpper);
        if nextMatch {
          patternIdx := patternIdx + 1;
        }
        if newScore >= bestLetterScore {
          if bestLetter.Some? {
            score := score + UnmatchedLetterPenalty;
          }
          bestLetter := Some(strChar);
          bestLower := Some(lower(bestLetter.value));
          bestLetterIdx := Some(strIdx);
          bestLetterScore := newScore;
        }
        prevMatched := true;
      } else {
        score := score + UnmatchedLetterPenalty;
        prevMatched := false;
      }

      prevLower := strChar == strLower && strLower != strUpper;
      prevSeparator := strChar == '_' || strChar == ' ';
      // Without these per-field checkpoints the verifier times out on the invariant.
      ghost var after := Step(pattern, str, lower, upper, before, strIdx);
      assert patternIdx == after.patternIdx;
      assert bestLetter == after.bestLetter;
      assert bestLower == after.bestLower;
      assert bestLetterIdx == after.bestLetterIdx;
      assert bestLetterScore == after.bestLetterScore;
      assert matchedIndices == after.matchedIndices;
      assert score == after.score;
      assert State(score, patternIdx, prevMatched, prevLower, prevSeparator,
                   bestLetter, bestLower, bestLetterIdx, bestLetterScore, matchedIndices) == after;
      strIdx := strIdx + 1;
    }

    if bestLetter.Some? {
      score := score + bestLetterScore;
      matchedIndices := matchedIndices + [bestLetterIdx.value];
    }

    ScoredOutcome(pattern, str, lower, upper);
    outScore := score;
    return patternIdx == patternLength, outScore;
  }
}
