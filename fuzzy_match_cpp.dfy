/** The C++ header code/fts_fuzzy_match.h: the two overloads of
    `fts::fuzzy_match`, both walking NUL-terminated strings with pointers. A
    pointer is modelled by how far it has advanced from the start of its
    string, and reading through it by `Deref`. */
module FuzzyMatchCpp {
  import opened Optional
  import opened CType
  import opened Subsequence

  // Score constants of the scored overload.
  const AdjacencyBonus := 5
  const SeparatorBonus := 10
  const CamelBonus := 10
  const LeadingLetterPenalty := -3
  const MaxLeadingLetterPenalty := -9
  const UnmatchedLetterPenalty := -1

  /** The largest candidate score a single letter can get. */
  const MaxLetterScore := AdjacencyBonus + SeparatorBonus + CamelBonus

  /** The characters of a C string, before its terminator: none is NUL. */
  predicate IsCString(s: seq<char>)
  {
    forall i :: 0 <= i < |s| ==> s[i] != '\0'
  }

  /** Reading through a pointer `i` characters into the C string `s`: one of
      its characters, or the terminating NUL. */
  function Deref(s: seq<char>, i: nat): char
    requires i <= |s|
  {
    if i < |s| then s[i] else '\0'
  }

  /** `fuzzy_match(pattern, str)`: true iff each character of the pattern is
      found, in order and ignoring ASCII case, within `str`. */
  method FuzzyMatch(pattern: seq<char>, str: seq<char>) returns (matched: bool)
    requires IsCString(pattern) && IsCString(str)
    ensures matched <==> IsSubseqCI(pattern, str, ToLower)
    ensures pattern == [] ==> matched
    ensures pattern != [] && str == [] ==> !matched
  {
    var patternAt, strAt := 0, 0;
    while Deref(pattern, patternAt) != '\0' && Deref(str, strAt) != '\0'
      invariant strAt <= |str|
      invariant patternAt == |Greedy(pattern, str, ToLower, strAt)|
      decreases |str| - strAt
    {
      if ToLower(Deref(pattern, patternAt)) == ToLower(Deref(str, strAt)) {
        patternAt := patternAt + 1;
      }
      strAt := strAt + 1;
    }
    if patternAt == |pattern| {
      GreedyComplete(pattern, str, ToLower, strAt, |str|);
    }
    GreedyDecides(pattern, str, ToLower);
    EmptyCases(pattern, str, ToLower);
    matched := Deref(pattern, patternAt) == '\0';
  }

  /** The loop variables of the scored overload. `patternIter` and
      `bestLetter` are pointers, given by their offsets into `pattern` and
      `str`; `None` is the null pointer. */
  datatype State = State(
    score: int,
    patternIter: nat,
    prevMatched: bool,
    prevLower: bool,
    prevSeparator: bool,
    bestLetter: Option<nat>,
    bestLetterScore: int)

  /** The state before the loop; `prevSeparator` starts true so that a match
      on the first letter gets the separator bonus. */
  const Start := State(0, 0, false, false, true, None, 0)

  /** `patternIter != '\0'` on line 65 compares the pointer itself, not the
      letter it points to, with the null pointer constant: always true. */
  const PatternIterIsNotNull := true

  /** Penalty for the `count` letters of `str` before the first match, clamped. */
  function LeadingPenalty(count: nat): (penalty: int)
    ensures MaxLeadingLetterPenalty <= penalty <= 0
    ensures penalty == 0 <==> count == 0
    ensures 3 <= count ==> penalty == MaxLeadingLetterPenalty
  {
    var penalty := LeadingLetterPenalty * count;
    if penalty < MaxLeadingLetterPenalty then MaxLeadingLetterPenalty else penalty
  }

  /** The candidate score `newScore` of a letter that matches. */
  function LetterScore(prevMatched: bool, prevSeparator: bool, camel: bool): (newScore: int)
    ensures 0 <= newScore <= MaxLetterScore
    ensures SeparatorBonus <= newScore <==> prevSeparator || camel
  {
    (if prevMatched then AdjacencyBonus else 0)
    + (if prevSeparator then SeparatorBonus else 0)
    + (if camel then CamelBonus else 0)
  }

  /** The requirements under which a step may read through its pointers. */
  predicate InBounds(pattern: seq<char>, str: seq<char>, st: State)
  {
    && st.patternIter <= |pattern|
    && (st.bestLetter.Some? ==> st.bestLetter.value < |str|)
  }

  /** `nextMatch`: the letter under `strIter` is the next pattern letter. */
  predicate NextMatch(pattern: seq<char>, str: seq<char>, st: State, strIter: nat)
    requires InBounds(pattern, str, st) && strIter < |str|
  {
    var patternLetter := Deref(pattern, st.patternIter);
    patternLetter != '\0' && ToLower(patternLetter) == ToLower(str[strIter])
  }

  /** `rematch`: the letter under `strIter` is the same letter as the best one. */
  predicate Rematch(pattern: seq<char>, str: seq<char>, st: State, strIter: nat)
    requires InBounds(pattern, str, st) && strIter < |str|
  {
    st.bestLetter.Some? && ToLower(str[st.bestLetter.value]) == ToLower(str[strIter])
  }

  /** Whether the step over `str[strIter]` adds the leading-letter penalty:
      the pattern pointer is still at the start and the letter matches. */
  predicate ChargesLeading(pattern: seq<char>, str: seq<char>, st: State, strIter: nat)
    requires InBounds(pattern, str, st) && strIter < |str|
  {
    st.patternIter == 0 && (NextMatch(pattern, str, st, strIter) || Rematch(pattern, str, st, strIter))
  }

  /** `advanced || patternRepeat`: the best letter is settled, either because
      the pattern advances past it or because its letter is the next pattern
      letter again. */
  predicate Settles(pattern: seq<char>, str: seq<char>, st: State, strIter: nat)
    requires InBounds(pattern, str, st) && strIter < |str|
  {
    || (NextMatch(pattern, str, st, strIter) && st.bestLetter.Some?)
    || (st.bestLetter.Some? && PatternIterIsNotNull
        && ToLower(str[st.bestLetter.value]) == ToLower(Deref(pattern, st.patternIter)))
  }

  /** The test on line 65 as evidently meant, `*patternIter != '\0'`, settles
      the best letter in exactly the same steps: at the terminator the best
      letter, a character of a C string, never lowers to NUL. */
  lemma PointerGuardIsHarmless(pattern: seq<char>, str: seq<char>, st: State, strIter: nat)
    requires IsCString(str) && InBounds(pattern, str, st) && strIter < |str|
    ensures Settles(pattern, str, st, strIter) <==>
            || (NextMatch(pattern, str, st, strIter) && st.bestLetter.Some?)
            || (st.bestLetter.Some? && Deref(pattern, st.patternIter) != '\0'
                && ToLower(str[st.bestLetter.value]) == ToLower(Deref(pattern, st.patternIter)))
  {
    if st.bestLetter.Some? {
      ToLowerNul(str[st.bestLetter.value]);
    }
  }

  /** One iteration of the loop of the scored overload, over `str[strIter]`:
      lines 64-72 settle the best letter; on a match (lines 74-117) the first
      match pays the leading penalty, the pattern advances on a next match,
      and the letter becomes the best one when its candidate score is at
      least the best's, a displaced best letter costing the unmatched
      penalty; any other letter costs the unmatched penalty (lines 119-123). */
  function Step(pattern: seq<char>, str: seq<char>, st: State, strIter: nat): State
    requires InBounds(pattern, str, st) && strIter < |str|
  {
    var strLetter := str[strIter];
    var nextMatch := NextMatch(pattern, str, st, strIter);
    var prevLower := IsLower(strLetter);
    var prevSeparator := strLetter == '_' || strLetter == ' ';
    var settle := Settles(pattern, str, st, strIter);
    var score := if settle then st.score + st.bestLetterScore else st.score;
    var bestLetter := if settle then None else st.bestLetter;
    var bestLetterScore := if settle then 0 else st.bestLetterScore;
    if nextMatch || Rematch(pattern, str, st, strIter) then
      var score := if st.patternIter == 0 then score + LeadingPenalty(strIter) else score;
      var newScore := LetterScore(st.prevMatched, st.prevSeparator, st.prevLower && IsUpper(strLetter));
      var patternIter := if nextMatch then st.patternIter + 1 else st.patternIter;
      if newScore >= bestLetterScore then
        var score := if bestLetter.Some? then score + UnmatchedLetterPenalty else score;
        State(score, patternIter, true, prevLower, prevSeparator, Some(strIter), newScore)
      else
        State(score, patternIter, true, prevLower, prevSeparator, bestLetter, bestLetterScore)
    else
      State(score + UnmatchedLetterPenalty, st.patternIter, false, prevLower, prevSeparator, bestLetter, bestLetterScore)
  }

  /** What a single letter costs. A letter that is neither a next match nor
      a rematch costs exactly the unmatched penalty on top of settling the
      best letter, clears `prevMatched` and leaves the pattern pointer where
      it is. A matching letter that displaces a pending best letter costs
      the unmatched penalty too (plus the leading penalty on a first match).
      The pattern pointer advances by one exactly on a next match. */
  lemma StepCosts(pattern: seq<char>, str: seq<char>, st: State, k: nat)
    requires InBounds(pattern, str, st) && k < |str|
    ensures var next := Step(pattern, str, st, k);
            var settled := if Settles(pattern, str, st, k) then st.score + st.bestLetterScore else st.score;
            var leading := if st.patternIter == 0 then LeadingPenalty(k) else 0;
            && next.patternIter == (if NextMatch(pattern, str, st, k) then st.patternIter + 1 else st.patternIter)
            && next.prevMatched == (NextMatch(pattern, str, st, k) || Rematch(pattern, str, st, k))
            && (!next.prevMatched ==> next.score == settled + UnmatchedLetterPenalty)
            && (next.prevMatched && st.bestLetter.Some? && st.bestLetter.value < k && !Settles(pattern, str, st, k) && next.bestLetter == Some(k) ==>
                  next.score == st.score + leading + UnmatchedLetterPenalty)
  {
  }

  /** The loop state after the first `k` letters of `str`. */
  function Run(pattern: seq<char>, str: seq<char>, k: nat): (st: State)
    requires k <= |str|
    ensures st.patternIter <= |pattern|
    ensures st.bestLetter.Some? ==> st.bestLetter.value < k
  {
    if k == 0 then Start else Step(pattern, str, Run(pattern, str, k - 1), k - 1)
  }

  /** The score after the loop, once the last best letter is added. */
  function FinalScore(st: State): int
  {
    if st.bestLetter.Some? then st.score + st.bestLetterScore else st.score
  }

  /** The pattern pointer advances exactly as the greedy scan does, and a
      best letter lies before the current letter and exists only once a
      pattern letter has been consumed. */
  ghost predicate InvGreedy(pattern: seq<char>, str: seq<char>, k: nat, st: State)
    requires k <= |str|
  {
    && st.patternIter == |Greedy(pattern, str, ToLower, k)|
    && (st.bestLetter.Some? ==> st.bestLetter.value < k && 0 < st.patternIter)
  }

  /** Every candidate score lies in [0, 25], and it is 0 with no best letter. */
  predicate InvBest(st: State)
  {
    && 0 <= st.bestLetterScore <= MaxLetterScore
    && (st.bestLetter.None? ==> st.bestLetterScore == 0)
  }

  /** `prevLower` and `prevSeparator` describe the letter before `str[k]`; the
      first letter follows a virtual separator. */
  predicate InvTrack(str: seq<char>, k: nat, st: State)
    requires k <= |str|
  {
    && st.prevSeparator == (k == 0 || str[k - 1] == '_' || str[k - 1] == ' ')
    && st.prevLower == (0 < k && IsLower(str[k - 1]))
  }

  /** Before the first match every letter cost 1; afterwards the running score
      stays within [-9 - k, 25 * patternIter], counting a pending best letter
      at its largest possible score. */
  predicate InvScore(k: nat, st: State)
  {
    && (st.patternIter == 0 ==> st.score == -(k as int))
    && MaxLeadingLetterPenalty - k <= st.score
    && st.score + (if st.bestLetter.Some? then MaxLetterScore else 0) <= MaxLetterScore * st.patternIter
  }

  /** What holds of the loop state after `k` letters. */
  ghost predicate Inv(pattern: seq<char>, str: seq<char>, k: nat, st: State)
    requires k <= |str|
  {
    InvGreedy(pattern, str, k, st) && InvBest(st) && InvTrack(str, k, st) && InvScore(k, st)
  }

  /** A letter that rematches the best letter and also settles it through
      `patternRepeat` is a next match: the pattern pointer is not at the
      terminator, since no letter of a C string lowers to NUL. */
  lemma RepeatIsNextMatch(pattern: seq<char>, str: seq<char>, st: State, k: nat)
    requires IsCString(str) && InBounds(pattern, str, st) && k < |str|
    requires Rematch(pattern, str, st, k) && Settles(pattern, str, st, k)
    ensures NextMatch(pattern, str, st, k)
  {
    ToLowerNul(str[st.bestLetter.value]);
  }

  lemma StepKeepsGreedy(pattern: seq<char>, str: seq<char>, k: nat)
    requires IsCString(pattern) && IsCString(str) && k < |str|
    requires Inv(pattern, str, k, Run(pattern, str, k))
    ensures InvGreedy(pattern, str, k + 1, Run(pattern, str, k + 1))
  {
  }

  lemma StepKeepsBest(pattern: seq<char>, str: seq<char>, st: State, k: nat)
    requires InBounds(pattern, str, st) && k < |str| && InvBest(st)
    ensures InvBest(Step(pattern, str, st, k))
  {
  }

  lemma StepKeepsTrack(pattern: seq<char>, str: seq<char>, st: State, k: nat)
    requires InBounds(pattern, str, st) && k < |str|
    ensures InvTrack(str, k + 1, Step(pattern, str, st, k))
  {
  }

  lemma StepKeepsScore(pattern: seq<char>, str: seq<char>, st: State, k: nat)
    requires IsCString(str) && InBounds(pattern, str, st) && k < |str|
    requires st.bestLetter.Some? ==> 0 < st.patternIter
    requires InvBest(st) && InvScore(k, st)
    ensures InvScore(k + 1, Step(pattern, str, st, k))
  {
    if Rematch(pattern, str, st, k) && Settles(pattern, str, st, k) {
      RepeatIsNextMatch(pattern, str, st, k);
    }
  }

  /** The invariant holds of the loop state after every prefix of `str`. */
  lemma {:induction false} RunInvariant(pattern: seq<char>, str: seq<char>, k: nat)
    requires IsCString(pattern) && IsCString(str) && k <= |str|
    ensures Inv(pattern, str, k, Run(pattern, str, k))
  {
    if k > 0 {
      RunInvariant(pattern, str, k - 1);
      var st := Run(pattern, str, k - 1);
      StepKeepsGreedy(pattern, str, k - 1);
      StepKeepsBest(pattern, str, st, k - 1);
      StepKeepsTrack(pattern, str, st, k - 1);
      StepKeepsScore(pattern, str, st, k - 1);
    }
  }

  /** The leading-letter penalty is charged at exactly one step, the one at
      which the greedy scan consumes the first pattern letter; hence at most
      once, only while no pattern letter has been consumed, and its value is
      LeadingPenalty of that letter's index, which lies in [-9, 0]. */
  lemma LeadingPenaltyAtFirstMatch(pattern: seq<char>, str: seq<char>, i: nat)
    requires IsCString(pattern) && IsCString(str) && i < |str|
    ensures var g := Greedy(pattern, str, ToLower, |str|);
            ChargesLeading(pattern, str, Run(pattern, str, i), i) <==> 0 < |g| && g[0] == i
  {
    var takes := |Greedy(pattern, str, ToLower, i)| == 0 && 0 < |pattern| && ToLower(pattern[0]) == ToLower(str[i]);
    assert ChargesLeading(pattern, str, Run(pattern, str, i), i) <==> takes by {
      RunInvariant(pattern, str, i);
    }
    GreedyFirst(pattern, str, ToLower, i);
  }

  /** After the whole of `str` the pattern pointer has reached the terminator
      exactly when the pattern is a case-insensitive subsequence of `str`, and
      the final score then lies in [-9 - |str|, 25 * |pattern|]. */
  lemma Outcome(pattern: seq<char>, str: seq<char>)
    requires IsCString(pattern) && IsCString(str)
    ensures var st := Run(pattern, str, |str|);
            && (st.patternIter == |pattern| <==> IsSubseqCI(pattern, str, ToLower))
            && (st.patternIter == |pattern| ==>
                  MaxLeadingLetterPenalty - |str| <= FinalScore(st) <= MaxLetterScore * |pattern|)
  {
    RunInvariant(pattern, str, |str|);
    GreedyDecides(pattern, str, ToLower);
  }

  /** `fuzzy_match(pattern, str, outScore)`: the same answer as the simple
      overload; on a match `outScore` receives the score, otherwise it is left
      untouched. */
  method FuzzyMatchScored(pattern: seq<char>, str: seq<char>, outScore: int)
    returns (matched: bool, newOutScore: int)
    requires IsCString(pattern) && IsCString(str)
    ensures matched <==> IsSubseqCI(pattern, str, ToLower)
    ensures matched ==> newOutScore == FinalScore(Run(pattern, str, |str|))
    ensures matched ==> MaxLeadingLetterPenalty - |str| <= newOutScore <= MaxLetterScore * |pattern|
    ensures !matched ==> newOutScore == outScore
  {
    var score := 0;
    var patternIter := 0;
    var strIter := 0;
    var prevMatched := false;
    var prevLower := false;
    var prevSeparator := true;
    var bestLetter: Option<nat> := None;
    var bestLetterScore := 0;

    while Deref(str, strIter) != '\0'
      invariant strIter <= |str|
      invariant State(score, patternIter, prevMatched, prevLower, prevSeparator, bestLetter, bestLetterScore)
                == Run(pattern, str, strIter)
      decreases |str| - strIter
    {
      var patternLetter := Deref(pattern, patternIter);
      var strLetter := Deref(str, strIter);

      var nextMatch := patternLetter != '\0' && ToLower(patternLetter) == ToLower(strLetter);
      var rematch := bestLetter.Some? && ToLower(Deref(str, bestLetter.value)) == ToLower(strLetter);

      var advanced := nextMatch && bestLetter.Some?;
      var patternRepeat := bestLetter.Some? && PatternIterIsNotNull
                           && ToLower(Deref(str, bestLetter.value)) == ToLower(patternLetter);

      ghost var before := State(score, patternIter, prevMatched, prevLower, prevSeparator, bestLetter, bestLetterScore);
      assert nextMatch == NextMatch(pattern, str, before, strIter);
      assert rematch == Rematch(pattern, str, before, strIter);
      assert advanced || patternRepeat <==> Settles(pattern, str, before, strIter);
      if advanced || patternRepeat {
        score := score + bestLetterScore;
        bestLetter := None;
        bestLetterScore := 0;
      }

      if nextMatch || rematch {
        if patternIter == 0 {
          score := score + LeadingPenalty(strIter);
        }
        var newScore := LetterScore(prevMatched, prevSeparator, prevLower && IsUpper(strLetter));
        if nextMatch {
          patternIter := patternIter + 1;
        }
        if newScore >= bestLetterScore {
          if bestLetter.Some? {
            score := score + UnmatchedLetterPenalty;
          }
          bestLetter := Some(strIter);
          bestLetterScore := newScore;
        }
        prevMatched := true;
      } else {
        score := score + UnmatchedLetterPenalty;
        prevMatched := false;
      }

      prevLower := IsLower(strLetter);
      prevSeparator := strLetter == '_' || strLetter == ' ';
      ghost var after := Step(pattern, str, before, strIter);
      assert score == after.score;
      assert State(score, patternIter, prevMatched, prevLower, prevSeparator, bestLetter, bestLetterScore) == after;
      strIter := strIter + 1;
    }

    if bestLetter.Some? {
      score := score + bestLetterScore;
    }

    Outcome(pattern, str);
    if Deref(pattern, patternIter) != '\0' {
      return false, outScore;
    }
    return true, score;
  }
}
