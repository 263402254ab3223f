/** The JavaScript version code/fts_fuzzy_match.js: the simple matcher and the
    recursive scorer, which explores other placements of each matched letter
    by recursion and keeps the best score. `toLowerCase` and `toUpperCase` on
    a one-character string are the parameters `lower` and `upper`. */
module FuzzyMatchJs {
  import opened Optional
  import opened Subsequence

  // Score constants.
  const SequentialBonus := 15
  const SeparatorBonus := 30
  const CamelBonus := 30
  const FirstLetterBonus := 15
  const LeadingLetterPenalty := -5
  const MaxLeadingLetterPenalty := -15
  const UnmatchedLetterPenalty := -1
  /** The largest bonus one matched letter can earn. */
  const MaxLetterBonus := SequentialBonus + CamelBonus + SeparatorBonus

  /** The limits `fuzzyMatch` hands to the recursive scorer. */
  const RecursionLimit := 10
  const MaxMatches := 256

  /** The pair `[matched, score]` the scorers return. */
  datatype MatchResult = MatchResult(matched: bool, score: int)

  /** `fuzzyMatchSimple(pattern, str)`: true iff both strings are non-empty and
      each character of the pattern is found, in order and ignoring case,
      within `str`. */
  method FuzzyMatchSimple(pattern: seq<char>, str: seq<char>, lower: char -> char) returns (matched: bool)
    ensures matched <==> pattern != [] && str != [] && IsSubseqCI(pattern, str, lower)
  {
    var patternIdx := 0;
    var strIdx := 0;
    var patternLength := |pattern|;
    var strLength := |str|;

    while patternIdx != patternLength && strIdx != strLength
      invariant strIdx <= strLength
      invariant patternIdx == |Greedy(pattern, str, lower, strIdx)|
      decreases strLength - strIdx
    {
      var patternChar := lower(pattern[patternIdx]);
      var strChar := lower(str[strIdx]);
      if patternChar == strChar {
        patternIdx := patternIdx + 1;
      }
      strIdx := strIdx + 1;
    }
    if patternIdx == patternLength {
      GreedyComplete(pattern, str, lower, strIdx, strLength);
    }
    GreedyDecides(pattern, str, lower);
    matched := patternLength != 0 && strLength != 0 && patternIdx == patternLength;
  }

  /** Penalty for the letters of `str` before the first match, clamped. */
  function LeadingPenalty(first: nat): (penalty: int)
    ensures MaxLeadingLetterPenalty <= penalty <= 0
    ensures penalty == 0 <==> first == 0
    ensures 3 <= first ==> penalty == MaxLeadingLetterPenalty
  {
    var penalty := LeadingLetterPenalty * first;
    if penalty < MaxLeadingLetterPenalty then MaxLeadingLetterPenalty else penalty
  }

  /** The ordering bonus of the `i`-th matched position: adjacency to the
      previous match, then either the neighbour bonuses (camel case, which
      compares the characters with their own case-mapped forms, and
      separator) or, at the start of `str`, the first-letter bonus. */
  function LetterBonus(str: seq<char>, lower: char -> char, upper: char -> char, matches: seq<nat>, i: nat): (bonus: int)
    requires i < |matches| && Below(matches, |str|)
    ensures 0 <= bonus <= MaxLetterBonus
    ensures matches[i] == 0 ==> FirstLetterBonus <= bonus
  {
    var currIdx := matches[i];
    var sequential := if i > 0 && currIdx == matches[i - 1] + 1 then SequentialBonus else 0;
    if currIdx > 0 then
      var neighbor := str[currIdx - 1];
      var curr := str[currIdx];
      var camel := if neighbor == lower(neighbor) && curr == upper(curr) then CamelBonus else 0;
      var separator := if neighbor == '_' || neighbor == ' ' then SeparatorBonus else 0;
      sequential + camel + separator
    else
      sequential + FirstLetterBonus
  }

  /** The bonuses of the first `n` matched positions. */
  function BonusSum(str: seq<char>, lower: char -> char, upper: char -> char, matches: seq<nat>, n: nat): (sum: int)
    requires n <= |matches| && Below(matches, |str|)
    ensures 0 <= sum <= n * MaxLetterBonus
  {
    if n == 0 then 0
    else BonusSum(str, lower, upper, matches, n - 1) + LetterBonus(str, lower, upper, matches, n - 1)
  }

  /** The score one level of the recursion gives the positions `matches[..nextMatch]`:
      100, the leading penalty, one point per unmatched letter, the bonuses. */
  function OwnScore(str: seq<char>, lower: char -> char, upper: char -> char, matches: seq<nat>, nextMatch: nat): (outScore: int)
    requires 0 < nextMatch <= |matches| && Below(matches, |str|)
    ensures 100 + MaxLeadingLetterPenalty - (|str| - nextMatch) <= outScore
    ensures outScore <= 100 - (|str| - nextMatch) + nextMatch * MaxLetterBonus
  {
    100 + LeadingPenalty(matches[0]) + UnmatchedLetterPenalty * (|str| - nextMatch)
    + BonusSum(str, lower, upper, matches, nextMatch)
  }

  /** What the two callers of the recursive scorer guarantee about its
      arguments: the match count equals the pattern index, and the positions
      matched so far (in `srcMatces` for a recursive call, in `matches` for
      the outer one) are that many and lie before `strCurrIndex`. */
  predicate SearchArgs(pattern: seq<char>, str: seq<char>, patternCurIndex: nat, strCurrIndex: nat,
                       srcMatces: Option<seq<nat>>, matches: seq<nat>, nextMatch: nat)
  {
    && patternCurIndex <= |pattern| && strCurrIndex <= |str| && nextMatch == patternCurIndex
    && (srcMatces.Some? ==> |srcMatces.value| == nextMatch && Below(srcMatces.value, strCurrIndex))
    && (srcMatces.None? ==> |matches| == nextMatch && Below(matches, strCurrIndex))
  }

  /** The same facts at the head of the scorer's loop. Until a recursive call
      has copied `srcMatces` (`firstMatch` still set) no letter has matched
      at this level. */
  predicate ScanArgs(pattern: seq<char>, str: seq<char>, patternCurIndex: nat, strCurrIndex: nat,
                     srcMatces: Option<seq<nat>>, matches: seq<nat>, nextMatch: nat, firstMatch: bool)
  {
    && 0 < |pattern| && patternCurIndex <= |pattern| && strCurrIndex <= |str| && nextMatch == patternCurIndex
    && if firstMatch && srcMatces.Some? then
         |srcMatces.value| == nextMatch && Below(srcMatces.value, strCurrIndex) && patternCurIndex < |pattern|
       else
         |matches| == nextMatch && Below(matches, strCurrIndex)
  }

  /** The matched positions of the current level: the copy of `srcMatces`
      is taken at the first match. */
  function Current(srcMatces: Option<seq<nat>>, matches: seq<nat>, firstMatch: bool): seq<nat>
  {
    if firstMatch && srcMatces.Some? then srcMatces.value else matches
  }

  /** The result of `fuzzyMatchRecursive` with the given arguments: the two
      early exits, then the loop, `Scan`. */
  function Search(pattern: seq<char>, str: seq<char>, lower: char -> char, upper: char -> char,
                  patternCurIndex: nat, strCurrIndex: nat, srcMatces: Option<seq<nat>>, matches: seq<nat>,
                  maxMatches: int, nextMatch: nat, recursionCount: int, recursionLimit: int): (r: MatchResult)
    requires SearchArgs(pattern, str, patternCurIndex, strCurrIndex, srcMatces, matches, nextMatch)
    ensures !r.matched ==> r.score == 0
    decreases recursionLimit - recursionCount, 0, 0, 0
  {
    var recursionCount := recursionCount + 1;
    if recursionCount >= recursionLimit then MatchResult(false, 0)
    else if patternCurIndex == |pattern| || strCurrIndex == |str| then MatchResult(false, 0)
    else
      Scan(pattern, str, lower, upper, patternCurIndex, strCurrIndex, srcMatces, matches, maxMatches, nextMatch,
           recursionCount, recursionLimit, true, false, 0)
  }

  /** The result of the scorer's loop from the given loop state to the
      return: a letter that matches is handled by `Matched`, any other is
      skipped, and at the end of either string `Finish` returns. */
  function Scan(pattern: seq<char>, str: seq<char>, lower: char -> char, upper: char -> char,
                patternCurIndex: nat, strCurrIndex: nat, srcMatces: Option<seq<nat>>, matches: seq<nat>,
                maxMatches: int, nextMatch: nat, recursionCount: int, recursionLimit: int,
                firstMatch: bool, recursiveMatch: bool, bestRecursiveScore: int): (r: MatchResult)
    requires ScanArgs(pattern, str, patternCurIndex, strCurrIndex, srcMatces, matches, nextMatch, firstMatch)
    ensures !r.matched ==> r.score == 0
    decreases recursionLimit - recursionCount, 1, |str| - strCurrIndex, 1
  {
    if patternCurIndex < |pattern| && strCurrIndex < |str| then
      if lower(pattern[patternCurIndex]) == lower(str[strCurrIndex]) then
        Matched(pattern, str, lower, upper, patternCurIndex, strCurrIndex, srcMatces, matches,
                maxMatches, nextMatch, recursionCount, recursionLimit, firstMatch, recursiveMatch, bestRecursiveScore)
      else
        Scan(pattern, str, lower, upper, patternCurIndex, strCurrIndex + 1, srcMatces, matches,
             maxMatches, nextMatch, recursionCount, recursionLimit, firstMatch, recursiveMatch, bestRecursiveScore)
    else
      Finish(pattern, str, lower, upper, patternCurIndex, matches, nextMatch, recursiveMatch, bestRecursiveScore)
  }

  /** A letter matched: give up past `maxMatches`; otherwise copy the
      caller's matches on the first match, search the rest of `str` again
      for the same pattern letter by a recursive call, keep the best
      recursive score, match the letter here and go on. */
  function Matched(pattern: seq<char>, str: seq<char>, lower: char -> char, upper: char -> char,
                   patternCurIndex: nat, strCurrIndex: nat, srcMatces: Option<seq<nat>>, matches: seq<nat>,
                   maxMatches: int, nextMatch: nat, recursionCount: int, recursionLimit: int,
                   firstMatch: bool, recursiveMatch: bool, bestRecursiveScore: int): (r: MatchResult)
    requires ScanArgs(pattern, str, patternCurIndex, strCurrIndex, srcMatces, matches, nextMatch, firstMatch)
    requires patternCurIndex < |pattern| && strCurrIndex < |str|
    ensures !r.matched ==> r.score == 0
    decreases recursionLimit - recursionCount, 1, |str| - strCurrIndex, 0
  {
    if nextMatch >= maxMatches then MatchResult(false, 0)
    else
      var matches := Current(srcMatces, matches, firstMatch);
      var firstMatch := firstMatch && srcMatces.None?;
      var rec := Search(pattern, str, lower, upper, patternCurIndex, strCurrIndex + 1, Some(matches), [],
                        maxMatches, nextMatch, recursionCount, recursionLimit);
      var bestRecursiveScore :=
        if rec.matched && (!recursiveMatch || rec.score > bestRecursiveScore) then rec.score else bestRecursiveScore;
      var recursiveMatch := recursiveMatch || rec.matched;
      Scan(pattern, str, lower, upper, patternCurIndex + 1, strCurrIndex + 1, srcMatces, matches + [strCurrIndex],
           maxMatches, nextMatch + 1, recursionCount, recursionLimit, firstMatch, recursiveMatch, bestRecursiveScore)
  }

  /** After the loop: matched when the whole pattern has been consumed, and
      then the recursive score if it beats this level's own score. */
  function Finish(pattern: seq<char>, str: seq<char>, lower: char -> char, upper: char -> char,
                  patternCurIndex: nat, matches: seq<nat>, nextMatch: nat,
                  recursiveMatch: bool, bestRecursiveScore: int): (r: MatchResult)
    requires 0 < |pattern| && nextMatch == patternCurIndex
    requires patternCurIndex == |pattern| ==> |matches| == nextMatch && Below(matches, |str|)
    ensures r.matched <==> patternCurIndex == |pattern|
    ensures !r.matched ==> r.score == 0
    ensures r.matched ==>
              var own := OwnScore(str, lower, upper, matches, nextMatch);
              && own <= r.score
              && (recursiveMatch ==> bestRecursiveScore <= r.score)
              && (r.score == own || (recursiveMatch && r.score == bestRecursiveScore && own < bestRecursiveScore))
  {
    var matched := patternCurIndex == |pattern|;
    if matched then
      var outScore := OwnScore(str, lower, upper, matches, nextMatch);
      if recursiveMatch && (!matched || bestRecursiveScore > outScore) then MatchResult(true, bestRecursiveScore)
      else MatchResult(true, outScore)
    else MatchResult(false, 0)
  }

  /** The scoring part of `fuzzyMatchRecursive` (lines 152-197): 100, the
      clamped leading penalty, one point off per unmatched letter, and the
      bonus loop over the matched positions. It computes `OwnScore`. */
  method ScoreMatches(str: seq<char>, lower: char -> char, upper: char -> char, matches: seq<nat>, nextMatch: nat)
    returns (outScore: int)
    requires 0 < nextMatch <= |matches| && Below(matches, |str|)
    ensures outScore == OwnScore(str, lower, upper, matches, nextMatch)
  {
    outScore := 100;

    var penalty := LeadingLetterPenalty * matches[0];
    penalty := if penalty < MaxLeadingLetterPenalty then MaxLeadingLetterPenalty else penalty;
    outScore := outScore + penalty;

    var unmatched := |str| - nextMatch;
    outScore := outScore + UnmatchedLetterPenalty * unmatched;

    for i := 0 to nextMatch
      invariant outScore == 100 + LeadingPenalty(matches[0]) + UnmatchedLetterPenalty * unmatched
                            + BonusSum(str, lower, upper, matches, i)
    {
      var currIdx := matches[i];

      if i > 0 {
        var prevIdx := matches[i - 1];
        if currIdx == prevIdx + 1 {
          outScore := outScore + SequentialBonus;
        }
      }

      if currIdx > 0 {
        var neighbor := str[currIdx - 1];
        var curr := str[currIdx];
        if neighbor == lower(neighbor) && curr == upper(curr) {
          outScore := outScore + CamelBonus;
        }
        var isNeighbourSeparator := neighbor == '_' || neighbor == ' ';
        if isNeighbourSeparator {
          outScore := outScore + SeparatorBonus;
        }
      } else {
        outScore := outScore + FirstLetterBonus;
      }
    }
  }

  /** `fuzzyMatchRecursive`: computes `Search` by the source's loop and its
      recursive calls. The array the source passes for the callee's matches
      is never written by the callee (its first match replaces it by a copy
      of `srcMatces`), so only the pair `[matched, score]` comes back. */
  method FuzzyMatchRecursive(pattern: seq<char>, str: seq<char>, lower: char -> char, upper: char -> char,
                             patternCurIndex: nat, strCurrIndex: nat, srcMatces: Option<seq<nat>>, matches: seq<nat>,
                             maxMatches: int, nextMatch: nat, recursionCount: int, recursionLimit: int)
    returns (r: MatchResult)
    requires SearchArgs(pattern, str, patternCurIndex, strCurrIndex, srcMatces, matches, nextMatch)
    requires nextMatch <= maxMatches && Increasing(matches) && (srcMatces.Some? ==> Increasing(srcMatces.value))
    ensures r == Search(pattern, str, lower, upper, patternCurIndex, strCurrIndex, srcMatces, matches,
                        maxMatches, nextMatch, recursionCount, recursionLimit)
    decreases recursionLimit - recursionCount
  {
    ghost var answer := Search(pattern, str, lower, upper, patternCurIndex, strCurrIndex, srcMatces, matches,
                               maxMatches, nextMatch, recursionCount, recursionLimit);
    var outScore := 0;

    var recursionCount := recursionCount + 1;
    if recursionCount >= recursionLimit {
      return MatchResult(false, outScore);
    }

    if patternCurIndex == |pattern| || strCurrIndex == |str| {
      return MatchResult(false, outScore);
    }

    var recursiveMatch := false;
    var bestRecursiveScore := 0;

    var firstMatch := true;
    var patternCurIndex: nat, strCurrIndex: nat, matches: seq<nat>, nextMatch: nat := patternCurIndex, strCurrIndex, matches, nextMatch;
    while patternCurIndex < |pattern| && strCurrIndex < |str|
      invariant ScanArgs(pattern, str, patternCurIndex, strCurrIndex, srcMatces, matches, nextMatch, firstMatch)
      invariant nextMatch <= maxMatches && Increasing(matches)
      invariant Scan(pattern, str, lower, upper, patternCurIndex, strCurrIndex, srcMatces, matches, maxMatches, nextMatch,
                     recursionCount, recursionLimit, firstMatch, recursiveMatch, bestRecursiveScore)
                == answer
      decreases |str| - strCurrIndex
    {
      if lower(pattern[patternCurIndex]) == lower(str[strCurrIndex]) {
        if nextMatch >= maxMatches {
          return MatchResult(false, outScore);
        }
        ScanMatchStep(pattern, str, lower, upper, patternCurIndex, strCurrIndex, srcMatces, matches, maxMatches,
                      nextMatch, recursionCount, recursionLimit, firstMatch, recursiveMatch, bestRecursiveScore);
        ghost var current := Current(srcMatces, matches, firstMatch);
        ghost var nextFirstMatch := firstMatch && srcMatces.None?;

        if firstMatch && srcMatces.Some? {
          matches := srcMatces.value;
          firstMatch := false;
        }
        assert matches == current && firstMatch == nextFirstMatch;

        var recursiveMatches: seq<nat> := [];
        var rec := FuzzyMatchRecursive(pattern, str, lower, upper, patternCurIndex, strCurrIndex + 1, Some(matches),
                                       recursiveMatches, maxMatches, nextMatch, recursionCount, recursionLimit);
        ghost var best := if rec.matched && (!recursiveMatch || rec.score > bestRecursiveScore) then rec.score else bestRecursiveScore;

        if rec.matched {
          if !recursiveMatch || rec.score > bestRecursiveScore {
            bestRecursiveScore := rec.score;
          }
          recursiveMatch := true;
        }
        assert bestRecursiveScore == best;

        // `matches[nextMatch++] = strCurrIndex` writes just past the end.
        AppendIncreasing(matches, strCurrIndex, |str|);
        matches := matches + [strCurrIndex];
        nextMatch := nextMatch + 1;
        patternCurIndex := patternCurIndex + 1;
      } else {
        ScanSkipStep(pattern, str, lower, upper, patternCurIndex, strCurrIndex, srcMatces, matches, maxMatches,
                     nextMatch, recursionCount, recursionLimit, firstMatch, recursiveMatch, bestRecursiveScore);
      }
      strCurrIndex := strCurrIndex + 1;
    }

    var matched := patternCurIndex == |pattern|;

    if matched {
      outScore := ScoreMatches(str, lower, upper, matches, nextMatch);

      // The source's last branch, `[false, outScore]`, cannot be taken: `matched` holds here.
      if recursiveMatch && (!matched || bestRecursiveScore > outScore) {
        outScore := bestRecursiveScore;
        return MatchResult(true, outScore);
      } else if matched {
        return MatchResult(true, outScore);
      }
    }
    return MatchResult(false, outScore);
  }

  /** `fuzzyMatch(pattern, str)`: the recursive scorer from the start of
      both strings, with no copied matches and the fixed limits. */
  method FuzzyMatch(pattern: seq<char>, str: seq<char>, lower: char -> char, upper: char -> char) returns (r: MatchResult)
    ensures r == TopLevel(pattern, str, lower, upper)
    ensures r.matched <==> 0 < |pattern| <= MaxMatches && 0 < |str| && IsSubseqCI(pattern, str, lower)
    ensures !r.matched ==> r.score == 0
    ensures r.matched ==> Achieves(pattern, str, lower, upper, r.score)
    ensures r.matched ==> var g := Greedy(pattern, str, lower, |str|);
                          |g| == |pattern| && r.score >= OwnScore(str, lower, upper, g, |pattern|)
  {
    var recursionCount := 0;
    var recursionLimit := RecursionLimit;
    var matches: seq<nat> := [];
    var maxMatches := MaxMatches;

    r := FuzzyMatchRecursive(pattern, str, lower, upper, 0, 0, None, matches, maxMatches, 0, recursionCount, recursionLimit);
    FuzzyMatchOutcome(pattern, str, lower, upper);
  }

  /** The result `fuzzyMatch` returns. */
  function TopLevel(pattern: seq<char>, str: seq<char>, lower: char -> char, upper: char -> char): (r: MatchResult)
    ensures pattern == [] || str == [] ==> !r.matched
    ensures !r.matched ==> r.score == 0
  {
    Search(pattern, str, lower, upper, 0, 0, None, [], MaxMatches, 0, 0, RecursionLimit)
  }

  /** The score of some placement of the whole pattern in `str`. */
  ghost predicate Achieves(pattern: seq<char>, str: seq<char>, lower: char -> char, upper: char -> char, score: int)
  {
    exists m :: Embeds(pattern, str, lower, m) && 0 < |m| && Below(m, |str|) && score == OwnScore(str, lower, upper, m, |m|)
  }

  /** `m` places the first `n` pattern letters in `str`, in increasing order. */
  ghost predicate PrefixEmbeds(pattern: seq<char>, str: seq<char>, lower: char -> char, m: seq<nat>, n: nat)
  {
    && n <= |pattern| && |m| == n && Below(m, |str|) && Increasing(m)
    && forall j :: 0 <= j < n ==> lower(pattern[j]) == lower(str[m[j]])
  }

  /** A placement of a pattern prefix extends by a matching later letter. */
  lemma PrefixEmbedsAppend(pattern: seq<char>, str: seq<char>, lower: char -> char, m: seq<nat>, n: nat, i: nat)
    requires PrefixEmbeds(pattern, str, lower, m, n) && n < |pattern| && i < |str| && Below(m, i)
    requires lower(pattern[n]) == lower(str[i])
    ensures PrefixEmbeds(pattern, str, lower, m + [i], n + 1)
  {
    AppendIncreasing(m, i, |str|);
  }

  /** `Matched` below the match limit, unfolded once. */
  lemma MatchedStep(pattern: seq<char>, str: seq<char>, lower: char -> char, upper: char -> char,
                    patternCurIndex: nat, strCurrIndex: nat, srcMatces: Option<seq<nat>>, matches: seq<nat>,
                    maxMatches: int, nextMatch: nat, recursionCount: int, recursionLimit: int,
                    firstMatch: bool, recursiveMatch: bool, bestRecursiveScore: int)
    requires ScanArgs(pattern, str, patternCurIndex, strCurrIndex, srcMatces, matches, nextMatch, firstMatch)
    requires patternCurIndex < |pattern| && strCurrIndex < |str| && nextMatch < maxMatches
    ensures var current := Current(srcMatces, matches, firstMatch);
            var rec := Search(pattern, str, lower, upper, patternCurIndex, strCurrIndex + 1, Some(current), [],
                              maxMatches, nextMatch, recursionCount, recursionLimit);
            Matched(pattern, str, lower, upper, patternCurIndex, strCurrIndex, srcMatces, matches, maxMatches,
                    nextMatch, recursionCount, recursionLimit, firstMatch, recursiveMatch, bestRecursiveScore)
            == Scan(pattern, str, lower, upper, patternCurIndex + 1, strCurrIndex + 1, srcMatces, current + [strCurrIndex],
                    maxMatches, nextMatch + 1, recursionCount, recursionLimit, firstMatch && srcMatces.None?,
                    recursiveMatch || rec.matched,
                    if rec.matched && (!recursiveMatch || rec.score > bestRecursiveScore) then rec.score else bestRecursiveScore)
  {
  }

  /** The loop over a matching letter below the match limit, unfolded once. */
  lemma ScanMatchStep(pattern: seq<char>, str: seq<char>, lower: char -> char, upper: char -> char,
                      patternCurIndex: nat, strCurrIndex: nat, srcMatces: Option<seq<nat>>, matches: seq<nat>,
                      maxMatches: int, nextMatch: nat, recursionCount: int, recursionLimit: int,
                      firstMatch: bool, recursiveMatch: bool, bestRecursiveScore: int)
    requires ScanArgs(pattern, str, patternCurIndex, strCurrIndex, srcMatces, matches, nextMatch, firstMatch)
    requires patternCurIndex < |pattern| && strCurrIndex < |str| && nextMatch < maxMatches
    requires lower(pattern[patternCurIndex]) == lower(str[strCurrIndex])
    ensures var current := Current(srcMatces, matches, firstMatch);
            var rec := Search(pattern, str, lower, upper, patternCurIndex, strCurrIndex + 1, Some(current), [],
                              maxMatches, nextMatch, recursionCount, recursionLimit);
            Scan(pattern, str, lower, upper, patternCurIndex, strCurrIndex, srcMatces, matches, maxMatches,
                 nextMatch, recursionCount, recursionLimit, firstMatch, recursiveMatch, bestRecursiveScore)
            == Scan(pattern, str, lower, upper, patternCurIndex + 1, strCurrIndex + 1, srcMatces, current + [strCurrIndex],
                    maxMatches, nextMatch + 1, recursionCount, recursionLimit, firstMatch && srcMatces.None?,
                    recursiveMatch || rec.matched,
                    if rec.matched && (!recursiveMatch || rec.score > bestRecursiveScore) then rec.score else bestRecursiveScore)
  {
  }

  /** The loop over a letter that does not match, unfolded once. */
  lemma ScanSkipStep(pattern: seq<char>, str: seq<char>, lower: char -> char, upper: char -> char,
                     patternCurIndex: nat, strCurrIndex: nat, srcMatces: Option<seq<nat>>, matches: seq<nat>,
                     maxMatches: int, nextMatch: nat, recursionCount: int, recursionLimit: int,
                     firstMatch: bool, recursiveMatch: bool, bestRecursiveScore: int)
    requires ScanArgs(pattern, str, patternCurIndex, strCurrIndex, srcMatces, matches, nextMatch, firstMatch)
    requires patternCurIndex < |pattern| && strCurrIndex < |str|
    requires lower(pattern[patternCurIndex]) != lower(str[strCurrIndex])
    ensures Scan(pattern, str, lower, upper, patternCurIndex, strCurrIndex, srcMatces, matches, maxMatches,
                 nextMatch, recursionCount, recursionLimit, firstMatch, recursiveMatch, bestRecursiveScore)
            == Scan(pattern, str, lower, upper, patternCurIndex, strCurrIndex + 1, srcMatces, matches, maxMatches,
                    nextMatch, recursionCount, recursionLimit, firstMatch, recursiveMatch, bestRecursiveScore)
  {
  }

  /** The loop keeps the best recursive score: once some recursive call has
      matched, a level that matches scores no less than the best recursive
      score kept so far. */
  lemma {:induction false} ScanKeepsBest(pattern: seq<char>, str: seq<char>, lower: char -> char, upper: char -> char,
                                         patternCurIndex: nat, strCurrIndex: nat, srcMatces: Option<seq<nat>>, matches: seq<nat>,
                                         maxMatches: int, nextMatch: nat, recursionCount: int, recursionLimit: int,
                                         firstMatch: bool, recursiveMatch: bool, bestRecursiveScore: int)
    requires ScanArgs(pattern, str, patternCurIndex, strCurrIndex, srcMatces, matches, nextMatch, firstMatch)
    ensures var r := Scan(pattern, str, lower, upper, patternCurIndex, strCurrIndex, srcMatces, matches, maxMatches,
                          nextMatch, recursionCount, recursionLimit, firstMatch, recursiveMatch, bestRecursiveScore);
            r.matched && recursiveMatch ==> bestRecursiveScore <= r.score
    decreases |str| - strCurrIndex
  {
    if patternCurIndex < |pattern| && strCurrIndex < |str| {
      if lower(pattern[patternCurIndex]) != lower(str[strCurrIndex]) {
        ScanSkipStep(pattern, str, lower, upper, patternCurIndex, strCurrIndex, srcMatces, matches, maxMatches,
                     nextMatch, recursionCount, recursionLimit, firstMatch, recursiveMatch, bestRecursiveScore);
        ScanKeepsBest(pattern, str, lower, upper, patternCurIndex, strCurrIndex + 1, srcMatces, matches, maxMatches,
                      nextMatch, recursionCount, recursionLimit, firstMatch, recursiveMatch, bestRecursiveScore);
      } else if nextMatch < maxMatches {
        var current := Current(srcMatces, matches, firstMatch);
        var rec := Search(pattern, str, lower, upper, patternCurIndex, strCurrIndex + 1, Some(current), [],
                          maxMatches, nextMatch, recursionCount, recursionLimit);
        var best := if rec.matched && (!recursiveMatch || rec.score > bestRecursiveScore) then rec.score else bestRecursiveScore;
        ScanMatchStep(pattern, str, lower, upper, patternCurIndex, strCurrIndex, srcMatces, matches, maxMatches,
                      nextMatch, recursionCount, recursionLimit, firstMatch, recursiveMatch, bestRecursiveScore);
        assert Below(current, strCurrIndex);
        ScanKeepsBest(pattern, str, lower, upper, patternCurIndex + 1, strCurrIndex + 1, srcMatces, current + [strCurrIndex],
                      maxMatches, nextMatch + 1, recursionCount, recursionLimit, firstMatch && srcMatces.None?,
                      recursiveMatch || rec.matched, best);
      }
    }
  }

  /** At a matching letter below the match limit, the recursive call that
      tries the same pattern letter further on cannot beat the level: when
      both match, the level scores at least what the call scored. */
  lemma MatchedKeepsChild(pattern: seq<char>, str: seq<char>, lower: char -> char, upper: char -> char,
                          patternCurIndex: nat, strCurrIndex: nat, srcMatces: Option<seq<nat>>, matches: seq<nat>,
                          maxMatches: int, nextMatch: nat, recursionCount: int, recursionLimit: int,
                          firstMatch: bool, recursiveMatch: bool, bestRecursiveScore: int)
    requires ScanArgs(pattern, str, patternCurIndex, strCurrIndex, srcMatces, matches, nextMatch, firstMatch)
    requires patternCurIndex < |pattern| && strCurrIndex < |str| && nextMatch < maxMatches
    ensures var rec := Search(pattern, str, lower, upper, patternCurIndex, strCurrIndex + 1,
                              Some(Current(srcMatces, matches, firstMatch)), [],
                              maxMatches, nextMatch, recursionCount, recursionLimit);
            var r := Matched(pattern, str, lower, upper, patternCurIndex, strCurrIndex, srcMatces, matches, maxMatches,
                             nextMatch, recursionCount, recursionLimit, firstMatch, recursiveMatch, bestRecursiveScore);
            rec.matched && r.matched ==> rec.score <= r.score
  {
    var current := Current(srcMatces, matches, firstMatch);
    var rec := Search(pattern, str, lower, upper, patternCurIndex, strCurrIndex + 1, Some(current), [],
                      maxMatches, nextMatch, recursionCount, recursionLimit);
    var best := if rec.matched && (!recursiveMatch || rec.score > bestRecursiveScore) then rec.score else bestRecursiveScore;
    MatchedStep(pattern, str, lower, upper, patternCurIndex, strCurrIndex, srcMatces, matches, maxMatches,
                nextMatch, recursionCount, recursionLimit, firstMatch, recursiveMatch, bestRecursiveScore);
    assert Below(current, strCurrIndex);
    ScanKeepsBest(pattern, str, lower, upper, patternCurIndex + 1, strCurrIndex + 1, srcMatces, current + [strCurrIndex],
                  maxMatches, nextMatch + 1, recursionCount, recursionLimit, firstMatch && srcMatces.None?,
                  recursiveMatch || rec.matched, best);
  }

  /** At the outer level the loop is the greedy scan: the positions matched
      so far are `Greedy`'s. The loop then completes the pattern exactly when
      the scan consumes all of it without exceeding `maxMatches`, and the
      level's answer is at least the score of the greedy placement. */
  lemma {:induction false} TopScanDecides(pattern: seq<char>, str: seq<char>, lower: char -> char, upper: char -> char,
                                          patternCurIndex: nat, strCurrIndex: nat, matches: seq<nat>, maxMatches: int,
                                          recursionCount: int, recursionLimit: int,
                                          firstMatch: bool, recursiveMatch: bool, bestRecursiveScore: int)
    requires 0 < |pattern| && strCurrIndex <= |str|
    requires matches == Greedy(pattern, str, lower, strCurrIndex) && patternCurIndex == |matches| <= maxMatches
    ensures var r := Scan(pattern, str, lower, upper, patternCurIndex, strCurrIndex, None, matches, maxMatches, patternCurIndex,
                          recursionCount, recursionLimit, firstMatch, recursiveMatch, bestRecursiveScore);
            var g := Greedy(pattern, str, lower, |str|);
            && (r.matched <==> |g| == |pattern| && |pattern| <= maxMatches)
            && (r.matched ==> |g| == |pattern| && r.score >= OwnScore(str, lower, upper, g, |pattern|))
    decreases |str| - strCurrIndex, 1
  {
    if patternCurIndex < |pattern| && strCurrIndex < |str| {
      GreedyStep(pattern, str, lower, strCurrIndex);
      if lower(pattern[patternCurIndex]) == lower(str[strCurrIndex]) {
        TopMatchedDecides(pattern, str, lower, upper, patternCurIndex, strCurrIndex, matches, maxMatches,
                          recursionCount, recursionLimit, firstMatch, recursiveMatch, bestRecursiveScore);
      } else {
        ScanSkipStep(pattern, str, lower, upper, patternCurIndex, strCurrIndex, None, matches, maxMatches, patternCurIndex,
                     recursionCount, recursionLimit, firstMatch, recursiveMatch, bestRecursiveScore);
        TopScanDecides(pattern, str, lower, upper, patternCurIndex, strCurrIndex + 1, matches, maxMatches,
                       recursionCount, recursionLimit, firstMatch, recursiveMatch, bestRecursiveScore);
      }
    } else if patternCurIndex == |pattern| {
      GreedyComplete(pattern, str, lower, strCurrIndex, |str|);
    }
  }

  /** The step of `TopScanDecides` at a matching letter. */
  lemma {:induction false} TopMatchedDecides(pattern: seq<char>, str: seq<char>, lower: char -> char, upper: char -> char,
                                             patternCurIndex: nat, strCurrIndex: nat, matches: seq<nat>, maxMatches: int,
                                             recursionCount: int, recursionLimit: int,
                                             firstMatch: bool, recursiveMatch: bool, bestRecursiveScore: int)
    requires strCurrIndex < |str|
    requires matches == Greedy(pattern, str, lower, strCurrIndex) && patternCurIndex == |matches| <= maxMatches
    requires patternCurIndex < |pattern| && lower(pattern[patternCurIndex]) == lower(str[strCurrIndex])
    ensures var r := Scan(pattern, str, lower, upper, patternCurIndex, strCurrIndex, None, matches, maxMatches, patternCurIndex,
                          recursionCount, recursionLimit, firstMatch, recursiveMatch, bestRecursiveScore);
            var g := Greedy(pattern, str, lower, |str|);
            && (r.matched <==> |g| == |pattern| && |pattern| <= maxMatches)
            && (r.matched ==> |g| == |pattern| && r.score >= OwnScore(str, lower, upper, g, |pattern|))
    decreases |str| - strCurrIndex, 0
  {
    if patternCurIndex < maxMatches {
      GreedyStep(pattern, str, lower, strCurrIndex);
      ScanMatchStep(pattern, str, lower, upper, patternCurIndex, strCurrIndex, None, matches, maxMatches, patternCurIndex,
                    recursionCount, recursionLimit, firstMatch, recursiveMatch, bestRecursiveScore);
      var rec := Search(pattern, str, lower, upper, patternCurIndex, strCurrIndex + 1, Some(matches), [],
                        maxMatches, patternCurIndex, recursionCount, recursionLimit);
      TopScanDecides(pattern, str, lower, upper, patternCurIndex + 1, strCurrIndex + 1, matches + [strCurrIndex],
                     maxMatches, recursionCount, recursionLimit, firstMatch, recursiveMatch || rec.matched,
                     if rec.matched && (!recursiveMatch || rec.score > bestRecursiveScore) then rec.score else bestRecursiveScore);
    }
  }

  /** Every score a call returns with `matched` set is the score of a real
      placement of the whole pattern, provided the matches it inherits place
      the pattern's prefix. */
  lemma SearchAchieves(pattern: seq<char>, str: seq<char>, lower: char -> char, upper: char -> char,
                       patternCurIndex: nat, strCurrIndex: nat, srcMatces: Option<seq<nat>>, matches: seq<nat>,
                       maxMatches: int, nextMatch: nat, recursionCount: int, recursionLimit: int)
    requires SearchArgs(pattern, str, patternCurIndex, strCurrIndex, srcMatces, matches, nextMatch)
    requires PrefixEmbeds(pattern, str, lower, if srcMatces.Some? then srcMatces.value else matches, patternCurIndex)
    ensures var r := Search(pattern, str, lower, upper, patternCurIndex, strCurrIndex, srcMatces, matches,
                            maxMatches, nextMatch, recursionCount, recursionLimit);
            r.matched ==> Achieves(pattern, str, lower, upper, r.score)
    decreases recursionLimit - recursionCount, 0, 0, 0
  {
    if recursionCount + 1 < recursionLimit && patternCurIndex < |pattern| && strCurrIndex < |str| {
      ScanAchieves(pattern, str, lower, upper, patternCurIndex, strCurrIndex, srcMatces, matches, maxMatches, nextMatch,
                   recursionCount + 1, recursionLimit, true, false, 0);
    }
  }

  /** The same for the loop, given that a recursive score kept so far is one. */
  lemma ScanAchieves(pattern: seq<char>, str: seq<char>, lower: char -> char, upper: char -> char,
                     patternCurIndex: nat, strCurrIndex: nat, srcMatces: Option<seq<nat>>, matches: seq<nat>,
                     maxMatches: int, nextMatch: nat, recursionCount: int, recursionLimit: int,
                     firstMatch: bool, recursiveMatch: bool, bestRecursiveScore: int)
    requires ScanArgs(pattern, str, patternCurIndex, strCurrIndex, srcMatces, matches, nextMatch, firstMatch)
    requires PrefixEmbeds(pattern, str, lower, Current(srcMatces, matches, firstMatch), patternCurIndex)
    requires recursiveMatch ==> Achieves(pattern, str, lower, upper, bestRecursiveScore)
    ensures var r := Scan(pattern, str, lower, upper, patternCurIndex, strCurrIndex, srcMatces, matches, maxMatches,
                          nextMatch, recursionCount, recursionLimit, firstMatch, recursiveMatch, bestRecursiveScore);
            r.matched ==> Achieves(pattern, str, lower, upper, r.score)
    decreases recursionLimit - recursionCount, 1, |str| - strCurrIndex, 1
  {
    if patternCurIndex < |pattern| && strCurrIndex < |str| {
      if lower(pattern[patternCurIndex]) == lower(str[strCurrIndex]) {
        MatchedAchieves(pattern, str, lower, upper, patternCurIndex, strCurrIndex, srcMatces, matches,
                        maxMatches, nextMatch, recursionCount, recursionLimit, firstMatch, recursiveMatch, bestRecursiveScore);
      } else {
        ScanAchieves(pattern, str, lower, upper, patternCurIndex, strCurrIndex + 1, srcMatces, matches,
                     maxMatches, nextMatch, recursionCount, recursionLimit, firstMatch, recursiveMatch, bestRecursiveScore);
      }
    } else if patternCurIndex == |pattern| {
      assert Embeds(pattern, str, lower, matches);
    }
  }

  /** The same for a matching letter. */
  lemma MatchedAchieves(pattern: seq<char>, str: seq<char>, lower: char -> char, upper: char -> char,
                        patternCurIndex: nat, strCurrIndex: nat, srcMatces: Option<seq<nat>>, matches: seq<nat>,
                        maxMatches: int, nextMatch: nat, recursionCount: int, recursionLimit: int,
                        firstMatch: bool, recursiveMatch: bool, bestRecursiveScore: int)
    requires ScanArgs(pattern, str, patternCurIndex, strCurrIndex, srcMatces, matches, nextMatch, firstMatch)
    requires patternCurIndex < |pattern| && strCurrIndex < |str|
    requires lower(pattern[patternCurIndex]) == lower(str[strCurrIndex])
    requires PrefixEmbeds(pattern, str, lower, Current(srcMatces, matches, firstMatch), patternCurIndex)
    requires recursiveMatch ==> Achieves(pattern, str, lower, upper, bestRecursiveScore)
    ensures var r := Matched(pattern, str, lower, upper, patternCurIndex, strCurrIndex, srcMatces, matches, maxMatches,
                             nextMatch, recursionCount, recursionLimit, firstMatch, recursiveMatch, bestRecursiveScore);
            r.matched ==> Achieves(pattern, str, lower, upper, r.score)
    decreases recursionLimit - recursionCount, 1, |str| - strCurrIndex, 0
  {
    if nextMatch < maxMatches {
      var current := Current(srcMatces, matches, firstMatch);
      var rec := Search(pattern, str, lower, upper, patternCurIndex, strCurrIndex + 1, Some(current), [],
                        maxMatches, nextMatch, recursionCount, recursionLimit);
      SearchAchieves(pattern, str, lower, upper, patternCurIndex, strCurrIndex + 1, Some(current), [],
                     maxMatches, nextMatch, recursionCount, recursionLimit);
      var best := if rec.matched && (!recursiveMatch || rec.score > bestRecursiveScore) then rec.score else bestRecursiveScore;
      MatchedStep(pattern, str, lower, upper, patternCurIndex, strCurrIndex, srcMatces, matches,
                  maxMatches, nextMatch, recursionCount, recursionLimit, firstMatch, recursiveMatch, bestRecursiveScore);
      assert PrefixEmbeds(pattern, str, lower, current + [strCurrIndex], patternCurIndex + 1) by {
        assert Below(current, strCurrIndex);
        PrefixEmbedsAppend(pattern, str, lower, current, patternCurIndex, strCurrIndex);
      }
      assert Current(srcMatces, current + [strCurrIndex], firstMatch && srcMatces.None?) == current + [strCurrIndex];
      ScanAchieves(pattern, str, lower, upper, patternCurIndex + 1, strCurrIndex + 1, srcMatces, current + [strCurrIndex],
                   maxMatches, nextMatch + 1, recursionCount, recursionLimit, firstMatch && srcMatces.None?,
                   recursiveMatch || rec.matched, best);
    }
  }

  /** What `fuzzyMatch` promises: it matches exactly when both strings are
      non-empty, the pattern has at most `MaxMatches` letters and occurs in
      `str` ignoring case; a failure scores 0; a success scores some
      placement of the pattern, and no less than the greedy placement. */
  lemma FuzzyMatchOutcome(pattern: seq<char>, str: seq<char>, lower: char -> char, upper: char -> char)
    ensures var r := TopLevel(pattern, str, lower, upper);
            && (r.matched <==> 0 < |pattern| <= MaxMatches && 0 < |str| && IsSubseqCI(pattern, str, lower))
            && (!r.matched ==> r.score == 0)
            && (r.matched ==> Achieves(pattern, str, lower, upper, r.score))
            && (r.matched ==> var g := Greedy(pattern, str, lower, |str|);
                              |g| == |pattern| && r.score >= OwnScore(str, lower, upper, g, |pattern|))
  {
    EmptyCases(pattern, str, lower);
    GreedyDecides(pattern, str, lower);
    SearchAchieves(pattern, str, lower, upper, 0, 0, None, [], MaxMatches, 0, 0, RecursionLimit);
    if 0 < |pattern| && 0 < |str| {
      TopScanDecides(pattern, str, lower, upper, 0, 0, [], MaxMatches, 1, RecursionLimit, true, false, 0);
    }
  }
}
