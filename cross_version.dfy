/** The C++ and the C# single-pass scorers are one algorithm written twice:
    on C strings, with the C# case maps taken to be the ASCII ones of
    <ctype.h>, they pass through the same loop states and return the same
    answer and the same score. */
module CrossVersion {
  import opened CType
  import Cpp = FuzzyMatchCpp
  import Cs = FuzzyMatchCs

  /** The two loop states agree on every variable the C++ code keeps; the
      C++ `bestLetter` pointer is the C# `bestLetterIdx`. */
  predicate Agree(a: Cpp.State, b: Cs.State)
  {
    && a.score == b.score
    && a.patternIter == b.patternIdx
    && a.prevMatched == b.prevMatched
    && a.prevLower == b.prevLower
    && a.prevSeparator == b.prevSeparator
    && a.bestLetter == b.bestLetterIdx
    && a.bestLetterScore == b.bestLetterScore
  }

  /** In agreeing states the two versions take the same branches over a
      character: the same next-match, rematch and settling tests, and the
      same case classes. */
  lemma TestsAgree(pattern: seq<char>, str: seq<char>, a: Cpp.State, b: Cs.State, k: nat)
    requires Cpp.IsCString(pattern) && Cpp.IsCString(str) && k < |str|
    requires Cpp.InBounds(pattern, str, a) && Cs.InBounds(pattern, b)
    requires Cs.InvBest(pattern, str, ToLower, k, b)
    requires Agree(a, b)
    ensures Cpp.NextMatch(pattern, str, a, k) == Cs.NextMatch(pattern, str, ToLower, b, k)
    ensures Cpp.Rematch(pattern, str, a, k) == Cs.Rematch(str, ToLower, b, k)
    ensures Cpp.Settles(pattern, str, a, k) == Cs.Settles(pattern, str, ToLower, b, k)
    ensures IsLower(str[k]) == (str[k] == ToLower(str[k]) && ToLower(str[k]) != ToUpper(str[k]))
    ensures IsUpper(str[k]) == (str[k] == ToUpper(str[k]) && ToLower(str[k]) != ToUpper(str[k]))
  {
    Cpp.PointerGuardIsHarmless(pattern, str, a, k);
    IsUpperByCaseMaps(str[k]);
    IsLowerByCaseMaps(str[k]);
  }

  /** One character moves agreeing states to agreeing states. */
  lemma StepsAgree(pattern: seq<char>, str: seq<char>, a: Cpp.State, b: Cs.State, k: nat)
    requires Cpp.IsCString(pattern) && Cpp.IsCString(str) && k < |str|
    requires Cpp.InBounds(pattern, str, a) && Cs.InBounds(pattern, b)
    requires Cs.InvBest(pattern, str, ToLower, k, b)
    requires Agree(a, b)
    ensures Agree(Cpp.Step(pattern, str, a, k), Cs.Step(pattern, str, ToLower, ToUpper, b, k))
  {
    TestsAgree(pattern, str, a, b, k);
  }

  /** The loop states agree after every prefix of `str`. */
  lemma {:induction false} RunsAgree(pattern: seq<char>, str: seq<char>, k: nat)
    requires Cpp.IsCString(pattern) && Cpp.IsCString(str) && k <= |str|
    ensures Agree(Cpp.Run(pattern, str, k), Cs.Run(pattern, str, ToLower, ToUpper, k))
  {
    if k > 0 {
      var a, b := Cpp.Run(pattern, str, k - 1), Cs.Run(pattern, str, ToLower, ToUpper, k - 1);
      RunsAgree(pattern, str, k - 1);
      Cs.RunKeepsGreedyBest(pattern, str, ToLower, ToUpper, k - 1);
      StepsAgree(pattern, str, a, b, k - 1);
      assert Cpp.Run(pattern, str, k) == Cpp.Step(pattern, str, a, k - 1);
      assert Cs.Run(pattern, str, ToLower, ToUpper, k) == Cs.Step(pattern, str, ToLower, ToUpper, b, k - 1);
    }
  }

  /** Both scored overloads report a match in the same cases and, on a
      match, the same score. */
  lemma ScorersAgree(pattern: seq<char>, str: seq<char>)
    requires Cpp.IsCString(pattern) && Cpp.IsCString(str)
    ensures var st := Cpp.Run(pattern, str, |str|);
            var out := Cs.Scored(pattern, str, ToLower, ToUpper);
            && (st.patternIter == |pattern| <==> out.matched)
            && Cpp.FinalScore(st) == out.score
  {
    RunsAgree(pattern, str, |str|);
    Cs.RunKeepsGreedyBest(pattern, str, ToLower, ToUpper, |str|);
  }
}
