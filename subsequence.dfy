/** The reference meaning of every matcher's boolean answer: the pattern
    occurs, character by character and in order, in the searched string once
    both are passed through a case mapping. */
module Subsequence {

  /** `m` lists one position of `s` for each character of `p`, in strictly
      increasing order, and each listed character of `s` has the same
      case-mapped form as the character of `p` it stands for. */
  ghost predicate Embeds(p: seq<char>, s: seq<char>, lower: char -> char, m: seq<nat>)
  {
    && |m| == |p|
    && (forall j :: 0 <= j < |m| ==> m[j] < |s| && lower(p[j]) == lower(s[m[j]]))
    && Increasing(m)
  }

  predicate Increasing(m: seq<nat>)
  {
    forall i, j :: 0 <= i < j < |m| ==> m[i] < m[j]
  }

  /** Every entry of `m` is below `bound`. */
  predicate Below(m: seq<nat>, bound: nat)
  {
    forall j :: 0 <= j < |m| ==> m[j] < bound
  }

  /** Appending an index above every entry keeps a list increasing. */
  lemma AppendIncreasing(m: seq<nat>, x: nat, bound: nat)
    requires Increasing(m) && Below(m, x) && x < bound
    ensures Increasing(m + [x]) && Below(m + [x], bound)
  {
  }

  /** `p` is a case-insensitive subsequence of `s`. */
  ghost predicate IsSubseqCI(p: seq<char>, s: seq<char>, lower: char -> char)
  {
    exists m :: Embeds(p, s, lower, m)
  }

  /** The positions of `s[..k]` at which a left-to-right scan that keeps one
      index into `p` consumes the next pattern character: the two-index walk
      all the matchers share. The result embeds the prefix of `p` it has
      consumed. */
  function Greedy(p: seq<char>, s: seq<char>, lower: char -> char, k: nat): (m: seq<nat>)
    requires k <= |s|
    ensures |m| <= |p| && |m| <= k
    ensures Below(m, k) && Increasing(m)
  {
    if k == 0 then []
    else
      var m := Greedy(p, s, lower, k - 1);
      if |m| < |p| && lower(p[|m|]) == lower(s[k - 1]) then m + [k - 1] else m
  }

  /** Each position the scan takes holds the pattern character it was taken
      for, up to case. */
  lemma {:induction false} GreedyMatches(p: seq<char>, s: seq<char>, lower: char -> char, k: nat)
    requires k <= |s|
    ensures var m := Greedy(p, s, lower, k);
            forall j :: 0 <= j < |m| ==> lower(p[j]) == lower(s[m[j]])
  {
    if k > 0 {
      GreedyMatches(p, s, lower, k - 1);
    }
  }

  /** One more letter of `s`: the scan takes it exactly when it matches the
      next pattern character. */
  lemma GreedyStep(p: seq<char>, s: seq<char>, lower: char -> char, k: nat)
    requires k < |s|
    ensures var g := Greedy(p, s, lower, k);
            Greedy(p, s, lower, k + 1) == if |g| < |p| && lower(p[|g|]) == lower(s[k]) then g + [k] else g
  {
  }

  /** The scan never takes anything back: what it has consumed after `k`
      letters is a prefix of what it has consumed after `k'`, and every later
      position is at least `k`. */
  lemma {:induction false} GreedyPrefix(p: seq<char>, s: seq<char>, lower: char -> char, k: nat, k': nat)
    requires k <= k' <= |s|
    ensures var g, g' := Greedy(p, s, lower, k), Greedy(p, s, lower, k');
            |g| <= |g'| && g == g'[..|g|] && forall j :: |g| <= j < |g'| ==> k <= g'[j]
    decreases k' - k
  {
    if k < k' {
      var g, h, g' := Greedy(p, s, lower, k), Greedy(p, s, lower, k' - 1), Greedy(p, s, lower, k');
      GreedyPrefix(p, s, lower, k, k' - 1);
      GreedyStep(p, s, lower, k' - 1);
      if |h| < |p| && lower(p[|h|]) == lower(s[k' - 1]) {
        assert g' == h + [k' - 1];
        assert g'[..|g|] == h[..|g|];
      } else {
        assert g' == h;
      }
    }
  }

  /** The scan's first position is `i` exactly when nothing is consumed
      before `i` and `s[i]` matches the first pattern character. */
  lemma GreedyFirst(p: seq<char>, s: seq<char>, lower: char -> char, i: nat)
    requires i < |s|
    ensures var g := Greedy(p, s, lower, |s|);
            (|Greedy(p, s, lower, i)| == 0 && 0 < |p| && lower(p[0]) == lower(s[i])) <==> 0 < |g| && g[0] == i
  {
    var h, h', g := Greedy(p, s, lower, i), Greedy(p, s, lower, i + 1), Greedy(p, s, lower, |s|);
    GreedyStep(p, s, lower, i);
    GreedyPrefix(p, s, lower, i + 1, |s|);
    if |h| == 0 && 0 < |p| && lower(p[0]) == lower(s[i]) {
      assert h' == [i];
      assert g[0] == h'[0];
    } else if 0 < |h| {
      GreedyPrefix(p, s, lower, i, |s|);
      assert g[0] == h[0];
    } else {
      assert h' == [];
      if 0 < |g| {
        assert i + 1 <= g[0];
      }
    }
  }

  /** Once the whole pattern is consumed the scan changes nothing more. */
  lemma {:induction false} GreedyComplete(p: seq<char>, s: seq<char>, lower: char -> char, k: nat, k': nat)
    requires k <= k' <= |s|
    requires |Greedy(p, s, lower, k)| == |p|
    ensures Greedy(p, s, lower, k') == Greedy(p, s, lower, k)
    decreases k' - k
  {
    if k < k' {
      GreedyComplete(p, s, lower, k, k' - 1);
    }
  }

  /** Greedy is optimal: whatever embedding exists, by the time the scan has
      passed the position an embedding uses for pattern character `j`, the scan
      has consumed character `j` too. */
  lemma {:induction false} GreedyDominates(p: seq<char>, s: seq<char>, lower: char -> char, m: seq<nat>, k: nat)
    requires Embeds(p, s, lower, m) && k <= |s|
    ensures forall j :: 0 <= j < |m| && m[j] < k ==> j < |Greedy(p, s, lower, k)|
  {
    if k > 0 {
      GreedyDominates(p, s, lower, m, k - 1);
      var g := Greedy(p, s, lower, k - 1);
      forall j | 0 <= j < |m| && m[j] < k
        ensures j < |Greedy(p, s, lower, k)|
      {
        if m[j] == k - 1 && 0 < j {
          assert m[j - 1] < m[j];
        }
      }
    }
  }

  /** The greedy scan consumes the whole pattern exactly when the pattern is a
      case-insensitive subsequence of the string. */
  lemma GreedyDecides(p: seq<char>, s: seq<char>, lower: char -> char)
    ensures |Greedy(p, s, lower, |s|)| == |p| <==> IsSubseqCI(p, s, lower)
  {
    var g := Greedy(p, s, lower, |s|);
    GreedyMatches(p, s, lower, |s|);
    if |g| == |p| {
      assert Embeds(p, s, lower, g);
    }
    if IsSubseqCI(p, s, lower) {
      var m :| Embeds(p, s, lower, m);
      GreedyDominates(p, s, lower, m, |s|);
      if 0 < |p| {
        assert m[|p| - 1] < |s|;
      }
    }
  }

  /** The empty pattern occurs in every string, and a non-empty one in no
      empty string. */
  lemma EmptyCases(p: seq<char>, s: seq<char>, lower: char -> char)
    ensures p == [] ==> IsSubseqCI(p, s, lower)
    ensures p != [] && s == [] ==> !IsSubseqCI(p, s, lower)
  {
    if p == [] {
      assert Embeds(p, s, lower, []);
    }
    GreedyDecides(p, s, lower);
  }
}
