/**
 * Ranking of search results: the integer score of a matched name against
 * the query (lower is better), the ordering of scored results, and the merge
 * that keeps the best results of the two categories (files and symbols)
 * within one shared budget, reporting for each category whether anything was
 * cut.
 */
module Ranking {
  import opened Wrappers
  import opened Text
  import opened Model

  // ---------------------------------------------------------------------
  // Scores

  /** Characters that start a new word: a match right after one counts as an early match. */
  predicate IsDelimiter(c: char, isFile: bool) {
    c == '_' || c == '-' || (!isFile && c == '.')
  }

  /** Names of R documentation files rank below everything else. */
  predicate IsLowInterest(s: string) {
    Lower(Extension(s)) == ".rd"
  }

  /** Whether `query` may be scored against `suggestion`: equal, or a case-insensitive subsequence. */
  predicate Scorable(suggestion: string, query: string) {
    suggestion == query || IsSubsequence(Lower(query), Lower(suggestion))
  }

  /**
   * What the match of query character `j` at position `p` of the suggestion
   * contributes: `j + 1` right after a delimiter, `p` otherwise.
   */
  function PositionScore(s: string, p: nat, j: nat, isFile: bool): int {
    if 1 <= p <= |s| && IsDelimiter(s[p - 1], isFile) then j + 1 else p
  }

  /** The contributions of the match positions `ms`, query character by query character. */
  function PositionSum(s: string, ms: seq<nat>, isFile: bool): int {
    if ms == [] then 0
    else PositionSum(s, ms[..|ms| - 1], isFile) + PositionScore(s, ms[|ms| - 1], |ms| - 1, isFile)
  }

  /**
   * The score of a suggestion: 0 for an exact match; otherwise the sum of
   * the greedy case-insensitive match positions (adjusted after delimiters),
   * plus 3 per query character for a low-interest file, plus 1 for a file.
   */
  function Score(suggestion: string, query: string, isFile: bool): int
    requires Scorable(suggestion, query)
  {
    if suggestion == query then 0
    else
      var ms := SubsequenceIndices(Lower(suggestion), Lower(query));
      PositionSum(suggestion, ms, isFile)
        + (if IsLowInterest(suggestion) then 3 * |query| else 0)
        + (if isFile then 1 else 0)
  }

  /** The greedy positions of a matching query: one per query character, each inside the suggestion. */
  lemma MatchesInRange(suggestion: string, query: string)
    requires IsSubsequence(Lower(query), Lower(suggestion))
    ensures var ms := SubsequenceIndices(Lower(suggestion), Lower(query));
            |ms| == |query| && forall k :: 0 <= k < |ms| ==> ms[k] < |suggestion|
  {
    SubsequenceIndicesEmbed(Lower(suggestion), Lower(query));
  }

  lemma PositionSumSnoc(s: string, ms: seq<nat>, j: nat, isFile: bool)
    requires j < |ms|
    ensures PositionSum(s, ms[..j + 1], isFile) == PositionSum(s, ms[..j], isFile) + PositionScore(s, ms[j], j, isFile)
  {
    assert ms[..j + 1][..j] == ms[..j];
  }

  /** 0 + 1 + ... + (n - 1): the smallest possible sum of `n` increasing positions. */
  function Triangle(n: nat): nat {
    if n == 0 then 0 else Triangle(n - 1) + (n - 1)
  }

  /** Increasing positions from 0 have the `k`-th at `k` or later. */
  lemma {:induction false} IncreasingAtLeastIndex(ms: seq<nat>, k: nat)
    requires forall i, j :: 0 <= i < j < |ms| ==> ms[i] < ms[j]
    requires k < |ms|
    ensures ms[k] >= k
    decreases k
  {
    if k > 0 {
      IncreasingAtLeastIndex(ms, k - 1);
    }
  }

  lemma {:induction false} PositionSumAtLeast(s: string, ms: seq<nat>, isFile: bool)
    requires forall k :: 0 <= k < |ms| ==> ms[k] >= k
    ensures PositionSum(s, ms, isFile) >= Triangle(|ms|)
    decreases |ms|
  {
    if ms != [] {
      var init := ms[..|ms| - 1];
      assert forall k :: 0 <= k < |init| ==> init[k] == ms[k];
      PositionSumAtLeast(s, init, isFile);
    }
  }

  /**
   * Lower bound of every inexact score: the positions of an `n`-character
   * query sum to at least 0 + 1 + ... + (n - 1), before the penalties.
   */
  lemma ScoreAtLeast(suggestion: string, query: string, isFile: bool)
    requires Scorable(suggestion, query) && suggestion != query
    ensures Score(suggestion, query, isFile)
              >= Triangle(|query|) + (if IsLowInterest(suggestion) then 3 * |query| else 0) + (if isFile then 1 else 0)
  {
    var ms := SubsequenceIndices(Lower(suggestion), Lower(query));
    SubsequenceIndicesEmbed(Lower(suggestion), Lower(query));
    forall k | 0 <= k < |ms| ensures ms[k] >= k {
      IncreasingAtLeastIndex(ms, k);
    }
    PositionSumAtLeast(suggestion, ms, isFile);
  }

  lemma {:induction false} PositionSumNoDot(s: string, ms: seq<nat>)
    requires '.' !in s
    ensures PositionSum(s, ms, true) == PositionSum(s, ms, false)
    decreases |ms|
  {
    if ms != [] {
      PositionSumNoDot(s, ms[..|ms| - 1]);
      var p := ms[|ms| - 1];
      if 1 <= p <= |s| {
        assert s[p - 1] in s;
      }
    }
  }

  /** Without a '.' in the name, scoring it as a file only adds the one-point file penalty. */
  lemma FilePenalty(suggestion: string, query: string)
    requires Scorable(suggestion, query) && suggestion != query
    requires '.' !in suggestion
    ensures Score(suggestion, query, true) == Score(suggestion, query, false) + 1
  {
    PositionSumNoDot(suggestion, SubsequenceIndices(Lower(suggestion), Lower(query)));
  }

  /** A name without a '.' has no extension, so it is never low-interest. */
  lemma NoExtension(s: string)
    requires '.' !in s
    ensures !IsLowInterest(s)
  {
    LastIndexOfAbsent(s, '.');
  }

  /** Names without capital letters are their own lower-case form. */
  lemma {:induction false} LowerUnchanged(s: string)
    requires forall k :: 0 <= k < |s| ==> !('A' <= s[k] <= 'Z')
    ensures Lower(s) == s
    decreases |s|
  {
    if s != [] {
      LowerUnchanged(s[1..]);
    }
  }

  /** The greedy positions of a three-character query that ends the name at `p`, its first character not occurring earlier. */
  lemma TrailingMatch(s: string, q: string, p: nat)
    requires |q| == 3 && p + 3 == |s| && s[p..] == q
    requires forall k :: 0 <= k < p ==> s[k] != q[0]
    ensures IsSubsequence(q, s)
    ensures SubsequenceIndices(s, q) == [p, p + 1, p + 2]
  {
    assert s[p] == q[0] && s[p + 1] == q[1] && s[p + 2] == q[2];
    assert IndexOf(s, q[0], 0) == Some(p);
    var q1 := q[1..];
    var q2 := q1[1..];
    assert q1[0] == q[1] && q2[0] == q[2] && q2[1..] == [];
    assert IndexOf(s, q2[0], p + 2) == Some(p + 2);
    assert GreedyFrom(s, q2, p + 2) == [p + 2];
    assert IndexOf(s, q1[0], p + 1) == Some(p + 1);
    assert GreedyFrom(s, q1, p + 1) == [p + 1, p + 2];
    EmbeddingIsSubsequence(q, s, [p, p + 1, p + 2]);
  }

  /** The contributions of three consecutive positions. */
  lemma ThreeSum(s: string, p: nat, isFile: bool)
    ensures PositionSum(s, [p, p + 1, p + 2], isFile)
              == PositionScore(s, p, 0, isFile) + PositionScore(s, p + 1, 1, isFile) + PositionScore(s, p + 2, 2, isFile)
  {
    var ms := [p, p + 1, p + 2];
    assert ms[..2] == [p, p + 1];
    assert ms[..2][..1] == [p];
    assert ms[..2][..1][..0] == [];
    assert PositionSum(s, ms[..2][..1], isFile) == PositionScore(s, p, 0, isFile);
    assert PositionSum(s, ms[..2], isFile) == PositionSum(s, ms[..2][..1], isFile) + PositionScore(s, p + 1, 1, isFile);
  }

  /** The score of a lower-case name without extension ending in a three-character query at `p`. */
  lemma TrailingScore(s: string, q: string, p: nat)
    requires Lower(s) == s && Lower(q) == q && '.' !in s
    requires |q| == 3 && p + 3 == |s| && s[p..] == q && 0 < p
    requires forall k :: 0 <= k < p ==> s[k] != q[0]
    ensures Scorable(s, q)
    ensures Score(s, q, false)
              == PositionScore(s, p, 0, false) + PositionScore(s, p + 1, 1, false) + PositionScore(s, p + 2, 2, false)
  {
    NoExtension(s);
    TrailingMatch(s, q, p);
    ThreeSum(s, p, false);
    assert s != q;
  }

  /** Lower-case words of plain letters: no capitals, no '.', no delimiter. */
  predicate PlainWord(w: string) {
    forall k :: 0 <= k < |w| ==> !('A' <= w[k] <= 'Z') && w[k] != '.' && w[k] != '_' && w[k] != '-'
  }

  /**
   * The delimiter bonus replaces the position of the first query character
   * only. For a plain prefix `a` and a plain three-character query `q` whose
   * first character is not in `a`, the name `a_q` scores 2|a| + 6 and the
   * name `aq` scores 3|a| + 3: with a two-character prefix ("my_foo" against
   * "myfoo" for "foo", 10 against 9) the name with the delimiter ranks
   * second.
   */
  lemma DelimiterTradeoff(a: string, q: string)
    requires PlainWord(a) && PlainWord(q) && a != [] && |q| == 3
    requires q[0] !in a
    ensures Scorable(a + ['_'] + q, q) && Scorable(a + q, q)
    ensures Score(a + ['_'] + q, q, false) == 2 * |a| + 6
    ensures Score(a + q, q, false) == 3 * |a| + 3
    ensures |a| == 2 ==> Score(a + q, q, false) < Score(a + ['_'] + q, q, false)
  {
    AfterPrefix(a, ['_'] + q, q, |a| + 1);
    assert a + ['_'] + q == a + (['_'] + q);
    AfterPrefix(a, q, q, |a|);
  }

  /**
   * The score of `a + t` where `t` ends in the plain query `q` at `p` and
   * `t` holds at most one delimiter, right before the query.
   */
  lemma AfterPrefix(a: string, t: string, q: string, p: nat)
    requires PlainWord(a) && PlainWord(q) && a != [] && |q| == 3
    requires q[0] !in a
    requires t == q || t == ['_'] + q
    requires p == |a + t| - 3
    ensures Scorable(a + t, q)
    ensures Score(a + t, q, false)
              == if t == q then 3 * |a| + 3 else 2 * |a| + 6
  {
    var s := a + t;
    var n := |a|;
    PlainAppend(a, t, q);
    LowerUnchanged(q);
    assert s[p..] == q by {
      if t == q {
        assert s[n..] == t;
      } else {
        assert s[n..] == t && t[1..] == q;
      }
    }
    forall k | 0 <= k < p ensures s[k] != q[0] {
      if k < n {
        assert s[k] == a[k] && a[k] in a;
      } else {
        assert s[k] == '_';
      }
    }
    TrailingScore(s, q, p);
    assert s[p] == q[0] && s[p + 1] == q[1];
    if t == q {
      assert s[p - 1] == a[n - 1];
    } else {
      assert s[p - 1] == '_';
    }
  }

  /** `a + t` is lower-case and has no '.' when `a` and `q` are plain and `t` is `q`, or `q` after an underscore. */
  lemma PlainAppend(a: string, t: string, q: string)
    requires PlainWord(a) && PlainWord(q)
    requires t == q || t == ['_'] + q
    ensures Lower(a + t) == a + t && '.' !in a + t
  {
    var s := a + t;
    forall k | 0 <= k < |s| ensures !('A' <= s[k] <= 'Z') && s[k] != '.' {
      if k < |a| {
        assert s[k] == a[k];
      } else if t == q {
        assert s[k] == q[k - |a|];
      } else if k > |a| {
        assert s[k] == q[k - |a| - 1];
      }
    }
    LowerUnchanged(s);
  }

  /**
   * The score of one suggestion, accumulated query character by query
   * character. The query must match (the searches only return matches).
   */
  method ScoreMatch(suggestion: string, query: string, isFile: bool) returns (result: int)
    requires Scorable(suggestion, query)
    ensures result == Score(suggestion, query, isFile)
  {
    if suggestion == query {
      return 0;
    }
    var n := |query|;
    result := 0;
    var matches := SubsequenceIndices(Lower(suggestion), Lower(query));
    MatchesInRange(suggestion, query);
    var lowInterest := Lower(Extension(suggestion)) == ".rd";
    var j := 0;
    while j < n
      invariant 0 <= j <= n
      invariant result == PositionSum(suggestion, matches[..j], isFile) + (if lowInterest then 3 * j else 0)
    {
      var matchPos: int := matches[j];
      if matchPos >= 1 {
        var prevChar := suggestion[matchPos - 1];
        if prevChar == '_' || prevChar == '-' || (!isFile && prevChar == '.') {
          matchPos := j + 1;
        }
      }
      PositionSumSnoc(suggestion, matches, j, isFile);
      if lowInterest {
        matchPos := matchPos + 3;
      }
      result := result + matchPos;
      j := j + 1;
    }
    assert matches[..n] == matches;
    if isFile {
      result := result + 1;
    }
  }

  // ---------------------------------------------------------------------
  // Ordering by score

  /** A result (by its index in its category) and its score. */
  datatype ScorePair = ScorePair(index: int, score: int)

  predicate SortedByScore(s: seq<ScorePair>) {
    forall i, j :: 0 <= i < j < |s| ==> s[i].score <= s[j].score
  }

  function InsertByScore(x: ScorePair, s: seq<ScorePair>): (r: seq<ScorePair>)
    ensures multiset(r) == multiset(s) + multiset{x}
  {
    if s == [] then [x]
    else if x.score <= s[0].score then [x] + s
    else
      assert s == [s[0]] + s[1..];
      [s[0]] + InsertByScore(x, s[1..])
  }

  lemma {:induction false} InsertByScoreSorted(x: ScorePair, s: seq<ScorePair>)
    requires SortedByScore(s)
    ensures SortedByScore(InsertByScore(x, s))
    decreases |s|
  {
    if s != [] && x.score > s[0].score {
      var t := InsertByScore(x, s[1..]);
      InsertByScoreSorted(x, s[1..]);
      var r := [s[0]] + t;
      forall k | 0 <= k < |t| ensures s[0].score <= t[k].score {
        assert t[k] in multiset(t);
        assert t[k] == x || t[k] in multiset(s[1..]);
        if t[k] != x {
          var m :| 0 <= m < |s[1..]| && s[1..][m] == t[k];
          assert s[m + 1] == t[k];
        }
      }
      forall i, j | 0 <= i < j < |r| ensures r[i].score <= r[j].score {
        if i > 0 {
          assert r[i] == t[i - 1] && r[j] == t[j - 1];
        }
      }
    }
  }

  /** The results in ascending score order (an insertion sort; equal scores in no promised order). */
  function SortByScore(s: seq<ScorePair>): (r: seq<ScorePair>)
    ensures multiset(r) == multiset(s)
  {
    if s == [] then []
    else
      assert s == [s[0]] + s[1..];
      InsertByScore(s[0], SortByScore(s[1..]))
  }

  lemma {:induction false} SortByScoreSorted(s: seq<ScorePair>)
    ensures SortedByScore(SortByScore(s))
    decreases |s|
  {
    if s != [] {
      SortByScoreSorted(s[1..]);
      InsertByScoreSorted(s[0], SortByScore(s[1..]));
    }
  }

  // ---------------------------------------------------------------------
  // Merging two ranked categories

  /**
   * Keeps the first results of each list such that together they are the
   * first `maxAmount` of a merge of the two lists, ties going to the first
   * list; each list is cut to what was kept.
   */
  method FilterScores(score1: seq<ScorePair>, score2: seq<ScorePair>, maxAmount: int)
    returns (kept1: seq<ScorePair>, kept2: seq<ScorePair>)
    ensures |kept1| <= |score1| && |kept2| <= |score2|
    ensures kept1 == score1[..|kept1|] && kept2 == score2[..|kept2|]
    ensures |kept1| + |kept2| == if maxAmount <= 0 then 0 else Min(maxAmount, |score1| + |score2|)
    ensures SortedByScore(score1) && SortedByScore(score2) ==>
              && (forall a, b :: 0 <= a < |kept1| && |kept2| <= b < |score2| ==> score1[a].score <= score2[b].score)
              && (forall a, b :: 0 <= a < |kept2| && |kept1| <= b < |score1| ==> score2[a].score < score1[b].score)
  {
    var n1 := |score1|;
    var n2 := |score2|;
    var count1 := 0;
    var count2 := 0;
    var i := 0;
    while i < maxAmount
      invariant 0 <= count1 <= n1 && 0 <= count2 <= n2
      invariant 0 <= i && (i <= maxAmount || i == 0) && count1 + count2 == Min(i, n1 + n2)
      invariant SortedByScore(score1) && SortedByScore(score2) ==>
                  && (count2 < n2 ==> forall a :: 0 <= a < count1 ==> score1[a].score <= score2[count2].score)
                  && (count1 < n1 ==> forall a :: 0 <= a < count2 ==> score2[a].score < score1[count1].score)
    {
      if count1 == n1 {
        if count2 < n2 {
          count2 := count2 + 1;
        }
      } else if count2 == n2 {
        if count1 < n1 {
          count1 := count1 + 1;
        }
      } else if score1[count1].score <= score2[count2].score {
        count1 := count1 + 1;
      } else {
        count2 := count2 + 1;
      }
      i := i + 1;
    }
    kept1 := score1[..count1];
    kept2 := score2[..count2];
  }

  // ---------------------------------------------------------------------
  // The ranking step of a code search

  /** Every name of a category scored against the query, paired with its index. */
  function Scored(names: seq<string>, term: string, isFile: bool): (r: seq<ScorePair>)
    requires forall i :: 0 <= i < |names| ==> Scorable(names[i], term)
    ensures |r| == |names|
    ensures forall i :: 0 <= i < |names| ==> r[i] == ScorePair(i, Score(names[i], term, isFile))
  {
    seq(|names|, i requires 0 <= i < |names| => ScorePair(i, Score(names[i], term, isFile)))
  }

  /** A category's scored names in ascending score order. */
  function Ranked(names: seq<string>, term: string, isFile: bool): (r: seq<ScorePair>)
    requires forall i :: 0 <= i < |names| ==> Scorable(names[i], term)
    ensures |r| == |names|
  {
    var sc := Scored(names, term, isFile);
    var r := SortByScore(sc);
    assert |r| == |multiset(r)| == |multiset(sc)| == |sc|;
    r
  }

  /**
   * The ranking of a category is sorted by score and holds every name
   * exactly once: each pair names a valid index and carries that name's
   * score, and the indices are distinct.
   */
  lemma RankedSpec(names: seq<string>, term: string, isFile: bool)
    requires forall i :: 0 <= i < |names| ==> Scorable(names[i], term)
    ensures var r := Ranked(names, term, isFile);
            && |r| == |names|
            && SortedByScore(r)
            && (forall k :: 0 <= k < |r| ==>
                  0 <= r[k].index < |names| && r[k].score == Score(names[r[k].index], term, isFile))
            && (forall k, l :: 0 <= k < l < |r| ==> r[k].index != r[l].index)
  {
    var sc := Scored(names, term, isFile);
    var r := Ranked(names, term, isFile);
    SortByScoreSorted(sc);
    forall k | 0 <= k < |r|
      ensures 0 <= r[k].index < |names| && r[k].score == Score(names[r[k].index], term, isFile)
    {
      assert r[k] in multiset(sc);
    }
    forall k, l | 0 <= k < l < |r| ensures r[k].index != r[l].index {
      if r[k].index == r[l].index {
        assert r[k] == r[l];
        MultiplicityTwo(r, k, l);
        PairOnce(sc, r[k]);
      }
    }
  }

  /** A value held at two positions occurs at least twice. */
  lemma MultiplicityTwo(r: seq<ScorePair>, k: nat, l: nat)
    requires k < l < |r| && r[k] == r[l]
    ensures multiset(r)[r[k]] >= 2
  {
    var x := r[k];
    assert r == r[..k] + [x] + r[k + 1..l] + [x] + r[l + 1..];
    assert multiset(r) == multiset(r[..k]) + multiset{x} + multiset(r[k + 1..l]) + multiset{x} + multiset(r[l + 1..]);
  }

  /** Pairs whose index is their position occur at most once. */
  lemma {:induction false} PairOnce(sc: seq<ScorePair>, x: ScorePair)
    requires forall i :: 0 <= i < |sc| ==> sc[i].index == i
    ensures multiset(sc)[x] <= 1
    decreases |sc|
  {
    if sc != [] {
      var init := sc[..|sc| - 1];
      assert sc == init + [sc[|sc| - 1]];
      PairOnce(init, x);
    }
  }

  /**
   * The pure part of a code search: score the file names (as files) and the
   * symbol names, rank each category, keep the best `maxResults` of the two
   * together, and report for each category whether it was cut. Whether more
   * is available depends only on the budget and the number of candidates
   * found, not on whether the searches themselves were truncated.
   */
  method RankAndFilter(fileNames: seq<string>, itemNames: seq<string>, term: string, maxResults: nat)
    returns (files: seq<ScorePair>, items: seq<ScorePair>, moreFiles: bool, moreItems: bool, moreAvailable: bool)
    requires forall i :: 0 <= i < |fileNames| ==> Scorable(fileNames[i], term)
    requires forall i :: 0 <= i < |itemNames| ==> Scorable(itemNames[i], term)
    ensures |files| <= |fileNames| && |items| <= |itemNames|
    ensures files == Ranked(fileNames, term, true)[..|files|]
    ensures items == Ranked(itemNames, term, false)[..|items|]
    ensures |files| + |items| == Min(maxResults, |fileNames| + |itemNames|)
    ensures forall a, b :: 0 <= a < |files| && |items| <= b < |itemNames| ==>
              files[a].score <= Ranked(itemNames, term, false)[b].score
    ensures forall a, b :: 0 <= a < |items| && |files| <= b < |fileNames| ==>
              items[a].score < Ranked(fileNames, term, true)[b].score
    ensures moreFiles <==> |files| < |fileNames|
    ensures moreItems <==> |items| < |itemNames|
    ensures moreAvailable <==> maxResults < |fileNames| + |itemNames|
  {
    var fileScores := ScoreAll(fileNames, term, true);
    assert fileScores == Scored(fileNames, term, true);
    fileScores := SortByScore(fileScores);
    var itemScores := ScoreAll(itemNames, term, false);
    assert itemScores == Scored(itemNames, term, false);
    itemScores := SortByScore(itemScores);
    RankedSpec(fileNames, term, true);
    RankedSpec(itemNames, term, false);
    var fileCountBefore := |fileScores|;
    var itemCountBefore := |itemScores|;
    files, items := FilterScores(fileScores, itemScores, maxResults);
    moreFiles := fileCountBefore > |files|;
    moreItems := itemCountBefore > |items|;
    moreAvailable := moreFiles || moreItems;
  }

  /** Scores every name, in order, each paired with its index. */
  method ScoreAll(names: seq<string>, term: string, isFile: bool) returns (scores: seq<ScorePair>)
    requires forall i :: 0 <= i < |names| ==> Scorable(names[i], term)
    ensures |scores| == |names|
    ensures forall i :: 0 <= i < |names| ==> scores[i] == ScorePair(i, Score(names[i], term, isFile))
  {
    scores := [];
    var i := 0;
    while i < |names|
      invariant 0 <= i <= |names|
      invariant |scores| == i
      invariant forall k :: 0 <= k < i ==> scores[k] == ScorePair(k, Score(names[k], term, isFile))
    {
      var score := ScoreMatch(names[i], term, isFile);
      scores := scores + [ScorePair(i, score)];
      i := i + 1;
    }
  }
}
