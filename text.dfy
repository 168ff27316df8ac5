/**
 * The string utilities the code search relies on: ASCII lower-casing,
 * character search, subsequence matching and the greedy match positions used
 * for scoring, extensions, whitespace trimming, and splitting
 * on a separator.
 */
module Text {
  import opened Wrappers

  /** Lower-casing of one character as the C locale does it (ASCII letters only). */
  function LowerChar(c: char): char {
    if 'A' <= c <= 'Z' then (c as int - 'A' as int + 'a' as int) as char else c
  }

  function Lower(s: string): (r: string)
    ensures |r| == |s|
    decreases |s|
  {
    if s == [] then [] else [LowerChar(s[0])] + Lower(s[1..])
  }

  predicate StartsWith(s: string, prefix: string) {
    |prefix| <= |s| && s[..|prefix|] == prefix
  }

  /** Case-insensitive prefix test. */
  predicate IStartsWith(s: string, prefix: string) {
    StartsWith(Lower(s), Lower(prefix))
  }

  /** The first position at or after `from` holding `c`. */
  function IndexOf(s: string, c: char, from: nat): (r: Option<nat>)
    decreases |s| - from
    ensures r.Some? ==> from <= r.value < |s| && s[r.value] == c
    ensures r.Some? ==> forall k :: from <= k < r.value ==> s[k] != c
    ensures r.None? ==> forall k :: from <= k < |s| ==> s[k] != c
  {
    if from >= |s| then None
    else if s[from] == c then Some(from)
    else IndexOf(s, c, from + 1)
  }

  function Find(s: string, c: char): Option<nat> {
    IndexOf(s, c, 0)
  }

  /** The last position holding `c`. */
  function LastIndexOf(s: string, c: char): (r: Option<nat>)
    ensures r.Some? ==> r.value < |s|
  {
    if s == [] then None
    else if s[|s| - 1] == c then Some(|s| - 1)
    else LastIndexOf(s[..|s| - 1], c)
  }

  lemma {:induction false} LastIndexOfAbsent(s: string, c: char)
    requires c !in s
    ensures LastIndexOf(s, c) == None
    decreases |s|
  {
    if s != [] {
      assert s[|s| - 1] in s;
      var init := s[..|s| - 1];
      assert forall k :: 0 <= k < |init| ==> init[k] in s;
      LastIndexOfAbsent(init, c);
    }
  }

  /** The suffix starting at the last '.', or "" when there is none. */
  function Extension(s: string): string {
    match LastIndexOf(s, '.')
    case Some(p) => s[p..]
    case None => []
  }

  /** How much of a `name:line:col` query is the name: everything before the first ':'. */
  function QueryEnd(term: string): (n: nat)
    ensures n <= |term|
    ensures ':' !in term[..n]
    ensures n < |term| ==> term[n] == ':'
  {
    match Find(term, ':')
    case Some(p) => p
    case None => |term|
  }

  /** Whether the characters of `q` occur in `s` in order, not necessarily contiguously. */
  predicate IsSubsequence(q: string, s: string)
    decreases |s|
  {
    if q == [] then true
    else if s == [] then false
    else if s[0] == q[0] then IsSubsequence(q[1..], s[1..])
    else IsSubsequence(q, s[1..])
  }

  /** `ps` lists, in increasing order, positions of `s` that spell out `q`. */
  ghost predicate IsEmbedding(q: string, s: string, ps: seq<nat>) {
    && |ps| == |q|
    && (forall j :: 0 <= j < |ps| ==> ps[j] < |s| && s[ps[j]] == q[j])
    && (forall i, j :: 0 <= i < j < |ps| ==> ps[i] < ps[j])
  }

  /**
   * The subsequence test with an optional case folding and a query length, as
   * called with a query truncated at its first ':'.
   */
  predicate SubsequenceMatch(sequence: string, query: string, n: nat, caseInsensitive: bool)
    requires n <= |query|
  {
    if caseInsensitive then IsSubsequence(Lower(query[..n]), Lower(sequence))
    else IsSubsequence(query[..n], sequence)
  }

  /** Greedy leftmost positions of the characters of `q` in `s`, searching from `from`. */
  function GreedyFrom(s: string, q: string, from: nat): seq<nat>
    decreases |q|
  {
    if q == [] then []
    else match IndexOf(s, q[0], from)
      case None => []
      case Some(p) => [p] + GreedyFrom(s, q[1..], p + 1)
  }

  function SubsequenceIndices(s: string, q: string): seq<nat> {
    GreedyFrom(s, q, 0)
  }

  lemma {:induction false} SubsequenceStep(q: string, s: string, from: nat)
    requires q != [] && from <= |s| && IsSubsequence(q, s[from..])
    ensures IndexOf(s, q[0], from).Some?
    ensures IsSubsequence(q[1..], s[IndexOf(s, q[0], from).value + 1..])
    decreases |s| - from
  {
    assert s[from..] != [];
    assert s[from..][1..] == s[from + 1..];
    if s[from] != q[0] {
      SubsequenceStep(q, s, from + 1);
    }
  }

  /** When `q` is a subsequence, the greedy positions are an embedding of it. */
  lemma {:induction false} GreedyEmbeds(s: string, q: string, from: nat)
    requires from <= |s| && IsSubsequence(q, s[from..])
    ensures IsEmbedding(q, s, GreedyFrom(s, q, from))
    ensures forall j :: 0 <= j < |GreedyFrom(s, q, from)| ==> from <= GreedyFrom(s, q, from)[j]
    decreases |q|
  {
    if q != [] {
      SubsequenceStep(q, s, from);
      var p := IndexOf(s, q[0], from).value;
      GreedyEmbeds(s, q[1..], p + 1);
      var rest := GreedyFrom(s, q[1..], p + 1);
      assert GreedyFrom(s, q, from) == [p] + rest;
    }
  }

  /** Any embedding witnesses the subsequence test. */
  lemma {:induction false} EmbeddingIsSubsequence(q: string, s: string, ps: seq<nat>)
    requires IsEmbedding(q, s, ps)
    ensures IsSubsequence(q, s)
    decreases |s|
  {
    if q != [] {
      assert s != [] by { assert ps[0] < |s|; }
      if s[0] == q[0] {
        var ps' := seq(|ps| - 1, j requires 0 <= j < |ps| - 1 => (ps[j + 1] - 1) as nat);
        forall j | 0 <= j < |ps'| ensures ps'[j] < |s[1..]| && s[1..][ps'[j]] == q[1..][j] {
          assert ps[0] < ps[j + 1];
        }
        EmbeddingIsSubsequence(q[1..], s[1..], ps');
      } else {
        assert ps[0] != 0;
        var ps' := seq(|ps|, j requires 0 <= j < |ps| => (ps[j] - 1) as nat);
        forall j | 0 <= j < |ps'| ensures ps'[j] < |s[1..]| && s[1..][ps'[j]] == q[j] {
          assert j > 0 ==> ps[0] < ps[j];
        }
        EmbeddingIsSubsequence(q, s[1..], ps');
      }
    }
  }

  /** The subsequence test holds exactly when some increasing positions spell out the query. */
  lemma SubsequenceIffEmbedding(q: string, s: string)
    ensures IsSubsequence(q, s) <==> exists ps :: IsEmbedding(q, s, ps)
  {
    if IsSubsequence(q, s) {
      assert s[0..] == s;
      GreedyEmbeds(s, q, 0);
    }
    if exists ps :: IsEmbedding(q, s, ps) {
      var ps :| IsEmbedding(q, s, ps);
      EmbeddingIsSubsequence(q, s, ps);
    }
  }

  /** The greedy positions of a subsequence: one per query character, increasing, in range. */
  lemma SubsequenceIndicesEmbed(s: string, q: string)
    requires IsSubsequence(q, s)
    ensures IsEmbedding(q, s, SubsequenceIndices(s, q))
  {
    assert s[0..] == s;
    GreedyEmbeds(s, q, 0);
  }

  predicate IsSpace(c: char) {
    c == ' ' || 9 <= c as int <= 13
  }

  function TrimLeft(s: string): string
    decreases |s|
  {
    if s != [] && IsSpace(s[0]) then TrimLeft(s[1..]) else s
  }

  function TrimRight(s: string): string
    decreases |s|
  {
    if s != [] && IsSpace(s[|s| - 1]) then TrimRight(s[..|s| - 1]) else s
  }

  /** Removes leading and trailing white space. */
  function Trim(s: string): string {
    TrimRight(TrimLeft(s))
  }

  predicate Trimmed(s: string) {
    s == [] || (!IsSpace(s[0]) && !IsSpace(s[|s| - 1]))
  }

  function TrimAll(ts: seq<string>): (r: seq<string>)
    ensures |r| == |ts|
  {
    if ts == [] then [] else [Trim(ts[0])] + TrimAll(ts[1..])
  }

  lemma {:induction false} TrimLeftOfSpaces(lead: string, t: string)
    requires forall k :: 0 <= k < |lead| ==> lead[k] == ' '
    requires t != [] && !IsSpace(t[0])
    ensures TrimLeft(lead + t) == t
    decreases |lead|
  {
    if lead != [] {
      assert (lead + t)[1..] == lead[1..] + t;
      TrimLeftOfSpaces(lead[1..], t);
    } else {
      assert lead + t == t;
    }
  }

  /** Trimming a padded, already trimmed, word gives the word back. */
  lemma TrimPadded(lead: string, t: string)
    requires forall k :: 0 <= k < |lead| ==> lead[k] == ' '
    requires t != [] && Trimmed(t)
    ensures Trim(lead + t) == t
  {
    TrimLeftOfSpaces(lead, t);
  }

  /** Splits on `sep`, dropping empty tokens. */
  function Tokens(s: string, sep: char): (r: seq<string>)
    decreases |s|
    ensures forall i :: 0 <= i < |r| ==> r[i] != [] && sep !in r[i]
  {
    match Find(s, sep)
    case None => if s == [] then [] else [s]
    case Some(p) =>
      assert forall k :: 0 <= k < p ==> s[..p][k] == s[k];
      (if p == 0 then [] else [s[..p]]) + Tokens(s[p + 1..], sep)
  }

  /** Concatenates `ts`, putting `sep` between neighbours. */
  function Join(ts: seq<string>, sep: string): string {
    if ts == [] then []
    else if |ts| == 1 then ts[0]
    else ts[0] + sep + Join(ts[1..], sep)
  }

  /** A non-empty string without the separator is one token. */
  lemma TokensOfWord(a: string, sep: char)
    requires a != [] && sep !in a
    ensures Tokens(a, sep) == [a]
  {
    assert Find(a, sep).None?;
  }

  /** A non-empty token followed by the separator comes off the front. */
  lemma TokensOfCons(a: string, b: string, sep: char)
    requires a != [] && sep !in a
    ensures Tokens(a + [sep] + b, sep) == [a] + Tokens(b, sep)
  {
    var s := a + [sep] + b;
    assert forall k :: 0 <= k < |a| ==> s[k] == a[k];
    assert s[|a|] == sep;
    assert Find(s, sep) == Some(|a|);
    assert s[..|a|] == a;
    assert s[|a| + 1..] == b;
  }

  lemma {:induction false} TokensOfPaddedJoin(lead: string, ts: seq<string>)
    requires forall k :: 0 <= k < |lead| ==> lead[k] == ' '
    requires ts != []
    requires forall i :: 0 <= i < |ts| ==> ts[i] != [] && Trimmed(ts[i]) && ',' !in ts[i]
    ensures TrimAll(Tokens(lead + Join(ts, ", "), ',')) == ts
    decreases |ts|
  {
    var t0 := ts[0];
    var word := lead + t0;
    assert ',' !in word by {
      assert forall k :: 0 <= k < |word| ==> word[k] == if k < |lead| then lead[k] else t0[k - |lead|];
    }
    TrimPadded(lead, t0);
    if |ts| == 1 {
      TokensOfWord(word, ',');
    } else {
      var rest := Join(ts[1..], ", ");
      assert lead + Join(ts, ", ") == word + [','] + (" " + rest);
      TokensOfCons(word, " " + rest, ',');
      TokensOfPaddedJoin(" ", ts[1..]);
    }
  }

  /** Splitting a ", "-joined list on ',' and trimming each token recovers the list. */
  lemma TokensOfJoin(ts: seq<string>)
    requires ts != []
    requires forall i :: 0 <= i < |ts| ==> ts[i] != [] && Trimmed(ts[i]) && ',' !in ts[i]
    ensures TrimAll(Tokens(Join(ts, ", "), ',')) == ts
  {
    TokensOfPaddedJoin("", ts);
    assert "" + Join(ts, ", ") == Join(ts, ", ");
  }
}
