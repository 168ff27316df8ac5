/**
 * The values the code search works on: the items an R source index holds,
 * project file entries and change events, the environment the engine
 * consults (file system, aliased paths, project scope, the R parser and the
 * wildcard matcher), and the searches over one parsed index or one file name.
 */
module Model {
  import opened Wrappers
  import opened Text

  function Min(a: int, b: int): int {
    if a <= b then a else b
  }

  /** The first `n` elements, or all of them when there are fewer. */
  function Take<T>(s: seq<T>, n: nat): (r: seq<T>)
    ensures |r| == Min(n, |s|)
    ensures r == s[..|r|]
  {
    if n <= |s| then s[..n] else s
  }

  /** Taking `n` from a sequence is taking `n` from any prefix of it holding at least `n`. */
  lemma TakeOfPrefix<T>(p: seq<T>, w: seq<T>, n: nat)
    requires n <= |p| <= |w| && p == w[..|p|]
    ensures p[..n] == Take(w, n)
  {
  }

  /** A vector resize: cut to `n` elements, or padded with empty strings up to `n`. */
  function Resize(s: seq<string>, n: nat): (r: seq<string>)
    ensures |r| == n
    ensures n <= |s| ==> r == s[..n]
    ensures n > |s| ==> r[..|s|] == s && forall k :: |s| <= k < n ==> r[k] == ""
  {
    if n <= |s| then s[..n] else s + seq(n - |s|, _ => "")
  }

  /** The kinds of item the R source indexer reports. */
  datatype RKind = RNone | RFunction | RMethod | RClass

  /**
   * One item of an R source index: its kind, name, the parameter types of an
   * S4 method signature, the context (file) it came from, its position and
   * how deeply it is nested in braces.
   */
  datatype RSourceItem = RSourceItem(
    kind: RKind,
    name: string,
    signature: seq<string>,
    context: string,
    line: int,
    column: int,
    braceLevel: int)

  /** A top-level function or method definition with exactly the given name. */
  predicate IsGlobalFunctionNamed(item: RSourceItem, name: string): (b: bool)
    ensures b ==> item.name == name
    ensures item.braceLevel != 0 ==> !b
    ensures item.kind == RClass || item.kind == RNone ==> !b
  {
    item.braceLevel == 0 && (item.kind == RFunction || item.kind == RMethod) && item.name == name
  }

  /** A parsed R source: the context it was parsed under and its items in source order. */
  datatype SourceIndex = SourceIndex(context: string, items: seq<RSourceItem>)

  datatype FileInfo = FileInfo(path: string, lastWriteTime: int)

  datatype EventKind = NoChange | FileAdded | FileModified | FileRemoved

  datatype FileChangeEvent = FileChangeEvent(kind: EventKind, file: FileInfo)

  /** Outcome of reading and decoding a file. */
  datatype ReadResult = Read(code: string) | NotFound | ReadError

  /** A project file and, for an R file that was read, its parsed index. */
  datatype Entry = Entry(file: FileInfo, index: Option<SourceIndex>)

  function EntryPath(e: Entry): string {
    e.file.path
  }

  /**
   * Everything the engine asks of the rest of the session, as fixed
   * functions: the file system, the file path accessors (last component and
   * lower-cased extension), the file decoder, the R parser, aliased paths
   * (`~/...`), the active project, the term search of an index and the
   * wildcard matcher.
   */
  datatype Env = Env(
    fileName: string -> string,
    extensionLowerCase: string -> string,
    isUserFile: string -> bool,
    isDirectory: string -> bool,
    hasTextMimeType: string -> bool,
    readFile: string -> ReadResult,
    parse: (string, string) -> seq<RSourceItem>,
    aliasedPath: string -> string,
    resolveAliasedPath: string -> string,
    hasProject: bool,
    isWithinProject: string -> bool,
    termMatches: (RSourceItem, string, bool) -> bool,
    isWildcard: string -> bool,
    wildcardMatches: (string, string, bool) -> bool)

  /** Parses `code` as the index of the file at `path`, under its aliased path. */
  function MakeIndex(env: Env, path: string, code: string): SourceIndex {
    var context := env.aliasedPath(path);
    SourceIndex(context, env.parse(context, code))
  }

  /** The elements of `xs` satisfying `p`, in order. */
  function Filter<T>(xs: seq<T>, p: T -> bool): (r: seq<T>)
    ensures |r| <= |xs|
  {
    if xs == [] then []
    else
      var init := xs[..|xs| - 1];
      var last := xs[|xs| - 1];
      Filter(init, p) + (if p(last) then [last] else [])
  }

  /**
   * What the filter keeps: only elements satisfying `p`, none at all exactly
   * when no element satisfies it, and first the first one that does.
   */
  lemma {:induction false} FilterSpec<T>(xs: seq<T>, p: T -> bool)
    ensures var r := Filter(xs, p);
            && (forall k :: 0 <= k < |r| ==> p(r[k]))
            && (r == [] <==> forall k :: 0 <= k < |xs| ==> !p(xs[k]))
            && (r != [] ==> exists i :: 0 <= i < |xs| && p(xs[i]) && r[0] == xs[i]
                                       && forall k :: 0 <= k < i ==> !p(xs[k]))
    decreases |xs|
  {
    if xs != [] {
      var init := xs[..|xs| - 1];
      assert forall k :: 0 <= k < |init| ==> init[k] == xs[k];
      FilterSpec(init, p);
    }
  }

  /** Every element of `xs` satisfying `p` is kept, and nothing else. */
  lemma {:induction false} FilterMembers<T>(xs: seq<T>, p: T -> bool, x: T)
    ensures x in Filter(xs, p) <==> x in xs && p(x)
    decreases |xs|
  {
    if xs != [] {
      var init := xs[..|xs| - 1];
      FilterMembers(init, p, x);
      assert xs == init + [xs[|xs| - 1]];
    }
  }

  lemma FilterSnoc<T>(xs: seq<T>, i: nat, p: T -> bool)
    requires i < |xs|
    ensures Filter(xs[..i + 1], p) == Filter(xs[..i], p) + (if p(xs[i]) then [xs[i]] else [])
  {
    assert xs[..i + 1][..i] == xs[..i];
  }

  /** What a prefix of `xs` keeps comes first among what `xs` keeps. */
  lemma {:induction false} FilterPrefix<T>(xs: seq<T>, n: nat, p: T -> bool)
    requires n <= |xs|
    ensures var f := Filter(xs[..n], p);
            var w := Filter(xs, p);
            |f| <= |w| && f == w[..|f|]
    decreases |xs|
  {
    if n < |xs| {
      var init := xs[..|xs| - 1];
      assert init[..n] == xs[..n];
      FilterPrefix(init, n, p);
    } else {
      assert xs[..n] == xs;
    }
  }

  /** `f` applied to each element of `xs`. */
  function Map<T>(xs: seq<T>, f: T -> string): (r: seq<string>)
    ensures |r| == |xs|
    ensures forall k :: 0 <= k < |xs| ==> r[k] == f(xs[k])
  {
    seq(|xs|, k requires 0 <= k < |xs| => f(xs[k]))
  }

  lemma MapSnoc<T>(m: seq<T>, x: T, f: T -> string)
    ensures Map(m + [x], f) == Map(m, f) + [f(x)]
  {
    assert forall k :: 0 <= k < |m| ==> (m + [x])[k] == m[k];
  }

  /** Cutting the mapped `max + 1` first elements of `w` to `max` is taking `max` of all of `w`, mapped. */
  lemma MapCut<T>(m: seq<T>, w: seq<T>, f: T -> string, max: nat)
    requires |m| == max + 1 && |m| <= |w| && m == w[..|m|]
    ensures Map(m, f)[..max] == Take(Map(w, f), max)
    ensures Resize(Map(m, f), max) == Take(Map(w, f), max)
  {
    assert forall k :: 0 <= k < max ==> m[k] == w[k];
  }

  /**
   * The result cap of the file searches: once more than `maxResults` names
   * are held, both lists are cut to `maxResults` and "more available" is set.
   */
  method EnforceMaxResults(maxResults: nat, names: seq<string>, paths: seq<string>, moreAvailable: bool)
    returns (newNames: seq<string>, newPaths: seq<string>, newMore: bool, past: bool)
    ensures past <==> |names| > maxResults
    ensures past ==> newNames == names[..maxResults] && newPaths == Resize(paths, maxResults) && newMore
    ensures !past ==> newNames == names && newPaths == paths && newMore == moreAvailable
  {
    if |names| > maxResults {
      newMore := true;
      newNames := names[..maxResults];
      newPaths := Resize(paths, maxResults);
      past := true;
    } else {
      newNames, newPaths, newMore, past := names, paths, moreAvailable, false;
    }
  }

  /**
   * The loop shared by both file-name searches: walks `xs` in order, and for
   * each element that matches records its file name and path, then applies
   * the result cap, stopping at the first element past it. The outcome is the
   * names and paths of the first `maxResults` matches, and whether there are
   * more matches than that.
   */
  method CollectFileMatches<T>(xs: seq<T>, matches: T -> bool, name: T -> string, path: T -> string,
                               maxResults: nat)
    returns (names: seq<string>, paths: seq<string>, moreAvailable: bool)
    ensures var m := Filter(xs, matches);
            && names == Take(Map(m, name), maxResults)
            && paths == Take(Map(m, path), maxResults)
            && (moreAvailable <==> |m| > maxResults)
  {
    moreAvailable := false;
    names, paths := [], [];
    var i := 0;
    while i < |xs|
      invariant 0 <= i <= |xs|
      invariant !moreAvailable
      invariant var m := Filter(xs[..i], matches);
                |m| <= maxResults && names == Map(m, name) && paths == Map(m, path)
    {
      var x := xs[i];
      FilterSnoc(xs, i, matches);
      if matches(x) {
        ghost var m := Filter(xs[..i], matches);
        MapSnoc(m, x, name);
        MapSnoc(m, x, path);
        names := names + [name(x)];
        paths := paths + [path(x)];
        var past;
        names, paths, moreAvailable, past := EnforceMaxResults(maxResults, names, paths, moreAvailable);
        if past {
          FilterPrefix(xs, i + 1, matches);
          MapCut(m + [x], Filter(xs, matches), name, maxResults);
          MapCut(m + [x], Filter(xs, matches), path, maxResults);
          return;
        }
      }
      i := i + 1;
    }
    assert xs[..|xs|] == xs;
  }

  /** The term test of an index's search. */
  function TermMatcher(term: string, prefixOnly: bool, env: Env): RSourceItem -> bool {
    item => env.termMatches(item, term, prefixOnly)
  }

  /** An index's term search: the items whose names match `term`, in source order. */
  function TermHits(ix: SourceIndex, term: string, prefixOnly: bool, env: Env): seq<RSourceItem> {
    Filter(ix.items, TermMatcher(term, prefixOnly, env))
  }

  function GlobalFunctionNamed(name: string): RSourceItem -> bool {
    item => IsGlobalFunctionNamed(item, name)
  }

  /** An index's predicate search for top-level functions called `name`. */
  function GlobalFunctions(ix: SourceIndex, name: string): seq<RSourceItem> {
    Filter(ix.items, GlobalFunctionNamed(name))
  }

  /** The scope filter on open documents: inside the project directory when a project is open. */
  predicate InScope(ix: SourceIndex, env: Env) {
    env.hasProject ==> env.isWithinProject(env.resolveAliasedPath(ix.context))
  }

  /**
   * File-name matching of the project index: a wildcard pattern when the term
   * is one, else a case-insensitive prefix test or a case-insensitive
   * subsequence test of the term up to its first ':'.
   */
  predicate ProjectFileMatch(name: string, term: string, prefixOnly: bool, env: Env) {
    if env.isWildcard(term) then env.wildcardMatches(name, term, prefixOnly)
    else if prefixOnly then IStartsWith(name, term)
    else SubsequenceMatch(name, term, QueryEnd(term), true)
  }

  /**
   * File-name matching of open documents: a wildcard pattern anchored at the
   * start, else a case-sensitive subsequence test of the term up to its first ':'.
   */
  predicate DocFileMatch(name: string, term: string, env: Env) {
    if env.isWildcard(term) then env.wildcardMatches(name, term, true)
    else SubsequenceMatch(name, term, QueryEnd(term), false)
  }

  /** A `name:line:col` query matches exactly the names its `name` part matches. */
  lemma QuerySuffixIgnored(name: string, stem: string, suffix: string, caseInsensitive: bool)
    requires ':' !in stem
    ensures var term := stem + [':'] + suffix;
            SubsequenceMatch(name, term, QueryEnd(term), caseInsensitive)
              == SubsequenceMatch(name, stem, |stem|, caseInsensitive)
  {
    var term := stem + [':'] + suffix;
    var n := QueryEnd(term);
    assert term[|stem|] == ':';
    assert forall k :: 0 <= k < |stem| ==> term[k] == stem[k];
    assert term[..n] == stem;
    assert stem[..|stem|] == stem;
  }
}
