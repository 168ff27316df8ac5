/**
 * The searches that consult both indexes: symbol search and definition
 * lookup look at the open documents first (those inside the project when a
 * project is open) and then at the project index, skipping every document
 * already looked at; file search uses the project index when the project's
 * files are monitored and the open documents otherwise.
 */
module Dispatch {
  import opened Wrappers
  import opened Model
  import opened ProjectIndex
  import opened DocumentIndex

  // ---------------------------------------------------------------------
  // Open documents, as functions of their indexes in id order

  /** The contexts of the in-scope indexes. */
  function ScopeContexts(ixs: seq<SourceIndex>, env: Env): set<string> {
    if ixs == [] then {}
    else
      var last := ixs[|ixs| - 1];
      ScopeContexts(ixs[..|ixs| - 1], env) + (if InScope(last, env) then {last.context} else {})
  }

  /** Exactly the contexts of the in-scope indexes are recorded. */
  lemma {:induction false} ScopeContextsSpec(ixs: seq<SourceIndex>, env: Env, c: string)
    ensures c in ScopeContexts(ixs, env) <==> exists k :: 0 <= k < |ixs| && InScope(ixs[k], env) && ixs[k].context == c
    decreases |ixs|
  {
    if ixs != [] {
      var init := ixs[..|ixs| - 1];
      ScopeContextsSpec(init, env, c);
      if c in ScopeContexts(ixs, env) && c !in ScopeContexts(init, env) {
        assert InScope(ixs[|ixs| - 1], env) && ixs[|ixs| - 1].context == c;
      }
      if exists k :: 0 <= k < |ixs| && InScope(ixs[k], env) && ixs[k].context == c {
        var k :| 0 <= k < |ixs| && InScope(ixs[k], env) && ixs[k].context == c;
        if k < |init| {
          assert init[k] == ixs[k];
        }
      }
    }
  }

  lemma ScopeContextsSnoc(ixs: seq<SourceIndex>, i: nat, env: Env)
    requires i < |ixs|
    ensures ScopeContexts(ixs[..i + 1], env)
              == ScopeContexts(ixs[..i], env) + (if InScope(ixs[i], env) then {ixs[i].context} else {})
  {
    assert ixs[..i + 1][..i] == ixs[..i];
  }

  lemma {:induction false} ScopeContextsPrefix(ixs: seq<SourceIndex>, n: nat, env: Env)
    requires n <= |ixs|
    ensures ScopeContexts(ixs[..n], env) <= ScopeContexts(ixs, env)
    decreases |ixs|
  {
    if n < |ixs| {
      var init := ixs[..|ixs| - 1];
      assert init[..n] == ixs[..n];
      ScopeContextsPrefix(init, n, env);
    } else {
      assert ixs[..n] == ixs;
    }
  }

  /** All term hits of the in-scope indexes, index by index. */
  function DocItems(ixs: seq<SourceIndex>, term: string, prefixOnly: bool, env: Env): seq<RSourceItem> {
    if ixs == [] then []
    else
      var last := ixs[|ixs| - 1];
      DocItems(ixs[..|ixs| - 1], term, prefixOnly, env)
        + (if InScope(last, env) then TermHits(last, term, prefixOnly, env) else [])
  }

  lemma DocItemsSnoc(ixs: seq<SourceIndex>, i: nat, term: string, prefixOnly: bool, env: Env)
    requires i < |ixs|
    ensures DocItems(ixs[..i + 1], term, prefixOnly, env)
              == DocItems(ixs[..i], term, prefixOnly, env)
                 + (if InScope(ixs[i], env) then TermHits(ixs[i], term, prefixOnly, env) else [])
  {
    assert ixs[..i + 1][..i] == ixs[..i];
  }

  /** The hits of the first `n` indexes come first among all hits. */
  lemma {:induction false} DocItemsPrefix(ixs: seq<SourceIndex>, n: nat, term: string, prefixOnly: bool, env: Env)
    requires n <= |ixs|
    ensures var p := DocItems(ixs[..n], term, prefixOnly, env);
            var w := DocItems(ixs, term, prefixOnly, env);
            |p| <= |w| && p == w[..|p|]
    decreases |ixs|
  {
    if n < |ixs| {
      var init := ixs[..|ixs| - 1];
      assert init[..n] == ixs[..n];
      DocItemsPrefix(init, n, term, prefixOnly, env);
    } else {
      assert ixs[..n] == ixs;
    }
  }

  /** The first top-level definition of `name` among the in-scope indexes. */
  function FirstDocGlobalFunction(ixs: seq<SourceIndex>, name: string, env: Env): Option<RSourceItem> {
    if ixs == [] then None
    else if InScope(ixs[0], env) && GlobalFunctions(ixs[0], name) != [] then Some(GlobalFunctions(ixs[0], name)[0])
    else FirstDocGlobalFunction(ixs[1..], name, env)
  }

  /** Whether an open document is in scope and defines `name` at top level. */
  predicate DocDefines(ix: SourceIndex, name: string, env: Env) {
    InScope(ix, env) && GlobalFunctions(ix, name) != []
  }

  /**
   * The open-document lookup finds a definition iff some in-scope index
   * holds a top-level function or method of that name; it then returns the
   * first such definition of the first such index in id order.
   */
  lemma {:induction false} FirstDocGlobalFunctionSpec(ixs: seq<SourceIndex>, name: string, env: Env)
    ensures var r := FirstDocGlobalFunction(ixs, name, env);
            && (r.None? <==> forall k :: 0 <= k < |ixs| && InScope(ixs[k], env) ==> GlobalFunctions(ixs[k], name) == [])
            && (r.Some? ==> IsGlobalFunctionNamed(r.value, name))
            && (r.Some? ==> exists i :: && 0 <= i < |ixs| && DocDefines(ixs[i], name, env)
                                      && (forall k :: 0 <= k < i ==> !DocDefines(ixs[k], name, env))
                                      && r.value == GlobalFunctions(ixs[i], name)[0])
    decreases |ixs|
  {
    if ixs != [] {
      if DocDefines(ixs[0], name, env) {
        FilterSpec(ixs[0].items, GlobalFunctionNamed(name));
      } else {
        var rest := ixs[1..];
        FirstDocGlobalFunctionSpec(rest, name, env);
        var r := FirstDocGlobalFunction(ixs, name, env);
        if r.Some? {
          var i :| && 0 <= i < |rest| && DocDefines(rest[i], name, env)
                   && (forall k :: 0 <= k < i ==> !DocDefines(rest[k], name, env))
                   && r.value == GlobalFunctions(rest[i], name)[0];
          FirstDefinerShift(ixs, name, env, i);
        }
      }
    }
  }

  /** A first defining index of the tail is, one place on, the first of the whole sequence. */
  lemma FirstDefinerShift(ixs: seq<SourceIndex>, name: string, env: Env, i: nat)
    requires 0 <= i < |ixs| - 1 && !DocDefines(ixs[0], name, env)
    requires DocDefines(ixs[1..][i], name, env)
    requires forall k :: 0 <= k < i ==> !DocDefines(ixs[1..][k], name, env)
    ensures ixs[i + 1] == ixs[1..][i] && DocDefines(ixs[i + 1], name, env)
    ensures forall k :: 0 <= k < i + 1 ==> !DocDefines(ixs[k], name, env)
  {
    forall k | 0 <= k < i + 1 ensures !DocDefines(ixs[k], name, env) {
      if k > 0 { assert ixs[k] == ixs[1..][k - 1]; }
    }
  }

  // ---------------------------------------------------------------------
  // Combinations of the two indexes

  /** What the whole symbol search returns: open-document hits, then project hits outside them. */
  function AllItems(ixs: seq<SourceIndex>, entries: seq<Entry>, term: string, prefixOnly: bool, env: Env)
    : seq<RSourceItem>
  {
    DocItems(ixs, term, prefixOnly, env) + ProjectItems(entries, term, prefixOnly, ScopeContexts(ixs, env), env)
  }

  /** What the definition lookup returns: the open-document definition, else a project one outside them. */
  function DefinitionOf(ixs: seq<SourceIndex>, entries: seq<Entry>, name: string, env: Env): Option<RSourceItem> {
    match FirstDocGlobalFunction(ixs, name, env)
    case Some(item) => Some(item)
    case None => FirstGlobalFunction(entries, name, ScopeContexts(ixs, env))
  }

  /**
   * A definition is found iff an in-scope document or a project file whose
   * context was not among the in-scope documents defines the name at top level.
   */
  lemma DefinitionOfSpec(ixs: seq<SourceIndex>, entries: seq<Entry>, name: string, env: Env)
    ensures var r := DefinitionOf(ixs, entries, name, env);
            && (r.Some? ==> IsGlobalFunctionNamed(r.value, name))
            && (r.None? <==>
                  && (forall k :: 0 <= k < |ixs| && InScope(ixs[k], env) ==> GlobalFunctions(ixs[k], name) == [])
                  && (forall k :: 0 <= k < |entries| ==> !Defines(entries[k], name, ScopeContexts(ixs, env))))
  {
    FirstDocGlobalFunctionSpec(ixs, name, env);
    FirstGlobalFunctionSpec(entries, name, ScopeContexts(ixs, env));
  }

  /** Taking `n` from a sequence that reaches `n` by itself ignores what follows it. */
  lemma TakeAppendLong<T>(d: seq<T>, p: seq<T>, n: nat)
    requires n <= |d|
    ensures Take(d + p, n) == d[..n]
  {
    assert (d + p)[..n] == d[..n];
  }

  /**
   * A capped first part followed by the second part capped to what is left
   * is the cap of the two together; when the first part used up the budget
   * the second is empty whatever it was drawn from.
   */
  lemma TakeInTwoParts<T>(d: seq<T>, p: seq<T>, n: nat, a: seq<T>, b: seq<T>)
    requires a == Take(d, n)
    requires |b| <= n - |a|
    requires |a| < n ==> b == Take(p, n - |a|)
    ensures a + b == Take(d + p, n) && |a + b| <= n
  {
    if |a| < n {
      TakeAppendShort(d, p, n);
    } else {
      TakeAppendLong(d, p, n);
    }
  }

  /** Taking `n` from `d + p` when `d` is short is `d` and the rest of the budget taken from `p`. */
  lemma TakeAppendShort<T>(d: seq<T>, p: seq<T>, n: nat)
    requires |d| <= n
    ensures Take(d + p, n) == d + Take(p, n - |d|)
  {
    if n - |d| <= |p| {
      assert (d + p)[..n] == d + p[..n - |d|];
    }
  }

  // ---------------------------------------------------------------------
  // The searches

  /** The file-name test of an open document: a saved document whose file name matches. */
  function DocFileMatcher(term: string, env: Env): SourceIndex -> bool {
    (ix: SourceIndex) => ix.context != [] && DocFileMatch(env.fileName(env.resolveAliasedPath(ix.context)), term, env)
  }

  function DocFileName(env: Env): SourceIndex -> string {
    (ix: SourceIndex) => env.fileName(env.resolveAliasedPath(ix.context))
  }

  function IndexContext(ix: SourceIndex): string {
    ix.context
  }

  /** The open documents whose file names match, in id order. */
  function DocFileMatches(ixs: seq<SourceIndex>, term: string, env: Env): seq<SourceIndex> {
    Filter(ixs, DocFileMatcher(term, env))
  }

  /** A document is among the file matches iff it is saved and its file name matches. */
  lemma DocFileMatchesSpec(ixs: seq<SourceIndex>, term: string, env: Env, ix: SourceIndex)
    ensures ix in DocFileMatches(ixs, term, env) <==>
              ix in ixs && ix.context != [] && DocFileMatch(env.fileName(env.resolveAliasedPath(ix.context)), term, env)
  {
    FilterMembers(ixs, DocFileMatcher(term, env), ix);
  }

  /** A project entry is among the file matches iff its file name matches. */
  lemma ProjectFileMatchesSpec(entries: seq<Entry>, term: string, prefixOnly: bool, env: Env, e: Entry)
    ensures e in FileMatches(entries, term, prefixOnly, env) <==>
              e in entries && ProjectFileMatch(env.fileName(e.file.path), term, prefixOnly, env)
  {
    FilterMembers(entries, FileMatcher(term, prefixOnly, env), e);
  }

  /**
   * Term search over the in-scope open documents in id order, recording
   * the context of each one searched and stopping as soon as `maxResults`
   * items are held, cut to that size.
   */
  method SearchSourceDatabase(docs: RSourceIndexes, term: string, maxResults: nat, prefixOnly: bool, env: Env)
    returns (items: seq<RSourceItem>, contexts: set<string>)
    ensures var ixs := IndexValues(docs.indexes);
            && items == Take(DocItems(ixs, term, prefixOnly, env), maxResults)
            && contexts <= ScopeContexts(ixs, env)
            && (|items| < maxResults ==> contexts == ScopeContexts(ixs, env))
  {
    var ixs := docs.Indexes();
    assert ixs == IndexValues(docs.indexes);
    items, contexts := [], {};
    var i := 0;
    while i < |ixs|
      invariant 0 <= i <= |ixs|
      invariant items == DocItems(ixs[..i], term, prefixOnly, env)
      invariant contexts == ScopeContexts(ixs[..i], env)
      invariant |items| < maxResults || items == []
    {
      var ix := ixs[i];
      DocItemsSnoc(ixs, i, term, prefixOnly, env);
      ScopeContextsSnoc(ixs, i, env);
      if InScope(ix, env) {
        contexts := contexts + {ix.context};
        items := items + TermHits(ix, term, prefixOnly, env);
        if |items| >= maxResults {
          DocItemsPrefix(ixs, i + 1, term, prefixOnly, env);
          ScopeContextsPrefix(ixs, i + 1, env);
          TakeOfPrefix(items, DocItems(ixs, term, prefixOnly, env), maxResults);
          items := items[..maxResults];
          return;
        }
      }
      i := i + 1;
    }
    assert ixs[..|ixs|] == ixs;
  }

  /**
   * Symbol search: the open documents first, then the project index with
   * the remaining budget and without the contexts already searched. Both
   * parts are already capped, so neither of the cuts that follow them is ever
   * taken and "more available" is never set.
   */
  method SearchSource(docs: RSourceIndexes, project: SourceFileIndex, term: string, maxResults: nat,
                      prefixOnly: bool, env: Env)
    returns (items: seq<RSourceItem>, moreAvailable: bool)
    ensures items == Take(AllItems(IndexValues(docs.indexes), project.entries, term, prefixOnly, env), maxResults)
    ensures !moreAvailable
  {
    moreAvailable := false;
    var contexts;
    items, contexts := SearchSourceDatabase(docs, term, maxResults, prefixOnly, env);
    ghost var ixs := IndexValues(docs.indexes);
    ghost var d := DocItems(ixs, term, prefixOnly, env);
    ghost var p := ProjectItems(project.entries, term, prefixOnly, ScopeContexts(ixs, env), env);
    assert |items| <= maxResults;
    // never taken: the open-document search is already capped
    if |items| > maxResults {
      moreAvailable := true;
      items := Take(items, maxResults);
      return;
    }
    var projItems := project.SearchSource(term, maxResults - |items|, prefixOnly, contexts, env);
    TakeInTwoParts(d, p, maxResults, items, projItems);
    ghost var all := items + projItems;
    // the cut after each appended project item is never taken either
    var j := 0;
    while j < |projItems|
      invariant 0 <= j <= |projItems|
      invariant items + projItems[j..] == all
      invariant !moreAvailable
    {
      items := items + [projItems[j]];
      assert items + projItems[j + 1..] == all;
      if |items| > maxResults {
        moreAvailable := true;
        items := Take(items, maxResults);
        break;
      }
      j := j + 1;
    }
  }

  /**
   * The open-document lookup of a top-level function: the first in-scope
   * index in id order that defines it, and the contexts of the in-scope
   * indexes looked at, all of them when nothing is found.
   */
  method FindGlobalFunctionInSourceDatabase(docs: RSourceIndexes, name: string, env: Env)
    returns (found: Option<RSourceItem>, contexts: set<string>)
    ensures found == FirstDocGlobalFunction(IndexValues(docs.indexes), name, env)
    ensures contexts <= ScopeContexts(IndexValues(docs.indexes), env)
    ensures found.None? ==> contexts == ScopeContexts(IndexValues(docs.indexes), env)
  {
    var ixs := docs.Indexes();
    assert ixs == IndexValues(docs.indexes);
    contexts := {};
    var i := 0;
    while i < |ixs|
      invariant 0 <= i <= |ixs|
      invariant FirstDocGlobalFunction(ixs, name, env) == FirstDocGlobalFunction(ixs[i..], name, env)
      invariant contexts == ScopeContexts(ixs[..i], env)
    {
      var ix := ixs[i];
      assert ixs[i..][0] == ix && ixs[i..][1..] == ixs[i + 1..];
      ScopeContextsSnoc(ixs, i, env);
      if InScope(ix, env) {
        contexts := contexts + {ix.context};
        var hits := GlobalFunctions(ix, name);
        if |hits| > 0 {
          ScopeContextsPrefix(ixs, i + 1, env);
          return Some(hits[0]), contexts;
        }
      }
      i := i + 1;
    }
    assert ixs[..|ixs|] == ixs;
    found := None;
  }

  /** Definition lookup: the open documents, and the project index only when they have none. */
  method FindDefinition(docs: RSourceIndexes, project: SourceFileIndex, name: string, env: Env)
    returns (found: Option<RSourceItem>)
    ensures found == DefinitionOf(IndexValues(docs.indexes), project.entries, name, env)
  {
    var contexts;
    found, contexts := FindGlobalFunctionInSourceDatabase(docs, name, env);
    if found.None? {
      found := project.FindGlobalFunction(name, contexts);
    }
  }

  /**
   * File search over the open documents in id order: the file names and
   * aliased paths of the first `maxResults` saved documents whose names
   * match, and whether more match.
   */
  method SearchSourceDatabaseFiles(docs: RSourceIndexes, term: string, maxResults: nat, env: Env)
    returns (names: seq<string>, paths: seq<string>, moreAvailable: bool)
    ensures var m := DocFileMatches(IndexValues(docs.indexes), term, env);
            && names == Take(Map(m, DocFileName(env)), maxResults)
            && paths == Take(Map(m, IndexContext), maxResults)
            && (moreAvailable <==> |m| > maxResults)
  {
    var ixs := docs.Indexes();
    assert ixs == IndexValues(docs.indexes);
    names, paths, moreAvailable := CollectFileMatches(ixs, DocFileMatcher(term, env), DocFileName(env), IndexContext, maxResults);
  }

  /** File search: the project index when its files are monitored, else the open documents. */
  method SearchFiles(docs: RSourceIndexes, project: SourceFileIndex, hasFileMonitor: bool, term: string,
                     maxResults: nat, env: Env)
    returns (names: seq<string>, paths: seq<string>, moreAvailable: bool)
    ensures |names| == |paths| <= maxResults
    ensures hasFileMonitor ==>
              var m := FileMatches(project.entries, term, false, env);
              && names == Take(Map(m, EntryFileName(env)), maxResults)
              && paths == Take(Map(m, EntryAliasedPath(env)), maxResults)
              && (moreAvailable <==> |m| > maxResults)
    ensures !hasFileMonitor ==>
              var m := DocFileMatches(IndexValues(docs.indexes), term, env);
              && names == Take(Map(m, DocFileName(env)), maxResults)
              && paths == Take(Map(m, IndexContext), maxResults)
              && (moreAvailable <==> |m| > maxResults)
  {
    if hasFileMonitor {
      names, paths, moreAvailable := project.SearchFiles(term, maxResults, false, env);
    } else {
      names, paths, moreAvailable := SearchSourceDatabaseFiles(docs, term, maxResults, env);
    }
  }
}
