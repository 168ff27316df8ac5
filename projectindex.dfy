/**
 * The project index: the source files of the open project, kept as an
 * ordered set of entries (one per path, an R file with its parsed index), fed
 * by a FIFO queue of file-change events that is worked off one event at a
 * time, and the three searches over it (top-level function lookup, symbol
 * search and file-name search).
 */
module ProjectIndex {
  import opened Wrappers
  import opened Text
  import opened Ordered
  import opened Model

  /** Whether `x` is one of `xs`. */
  predicate Listed(x: string, xs: seq<string>)
    decreases |xs|
  {
    xs != [] && (xs[0] == x || Listed(x, xs[1..]))
  }

  const SourceExtensions: seq<string> :=
    [".r", ".rnw", ".rmd", ".rmarkdown", ".rhtml", ".rd", ".h", ".hpp", ".c", ".cpp", ".json"]

  const SourceFileNames: seq<string> :=
    ["DESCRIPTION", "NAMESPACE", "README", "NEWS", "Makefile", "configure", "cleanup", "Makevars"]

  /** Files the index tracks at all: user files that are R, C/C++, package or text files. */
  predicate IsSourceFile(file: FileInfo, env: Env): (b: bool)
    ensures !env.isUserFile(file.path) || env.isDirectory(file.path) ==> !b
    ensures env.isUserFile(file.path) && IsIndexableSourceFile(file, env) ==> b
    ensures env.isUserFile(file.path) && !env.isDirectory(file.path) && env.hasTextMimeType(file.path) ==> b
  {
    && env.isUserFile(file.path)
    && !env.isDirectory(file.path)
    && (|| Listed(env.extensionLowerCase(file.path), SourceExtensions)
        || Listed(env.fileName(file.path), SourceFileNames)
        || env.hasTextMimeType(file.path))
  }

  /** Files whose contents are parsed: non-directories with extension `.r` in any case. */
  predicate IsIndexableSourceFile(file: FileInfo, env: Env): (b: bool)
    ensures b ==> !env.isDirectory(file.path) && Listed(env.extensionLowerCase(file.path), SourceExtensions)
    ensures env.extensionLowerCase(file.path) != ".r" ==> !b
  {
    !env.isDirectory(file.path) && env.extensionLowerCase(file.path) == ".r"
  }

  // ---------------------------------------------------------------------
  // Entry-set updates, as functions of the old entries

  /**
   * The entries after (re)indexing `file`: an indexable file that cannot be
   * read leaves everything as it was; otherwise the entry for its path is
   * inserted or replaced, carrying a parsed index exactly when it is indexable.
   */
  function UpdateEntry(entries: seq<Entry>, file: FileInfo, env: Env): seq<Entry> {
    if IsIndexableSourceFile(file, env) then
      match env.readFile(file.path)
      case Read(code) => Upsert(entries, EntryPath, Entry(file, Some(MakeIndex(env, file.path, code))))
      case _ => entries
    else
      Upsert(entries, EntryPath, Entry(file, None))
  }

  /** The path logged by an update: only a read failure other than "not found". */
  function UpdateLog(file: FileInfo, env: Env): Option<string> {
    if IsIndexableSourceFile(file, env) && env.readFile(file.path).ReadError? then Some(file.path)
    else None
  }

  function RemoveEntry(entries: seq<Entry>, file: FileInfo): seq<Entry> {
    Erase(entries, EntryPath, file.path)
  }

  /** The effect of one file-change event on the entries. */
  function ApplyEvent(entries: seq<Entry>, event: FileChangeEvent, env: Env): seq<Entry> {
    match event.kind
    case FileAdded => UpdateEntry(entries, event.file, env)
    case FileModified => UpdateEntry(entries, event.file, env)
    case FileRemoved => RemoveEntry(entries, event.file)
    case NoChange => entries
  }

  function EventLog(event: FileChangeEvent, env: Env): Option<string> {
    if event.kind == FileAdded || event.kind == FileModified then UpdateLog(event.file, env) else None
  }

  /** The "added" events for the source files among `files`, in order. */
  function AddedEvents(files: seq<FileInfo>, env: Env): seq<FileChangeEvent>
  {
    if files == [] then []
    else
      var last := files[|files| - 1];
      AddedEvents(files[..|files| - 1], env)
        + (if IsSourceFile(last, env) then [FileChangeEvent(FileAdded, last)] else [])
  }

  /**
   * The queued events are exactly "added" events for the source files among
   * `files`: each is one, and each source file gets one.
   */
  lemma {:induction false} AddedEventsSpec(files: seq<FileInfo>, env: Env)
    ensures var r := AddedEvents(files, env);
            && |r| <= |files|
            && (forall k :: 0 <= k < |r| ==> r[k].kind == FileAdded && r[k].file in files && IsSourceFile(r[k].file, env))
            && (forall f :: f in files && IsSourceFile(f, env) ==> FileChangeEvent(FileAdded, f) in r)
    decreases |files|
  {
    if files != [] {
      var init := files[..|files| - 1];
      AddedEventsSpec(init, env);
      assert files == init + [files[|files| - 1]];
    }
  }

  lemma AddedEventsSnoc(files: seq<FileInfo>, i: nat, env: Env)
    requires i < |files|
    ensures AddedEvents(files[..i + 1], env) == AddedEvents(files[..i], env)
              + (if IsSourceFile(files[i], env) then [FileChangeEvent(FileAdded, files[i])] else [])
  {
    assert files[..i + 1][..i] == files[..i];
  }

  /** Whether some entry is for `path`. */
  predicate HasEntry(entries: seq<Entry>, path: string) {
    HasKey(entries, EntryPath, path)
  }

  /**
   * After an update that did not fail, exactly one entry is for the file's
   * path: it is the new one, and it has an index iff the file is indexable.
   * All entries for other paths are as they were, and the set stays ordered.
   */
  lemma UpdateEntryEffect(entries: seq<Entry>, file: FileInfo, env: Env)
    requires SortedBy(entries, EntryPath)
    requires !IsIndexableSourceFile(file, env) || env.readFile(file.path).Read?
    ensures var r := UpdateEntry(entries, file, env);
            && SortedBy(r, EntryPath)
            && HasEntry(r, file.path)
            && (forall i, j :: 0 <= i < |r| && 0 <= j < |r| && r[i].file.path == r[j].file.path ==> i == j)
            && (forall e: Entry :: e in r && e.file.path == file.path ==>
                  e.file == file && (e.index.Some? <==> IsIndexableSourceFile(file, env)))
            && (forall e: Entry :: e.file.path != file.path ==> (e in r <==> e in entries))
  {
    var x := if IsIndexableSourceFile(file, env)
             then Entry(file, Some(MakeIndex(env, file.path, env.readFile(file.path).code)))
             else Entry(file, None);
    assert UpdateEntry(entries, file, env) == Upsert(entries, EntryPath, x);
    UpsertSpec(entries, EntryPath, x);
    var r := Upsert(entries, EntryPath, x);
    var i :| 0 <= i < |r| && r[i] == x;
    assert EntryPath(r[i]) == file.path;
  }

  /**
   * An indexable file that cannot be read leaves the entries exactly as they
   * were, stale entry included; only an error other than "not found" is logged.
   */
  lemma ReadFailureKeepsEntries(entries: seq<Entry>, file: FileInfo, env: Env)
    requires IsIndexableSourceFile(file, env) && !env.readFile(file.path).Read?
    ensures UpdateEntry(entries, file, env) == entries
    ensures UpdateLog(file, env).Some? <==> env.readFile(file.path).ReadError?
  {
  }

  /**
   * After a removal no entry is for the path, the others are as they were,
   * and removing an absent path changes nothing.
   */
  lemma RemoveEntryEffect(entries: seq<Entry>, file: FileInfo)
    requires SortedBy(entries, EntryPath)
    ensures SortedBy(RemoveEntry(entries, file), EntryPath)
    ensures !HasEntry(RemoveEntry(entries, file), file.path)
    ensures forall e: Entry :: e.file.path != file.path ==> (e in RemoveEntry(entries, file) <==> e in entries)
    ensures !HasEntry(entries, file.path) ==> RemoveEntry(entries, file) == entries
  {
    EraseSpec(entries, EntryPath, file.path);
  }

  /** Processing the same file twice in a row has the effect of processing it once. */
  lemma UpdateEntryIdempotent(entries: seq<Entry>, file: FileInfo, env: Env)
    ensures UpdateEntry(UpdateEntry(entries, file, env), file, env) == UpdateEntry(entries, file, env)
  {
    if IsIndexableSourceFile(file, env) {
      if env.readFile(file.path).Read? {
        UpsertIdempotent(entries, EntryPath, Entry(file, Some(MakeIndex(env, file.path, env.readFile(file.path).code))));
      }
    } else {
      UpsertIdempotent(entries, EntryPath, Entry(file, None));
    }
  }

  /** A file added and then removed leaves no entry, and no trace on the others. */
  lemma AddThenRemove(entries: seq<Entry>, file: FileInfo, env: Env)
    requires SortedBy(entries, EntryPath)
    ensures var r := ApplyEvent(ApplyEvent(entries, FileChangeEvent(FileAdded, file), env),
                                FileChangeEvent(FileRemoved, file), env);
            !HasEntry(r, file.path) && forall e: Entry :: e.file.path != file.path ==> (e in r <==> e in entries)
  {
    var mid := UpdateEntry(entries, file, env);
    if !IsIndexableSourceFile(file, env) || env.readFile(file.path).Read? {
      UpdateEntryEffect(entries, file, env);
    }
    RemoveEntryEffect(mid, file);
  }

  // ---------------------------------------------------------------------
  // Searches, as functions of the entries

  /** Entries a project search looks into: those with an index whose context is not excluded. */
  predicate Searchable(e: Entry, exclude: set<string>) {
    e.index.Some? && e.index.value.context !in exclude
  }

  /** Whether a searchable entry defines a top-level function called `name`. */
  predicate Defines(e: Entry, name: string, exclude: set<string>) {
    Searchable(e, exclude) && GlobalFunctions(e.index.value, name) != []
  }

  /** The first top-level definition of `name` in entry order. */
  function FirstGlobalFunction(entries: seq<Entry>, name: string, exclude: set<string>): Option<RSourceItem> {
    if entries == [] then None
    else if Defines(entries[0], name, exclude) then Some(GlobalFunctions(entries[0].index.value, name)[0])
    else FirstGlobalFunction(entries[1..], name, exclude)
  }

  /**
   * The lookup finds a definition iff some searchable entry defines the
   * name; it then returns the first such definition of the first such entry.
   */
  lemma {:induction false} FirstGlobalFunctionSpec(entries: seq<Entry>, name: string, exclude: set<string>)
    ensures var r := FirstGlobalFunction(entries, name, exclude);
            && (r.None? <==> forall i :: 0 <= i < |entries| ==> !Defines(entries[i], name, exclude))
            && (r.Some? ==> IsGlobalFunctionNamed(r.value, name))
            && (r.Some? ==> exists i :: && 0 <= i < |entries| && Defines(entries[i], name, exclude)
                                      && (forall k :: 0 <= k < i ==> !Defines(entries[k], name, exclude))
                                      && r.value == GlobalFunctions(entries[i].index.value, name)[0])
    decreases |entries|
  {
    if entries != [] && Defines(entries[0], name, exclude) {
      FilterSpec(entries[0].index.value.items, GlobalFunctionNamed(name));
    }
    if entries != [] && !Defines(entries[0], name, exclude) {
      FirstGlobalFunctionSpec(entries[1..], name, exclude);
      var r := FirstGlobalFunction(entries, name, exclude);
      forall i | 0 <= i < |entries[1..]| ensures entries[1..][i] == entries[i + 1] { }
      if r.Some? {
        var i :| && 0 <= i < |entries[1..]| && Defines(entries[1..][i], name, exclude)
                 && (forall k :: 0 <= k < i ==> !Defines(entries[1..][k], name, exclude))
                 && r.value == GlobalFunctions(entries[1..][i].index.value, name)[0];
        assert forall k :: 0 <= k < i + 1 ==> !Defines(entries[k], name, exclude) by {
          forall k | 0 <= k < i + 1 ensures !Defines(entries[k], name, exclude) {
            if k > 0 { assert entries[k] == entries[1..][k - 1]; }
          }
        }
      } else {
        forall i | 0 <= i < |entries| ensures !Defines(entries[i], name, exclude) {
          if i > 0 { assert entries[i] == entries[1..][i - 1]; }
        }
      }
    }
  }

  function EntryHits(e: Entry, term: string, prefixOnly: bool, exclude: set<string>, env: Env): seq<RSourceItem> {
    if Searchable(e, exclude) then TermHits(e.index.value, term, prefixOnly, env) else []
  }

  /** All term hits of the searchable entries, entry by entry. */
  function ProjectItems(entries: seq<Entry>, term: string, prefixOnly: bool, exclude: set<string>, env: Env)
    : seq<RSourceItem>
  {
    if entries == [] then []
    else ProjectItems(entries[..|entries| - 1], term, prefixOnly, exclude, env)
         + EntryHits(entries[|entries| - 1], term, prefixOnly, exclude, env)
  }

  lemma ProjectItemsSnoc(entries: seq<Entry>, i: nat, term: string, prefixOnly: bool, exclude: set<string>, env: Env)
    requires i < |entries|
    ensures ProjectItems(entries[..i + 1], term, prefixOnly, exclude, env)
              == ProjectItems(entries[..i], term, prefixOnly, exclude, env)
                 + EntryHits(entries[i], term, prefixOnly, exclude, env)
  {
    assert entries[..i + 1][..i] == entries[..i];
  }

  /** The hits of the first `n` entries come first among all hits. */
  lemma {:induction false} ProjectItemsPrefix(entries: seq<Entry>, n: nat, term: string, prefixOnly: bool,
                                              exclude: set<string>, env: Env)
    requires n <= |entries|
    ensures var p := ProjectItems(entries[..n], term, prefixOnly, exclude, env);
            var w := ProjectItems(entries, term, prefixOnly, exclude, env);
            |p| <= |w| && p == w[..|p|]
    decreases |entries|
  {
    if n < |entries| {
      var init := entries[..|entries| - 1];
      assert init[..n] == entries[..n];
      ProjectItemsPrefix(init, n, term, prefixOnly, exclude, env);
    } else {
      assert entries[..n] == entries;
    }
  }

  /** The file-name test of one entry. */
  function FileMatcher(term: string, prefixOnly: bool, env: Env): Entry -> bool {
    (e: Entry) => ProjectFileMatch(env.fileName(e.file.path), term, prefixOnly, env)
  }

  function EntryFileName(env: Env): Entry -> string {
    (e: Entry) => env.fileName(e.file.path)
  }

  function EntryAliasedPath(env: Env): Entry -> string {
    (e: Entry) => env.aliasedPath(e.file.path)
  }

  /** The entries whose file names match, in entry order. */
  function FileMatches(entries: seq<Entry>, term: string, prefixOnly: bool, env: Env): seq<Entry> {
    Filter(entries, FileMatcher(term, prefixOnly, env))
  }

  // ---------------------------------------------------------------------
  // The index object

  class SourceFileIndex {
    /** The ordered set of entries, one per path. */
    var entries: seq<Entry>
    /** Pending file-change events, oldest first. */
    var queue: seq<FileChangeEvent>
    /** Whether incremental indexing work is scheduled. */
    var indexing: bool

    ghost predicate Valid()
      reads this
    {
      SortedBy(entries, EntryPath) && indexing == (queue != [])
    }

    constructor()
      ensures Valid()
      ensures entries == [] && queue == [] && !indexing
    {
      entries := [];
      queue := [];
      indexing := false;
    }

    /**
     * Queues an "added" event for every source file among `files` and asks
     * for indexing work to be scheduled when there is work and none was.
     */
    method EnqueFiles(files: seq<FileInfo>, env: Env) returns (scheduled: bool)
      requires Valid()
      modifies this
      ensures Valid()
      ensures entries == old(entries)
      ensures queue == old(queue) + AddedEvents(files, env)
      ensures scheduled <==> !old(indexing) && queue != []
    {
      var pending := queue;
      var i := 0;
      while i < |files|
        invariant 0 <= i <= |files|
        invariant entries == old(entries) && queue == old(queue) && indexing == old(indexing)
        invariant pending == queue + AddedEvents(files[..i], env)
      {
        AddedEventsSnoc(files, i, env);
        pending := pending + (if IsSourceFile(files[i], env) then [FileChangeEvent(FileAdded, files[i])] else []);
        i := i + 1;
      }
      assert files[..|files|] == files;
      queue := pending;
      scheduled := false;
      if queue != [] && !indexing {
        indexing := true;
        scheduled := true;
      }
    }

    /**
     * Queues one change of a source file (others are ignored) and asks for
     * indexing work to be scheduled when none was.
     */
    method EnqueFileChange(event: FileChangeEvent, env: Env) returns (scheduled: bool)
      requires Valid()
      modifies this
      ensures Valid()
      ensures entries == old(entries)
      ensures IsSourceFile(event.file, env) ==>
                queue == old(queue) + [event] && indexing && (scheduled <==> !old(indexing))
      ensures !IsSourceFile(event.file, env) ==>
                queue == old(queue) && indexing == old(indexing) && !scheduled
    {
      scheduled := false;
      if !IsSourceFile(event.file, env) {
        return;
      }
      queue := queue + [event];
      if !indexing {
        indexing := true;
        scheduled := true;
      }
    }

    /**
     * Processes the oldest queued event, if any, and reports whether work
     * remains, which is also the new value of the indexing flag.
     */
    method DequeAndIndex(env: Env) returns (more: bool, logged: Option<string>)
      requires Valid()
      modifies this
      ensures Valid()
      ensures old(queue) == [] ==> entries == old(entries) && queue == [] && logged == None
      ensures old(queue) != [] ==>
                && queue == old(queue)[1..]
                && entries == ApplyEvent(old(entries), old(queue)[0], env)
                && logged == EventLog(old(queue)[0], env)
      ensures more == indexing && indexing == (queue != [])
    {
      logged := None;
      if queue != [] {
        var event := queue[0];
        queue := queue[1..];
        match event.kind {
          case FileAdded =>
            logged := UpdateIndexEntry(event.file, env);
          case FileModified =>
            logged := UpdateIndexEntry(event.file, env);
          case FileRemoved =>
            RemoveIndexEntry(event.file);
          case NoChange =>
        }
      }
      indexing := queue != [];
      more := indexing;
    }

    /**
     * (Re)indexes one file: reads and parses it when indexable, gives up
     * (logging errors other than "not found") when it cannot be read, and
     * otherwise inserts its entry, first erasing an entry for the same path.
     */
    method UpdateIndexEntry(file: FileInfo, env: Env) returns (logged: Option<string>)
      requires SortedBy(entries, EntryPath)
      modifies this
      ensures SortedBy(entries, EntryPath)
      ensures entries == UpdateEntry(old(entries), file, env)
      ensures logged == UpdateLog(file, env)
      ensures queue == old(queue) && indexing == old(indexing)
    {
      logged := None;
      var index: Option<SourceIndex> := None;
      if IsIndexableSourceFile(file, env) {
        var result := env.readFile(file.path);
        if !result.Read? {
          if result.ReadError? {
            logged := Some(file.path);
          }
          return;
        }
        index := Some(MakeIndex(env, file.path, result.code));
      }
      var entry := Entry(file, index);
      UpsertAfterErase(entries, EntryPath, entry);
      UpsertSorted(entries, EntryPath, entry);
      if HasEntry(entries, file.path) {
        // the insert found an entry with the same path: erase it, then insert
        EraseSorted(entries, EntryPath, file.path);
        entries := Erase(entries, EntryPath, file.path);
      }
      entries := Upsert(entries, EntryPath, entry);
    }

    /** Erases the entry for the file's path, if there is one. */
    method RemoveIndexEntry(file: FileInfo)
      requires SortedBy(entries, EntryPath)
      modifies this
      ensures SortedBy(entries, EntryPath)
      ensures entries == RemoveEntry(old(entries), file)
      ensures queue == old(queue) && indexing == old(indexing)
    {
      EraseSorted(entries, EntryPath, file.path);
      if HasEntry(entries, file.path) {
        entries := Erase(entries, EntryPath, file.path);
      } else {
        EraseAbsent(entries, EntryPath, file.path);
      }
    }

    /** Drops every entry and every pending event. */
    method Clear()
      modifies this
      ensures Valid()
      ensures entries == [] && queue == [] && !indexing
    {
      indexing := false;
      queue := [];
      entries := [];
    }

    /** The first top-level definition of `name`, skipping excluded contexts. */
    method FindGlobalFunction(name: string, exclude: set<string>) returns (r: Option<RSourceItem>)
      ensures r == FirstGlobalFunction(entries, name, exclude)
    {
      var i := 0;
      while i < |entries|
        invariant 0 <= i <= |entries|
        invariant FirstGlobalFunction(entries, name, exclude) == FirstGlobalFunction(entries[i..], name, exclude)
      {
        var e := entries[i];
        assert entries[i..][0] == e && entries[i..][1..] == entries[i + 1..];
        if e.index.Some? && e.index.value.context !in exclude {
          var items := GlobalFunctions(e.index.value, name);
          if |items| > 0 {
            return Some(items[0]);
          }
        }
        i := i + 1;
      }
      return None;
    }

    /**
     * Term search over the searchable entries in entry order, stopping as
     * soon as `maxResults` items are held and cutting the list to that size.
     */
    method SearchSource(term: string, maxResults: nat, prefixOnly: bool, exclude: set<string>, env: Env)
      returns (items: seq<RSourceItem>)
      ensures items == Take(ProjectItems(entries, term, prefixOnly, exclude, env), maxResults)
    {
      items := [];
      var i := 0;
      while i < |entries|
        invariant 0 <= i <= |entries|
        invariant items == ProjectItems(entries[..i], term, prefixOnly, exclude, env)
        invariant |items| < maxResults || items == []
      {
        var e := entries[i];
        ProjectItemsSnoc(entries, i, term, prefixOnly, exclude, env);
        if e.index.Some? && e.index.value.context !in exclude {
          items := items + TermHits(e.index.value, term, prefixOnly, env);
          if |items| >= maxResults {
            ProjectItemsPrefix(entries, i + 1, term, prefixOnly, exclude, env);
            TakeOfPrefix(items, ProjectItems(entries, term, prefixOnly, exclude, env), maxResults);
            items := items[..maxResults];
            return;
          }
        }
        i := i + 1;
      }
      assert entries[..|entries|] == entries;
    }

    /**
     * File-name search in entry order: the names and aliased paths of the
     * first `maxResults` matching entries, and whether more entries match.
     */
    method SearchFiles(term: string, maxResults: nat, prefixOnly: bool, env: Env)
      returns (names: seq<string>, paths: seq<string>, moreAvailable: bool)
      ensures var m := FileMatches(entries, term, prefixOnly, env);
              && names == Take(Map(m, EntryFileName(env)), maxResults)
              && paths == Take(Map(m, EntryAliasedPath(env)), maxResults)
              && (moreAvailable <==> |m| > maxResults)
    {
      names, paths, moreAvailable :=
        CollectFileMatches(entries, FileMatcher(term, prefixOnly, env), EntryFileName(env), EntryAliasedPath(env), maxResults);
    }
  }
}
