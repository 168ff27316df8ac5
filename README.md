# Code search engine model

This project is a Dafny model of the code search engine of an RStudio session. The engine is in
`src/cpp/session/modules/SessionCodeSearch.cpp` and backs "go to file/function" and "go to
definition". The model has six parts:

- **The project index** (`ProjectIndex.SourceFileIndex`). It is an ordered set of entries, one
  per project file path. Each R file carries its parsed index.
  - It is fed by a FIFO queue of file-change events, worked off one event per step.
  - An `indexing` flag records whether incremental work is scheduled.
  - It answers three searches: top-level function lookup, symbol search and file-name search.
- **The open-document index** (`DocumentIndex.RSourceIndexes`). It maps document ids to the
  parsed indexes of saved `.r` documents.
- **The dispatch between the two indexes** (`Dispatch`).
  - Symbol search and definition lookup consult the open documents first. Those must be inside
    the project when one is open.
  - They then consult the project index, skipping every file already seen among the open
    documents, under one shared result budget.
  - File search uses the project index when project files are monitored, and the open
    documents otherwise.
- **Ranking** (`Ranking`).
  - The integer score of a match; lower is better.
  - Sorting by score.
  - The two-list merge that keeps the best results of files and symbols within one budget.
  - The "more available" flags.
- **The string helpers around definitions** (`Definitions`).
  - The client's uniform source item and its kind codes.
  - Reading an S4 name `generic{T1, T2}`.
  - The base name of an S3/S4 method.
  - `package:` namespaces and the search-list scan.
  - The `pkg::name` split.
- **Supporting modules.**
  - `Text`: ASCII lower-casing, search, subsequence matching, trimming and tokenizing.
  - `Ordered`: insert-or-replace and erase on a sequence kept strictly sorted by a string key.
    It models `std::set` and `std::map`.
  - `Model`: the shared data and the environment.

The environment (`Model.Env`) holds everything the engine asks of the rest of the session, as
fixed functions:
- the file system: whether a path is a user file or a directory, the text MIME type, reading
  and decoding a file;
- the last path component and the lower-cased extension;
- the R parser;
- aliased paths;
- the active project;
- the term search of an R index;
- the wildcard matcher.

Stateful parts are classes whose methods are proved against functions of the old state. For
example, `DequeAndIndex` leaves `ApplyEvent(old(entries), old(queue)[0])` as the new entries.
Those functions carry the properties as lemmas.

## Model

| member | source | states |
|---|---|---|
| Model.EnforceMaxResults | src/cpp/session/modules/SessionCodeSearch.cpp:67-85 | The lists are cut, and "more available" is set, exactly when more than `maxResults` names are held. The names become their first `maxResults`, the paths are resized to that length, and otherwise nothing changes. |
| Model.CollectFileMatches | src/cpp/session/modules/SessionCodeSearch.cpp:225-287 | The shared file-search loop returns the names and paths of the first `maxResults` matching elements, in order. "More available" holds iff more than `maxResults` elements match. |
| Model.QuerySuffixIgnored | src/cpp/session/modules/SessionCodeSearch.cpp:262-270 | The subsequence test of a `name:suffix` query uses only the part before the first ':'. |
| Model.FilterSpec | src/cpp/session/modules/SessionCodeSearch.cpp:155-189 | An index search by predicate keeps only items satisfying it. It finds none iff no item satisfies it, and the first found is the first satisfying item. |
| Model.IsGlobalFunctionNamed | src/cpp/session/modules/SessionCodeSearch.cpp:58-65 | A match has exactly the given name. Nested definitions never match, and neither do classes or items of no kind. |
| Text.SubsequenceIffEmbedding | src/cpp/session/modules/SessionCodeSearch.cpp:264-270 | The subsequence test holds iff the query's characters occur in the name at increasing positions. |
| Text.SubsequenceIndicesEmbed | src/cpp/session/modules/SessionCodeSearch.cpp:797-802 | For a query that is a subsequence, the greedy match positions are increasing and each holds the query character of its rank. |
| Text.TokensOfJoin | src/cpp/session/modules/SessionCodeSearch.cpp:1275-1284 | Splitting a ", "-joined list of trimmed types on ',' and trimming each piece gives the list back. |
| Ordered.UpsertSpec | src/cpp/session/modules/SessionCodeSearch.cpp:395-418 | Insert-or-replace keeps the set ordered with keys unique. The new element is present, no other element has its key, and every element with another key is kept. |
| Ordered.EraseSpec | src/cpp/session/modules/SessionCodeSearch.cpp:421-430 | Erase keeps the set ordered and removes the key, keeps every element with another key, and is the identity when the key is absent. |
| Ordered.UpsertIdempotent | src/cpp/session/modules/SessionCodeSearch.cpp:395-418 | Inserting the same entry twice is inserting it once. |
| Ordered.UpsertAfterErase | src/cpp/session/modules/SessionCodeSearch.cpp:404-417 | Erase followed by re-insert, the fallback path when insert fails, equals insert-or-replace. |
| Ordered.LookupUpsert | src/cpp/session/modules/SessionCodeSearch.cpp:513-515 | A map assignment stores the value under its key and leaves every other key as it was. |
| Ordered.LookupErase | src/cpp/session/modules/SessionCodeSearch.cpp:518-521 | A map erase leaves nothing under the key and every other key as it was. |
| ProjectIndex.IsSourceFile | src/cpp/session/modules/SessionCodeSearch.cpp:432-459 | Files that are not user files, and directories, are never tracked. Every user R file is tracked, and so is every user file with a text MIME type. |
| ProjectIndex.IsIndexableSourceFile | src/cpp/session/modules/SessionCodeSearch.cpp:461-466 | Only non-directories whose lower-cased extension is `.r` are parsed. That extension is one of the tracked source extensions. |
| ProjectIndex.AddedEventsSpec | src/cpp/session/modules/SessionCodeSearch.cpp:103-129 | Every queued event is an "added" event for a source file from the list, and every source file in the list gets one. |
| ProjectIndex.UpdateEntryEffect | src/cpp/session/modules/SessionCodeSearch.cpp:363-419 | After an update that did not fail to read, exactly one entry holds the file's path. That entry is the file, and it has an index iff the file is indexable. Entries for other paths are unchanged and the set stays ordered. |
| ProjectIndex.ReadFailureKeepsEntries | src/cpp/session/modules/SessionCodeSearch.cpp:366-386 | A read failure of an indexable file leaves the entries untouched. Only a failure other than "not found" is logged. |
| ProjectIndex.RemoveEntryEffect | src/cpp/session/modules/SessionCodeSearch.cpp:421-430 | Removal leaves no entry for the path, keeps all others and the order, and changes nothing when the path is absent. |
| ProjectIndex.UpdateEntryIdempotent | src/cpp/session/modules/SessionCodeSearch.cpp:363-419 | Processing the same file twice in a row is the same as processing it once. |
| ProjectIndex.AddThenRemove | src/cpp/session/modules/SessionCodeSearch.cpp:326-361 | An "added" event followed by a "removed" event for one file leaves no entry for it and no trace on other entries. |
| ProjectIndex.FirstGlobalFunctionSpec | src/cpp/session/modules/SessionCodeSearch.cpp:155-189 | The lookup succeeds iff some searchable entry defines the name at top level. It then returns the first such definition of the first such entry, which is a top-level function or method of that name. |
| ProjectIndex.SourceFileIndex.constructor | src/cpp/session/modules/SessionCodeSearch.cpp:91-94 | A new index is empty, with an empty queue and no work scheduled. |
| ProjectIndex.SourceFileIndex.EnqueFiles | src/cpp/session/modules/SessionCodeSearch.cpp:102-129 | Appends one "added" event per source file, in order, and leaves the entries alone. It asks for scheduling iff there is work and none was scheduled. |
| ProjectIndex.SourceFileIndex.EnqueFileChange | src/cpp/session/modules/SessionCodeSearch.cpp:131-153 | A change to a source file is appended to the queue and marks work as scheduled; scheduling is requested iff none was. Other changes are ignored. |
| ProjectIndex.SourceFileIndex.DequeAndIndex | src/cpp/session/modules/SessionCodeSearch.cpp:326-361 | Pops the oldest event (FIFO) and applies it to the entries. It reports whether events remain, and that is also the new indexing flag. |
| ProjectIndex.SourceFileIndex.UpdateIndexEntry | src/cpp/session/modules/SessionCodeSearch.cpp:363-419 | The entries become the insert-or-replace of the file's entry, and stay ordered. The log output is that of the read outcome. |
| ProjectIndex.SourceFileIndex.RemoveIndexEntry | src/cpp/session/modules/SessionCodeSearch.cpp:421-430 | The entries become the erase of the file's path, and stay ordered. |
| ProjectIndex.SourceFileIndex.Clear | src/cpp/session/modules/SessionCodeSearch.cpp:289-294 | Empties the entries and the queue and clears the indexing flag. |
| ProjectIndex.SourceFileIndex.FindGlobalFunction | src/cpp/session/modules/SessionCodeSearch.cpp:155-189 | Returns the first top-level definition of the name in entry order, skipping excluded contexts. |
| ProjectIndex.SourceFileIndex.SearchSource | src/cpp/session/modules/SessionCodeSearch.cpp:191-223 | The result is the first `maxResults` term hits of the searchable entries, in entry order. |
| ProjectIndex.SourceFileIndex.SearchFiles | src/cpp/session/modules/SessionCodeSearch.cpp:225-287 | Returns the file names and aliased paths of the first `maxResults` entries whose names match. "More available" holds iff more entries match. |
| DocumentIndex.UpdateDocumentLookup | src/cpp/session/modules/SessionCodeSearch.cpp:501-516 | A document update stores the new index under the document's id iff the document is a saved `.r` file. Every other id keeps its index. |
| DocumentIndex.RemoveDocumentLookup | src/cpp/session/modules/SessionCodeSearch.cpp:518-521 | Closing a document drops its id and keeps every other id. |
| DocumentIndex.UpdateThenRemove | src/cpp/session/modules/SessionCodeSearch.cpp:501-521 | Updating a document and then closing it leaves no index under its id. |
| DocumentIndex.RSourceIndexes.Update | src/cpp/session/modules/SessionCodeSearch.cpp:501-516 | The map becomes the update of the old map by the document, and stays ordered by id. |
| DocumentIndex.RSourceIndexes.Remove | src/cpp/session/modules/SessionCodeSearch.cpp:518-521 | The map becomes the old map without the id. |
| DocumentIndex.RSourceIndexes.RemoveAll | src/cpp/session/modules/SessionCodeSearch.cpp:523-526 | The map becomes empty. |
| DocumentIndex.RSourceIndexes.Indexes | src/cpp/session/modules/SessionCodeSearch.cpp:528-536 | Returns one index per document, in id order. |
| Dispatch.ScopeContextsSpec | src/cpp/session/modules/SessionCodeSearch.cpp:553-565 | The recorded contexts are exactly those of the open documents inside the scope filter. |
| Dispatch.FirstDocGlobalFunctionSpec | src/cpp/session/modules/SessionCodeSearch.cpp:567-602 | The open-document lookup succeeds iff an in-scope document defines the name at top level. It then returns the first top-level function or method of that name in the first such document, in id order. |
| Dispatch.DefinitionOfSpec | src/cpp/session/modules/SessionCodeSearch.cpp:1624-1629 | A definition is found iff an in-scope open document, or a project file not among the in-scope open documents, defines the name at top level. |
| Dispatch.SearchSourceDatabase | src/cpp/session/modules/SessionCodeSearch.cpp:604-636 | Returns the first `maxResults` term hits of the in-scope documents, in id order. The contexts searched are among those in scope, and are all of them unless the budget ran out. |
| Dispatch.SearchSource | src/cpp/session/modules/SessionCodeSearch.cpp:640-686 | Returns the first `maxResults` of the open-document hits followed by the hits of project files outside those documents. Both `> maxResults` cuts are kept, and neither is ever taken, so "more available" is never set. |
| Dispatch.FindGlobalFunctionInSourceDatabase | src/cpp/session/modules/SessionCodeSearch.cpp:567-602 | Returns the first in-scope top-level definition. The contexts looked at are all in-scope contexts when nothing is found. |
| Dispatch.FindDefinition | src/cpp/session/modules/SessionCodeSearch.cpp:1624-1629 | Consults the open documents, then the project index only on a miss, skipping the contexts already looked at. |
| Dispatch.DocFileMatchesSpec | src/cpp/session/modules/SessionCodeSearch.cpp:706-740 | An open document is a file match iff it is saved and its file name matches. |
| Dispatch.ProjectFileMatchesSpec | src/cpp/session/modules/SessionCodeSearch.cpp:237-275 | A project entry is a file match iff its file name matches. |
| Dispatch.SearchSourceDatabaseFiles | src/cpp/session/modules/SessionCodeSearch.cpp:691-752 | Returns the file names and paths of the first `maxResults` matching saved documents, in id order. "More available" holds iff more documents match. |
| Dispatch.SearchFiles | src/cpp/session/modules/SessionCodeSearch.cpp:755-779 | Searches the project index when files are monitored and the open documents otherwise. The names and paths have equal length, at most `maxResults`. |
| Ranking.ScoreMatch | src/cpp/session/modules/SessionCodeSearch.cpp:785-832 | The loop computes `Score`. That is 0 for equal strings. Otherwise it is the sum of the greedy match positions, each replaced by its rank + 1 after '_', '-' or (for non-files) '.', plus 3 per query character for `.rd` names, plus 1 for files. |
| Ranking.ScoreAtLeast | src/cpp/session/modules/SessionCodeSearch.cpp:800-825 | Every inexact score is at least 0 + 1 + ... + (n-1) for an n-character query, plus the `.rd` and file penalties. |
| Ranking.FilePenalty | src/cpp/session/modules/SessionCodeSearch.cpp:810-829 | For a name without '.', scoring it as a file costs exactly one more point. |
| Ranking.DelimiterTradeoff | src/cpp/session/modules/SessionCodeSearch.cpp:805-825 | For a plain prefix `a` and a three-letter query `q`, `a_q` scores 2\|a\|+6 and `aq` scores 3\|a\|+3. With a two-letter prefix, the name with the delimiter ranks lower. |
| Ranking.InsertByScoreSorted | src/cpp/session/modules/SessionCodeSearch.cpp:834-841 | Inserting into a list sorted by the score comparator keeps it sorted. |
| Ranking.SortByScoreSorted | src/cpp/session/modules/SessionCodeSearch.cpp:1096 | The sort by the score comparator yields a list sorted by score. Its own contract makes it a permutation. |
| Ranking.FilterScores | src/cpp/session/modules/SessionCodeSearch.cpp:843-885 | Each list is cut to a prefix, and the two kept counts sum to min(maxAmount, n1+n2), or 0 for a non-positive budget. On sorted lists, every kept first-list score is at most every dropped second-list score. Every kept second-list score is below every dropped first-list score. |
| Ranking.ScoreAll | src/cpp/session/modules/SessionCodeSearch.cpp:1088-1102 | Pairs every name with its index and its score. |
| Ranking.RankedSpec | src/cpp/session/modules/SessionCodeSearch.cpp:1088-1103 | A ranked category is sorted and holds each name exactly once: valid, distinct indices, each with that name's score. |
| Ranking.RankAndFilter | src/cpp/session/modules/SessionCodeSearch.cpp:1088-1113 | The kept files and symbols are prefixes of their rankings, together min(maxResults, n1+n2). The per-category merge order holds. Each flag holds iff its category was cut. "More available" holds iff the candidates found outnumber the budget. |
| Definitions.TypeCode | src/cpp/session/modules/SessionCodeSearch.cpp:892-900 | Kind codes lie in 0..5, and 0 is exactly "none". |
| Definitions.FromRSourceItem | src/cpp/session/modules/SessionCodeSearch.cpp:940-984 | Keeps name, context and position. The item type is the R kind's type (function, method and class map to themselves, "none" to "none"). The extra information is the `{T1, T2}` text of the signature, and is empty iff there is no signature. |
| Definitions.ExtraInfo | src/cpp/session/modules/SessionCodeSearch.cpp:962-974 | An S4 signature is written as `{`, the types joined by ", ", then `}`; no signature gives nothing. |
| Definitions.CppItemType | src/cpp/session/modules/SessionCodeSearch.cpp:990-1014 | Classes and structs become classes, and member functions methods. Invalid and unlisted kinds become "none". Each other kind gets its own type. |
| Definitions.FromCppDefinition | src/cpp/session/modules/SessionCodeSearch.cpp:986-1024 | No extra information and the file as context. A line or column beyond the 32-bit range becomes 1. |
| Definitions.SignatureSplit | src/cpp/session/modules/SessionCodeSearch.cpp:1269-1274 | A successful split means the name is `a{b}`, with `a` non-empty and free of '{' and `b` non-empty and free of '}'. |
| Definitions.SignatureSplitOfForm | src/cpp/session/modules/SessionCodeSearch.cpp:1269-1274 | Every name of that form splits into exactly its two parts, so the split recognizes exactly the pattern. |
| Definitions.ParseFunctionInfo | src/cpp/session/modules/SessionCodeSearch.cpp:1266-1287 | A name that does not split has no method name and no types. A name `a{b}` has the trimmed `a` as method name and, as types, the ','-separated non-empty pieces of `b`, each trimmed. |
| Definitions.RItemType | src/cpp/session/modules/SessionCodeSearch.cpp:943-960 | R functions, methods and classes become functions, methods and classes; "none" becomes "none"; no R kind becomes an enum or namespace. |
| Definitions.SignatureRoundTrip | src/cpp/session/modules/SessionCodeSearch.cpp:1266-1289 | Reading an item's name followed by the `{T1, T2}` written for it gives an S4 method with that name and those parameter types. |
| Definitions.BaseMethodName | src/cpp/session/modules/SessionCodeSearch.cpp:1346-1364 | For a non-S4 name, the result is a prefix. If the name holds a '.' and does not start with one, the result is the non-empty part before its first '.'; otherwise it is the whole name. |
| Definitions.BaseOfS3Method | src/cpp/session/modules/SessionCodeSearch.cpp:1352-1362 | `generic.class` has base name `generic`. |
| Definitions.BaseOfS4Method | src/cpp/session/modules/SessionCodeSearch.cpp:1348-1351 | An S4 name formatted from an item has the item's name as its base name. |
| Definitions.NamespaceIsPackage | src/cpp/session/modules/SessionCodeSearch.cpp:1156-1173 | A package is found only for `package:` followed by a non-empty name, and it is that name. |
| Definitions.NamespaceIsPackageOf | src/cpp/session/modules/SessionCodeSearch.cpp:1156-1173 | `package:` plus a name gives that name back, and the bare prefix gives nothing. |
| Definitions.FirstPackageSpec | src/cpp/session/modules/SessionCodeSearch.cpp:1500-1519 | The scan yields "" iff no entry names a package. Otherwise it yields the first such entry, as `package:name`. |
| Definitions.NamespaceEntryPackage | src/cpp/session/modules/SessionCodeSearch.cpp:1512-1518 | A `namespace:name` entry leads to the package `name`. |
| Definitions.FindPackageNamespace | src/cpp/session/modules/SessionCodeSearch.cpp:1500-1519 | The loop with early exit computes the first-package scan. |
| Definitions.SplitToken | src/cpp/session/modules/SessionCodeSearch.cpp:1576-1586 | A qualified result is a token `pkg::name` or `pkg:::name`, with both parts non-empty and free of ':'. An unqualified result is the whole token. |
| Definitions.SplitTokenOfQualified | src/cpp/session/modules/SessionCodeSearch.cpp:1576-1582 | `pkg::name` and `pkg:::name` split back into their parts. |
| Definitions.SplitTokenOfPlain | src/cpp/session/modules/SessionCodeSearch.cpp:1583-1586 | A token without ':' is an unqualified name. |

## Left out

- **JSON-RPC plumbing**, the R interpreter calls and the C++ index search are not modelled. The
  R calls are `findFunction`, the function source, S3/S4 method lookup and `.rs.guessToken`.
  The search cap of 100 per category, passed by `searchCode`, is an input to the model's
  searches.
- **Scheduling timing** is left out. Only the `indexing` flag and the "reschedule iff work
  remains" result of an indexing step are modelled.
- **File path accessors** (last component, lower-cased extension) and aliased-path conversion
  are environment functions. The file decoder, the R parser and the project context are also
  environment parameters.
- **Regular expressions.** Boost regex and wildcard matching are abstract predicates. The
  `name{types}` and `pkg::name` patterns are explicit splitters. Their `^`/`$` anchors are taken
  to match only at the string's ends, so names containing line breaks are outside the model.
- **Logging** is reduced to returning the path that would be logged.
- Ordering of paths and document ids is modelled as lexicographic order by character code.
  Ordered sets and maps are sequences kept strictly sorted by that key.
- Ranking.SortByScore: `std::sort` is modelled by an insertion sort. Only "sorted by score and a
  permutation" is promised: equal scores may come in any order in the source, and nothing is
  proved about their relative order.
- Ranking.Score: requires that the query can be scored: the query equals the name, or the
  lower-cased query is a subsequence of the lower-cased name. A query that is not such a
  subsequence of the name is outside the contract. The concrete case: a `name:line` term matches
  a file by its part before ':', as `Model.QuerySuffixIgnored` states, and `searchCode` then
  scores the file name against the whole term. The source does the same for a file that
  matched by wildcard. For such terms the match positions (lines 800-802) are fewer than the
  query's characters, and the loop at 805-807 reads past them. This is an observation about the
  source; it is outside the model.
- Strings: Dafny `string`/`char` stand for the bytes of the source's `std::string`. Positions,
  and so every score, are byte offsets, and lower-casing folds ASCII letters only, as in the
  C locale. Names with non-ASCII characters are modelled byte by byte. On a Unicode reading
  their scores would differ.
- Ranking.RankAndFilter: takes the budget as a natural number. The conversion of a negative
  request to a default of 20 is not modelled.
- Dispatch.SearchSource: the model keeps the `> maxResults` checks that follow each part, and
  proves that they cannot fire when the output starts empty. Its contract states that "more
  available" stays false. This is the engine's behaviour, reproduced as is.
- Ranking.RankAndFilter: "more available" reflects only the merge cut. If a search already
  stopped at its cap of 100, the flag can be false although more matches exist. This is the
  engine's behaviour, reproduced as is.
- A delimiter does not always make a name rank higher. `Ranking.DelimiterTradeoff` shows
  "my_foo" scoring 10 and "myfoo" scoring 9 for "foo".
- Ranking.FilePenalty: holds only for names without '.'. For a name with a '.', a match after the
  '.' gets the delimiter bonus only when not scored as a file, so the difference can exceed one
  point.
- Definitions.FromCppDefinition: the C++ definition kinds not listed in the source's switch are
  one `CppOtherDefinition`. The aliased path of the definition's file is an input.
- The R item and C++ item conversions are applied element by element in `searchCode`. The model
  provides the per-item conversions and does not repeat the `std::transform` loop.
