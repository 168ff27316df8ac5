/**
 * The R indexes of the documents open in the source database: a map from
 * document id to the parsed index of the document, kept up to date as
 * documents are saved or edited, closed, or all closed at once, and read as
 * a list of indexes in id order.
 */
module DocumentIndex {
  import opened Wrappers
  import opened Ordered
  import opened Model

  /** An open document: its id, its (aliased) path, "" when never saved, and its text. */
  datatype SourceDocument = SourceDocument(id: string, path: string, contents: string)

  /** One map entry: a document id and the index of that document. */
  datatype DocEntry = DocEntry(id: string, index: SourceIndex)

  function DocId(d: DocEntry): string {
    d.id
  }

  /** Only saved R scripts are indexed. */
  predicate IsIndexableDocument(doc: SourceDocument, env: Env) {
    doc.path != [] && env.extensionLowerCase(doc.path) == ".r"
  }

  /** The index of a document: its items, under its path as context. */
  function IndexDocument(doc: SourceDocument, env: Env): SourceIndex {
    SourceIndex(doc.path, env.parse(doc.path, doc.contents))
  }

  /** The map after a document update, as a function of the map before. */
  function UpdateDocument(indexes: seq<DocEntry>, doc: SourceDocument, env: Env): seq<DocEntry> {
    if IsIndexableDocument(doc, env) then Upsert(indexes, DocId, DocEntry(doc.id, IndexDocument(doc, env)))
    else indexes
  }

  /** The indexes held, in id order. */
  function IndexValues(indexes: seq<DocEntry>): (r: seq<SourceIndex>)
    ensures |r| == |indexes|
    ensures forall k :: 0 <= k < |r| ==> r[k] == indexes[k].index
  {
    seq(|indexes|, k requires 0 <= k < |indexes| => indexes[k].index)
  }

  /**
   * An update stores the new index under the document's id when the
   * document is indexable and changes nothing else; any other update leaves
   * every id as it was.
   */
  lemma UpdateDocumentLookup(indexes: seq<DocEntry>, doc: SourceDocument, env: Env, id: string)
    requires SortedBy(indexes, DocId)
    ensures SortedBy(UpdateDocument(indexes, doc, env), DocId)
    ensures Lookup(UpdateDocument(indexes, doc, env), DocId, id)
              == if IsIndexableDocument(doc, env) && id == doc.id
                 then Some(DocEntry(doc.id, IndexDocument(doc, env)))
                 else Lookup(indexes, DocId, id)
  {
    if IsIndexableDocument(doc, env) {
      var entry := DocEntry(doc.id, IndexDocument(doc, env));
      UpsertSorted(indexes, DocId, entry);
      LookupUpsert(indexes, DocId, entry, id);
    }
  }

  /** Removing a document drops its id and keeps every other id. */
  lemma RemoveDocumentLookup(indexes: seq<DocEntry>, removed: string, id: string)
    requires SortedBy(indexes, DocId)
    ensures SortedBy(Erase(indexes, DocId, removed), DocId)
    ensures Lookup(Erase(indexes, DocId, removed), DocId, id)
              == if id == removed then None else Lookup(indexes, DocId, id)
  {
    EraseSorted(indexes, DocId, removed);
    LookupErase(indexes, DocId, removed, id);
  }

  /** Updating a document and then closing it leaves no index for its id. */
  lemma UpdateThenRemove(indexes: seq<DocEntry>, doc: SourceDocument, env: Env)
    requires SortedBy(indexes, DocId)
    ensures Lookup(Erase(UpdateDocument(indexes, doc, env), DocId, doc.id), DocId, doc.id) == None
  {
    UpdateDocumentLookup(indexes, doc, env, doc.id);
    RemoveDocumentLookup(UpdateDocument(indexes, doc, env), doc.id, doc.id);
  }

  class RSourceIndexes {
    /** The map from document id to index, as entries in increasing id order. */
    var indexes: seq<DocEntry>

    ghost predicate Valid()
      reads this
    {
      SortedBy(indexes, DocId)
    }

    constructor()
      ensures Valid()
      ensures indexes == []
    {
      indexes := [];
    }

    /** Re-indexes a saved R document under its id; ignores any other document. */
    method Update(doc: SourceDocument, env: Env)
      requires Valid()
      modifies this
      ensures Valid()
      ensures indexes == UpdateDocument(old(indexes), doc, env)
    {
      if doc.path == [] || env.extensionLowerCase(doc.path) != ".r" {
        return;
      }
      var index := SourceIndex(doc.path, env.parse(doc.path, doc.contents));
      var entry := DocEntry(doc.id, index);
      UpsertSorted(indexes, DocId, entry);
      indexes := Upsert(indexes, DocId, entry);
    }

    /** Drops the index of a closed document. */
    method Remove(id: string)
      requires Valid()
      modifies this
      ensures Valid()
      ensures indexes == Erase(old(indexes), DocId, id)
    {
      EraseSorted(indexes, DocId, id);
      indexes := Erase(indexes, DocId, id);
    }

    /** Drops every index. */
    method RemoveAll()
      modifies this
      ensures Valid()
      ensures indexes == []
    {
      indexes := [];
    }

    /** The indexes held, one per document, in id order. */
    method Indexes() returns (r: seq<SourceIndex>)
      ensures |r| == |indexes|
      ensures forall k :: 0 <= k < |r| ==> r[k] == indexes[k].index
    {
      r := [];
      var i := 0;
      while i < |indexes|
        invariant 0 <= i <= |indexes|
        invariant |r| == i
        invariant forall k :: 0 <= k < i ==> r[k] == indexes[k].index
      {
        r := r + [indexes[i].index];
        i := i + 1;
      }
    }
  }
}
