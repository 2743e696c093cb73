/**
 * The split-store persistence layer: four keyed object stores (`cases`, `events`,
 * `documents`, `document_blobs`), each keyed by the record's `id`. A document is written as a
 * metadata record plus a content record inside one two-store transaction, so the two stores
 * always hold the same document ids.
 */
module Persistence {
  import opened Records

  /** Why an operation rejected. */
  datatype DbError =
    | NotInitialized     // "DB not initialized": `init` has not succeeded yet
    | OpenFailed         // "Failed to open database"
    | TransactionError   // the transaction's or request's own error

  /** A settled promise: resolved with a value, or rejected with an error. */
  datatype Reply<T> = Ok(value: T) | Err(error: DbError)

  /** The destructuring of `saveDocument`: everything but the content group, and `{id, content, mediaData}`. */
  function Split(d: Document): (r: (DocumentMetadata, DocumentBlob))
    ensures r.0.id == d.id && r.1.id == d.id
    ensures r.1.content == d.content && r.1.mediaData == d.mediaData
    ensures Join(r.0, r.1) == d
  {
    (DocumentMetadata(d.id, d.title, d.date, d.docType, d.hash, d.addedAt, d.batesNumber,
                      d.reliabilityScore, d.caseId),
     DocumentBlob(d.id, d.content, d.mediaData))
  }

  /** The whole document a metadata record and its content record describe. */
  function Join(m: DocumentMetadata, b: DocumentBlob): Document {
    Document(m.id, m.title, b.content, b.mediaData, m.date, m.docType, m.hash, m.addedAt,
             m.batesNumber, m.reliabilityScore, m.caseId)
  }

  /** Splitting a joined pair gives the pair back when both carry the same id. */
  lemma SplitJoin(m: DocumentMetadata, b: DocumentBlob)
    requires m.id == b.id
    ensures Split(Join(m, b)) == (m, b)
  {
  }

  /**
   * `index.getAll(value)` over one store: the keys and records the index selects, each once.
   * The order IndexedDB returns them in (ascending key) is not modelled.
   */
  method CollectByIndex<V>(store: map<string, V>, selected: V -> bool) returns (keys: seq<string>, records: seq<V>)
    ensures |keys| == |records|
    ensures forall i :: 0 <= i < |keys| ==> keys[i] in store && records[i] == store[keys[i]] && selected(records[i])
    ensures forall k :: k in store && selected(store[k]) ==> k in keys
    ensures forall i, j :: 0 <= i < j < |keys| ==> keys[i] != keys[j]
  {
    var rest := store.Keys;
    keys, records := [], [];
    while rest != {}
      invariant rest <= store.Keys
      invariant |keys| == |records|
      invariant forall i :: 0 <= i < |keys| ==> keys[i] in store && keys[i] !in rest && records[i] == store[keys[i]] && selected(records[i])
      invariant forall k :: k in store && k !in rest && selected(store[k]) ==> k in keys
      invariant forall i, j :: 0 <= i < j < |keys| ==> keys[i] != keys[j]
      decreases rest
    {
      var k :| k in rest;
      if selected(store[k]) {
        keys, records := keys + [k], records + [store[k]];
      }
      rest := rest - {k};
    }
  }

  class PersistenceLayer {
    /** `db !== null`: `init` has opened the database. */
    var isOpen: bool
    var cases: map<string, CaseMetadata>
    var events: map<string, TimelineEvent>
    var documents: map<string, DocumentMetadata>
    var blobs: map<string, DocumentBlob>

    /** Every store is keyed by its records' `id`, and metadata and content stores hold the same documents. */
    ghost predicate Valid()
      reads this
    {
      (forall k :: k in cases ==> cases[k].id == k) &&
      (forall k :: k in events ==> events[k].id == k) &&
      (forall k :: k in documents ==> documents[k].id == k) &&
      (forall k :: k in blobs ==> blobs[k].id == k) &&
      documents.Keys == blobs.Keys
    }

    /** A fresh database: not yet opened, every store empty. */
    constructor ()
      ensures Valid() && !isOpen
      ensures cases == map[] && events == map[] && documents == map[] && blobs == map[]
    {
      isOpen := false;
      cases, events, documents, blobs := map[], map[], map[], map[];
    }

    /** `init`: `openSucceeds` is the outcome of `indexedDB.open`. */
    method Init(openSucceeds: bool) returns (r: Reply<()>)
      requires Valid()
      modifies this`isOpen
      ensures Valid()
      ensures r == (if openSucceeds then Ok(()) else Err(OpenFailed))
      ensures isOpen == (old(isOpen) || openSucceeds)
    {
      if openSucceeds {
        isOpen := true;
        r := Ok(());
      } else {
        r := Err(OpenFailed);
      }
    }

    /** `getAllCases` */
    method GetAllCases(fault: bool) returns (r: Reply<seq<CaseMetadata>>)
      requires Valid()
      ensures !isOpen ==> r == Err(NotInitialized)
      ensures isOpen && fault ==> r == Err(TransactionError)
      ensures isOpen && !fault ==> r.Ok?
      ensures r.Ok? ==> (forall c :: c in r.value <==> c in cases.Values)
      ensures r.Ok? ==> forall i, j :: 0 <= i < j < |r.value| ==> r.value[i].id != r.value[j].id
    {
      if !isOpen { return Err(NotInitialized); }
      if fault { return Err(TransactionError); }
      var keys, all := CollectByIndex(cases, (c: CaseMetadata) => true);
      forall c | c in cases.Values ensures c in all {
        var k :| k in cases && cases[k] == c;
        var i :| 0 <= i < |keys| && keys[i] == k;
        assert all[i] == c;
      }
      r := Ok(all);
    }

    /** `saveCase`: an upsert by `id`. */
    method SaveCase(c: CaseMetadata, fault: bool) returns (r: Reply<()>)
      requires Valid()
      modifies this`cases
      ensures Valid()
      ensures r == (if !isOpen then Err(NotInitialized) else if fault then Err(TransactionError) else Ok(()))
      ensures cases == if r.Ok? then old(cases)[c.id := c] else old(cases)
    {
      if !isOpen { return Err(NotInitialized); }
      if fault { return Err(TransactionError); }
      cases := cases[c.id := c];
      r := Ok(());
    }

    /** `getEventsByCase`: the events whose `caseId` index entry is `caseId`. */
    method GetEventsByCase(caseId: string, fault: bool) returns (r: Reply<seq<TimelineEvent>>)
      requires Valid()
      ensures !isOpen ==> r == Err(NotInitialized)
      ensures isOpen && fault ==> r == Err(TransactionError)
      ensures isOpen && !fault ==> r.Ok?
      ensures r.Ok? ==> (forall e :: e in r.value <==> e in events.Values && e.caseId == Some(caseId))
      ensures r.Ok? ==> forall i, j :: 0 <= i < j < |r.value| ==> r.value[i].id != r.value[j].id
    {
      if !isOpen { return Err(NotInitialized); }
      if fault { return Err(TransactionError); }
      var keys, found := CollectByIndex(events, (e: TimelineEvent) => e.caseId == Some(caseId));
      forall e | e in events.Values && e.caseId == Some(caseId) ensures e in found {
        var i :| 0 <= i < |keys| && keys[i] == e.id;
      }
      r := Ok(found);
    }

    /** `saveEvent`: an upsert by `id`. */
    method SaveEvent(e: TimelineEvent, fault: bool) returns (r: Reply<()>)
      requires Valid()
      modifies this`events
      ensures Valid()
      ensures r == (if !isOpen then Err(NotInitialized) else if fault then Err(TransactionError) else Ok(()))
      ensures events == if r.Ok? then old(events)[e.id := e] else old(events)
    {
      if !isOpen { return Err(NotInitialized); }
      if fault { return Err(TransactionError); }
      events := events[e.id := e];
      r := Ok(());
    }

    /** `deleteEvent`: removes that key only; deleting an absent key succeeds. */
    method DeleteEvent(id: string, fault: bool) returns (r: Reply<()>)
      requires Valid()
      modifies this`events
      ensures Valid()
      ensures r == (if !isOpen then Err(NotInitialized) else if fault then Err(TransactionError) else Ok(()))
      ensures events == if r.Ok? then old(events) - {id} else old(events)
    {
      if !isOpen { return Err(NotInitialized); }
      if fault { return Err(TransactionError); }
      events := events - {id};
      r := Ok(());
    }

    /** `getDocumentsByCase`: metadata records only, those whose `caseId` is `caseId`. */
    method GetDocumentsByCase(caseId: string, fault: bool) returns (r: Reply<seq<DocumentMetadata>>)
      requires Valid()
      ensures !isOpen ==> r == Err(NotInitialized)
      ensures isOpen && fault ==> r == Err(TransactionError)
      ensures isOpen && !fault ==> r.Ok?
      ensures r.Ok? ==> (forall m :: m in r.value <==> m in documents.Values && m.caseId == Some(caseId))
      ensures r.Ok? ==> forall i, j :: 0 <= i < j < |r.value| ==> r.value[i].id != r.value[j].id
    {
      if !isOpen { return Err(NotInitialized); }
      if fault { return Err(TransactionError); }
      var keys, found := CollectByIndex(documents, (m: DocumentMetadata) => m.caseId == Some(caseId));
      forall m | m in documents.Values && m.caseId == Some(caseId) ensures m in found {
        var i :| 0 <= i < |keys| && keys[i] == m.id;
      }
      r := Ok(found);
    }

    /**
     * `getDocumentContent`: the content record, or `None` (JavaScript `null`) when it is absent
     * or the read rejects; it never rejects itself.
     */
    method GetDocumentContent(id: string, fault: bool) returns (r: Option<DocumentBlob>)
      requires Valid()
      ensures r.Some? <==> isOpen && !fault && id in blobs
      ensures r.Some? ==> r.value == blobs[id] && r.value.id == id
    {
      if !isOpen || fault { return None; }
      if id in blobs { r := Some(blobs[id]); } else { r := None; }
    }

    /**
     * `saveDocument`: writes the metadata and the content record in one `readwrite`
     * transaction over both stores. A transaction error leaves both stores as they were.
     */
    method SaveDocument(d: Document, fault: bool) returns (r: Reply<()>)
      requires Valid()
      modifies this`documents, this`blobs
      ensures Valid()
      ensures r == (if !isOpen then Err(NotInitialized) else if fault then Err(TransactionError) else Ok(()))
      ensures documents == if r.Ok? then old(documents)[d.id := Split(d).0] else old(documents)
      ensures blobs == if r.Ok? then old(blobs)[d.id := Split(d).1] else old(blobs)
    {
      var (metadata, blobData) := Split(d);
      if !isOpen { return Err(NotInitialized); }
      if fault { return Err(TransactionError); }
      documents := documents[d.id := metadata];
      blobs := blobs[d.id := blobData];
      r := Ok(());
    }

    /** `deleteDocument`: removes both records in one transaction, or neither. */
    method DeleteDocument(id: string, fault: bool) returns (r: Reply<()>)
      requires Valid()
      modifies this`documents, this`blobs
      ensures Valid()
      ensures r == (if !isOpen then Err(NotInitialized) else if fault then Err(TransactionError) else Ok(()))
      ensures documents == if r.Ok? then old(documents) - {id} else old(documents)
      ensures blobs == if r.Ok? then old(blobs) - {id} else old(blobs)
    {
      if !isOpen { return Err(NotInitialized); }
      if fault { return Err(TransactionError); }
      documents := documents - {id};
      blobs := blobs - {id};
      r := Ok(());
    }
  }

  /** A saved document's content reads back until the document is deleted, and not after. */
  method SaveLoadDelete(layer: PersistenceLayer, d: Document, caseId: string) returns (loaded: Option<DocumentBlob>, listed: Reply<seq<DocumentMetadata>>, afterDelete: Option<DocumentBlob>)
    requires layer.Valid() && layer.isOpen
    modifies layer
    ensures layer.Valid()
    ensures loaded == Some(DocumentBlob(d.id, d.content, d.mediaData))
    ensures listed.Ok? && (d.caseId == Some(caseId) ==> Split(d).0 in listed.value)
    ensures afterDelete == None && d.id !in layer.documents && d.id !in layer.blobs
  {
    var saved := layer.SaveDocument(d, false);
    loaded := layer.GetDocumentContent(d.id, false);
    listed := layer.GetDocumentsByCase(caseId, false);
    var gone := layer.DeleteDocument(d.id, false);
    afterDelete := layer.GetDocumentContent(d.id, false);
  }

  /** A failed save leaves no trace in either store. */
  method FailedSaveLeavesNoTrace(layer: PersistenceLayer, d: Document, caseId: string)
    returns (saved: Reply<()>, loaded: Option<DocumentBlob>, listed: Reply<seq<DocumentMetadata>>)
    requires layer.Valid() && layer.isOpen && d.id !in layer.documents
    modifies layer
    ensures layer.Valid()
    ensures saved == Err(TransactionError) && loaded == None
    ensures listed.Ok? && forall m :: m in listed.value ==> m.id != d.id
  {
    saved := layer.SaveDocument(d, true);
    loaded := layer.GetDocumentContent(d.id, false);
    listed := layer.GetDocumentsByCase(caseId, false);
  }
}
