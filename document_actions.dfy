/** The document server actions: `getContactDocuments` lists the documents of one of the caller's
    contacts, `getDocumentForViewer` opens one document for its owner, and `deleteContactDocument`
    removes the stored file and then the row. The document table is a map from document id to row;
    the object store and the date and URL formatting are parameters. */
module DocumentActions {
  import opened Wrappers
  import Ordering

  const UNAUTHORIZED := "Non autorisé"
  const DOCUMENT_NOT_FOUND := "Document introuvable"

  datatype DocumentRow = DocumentRow(
    id: string,
    userId: UserId,
    contactId: string,
    name: string,
    size: int,
    contentType: string,
    key: string,
    createdAt: int)

  type DocumentStore = map<string, DocumentRow>

  function CreatedAt(d: DocumentRow): int {
    d.createdAt
  }

  /** Every row is filed under its own id. */
  predicate StoreOk(store: DocumentStore) {
    forall id :: id in store ==> store[id].id == id
  }

  /** `DocumentItem`: what the client receives for each document. */
  datatype DocumentItem = DocumentItem(id: string, name: string, size: int, contentType: string, createdAt: string)

  /** The projection of a row: id, name, size and content type as stored, the creation time as ISO
      text (`toISOString`, a library call, is the parameter `toIso`). The storage key and the owner
      are not sent. */
  function ToItem(d: DocumentRow, toIso: int -> string): (r: DocumentItem)
    ensures r.id == d.id && r.name == d.name && r.size == d.size && r.contentType == d.contentType
    ensures r.createdAt == toIso(d.createdAt)
  {
    DocumentItem(d.id, d.name, d.size, d.contentType, toIso(d.createdAt))
  }

  /** `docs.map(...)` */
  function ToItems(docs: seq<DocumentRow>, toIso: int -> string): (r: seq<DocumentItem>)
    ensures |r| == |docs|
    ensures forall i :: 0 <= i < |docs| ==> r[i] == ToItem(docs[i], toIso)
  {
    if docs == [] then [] else [ToItem(docs[0], toIso)] + ToItems(docs[1..], toIso)
  }

  /** The rows `getContactDocuments` reads: nothing for an anonymous caller, otherwise exactly the
      documents of that contact owned by the caller, newest first. */
  ghost function ContactDocumentRows(session: Session, contactId: string, store: DocumentStore): (r: seq<DocumentRow>)
    ensures session.None? ==> r == []
    ensures session.Some? ==> forall d :: d in r <==> d in store.Values && d.contactId == contactId && d.userId == session.value
    ensures Ordering.NewestFirst(r, CreatedAt)
  {
    match session
    case None => []
    case Some(user) =>
      Ordering.FindManyNewestFirst(store, (d: DocumentRow) => d.contactId == contactId && d.userId == user, CreatedAt)
  }

  /** The documents of one contact owned by one user. */
  ghost function Filed(store: DocumentStore, contactId: string, user: UserId): set<DocumentRow> {
    set d | d in store.Values && d.contactId == contactId && d.userId == user
  }

  /** Over a table whose rows carry their own ids each document of the contact comes out once, so
      the list has as many entries as the contact has documents of the caller. */
  lemma DocumentsOnce(contactId: string, user: UserId, store: DocumentStore)
    requires StoreOk(store)
    ensures var r := ContactDocumentRows(Some(user), contactId, store);
            Ordering.Distinct(r) && |r| == |Filed(store, contactId, user)|
  {
    var r := ContactDocumentRows(Some(user), contactId, store);
    Ordering.KeyedInjective(store, (d: DocumentRow) => d.id);
    Ordering.FindManyDistinct(store, (d: DocumentRow) => d.contactId == contactId && d.userId == user, CreatedAt);
    Ordering.DistinctCard(r);
    assert (set d | d in r) == Filed(store, contactId, user);
  }

  /** `getContactDocuments(contactId)`: the rows above, one item each, in the same order. */
  ghost function GetContactDocuments(session: Session, contactId: string, store: DocumentStore, toIso: int -> string)
    : (r: seq<DocumentItem>)
    ensures session.None? ==> r == []
    ensures var rows := ContactDocumentRows(session, contactId, store);
            |r| == |rows| && forall i :: 0 <= i < |r| ==> r[i] == ToItem(rows[i], toIso)
  {
    ToItems(ContactDocumentRows(session, contactId, store), toIso)
  }

  /** Every listed document belongs to the caller and to the contact asked for, and a document of
      that contact owned by the caller is listed. */
  lemma ListedDocumentsOwned(session: Session, contactId: string, store: DocumentStore, toIso: int -> string)
    requires session.Some? && StoreOk(store)
    ensures forall it :: it in GetContactDocuments(session, contactId, store, toIso) ==>
              it.id in store && store[it.id].userId == session.value && store[it.id].contactId == contactId
    ensures forall id :: id in store && store[id].userId == session.value && store[id].contactId == contactId ==>
              ToItem(store[id], toIso) in GetContactDocuments(session, contactId, store, toIso)
  {
    var rows := ContactDocumentRows(session, contactId, store);
    var items := GetContactDocuments(session, contactId, store, toIso);
    forall it | it in items
      ensures it.id in store && store[it.id].userId == session.value && store[it.id].contactId == contactId
    {
      var i :| 0 <= i < |items| && items[i] == it;
      assert rows[i] in rows;
      var k :| k in store && store[k] == rows[i];
    }
    forall id | id in store && store[id].userId == session.value && store[id].contactId == contactId
      ensures ToItem(store[id], toIso) in items
    {
      assert store[id] in store.Values;
      var i :| 0 <= i < |rows| && rows[i] == store[id];
      assert items[i] == ToItem(store[id], toIso);
    }
  }

  /** The contact fields the viewer shows with the document. */
  datatype ContactSummary = ContactSummary(id: string, firstName: Option<string>, lastName: Option<string>,
                                           company: Option<string>)

  datatype Viewer = Viewer(id: string, name: string, contentType: string, url: string, contact: ContactSummary)

  /** `getDocumentForViewer(documentId)`: null for an anonymous caller and for a document that is
      missing or owned by someone else; otherwise the document with a signed URL for its key
      (`presign`) and its contact (`contactOf`, the included relation). */
  function GetDocumentForViewer(session: Session, documentId: string, store: DocumentStore,
                                presign: string -> string, contactOf: string -> ContactSummary)
    : (r: Option<Viewer>)
    ensures r.Some? <==> session.Some? && documentId in store && store[documentId].userId == session.value
    ensures r.Some? ==> var d := store[documentId];
                        && r.value.id == d.id && r.value.name == d.name && r.value.contentType == d.contentType
                        && r.value.url == presign(d.key) && r.value.contact == contactOf(d.contactId)
  {
    if session.Some? && documentId in store && store[documentId].userId == session.value then
      var d := store[documentId];
      Some(Viewer(d.id, d.name, d.contentType, presign(d.key), contactOf(d.contactId)))
    else None
  }

  /** One side effect of a deletion, in the order it happens. */
  datatype Effect = StorageDelete(key: string) | RowDelete(id: string)

  /** What a deletion did and what it returned: the new table, or the error thrown. */
  datatype Deletion = Deletion(effects: seq<Effect>, result: Result<DocumentStore>)

  /** `deleteContactDocument(documentId)`: session, then existence and ownership, then the stored
      file (`storage` is how `deleteFile` settles), then the row. When the file deletion fails its
      error is thrown and the row stays. */
  function DeleteContactDocument(session: Session, documentId: string, store: DocumentStore, storage: Outcome)
    : (r: Deletion)
    ensures session.None? ==> r == Deletion([], Err(UNAUTHORIZED))
    ensures session.Some? && !(documentId in store && store[documentId].userId == session.value) ==>
              r == Deletion([], Err(DOCUMENT_NOT_FOUND))
    ensures r.result.Ok? <==> session.Some? && documentId in store && store[documentId].userId == session.value && storage.Pass?
    ensures r.result.Ok? ==> r.effects == [StorageDelete(store[documentId].key), RowDelete(documentId)]
    ensures r.result.Ok? ==> r.result.value.Keys == store.Keys - {documentId}
    ensures r.result.Ok? ==> forall k :: k in r.result.value ==> r.result.value[k] == store[k]
    ensures r.result.Err? ==> RowDelete(documentId) !in r.effects
    ensures storage.Fail? && r.effects != [] ==> r.result == Err(storage.message)
  {
    if session.None? then Deletion([], Err(UNAUTHORIZED))
    else if !(documentId in store && store[documentId].userId == session.value) then Deletion([], Err(DOCUMENT_NOT_FOUND))
    else
      var key := store[documentId].key;
      match storage
      case Fail(msg) => Deletion([StorageDelete(key)], Err(msg))
      case Pass => Deletion([StorageDelete(key), RowDelete(documentId)], Ok(store - {documentId}))
  }

  /** The row is never removed before its file: whenever a row deletion happens, the deletion of that
      document's file comes earlier in the same run. */
  lemma FileGoesFirst(session: Session, documentId: string, store: DocumentStore, storage: Outcome)
    ensures var r := DeleteContactDocument(session, documentId, store, storage);
            forall i :: 0 <= i < |r.effects| && r.effects[i].RowDelete? ==>
              exists j :: 0 <= j < i && r.effects[j] == StorageDelete(store[documentId].key)
  {
    var r := DeleteContactDocument(session, documentId, store, storage);
    if r.result.Ok? {
      assert r.effects[0] == StorageDelete(store[documentId].key);
    }
  }

  /** After a successful deletion a contact's list is the list before it without the deleted
      document: every other document of that list is still there, once. */
  lemma DeletedDocumentUnlisted(session: Session, documentId: string, store: DocumentStore, storage: Outcome,
                                contactId: string)
    requires StoreOk(store)
    requires DeleteContactDocument(session, documentId, store, storage).result.Ok?
    ensures var s := DeleteContactDocument(session, documentId, store, storage).result.value;
            forall d :: d in ContactDocumentRows(session, contactId, s) <==>
              d in ContactDocumentRows(session, contactId, store) && d.id != documentId
    ensures var s := DeleteContactDocument(session, documentId, store, storage).result.value;
            multiset(ContactDocumentRows(session, contactId, s)) ==
              multiset(ContactDocumentRows(session, contactId, store)) - multiset{store[documentId]}
  {
    var s := DeleteContactDocument(session, documentId, store, storage).result.value;
    var before, after := ContactDocumentRows(session, contactId, store), ContactDocumentRows(session, contactId, s);
    DeletionKeepsOthers(documentId, store, s);
    if session.Some? {
      DocumentsOnce(contactId, session.value, store);
      DocumentsOnce(contactId, session.value, s);
      forall d | d in before ensures d.id != documentId <==> d != store[documentId] {
        var k :| k in store && store[k] == d;
      }
      Ordering.DistinctMinus(before, after, store[documentId]);
    }
  }

  /** Removing the row filed under `documentId` leaves exactly the other rows, each still under its id. */
  lemma DeletionKeepsOthers(documentId: string, store: DocumentStore, s: DocumentStore)
    requires StoreOk(store) && documentId in store && s == store - {documentId}
    ensures StoreOk(s)
    ensures forall d :: d in s.Values <==> d in store.Values && d.id != documentId
  {
    forall d ensures d in s.Values <==> d in store.Values && d.id != documentId {
      if d in s.Values {
        var k :| k in s && s[k] == d;
        assert store[k] == d;
      }
      if d in store.Values && d.id != documentId {
        var k :| k in store && store[k] == d;
        assert k in s;
      }
    }
  }
}
