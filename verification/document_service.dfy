/** The document lifecycle service over the in-memory store: listing, creation
    with placeholder extractions, metadata lookup, the get-or-create default,
    extraction retrieval sorted by page, and the cascading delete.

    Operations that may write return a `Step`: the store afterwards and the answer.
    Read-only operations return only the answer, so they cannot change the store.
    The id the storage layer would generate for a new document, the clock reading
    that becomes its `uploadDate`, and the random draws of the extraction generator
    are parameters. */
module DocumentService {
  import opened Outcomes
  import opened Lookup
  import opened Models
  import opened PageOrder
  import opened MockData
  import opened Upload

  /** The projection returned to clients. `filePath` is declared by the metadata
      interface but the projection never sets it. */
  datatype DocumentMetadata = DocumentMetadata(
    id: string,
    fileName: string,
    uploadDate: string,
    hasFile: bool,
    fileUrl: Option<string>,
    filePath: Option<string>)

  datatype DocumentExtractions = DocumentExtractions(documentId: string, extractions: seq<Extraction>)

  datatype Step<T> = Step(store: Store, result: Result<T>)

  const DocumentNotFound: AppError := CustomError("Document not found", 404)
  const NoExtractionsFound: AppError := CustomError("No extractions found for this document", 404)

  /** `documentToMetadata`: an empty stored path means "no file" and no URL. */
  function ToMetadata(d: Document): (m: DocumentMetadata)
    ensures m.id == d.id && m.fileName == d.fileName && m.uploadDate == d.uploadDate
    ensures m.hasFile <==> d.filePath != ""
    ensures m.hasFile <==> m.fileUrl.Some?
    ensures m.fileUrl.Some? ==> m.fileUrl.value == d.filePath
    ensures m.filePath.None?
  {
    DocumentMetadata(d.id, d.fileName, d.uploadDate, d.filePath != "",
                     if d.filePath == "" then None else Some(d.filePath), None)
  }

  /** `getAllDocuments`: one projection per stored document, in store order. */
  function GetAllDocuments(s: Store): (r: seq<DocumentMetadata>)
    ensures |r| == |s.documents|
    ensures forall i :: 0 <= i < |r| ==> r[i] == ToMetadata(s.documents[i])
  {
    seq(|s.documents|, i requires 0 <= i < |s.documents| => ToMetadata(s.documents[i]))
  }

  /** The listing names the stored documents, in order, and only them. */
  lemma GetAllDocumentsIds(s: Store)
    ensures forall i :: 0 <= i < |s.documents| ==> GetAllDocuments(s)[i].id == s.documents[i].id
    ensures forall m :: m in GetAllDocuments(s) ==> HasDocument(s, m.id)
  {
    forall m | m in GetAllDocuments(s)
      ensures HasDocument(s, m.id)
    {
      var i :| 0 <= i < |GetAllDocuments(s)| && GetAllDocuments(s)[i] == m;
      assert DocKey(s.documents[i]) == m.id;
    }
  }

  /** The record `createDocument` builds from an accepted upload. */
  function NewDocument(file: UploadedFile, id: DocId, now: string): Document {
    Document(id, file.originalname, "Uploaded document", file.originalname,
             "/uploads/" + file.filename, file.mimetype, now, [],
             DocMeta(file.size, "system", 1))
  }

  /** `createDocument`: refuses a missing file and a non-PDF type; otherwise saves the
      document (schema validation and the unique id apply) and then its generated
      extraction set. */
  function CreateDocument(s: Store, file: Option<UploadedFile>, newId: DocId, now: string, rolls: MockRolls)
    : (r: Step<DocumentMetadata>)
    requires ValidRolls(rolls)
    ensures file.None? ==> r == Step(s, Err(CustomError("No file uploaded", 400)))
    ensures file.Some? && file.value.mimetype != PdfMimeType ==>
      r == Step(s, Err(CustomError("Only PDF files are allowed", 400)))
    ensures r.result.Err? ==> r.store == s
    ensures r.result.Ok? <==>
      file.Some? && file.value.mimetype == PdfMimeType && file.value.originalname != "" && !HasDocument(s, newId)
    ensures r.result.Ok? ==>
      && |r.store.documents| == |s.documents| + 1
      && r.store.documents[..|s.documents|] == s.documents
      && var d := r.store.documents[|s.documents|];
      && d.id == newId
      && d.title == file.value.originalname && d.fileName == file.value.originalname
      && d.description == "Uploaded document"
      && d.filePath == "/uploads/" + file.value.filename
      && d.fileType == file.value.mimetype
      && d.uploadDate == now
      && d.tags == []
      && d.metadata == DocMeta(file.value.size, "system", 1)
      && r.store.extractionSets == s.extractionSets + [ExtractionSet(newId, GenerateMockExtractions(newId, rolls).extractions)]
      && r.result.value == ToMetadata(d)
  {
    if file.None? then Step(s, Err(CustomError("No file uploaded", 400)))
    else if file.value.mimetype != PdfMimeType then Step(s, Err(CustomError("Only PDF files are allowed", 400)))
    else
      var d := NewDocument(file.value, newId, now);
      match SaveDocument(s, d)
      case Err(e) => Step(s, Err(e))
      case Ok(saved) =>
        var mock := GenerateMockExtractions(d.id, rolls);
        var extractionSet := ExtractionSet(d.id, mock.extractions);
        Step(Store(saved.documents, saved.extractionSets + [extractionSet]), Ok(ToMetadata(d)))
  }

  /** `getDocumentMetadata`: the projection of the document with that id. */
  function GetDocumentMetadata(s: Store, id: DocId): (r: Result<DocumentMetadata>)
    ensures r.Err? <==> !HasDocument(s, id)
    ensures r.Err? ==> r.error == DocumentNotFound
    ensures r.Ok? ==> r.value.id == id && exists d :: d in s.documents && d.id == id && r.value == ToMetadata(d)
  {
    match FindDocument(s, id)
    case None => Err(DocumentNotFound)
    case Some(d) => Ok(ToMetadata(d))
  }

  /** Right after a successful upload, the metadata lookup of the new id returns the
      same projection the upload returned. */
  lemma CreateThenGetMetadata(s: Store, file: Option<UploadedFile>, newId: DocId, now: string, rolls: MockRolls)
    requires Valid(s) && ValidRolls(rolls)
    requires CreateDocument(s, file, newId, now, rolls).result.Ok?
    ensures GetDocumentMetadata(CreateDocument(s, file, newId, now, rolls).store, newId)
         == CreateDocument(s, file, newId, now, rolls).result
  {
    var r := CreateDocument(s, file, newId, now, rolls);
    SaveDocumentKeepsValid(s, NewDocument(file.value, newId, now));
    FindFirstUnique(r.store.documents, DocKey, |s.documents|);
  }

  /** A successful upload keeps the store invariant. */
  lemma CreateDocumentKeepsValid(s: Store, file: Option<UploadedFile>, newId: DocId, now: string, rolls: MockRolls)
    requires Valid(s) && ValidRolls(rolls)
    ensures Valid(CreateDocument(s, file, newId, now, rolls).store)
  {
    var r := CreateDocument(s, file, newId, now, rolls);
    if r.result.Ok? {
      var d := NewDocument(file.value, newId, now);
      SaveDocumentKeepsValid(s, d);
      var saved := SaveDocument(s, d).value;
      assert saved == Store(s.documents + [d], s.extractionSets);
      NoSetWithoutDocument(s, newId);
      assert HasDocument(saved, newId) by {
        assert DocKey(saved.documents[|s.documents|]) == newId;
      }
      var x := ExtractionSet(newId, GenerateMockExtractions(newId, rolls).extractions);
      AddSetKeepsValid(saved, x);
      assert r.store == Store(saved.documents, saved.extractionSets + [x]);
    }
  }

  /** The placeholder record `getOrCreateDefaultMetadata` builds for an unknown id. */
  function DefaultDocument(id: DocId, now: string): Document {
    Document(id, "Document " + id, "Default document", "Document " + id, "",
             PdfMimeType, now, [], DocMeta(0, "system", 1))
  }

  /** The default record lacks exactly one required path: its file path. */
  lemma DefaultDocumentMissesFilePath(id: DocId, now: string)
    ensures MissingPaths(DefaultDocument(id, now)) == ["filePath"]
  {
    var d := DefaultDocument(id, now);
    assert |d.title| >= 9 && |d.fileName| >= 9;
    assert d.fileType == "application/pdf";
  }

  /** `getOrCreateDefaultMetadata`, as written: an existing document is projected; for
      an unknown id the default record is saved, but its empty `filePath` fails the
      schema's required check, so the save is refused and nothing is created. */
  function GetOrCreateDefaultMetadata(s: Store, id: DocId, now: string): (r: Step<DocumentMetadata>)
    ensures r.store == s
    ensures HasDocument(s, id) ==> r.result == GetDocumentMetadata(s, id)
    ensures !HasDocument(s, id) ==> r.result == Err(ValidationError(["filePath"]))
  {
    match FindDocument(s, id)
    case Some(d) => Step(s, Ok(ToMetadata(d)))
    case None =>
      DefaultDocumentMissesFilePath(id, now);
      match SaveDocument(s, DefaultDocument(id, now))
      case Err(e) => Step(s, Err(e))
      case Ok(saved) => Step(saved, Ok(ToMetadata(DefaultDocument(id, now))))
  }

  /** The default record can never be saved, whatever the id and clock. */
  lemma DefaultDocumentNeverSaved(s: Store, id: DocId, now: string)
    ensures SaveDocument(s, DefaultDocument(id, now)) == Err(ValidationError(["filePath"]))
  {
    DefaultDocumentMissesFilePath(id, now);
  }

  /** `getOrCreateDefaultMetadata` as evidently intended: the default record, which has
      no file, is stored for an unknown id, so later calls find it. */
  function GetOrCreateDefaultMetadataIntended(s: Store, id: DocId, now: string): (r: Step<DocumentMetadata>)
    ensures HasDocument(s, id) ==> r == Step(s, GetDocumentMetadata(s, id))
    ensures !HasDocument(s, id) ==>
      && r.store == Store(s.documents + [DefaultDocument(id, now)], s.extractionSets)
      && r.result == Ok(ToMetadata(DefaultDocument(id, now)))
    ensures r.result.Ok? && r.result.value.id == id
  {
    match FindDocument(s, id)
    case Some(d) => Step(s, Ok(ToMetadata(d)))
    case None =>
      var d := DefaultDocument(id, now);
      Step(Store(s.documents + [d], s.extractionSets), Ok(ToMetadata(d)))
  }

  /** A second call with the same id changes nothing and answers the same projection. */
  lemma GetOrCreateDefaultIdempotent(s: Store, id: DocId, now: string, later: string)
    requires Valid(s)
    ensures var first := GetOrCreateDefaultMetadataIntended(s, id, now);
            var second := GetOrCreateDefaultMetadataIntended(first.store, id, later);
            second.store == first.store && second.result == first.result
  {
    var first := GetOrCreateDefaultMetadataIntended(s, id, now);
    if !HasDocument(s, id) {
      var d := DefaultDocument(id, now);
      assert UniqueKeys(first.store.documents, DocKey);
      FindFirstUnique(first.store.documents, DocKey, |s.documents|);
    } else {
      var i := FirstIndex(s.documents, DocKey, id);
      FindFirstUnique(s.documents, DocKey, i);
    }
  }

  /** `getDocumentExtractions`: the extraction set of an existing document, sorted by
      page; the stored set itself is not rewritten. */
  function GetDocumentExtractions(s: Store, id: DocId): (r: Result<DocumentExtractions>)
    ensures !HasDocument(s, id) ==> r == Err(DocumentNotFound)
    ensures HasDocument(s, id) && !HasExtractions(s, id) ==> r == Err(NoExtractionsFound)
    ensures r.Ok? <==> HasDocument(s, id) && HasExtractions(s, id)
    ensures r.Ok? ==>
      && r.value.documentId == id
      && SortedByPage(r.value.extractions)
      && multiset(r.value.extractions) == multiset(FindExtractions(s, id).value.extractions)
      && forall p :: OnPage(r.value.extractions, p) == OnPage(FindExtractions(s, id).value.extractions, p)
  {
    match FindDocument(s, id)
    case None => Err(DocumentNotFound)
    case Some(d) =>
      match FindExtractions(s, d.id)
      case None => Err(NoExtractionsFound)
      case Some(found) =>
        var sorted := SortByPage(found.extractions);
        SortByPageSorted(found.extractions);
        SortByPagePermutes(found.extractions);
        assert forall p :: OnPage(sorted, p) == OnPage(found.extractions, p) by {
          forall p {
            SortByPageStable(found.extractions, p);
          }
        }
        Ok(DocumentExtractions(id, sorted))
  }

  /** The store after `deleteDocument` found the document: the first extraction set
      for the id (if any) and then the document are cut out, and every other record
      stays where it was. */
  function DeleteFrom(s: Store, id: DocId): (t: Store)
    ensures !HasDocument(s, id) ==> t.documents == s.documents
    ensures HasDocument(s, id) ==>
      exists k :: 0 <= k < |s.documents| && DocKey(s.documents[k]) == id && !Has(s.documents[..k], DocKey, id)
        && t.documents == s.documents[..k] + s.documents[k + 1..]
    ensures HasExtractions(s, id) ==>
      exists k :: 0 <= k < |s.extractionSets| && SetKey(s.extractionSets[k]) == id && !Has(s.extractionSets[..k], SetKey, id)
        && t.extractionSets == s.extractionSets[..k] + s.extractionSets[k + 1..]
    ensures !HasExtractions(s, id) ==> t.extractionSets == s.extractionSets
  {
    RemoveFirstSlice(s.documents, DocKey, id);
    RemoveFirstSlice(s.extractionSets, SetKey, id);
    Store(RemoveFirst(s.documents, DocKey, id), RemoveFirst(s.extractionSets, SetKey, id))
  }

  /** Cutting out the document and its set loses no other record, adds none, and
      keeps a consistent store consistent with nothing left for the id. */
  lemma DeleteFromKeeps(s: Store, id: DocId)
    ensures HasDocument(s, id) ==> |DeleteFrom(s, id).documents| == |s.documents| - 1
    ensures |DeleteFrom(s, id).extractionSets| == |s.extractionSets| - (if HasExtractions(s, id) then 1 else 0)
    ensures forall d :: d in DeleteFrom(s, id).documents ==> d in s.documents
    ensures forall d :: d in s.documents && d.id != id ==> d in DeleteFrom(s, id).documents
    ensures forall x :: x in DeleteFrom(s, id).extractionSets ==> x in s.extractionSets
    ensures forall x :: x in s.extractionSets && x.documentId != id ==> x in DeleteFrom(s, id).extractionSets
  {
    RemoveFirstKeeps(s.extractionSets, SetKey, id);
    RemoveFirstKeeps(s.documents, DocKey, id);
  }

  /** In a consistent store, cutting out the document and its set leaves a consistent
      store with nothing left for the id. */
  lemma DeleteFromValid(s: Store, id: DocId)
    requires Valid(s)
    ensures Valid(DeleteFrom(s, id)) && !HasDocument(DeleteFrom(s, id), id) && !HasExtractions(DeleteFrom(s, id), id)
  {
    var t := DeleteFrom(s, id);
    RemoveFirstKeeps(s.extractionSets, SetKey, id);
    RemoveFirstKeeps(s.documents, DocKey, id);
    forall k | 0 <= k < |t.extractionSets|
      ensures HasDocument(t, t.extractionSets[k].documentId)
    {
      var x := t.extractionSets[k];
      assert x in s.extractionSets;
      var m :| 0 <= m < |s.extractionSets| && s.extractionSets[m] == x;
      assert HasDocument(s, x.documentId);
      var n :| 0 <= n < |s.documents| && DocKey(s.documents[n]) == x.documentId;
      assert x.documentId != id;
      assert s.documents[n] in t.documents;
    }
  }

  /** `deleteDocument`: the document's extraction set goes first, then the document;
      every other document and set stays, in its place. */
  function DeleteDocument(s: Store, id: DocId): (r: Step<()>)
    ensures !HasDocument(s, id) ==> r == Step(s, Err(DocumentNotFound))
    ensures HasDocument(s, id) ==> r.result == Ok(())
    ensures HasDocument(s, id) ==> |r.store.documents| == |s.documents| - 1
    ensures |r.store.extractionSets| == |s.extractionSets| - (if HasDocument(s, id) && HasExtractions(s, id) then 1 else 0)
    ensures forall d :: d in r.store.documents ==> d in s.documents
    ensures forall d :: d in s.documents && d.id != id ==> d in r.store.documents
    ensures Valid(s) ==> Valid(r.store) && !HasDocument(r.store, id) && !HasExtractions(r.store, id)
    ensures forall x :: x in r.store.extractionSets ==> x in s.extractionSets
    ensures forall x :: x in s.extractionSets && x.documentId != id ==> x in r.store.extractionSets
    ensures HasDocument(s, id) ==>
      exists k :: 0 <= k < |s.documents| && DocKey(s.documents[k]) == id && !Has(s.documents[..k], DocKey, id)
        && r.store.documents == s.documents[..k] + s.documents[k + 1..]
    ensures HasDocument(s, id) && HasExtractions(s, id) ==>
      exists k :: 0 <= k < |s.extractionSets| && SetKey(s.extractionSets[k]) == id && !Has(s.extractionSets[..k], SetKey, id)
        && r.store.extractionSets == s.extractionSets[..k] + s.extractionSets[k + 1..]
    ensures !HasExtractions(s, id) ==> r.store.extractionSets == s.extractionSets
  {
    if !HasDocument(s, id) then Step(s, Err(DocumentNotFound))
    else
      DeleteFromKeeps(s, id);
      if Valid(s) then
        DeleteFromValid(s, id);
        Step(DeleteFrom(s, id), Ok(()))
      else Step(DeleteFrom(s, id), Ok(()))
  }

  /** After a delete, both lookups of the id fail with "Document not found". */
  lemma DeleteThenLookupsFail(s: Store, id: DocId)
    requires Valid(s)
    ensures var after := DeleteDocument(s, id).store;
            GetDocumentMetadata(after, id) == Err(DocumentNotFound)
            && GetDocumentExtractions(after, id) == Err(DocumentNotFound)
  {
  }
}
