/** The document route handlers as outcome functions: each either responds
    (`Respond(status, body, headers)`) or hands an error to the next middleware
    (`Next(err)`), which the service's errors reach unchanged.

    The file-serving handler depends on the filesystem: `onDisk` is the existence
    check, `sendFails` says whether streaming the file failed, and `uploadsDir`
    is the absolute uploads directory. */
module DocumentController {
  import opened Outcomes
  import opened Models
  import opened Paths
  import opened PageOrder
  import opened MockData
  import opened Upload
  import opened DocumentService
  import Validation

  datatype Header = Header(name: string, value: string)

  datatype Body =
    | MetadataBody(metadata: DocumentMetadata)
    | ListBody(documents: seq<DocumentMetadata>)
    | ExtractionsBody(extractions: DocumentExtractions)
    | FileBody(path: string)
    | NoBody

  datatype Reply = Respond(status: int, body: Body, headers: seq<Header>) | Next(error: AppError)

  /** A handler that may write: the store afterwards and the reply. */
  datatype Handled = Handled(store: Store, reply: Reply)

  /** `uploadDocument`: 201 with the new document's projection. */
  function UploadDocument(s: Store, reqFile: Option<UploadedFile>, newId: DocId, now: string, rolls: MockRolls)
    : (r: Handled)
    requires ValidRolls(rolls)
    ensures reqFile.None? ==> r == Handled(s, Next(CustomError("No file uploaded", 400)))
    ensures reqFile.Some? ==>
      var step := CreateDocument(s, reqFile, newId, now, rolls);
      && r.store == step.store
      && (step.result.Ok? ==> r.reply == Respond(201, MetadataBody(step.result.value), []))
      && (step.result.Err? ==> r.reply == Next(step.result.error))
  {
    if reqFile.None? then Handled(s, Next(CustomError("No file uploaded", 400)))
    else
      var step := CreateDocument(s, reqFile, newId, now, rolls);
      match step.result
      case Ok(metadata) => Handled(step.store, Respond(201, MetadataBody(metadata), []))
      case Err(e) => Handled(step.store, Next(e))
  }

  /** The handler's own no-file check answers exactly what the service would. */
  lemma UploadNoFileMatchesService(s: Store, newId: DocId, now: string, rolls: MockRolls)
    requires ValidRolls(rolls)
    ensures UploadDocument(s, None, newId, now, rolls).reply
         == Next(CreateDocument(s, None, newId, now, rolls).result.error)
  {
  }

  /** `getDocuments`: 200 with the listing. */
  function GetDocuments(s: Store): (r: Reply)
    ensures r.Respond? && r.status == 200 && r.headers == []
    ensures r.body == ListBody(GetAllDocuments(s))
  {
    Respond(200, ListBody(GetAllDocuments(s)), [])
  }

  /** `getExtractions`: 200 with the sorted extractions, or the service's error. */
  function GetExtractions(s: Store, id: DocId): (r: Reply)
    ensures GetDocumentExtractions(s, id).Ok? ==>
      r == Respond(200, ExtractionsBody(GetDocumentExtractions(s, id).value), [])
    ensures GetDocumentExtractions(s, id).Err? ==> r == Next(GetDocumentExtractions(s, id).error)
  {
    match GetDocumentExtractions(s, id)
    case Ok(result) => Respond(200, ExtractionsBody(result), [])
    case Err(e) => Next(e)
  }

  /** `getDocumentMetadata`: 200 with the projection, or the service's error. */
  function GetDocumentMetadataHandler(s: Store, id: DocId): (r: Reply)
    ensures HasDocument(s, id) <==> r.Respond?
    ensures r.Respond? ==> r.status == 200 && r.body == MetadataBody(GetDocumentMetadata(s, id).value)
    ensures r.Next? ==> r.error == DocumentNotFound
  {
    match GetDocumentMetadata(s, id)
    case Ok(metadata) => Respond(200, MetadataBody(metadata), [])
    case Err(e) => Next(e)
  }

  /** `deleteDocumentHandler`: 204 with an empty body once the delete is done. */
  function DeleteDocumentHandler(s: Store, id: DocId): (r: Handled)
    ensures r.store == DeleteDocument(s, id).store
    ensures HasDocument(s, id) ==> r.reply == Respond(204, NoBody, [])
    ensures !HasDocument(s, id) ==> r == Handled(s, Next(DocumentNotFound))
  {
    var step := DeleteDocument(s, id);
    match step.result
    case Ok(_) => Handled(step.store, Respond(204, NoBody, []))
    case Err(e) => Handled(step.store, Next(e))
  }

  /** The upload route runs `validateFileUpload` before the handler. Whatever the
      validator refuses, the service refuses with the same error and leaves the
      store alone; once it passes, the service can fail only on the stored record
      (an empty original name) or a taken id. */
  lemma ValidateFileUploadGuardsCreate(s: Store, file: Option<UploadedFile>, newId: DocId, now: string, rolls: MockRolls)
    requires ValidRolls(rolls)
    ensures Validation.ValidateFileUpload(file).Fail? ==>
      CreateDocument(s, file, newId, now, rolls) == Step(s, Err(Validation.ValidateFileUpload(file).error))
    ensures Validation.ValidateFileUpload(file).Pass? ==>
      (CreateDocument(s, file, newId, now, rolls).result.Ok? <==> file.value.originalname != "" && !HasDocument(s, newId))
  {
  }

  /** The headers set before the file is streamed. */
  function PdfHeaders(fileName: string): seq<Header> {
    [Header("Content-Type", "application/pdf"),
     Header("Content-Disposition", "inline; filename=\"" + fileName + "\"")]
  }

  /** The part of `getDocumentFile` after the metadata lookup: requires a stored path,
      resolves its file name inside the uploads directory, checks the file exists,
      sets the PDF headers and streams it. */
  function ServeFile(metadata: DocumentMetadata, uploadsDir: string, onDisk: string -> bool, sendFails: bool)
    : (r: Reply)
    ensures metadata.filePath.None? || metadata.filePath.value == "" ==>
      r == Next(CustomError("File path not found", 404))
    ensures r.Respond? ==>
      && metadata.filePath.Some? && metadata.filePath.value != ""
      && r.status == 200
      && r.body == FileBody(ResolveInDir(uploadsDir, metadata.filePath.value))
      && onDisk(r.body.path)
      && r.headers == PdfHeaders(metadata.fileName)
    ensures metadata.filePath.Some? && metadata.filePath.value != "" ==>
      var path := ResolveInDir(uploadsDir, metadata.filePath.value);
      && (!onDisk(path) ==> r == Next(CustomError("File not found on disk", 404)))
      && (onDisk(path) && sendFails ==> r == Next(CustomError("Error sending file", 500)))
      && (onDisk(path) && !sendFails ==> r.Respond?)
  {
    if metadata.filePath.None? || metadata.filePath.value == "" then Next(CustomError("File path not found", 404))
    else
      var path := ResolveInDir(uploadsDir, metadata.filePath.value);
      if !onDisk(path) then Next(CustomError("File not found on disk", 404))
      else if sendFails then Next(CustomError("Error sending file", 500))
      else Respond(200, FileBody(path), PdfHeaders(metadata.fileName))
  }

  /** `getDocumentFile` as written: the path is read from the projection's `filePath`. */
  function GetDocumentFile(s: Store, id: DocId, uploadsDir: string, onDisk: string -> bool, sendFails: bool)
    : (r: Reply)
    ensures !HasDocument(s, id) ==> r == Next(DocumentNotFound)
  {
    match GetDocumentMetadata(s, id)
    case Err(e) => Next(e)
    case Ok(metadata) => ServeFile(metadata, uploadsDir, onDisk, sendFails)
  }

  /** The projection never carries `filePath`, so as written the handler never
      serves a file: every existing document answers 404 "File path not found". */
  lemma GetDocumentFileNeverServes(s: Store, id: DocId, uploadsDir: string, onDisk: string -> bool, sendFails: bool)
    ensures HasDocument(s, id) ==>
      GetDocumentFile(s, id, uploadsDir, onDisk, sendFails) == Next(CustomError("File path not found", 404))
    ensures !GetDocumentFile(s, id, uploadsDir, onDisk, sendFails).Respond?
  {
  }

  /** `getDocumentFile` as evidently intended: the stored path is the projection's
      `fileUrl`, which is present exactly when the document has a file. */
  function GetDocumentFileIntended(s: Store, id: DocId, uploadsDir: string, onDisk: string -> bool, sendFails: bool)
    : (r: Reply)
    ensures !HasDocument(s, id) ==> r == Next(DocumentNotFound)
  {
    match GetDocumentMetadata(s, id)
    case Err(e) => Next(e)
    case Ok(metadata) => ServeFile(metadata.(filePath := metadata.fileUrl), uploadsDir, onDisk, sendFails)
  }

  /** With the path taken from `fileUrl`, a document whose stored file exists is
      served as an inline PDF named after its original file name. */
  lemma GetDocumentFileIntendedServes(s: Store, i: nat, uploadsDir: string, onDisk: string -> bool)
    requires Valid(s) && i < |s.documents|
    requires s.documents[i].filePath != ""
    requires onDisk(ResolveInDir(uploadsDir, s.documents[i].filePath))
    ensures GetDocumentFileIntended(s, s.documents[i].id, uploadsDir, onDisk, false)
         == Respond(200, FileBody(ResolveInDir(uploadsDir, s.documents[i].filePath)),
                    PdfHeaders(s.documents[i].fileName))
  {
    Lookup.FindFirstUnique(s.documents, DocKey, i);
  }

  /** With the path taken from `fileUrl`, the remaining refusals are those of the
      serving step: a document without a file is 404 "File path not found", a file
      missing from disk 404 "File not found on disk", a failed send 500. */
  lemma GetDocumentFileIntendedRefuses(s: Store, i: nat, uploadsDir: string, onDisk: string -> bool, sendFails: bool)
    requires Valid(s) && i < |s.documents|
    ensures var d := s.documents[i];
      var r := GetDocumentFileIntended(s, d.id, uploadsDir, onDisk, sendFails);
      var path := ResolveInDir(uploadsDir, d.filePath);
      && (d.filePath == "" ==> r == Next(CustomError("File path not found", 404)))
      && (d.filePath != "" && !onDisk(path) ==> r == Next(CustomError("File not found on disk", 404)))
      && (d.filePath != "" && onDisk(path) && sendFails ==> r == Next(CustomError("Error sending file", 500)))
  {
    var d := s.documents[i];
    Lookup.FindFirstUnique(s.documents, DocKey, i);
    var m := ToMetadata(d);
    assert GetDocumentMetadata(s, d.id) == Ok(m);
    assert GetDocumentFileIntended(s, d.id, uploadsDir, onDisk, sendFails)
        == ServeFile(m.(filePath := m.fileUrl), uploadsDir, onDisk, sendFails);
  }

  /** An upload of `contract.pdf` answers 201 with that file name and a file URL
      under `/uploads/`; its extractions are then served sorted, 8 to 12 of them,
      all on pages 1 to 5. */
  lemma UploadThenExtractions(s: Store, file: UploadedFile, newId: DocId, now: string, rolls: MockRolls)
    requires Valid(s) && ValidRolls(rolls)
    requires file.originalname == "contract.pdf" && file.mimetype == PdfMimeType && file.size == 1024
    requires !HasDocument(s, newId)
    ensures var up := UploadDocument(s, Some(file), newId, now, rolls);
      && up.reply.Respond? && up.reply.status == 201
      && up.reply.body.MetadataBody?
      && up.reply.body.metadata.fileName == "contract.pdf"
      && up.reply.body.metadata.fileUrl == Some("/uploads/" + file.filename)
      && var ex := GetExtractions(up.store, newId);
      && ex.Respond? && ex.status == 200 && ex.body.ExtractionsBody?
      && 8 <= |ex.body.extractions.extractions| <= 12
      && SortedByPage(ex.body.extractions.extractions)
      && forall e :: e in ex.body.extractions.extractions ==> 1 <= e.pageNumber <= 5
  {
    var step := CreateDocument(s, Some(file), newId, now, rolls);
    CreateDocumentKeepsValid(s, Some(file), newId, now, rolls);
    var generated := GenerateMockExtractions(newId, rolls).extractions;
    var sets := step.store.extractionSets;
    assert sets[|s.extractionSets|] == ExtractionSet(newId, generated);
    Lookup.FindFirstUnique(sets, SetKey, |s.extractionSets|);
    assert DocKey(step.store.documents[|s.documents|]) == newId;
    var got := GetDocumentExtractions(step.store, newId).value.extractions;
    assert |got| == |multiset(got)| == |multiset(generated)| == |generated|;
    forall e | e in got
      ensures 1 <= e.pageNumber <= 5
    {
      assert e in multiset(got);
      assert e in multiset(generated);
    }
  }
}
