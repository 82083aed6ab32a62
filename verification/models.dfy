/** The stored records of the document store: documents, their extraction sets,
    and the store that holds both collections in insertion order.

    A document's `uploadDate` is the ISO-8601 text the clock produced when it was
    created; the clock itself is a parameter of the operations that create documents. */
module Models {
  import opened Outcomes
  import opened Lookup

  type DocId = string

  /** The `metadata` block of a document. */
  datatype DocMeta = DocMeta(size: nat, uploadedBy: string, version: nat)

  datatype Document = Document(
    id: DocId,
    title: string,
    description: string,
    fileName: string,
    filePath: string,
    fileType: string,
    uploadDate: string,
    tags: seq<string>,
    metadata: DocMeta)

  /** One placeholder text snippet attributed to a page. */
  datatype Extraction = Extraction(id: string, text: string, pageNumber: int)

  /** The extractions of one document, linked back to it by `documentId`. */
  datatype ExtractionSet = ExtractionSet(documentId: DocId, extractions: seq<Extraction>)

  /** Both collections of the store, each in insertion order (the order `find()` returns). */
  datatype Store = Store(documents: seq<Document>, extractionSets: seq<ExtractionSet>)

  function DocKey(d: Document): string {
    d.id
  }

  function SetKey(s: ExtractionSet): string {
    s.documentId
  }

  predicate HasDocument(s: Store, id: DocId) {
    Has(s.documents, DocKey, id)
  }

  predicate HasExtractions(s: Store, id: DocId) {
    Has(s.extractionSets, SetKey, id)
  }

  /** `DocumentModel.findById(id)`. */
  function FindDocument(s: Store, id: DocId): (r: Option<Document>)
    ensures r.None? <==> !HasDocument(s, id)
    ensures r.Some? ==> r.value in s.documents && r.value.id == id
  {
    FindFirst(s.documents, DocKey, id)
  }

  /** `ExtractionModel.findOne({documentId: id})`. */
  function FindExtractions(s: Store, id: DocId): (r: Option<ExtractionSet>)
    ensures r.None? <==> !HasExtractions(s, id)
    ensures r.Some? ==> r.value in s.extractionSets && r.value.documentId == id
  {
    FindFirst(s.extractionSets, SetKey, id)
  }

  /** The store invariant the document service keeps: document ids are unique,
      every extraction set belongs to a stored document, and no document has two sets. */
  predicate Valid(s: Store) {
    && UniqueKeys(s.documents, DocKey)
    && UniqueKeys(s.extractionSets, SetKey)
    && forall k :: 0 <= k < |s.extractionSets| ==> HasDocument(s, s.extractionSets[k].documentId)
  }

  /** The schema paths whose `required` validator rejects `d` when it is saved.
      The storage layer treats an empty string as a missing required string, so
      each required string path must be non-empty; numbers are always present here. */
  function MissingPaths(d: Document): (paths: seq<string>)
    ensures paths == [] <==>
      d.title != "" && d.description != "" && d.fileName != "" && d.filePath != ""
      && d.fileType != "" && d.metadata.uploadedBy != ""
    ensures forall k :: 0 <= k < |paths| ==>
      paths[k] in ["title", "description", "fileName", "filePath", "fileType", "metadata.uploadedBy"]
  {
    (if d.title == "" then ["title"] else [])
    + (if d.description == "" then ["description"] else [])
    + (if d.fileName == "" then ["fileName"] else [])
    + (if d.filePath == "" then ["filePath"] else [])
    + (if d.fileType == "" then ["fileType"] else [])
    + (if d.metadata.uploadedBy == "" then ["metadata.uploadedBy"] else [])
  }

  /** `document.save()` for a new document: schema validation, then the unique `_id`
      index, then the insert at the end of the collection. */
  function SaveDocument(s: Store, d: Document): (r: Result<Store>)
    ensures r.Ok? <==> MissingPaths(d) == [] && !HasDocument(s, d.id)
    ensures MissingPaths(d) != [] ==> r == Err(ValidationError(MissingPaths(d)))
    ensures r.Ok? ==> r.value == Store(s.documents + [d], s.extractionSets)
  {
    if MissingPaths(d) != [] then Err(ValidationError(MissingPaths(d)))
    else if HasDocument(s, d.id) then Err(DuplicateKey)
    else Ok(Store(s.documents + [d], s.extractionSets))
  }

  /** In a consistent store every set belongs to a stored document, so an id with
      no document has no set either. */
  lemma NoSetWithoutDocument(s: Store, id: DocId)
    requires Valid(s) && !HasDocument(s, id)
    ensures !HasExtractions(s, id)
  {
  }

  /** Adding the first set of a stored document keeps the store invariant. */
  lemma AddSetKeepsValid(s: Store, x: ExtractionSet)
    requires Valid(s) && HasDocument(s, x.documentId) && !HasExtractions(s, x.documentId)
    ensures Valid(Store(s.documents, s.extractionSets + [x]))
  {
    AppendKeepsUnique(s.extractionSets, x, SetKey);
    var t := Store(s.documents, s.extractionSets + [x]);
    forall k | 0 <= k < |t.extractionSets|
      ensures HasDocument(t, t.extractionSets[k].documentId)
    {
      if k < |s.extractionSets| {
        assert t.extractionSets[k] == s.extractionSets[k];
      }
    }
  }

  /** Adding a new, schema-valid document keeps the store invariant. */
  lemma SaveDocumentKeepsValid(s: Store, d: Document)
    requires Valid(s)
    requires SaveDocument(s, d).Ok?
    ensures Valid(SaveDocument(s, d).value)
  {
    var s' := SaveDocument(s, d).value;
    forall k | 0 <= k < |s'.extractionSets|
      ensures HasDocument(s', s'.extractionSets[k].documentId)
    {
      var id := s.extractionSets[k].documentId;
      assert HasDocument(s, id);
      var m :| 0 <= m < |s.documents| && s.documents[m].id == id;
      assert s'.documents[m] == s.documents[m];
    }
  }
}
