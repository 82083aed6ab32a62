/** The orphan cleanup: every stored document whose file is missing on disk is
    deleted, one `deleteOne` at a time, and the number deleted is returned. Any
    failure is logged and answered with 0, but deletions already made stay made.

    The filesystem is the parameter `onDisk(path)`, asked with the stored
    `filePath` as it is. The store's failures are parameters too: `findFails`
    for the initial listing and `deleteFails(id)` for one deletion. */
module DocumentCleanup {
  import opened Outcomes
  import opened Lookup
  import opened Models

  /** The documents whose stored file exists, in store order. */
  function Kept(docs: seq<Document>, onDisk: string -> bool): (r: seq<Document>)
    ensures |r| <= |docs|
  {
    if docs == [] then []
    else
      var last := docs[|docs| - 1];
      Kept(docs[..|docs| - 1], onDisk) + (if onDisk(last.filePath) then [last] else [])
  }

  /** The filter keeps exactly the documents whose file exists. */
  lemma {:induction false} KeptMembers(docs: seq<Document>, onDisk: string -> bool)
    ensures forall d :: d in Kept(docs, onDisk) <==> d in docs && onDisk(d.filePath)
  {
    if docs != [] {
      var init := docs[..|docs| - 1];
      KeptMembers(init, onDisk);
      assert docs == init + [docs[|docs| - 1]];
    }
  }

  /** How many documents have no file on disk. */
  function MissingCount(docs: seq<Document>, onDisk: string -> bool): nat {
    if docs == [] then 0
    else MissingCount(docs[..|docs| - 1], onDisk) + (if onDisk(docs[|docs| - 1].filePath) then 0 else 1)
  }

  /** The count is exactly what the filter drops. */
  lemma {:induction false} MissingCountIsDropped(docs: seq<Document>, onDisk: string -> bool)
    ensures MissingCount(docs, onDisk) == |docs| - |Kept(docs, onDisk)|
  {
    if docs != [] {
      MissingCountIsDropped(docs[..|docs| - 1], onDisk);
    }
  }

  /** Filtering keeps the unique `_id` index. */
  lemma {:induction false} KeptUnique(docs: seq<Document>, onDisk: string -> bool)
    requires UniqueKeys(docs, DocKey)
    ensures UniqueKeys(Kept(docs, onDisk), DocKey)
  {
    if docs != [] {
      var init := docs[..|docs| - 1];
      var last := docs[|docs| - 1];
      KeptUnique(init, onDisk);
      KeptMembers(init, onDisk);
      var k := Kept(init, onDisk);
      forall j | 0 <= j < |k|
        ensures DocKey(k[j]) != DocKey(last)
      {
        assert k[j] in init;
      }
    }
  }

  /** Extending the prefix walked so far by one document. */
  lemma KeptStep(docs: seq<Document>, i: nat, onDisk: string -> bool)
    requires i < |docs|
    ensures Kept(docs[..i + 1], onDisk) == Kept(docs[..i], onDisk) + (if onDisk(docs[i].filePath) then [docs[i]] else [])
    ensures MissingCount(docs[..i + 1], onDisk) == MissingCount(docs[..i], onDisk) + (if onDisk(docs[i].filePath) then 0 else 1)
    ensures docs[i..] == [docs[i]] + docs[i + 1..]
  {
    assert docs[..i + 1][..i] == docs[..i];
  }

  /** A document whose deletion fails. */
  predicate Fails(d: Document, onDisk: string -> bool, deleteFails: DocId -> bool) {
    !onDisk(d.filePath) && deleteFails(d.id)
  }

  /** While walking the listing, deleting the orphan at position `i` from the store
      as it then stands removes exactly that document. */
  lemma RemoveOrphan(docs: seq<Document>, i: nat, onDisk: string -> bool)
    requires UniqueKeys(docs, DocKey) && i < |docs|
    ensures var xs := Kept(docs[..i], onDisk) + docs[i..];
      RemoveFirst(xs, DocKey, docs[i].id) == Kept(docs[..i], onDisk) + docs[i + 1..]
  {
    var kept := Kept(docs[..i], onDisk);
    KeptMembers(docs[..i], onDisk);
    var xs := kept + docs[i..];
    assert xs[..|kept|] == kept && xs[|kept|] == docs[i] && xs[|kept| + 1..] == docs[i + 1..];
    forall m | 0 <= m < |kept|
      ensures DocKey(kept[m]) != DocKey(docs[i])
    {
      assert kept[m] in docs[..i];
    }
    RemoveFirstAt(xs, DocKey, |kept|);
  }

  /** The walk's state after visiting the first `i` documents of the listing: the
      store holds the kept part of the visited prefix followed by the unvisited
      rest, and the count is the number of orphans visited. */
  predicate Swept(docs: seq<Document>, onDisk: string -> bool, i: nat, current: seq<Document>, count: nat) {
    && i <= |docs|
    && current == Kept(docs[..i], onDisk) + docs[i..]
    && count == MissingCount(docs[..i], onDisk)
  }

  /** One iteration of the walk: a document whose file exists is passed over, an
      orphan is deleted by its id and counted. */
  lemma SweepStep(docs: seq<Document>, i: nat, onDisk: string -> bool, current: seq<Document>, count: nat)
    requires UniqueKeys(docs, DocKey) && i < |docs|
    requires Swept(docs, onDisk, i, current, count)
    ensures onDisk(docs[i].filePath) ==> Swept(docs, onDisk, i + 1, current, count)
    ensures !onDisk(docs[i].filePath) ==>
      Swept(docs, onDisk, i + 1, RemoveFirst(current, DocKey, docs[i].id), count + 1)
  {
    KeptStep(docs, i, onDisk);
    if !onDisk(docs[i].filePath) {
      RemoveOrphan(docs, i, onDisk);
    } else {
      assert current == Kept(docs[..i], onDisk) + [docs[i]] + docs[i + 1..];
    }
  }

  /** Once the whole listing is visited, the walk's state is the filtered listing
      and the count of orphans. */
  lemma SweptAll(docs: seq<Document>, onDisk: string -> bool, current: seq<Document>, count: nat)
    requires Swept(docs, onDisk, |docs|, current, count)
    ensures current == Kept(docs, onDisk) && count == MissingCount(docs, onDisk)
  {
    assert docs[..|docs|] == docs;
    assert docs[|docs|..] == [];
  }

  /** The loop over the listing `docs`: deletes each orphan from the store in turn.
      `failedAt` is the position of the first deletion that failed, or -1. */
  method Sweep(docs: seq<Document>, onDisk: string -> bool, deleteFails: DocId -> bool)
    returns (current: seq<Document>, count: nat, failedAt: int)
    requires UniqueKeys(docs, DocKey)
    ensures -1 <= failedAt < |docs|
    ensures forall j :: 0 <= j < |docs| && (failedAt == -1 || j < failedAt) ==> !Fails(docs[j], onDisk, deleteFails)
    ensures failedAt == -1 ==> current == Kept(docs, onDisk) && count == MissingCount(docs, onDisk)
    ensures failedAt >= 0 ==>
      Fails(docs[failedAt], onDisk, deleteFails) && current == Kept(docs[..failedAt], onDisk) + docs[failedAt..]
  {
    current, count := docs, 0;
    var i := 0;
    assert docs[..0] == [] && docs[0..] == docs;
    while i < |docs|
      invariant Swept(docs, onDisk, i, current, count)
      invariant forall j :: 0 <= j < i ==> !Fails(docs[j], onDisk, deleteFails)
    {
      var d := docs[i];
      if Fails(d, onDisk, deleteFails) {
        return current, count, i;
      }
      SweepStep(docs, i, onDisk, current, count);
      if !onDisk(d.filePath) {
        current := RemoveFirst(current, DocKey, d.id);
        count := count + 1;
      }
      i := i + 1;
    }
    SweptAll(docs, onDisk, current, count);
    failedAt := -1;
  }

  /** `cleanupOrphanedDocuments`. Without failures it removes exactly the documents
      whose file is missing, keeps the rest in order, and returns how many it
      removed. A failed listing changes nothing; a failed deletion returns 0 after
      the earlier deletions. Extraction sets are never touched. */
  method CleanupOrphanedDocuments(s: Store, onDisk: string -> bool, findFails: bool, deleteFails: DocId -> bool)
    returns (after: Store, removed: nat)
    requires UniqueKeys(s.documents, DocKey)
    ensures after.extractionSets == s.extractionSets
    ensures findFails ==> after == s && removed == 0
    ensures !findFails && (forall j :: 0 <= j < |s.documents| ==> !Fails(s.documents[j], onDisk, deleteFails)) ==>
      && removed == MissingCount(s.documents, onDisk)
      && after.documents == Kept(s.documents, onDisk)
    ensures !findFails && (exists j :: 0 <= j < |s.documents| && Fails(s.documents[j], onDisk, deleteFails)) ==>
      && removed == 0
      && exists k ::
        && 0 <= k < |s.documents| && Fails(s.documents[k], onDisk, deleteFails)
        && (forall j :: 0 <= j < k ==> !Fails(s.documents[j], onDisk, deleteFails))
        && after.documents == Kept(s.documents[..k], onDisk) + s.documents[k..]
  {
    if findFails {
      return s, 0;
    }
    var current, count, failedAt := Sweep(s.documents, onDisk, deleteFails);
    after := Store(current, s.extractionSets);
    removed := if failedAt >= 0 then 0 else count;
  }

  /** After a clean run the store's documents all have files: a second run against
      the same filesystem finds nothing to remove and changes nothing. */
  lemma {:induction false} SecondRunRemovesNothing(docs: seq<Document>, onDisk: string -> bool)
    ensures Kept(Kept(docs, onDisk), onDisk) == Kept(docs, onDisk)
    ensures MissingCount(Kept(docs, onDisk), onDisk) == 0
  {
    var kept := Kept(docs, onDisk);
    KeptMembers(docs, onDisk);
    assert forall j :: 0 <= j < |kept| ==> kept[j] in kept;
    AllPresentKeepsAll(kept, onDisk);
  }

  /** When every file exists, nothing is removed and the count is 0. */
  lemma {:induction false} AllPresentKeepsAll(docs: seq<Document>, onDisk: string -> bool)
    requires forall j :: 0 <= j < |docs| ==> onDisk(docs[j].filePath)
    ensures Kept(docs, onDisk) == docs
    ensures MissingCount(docs, onDisk) == 0
  {
    if docs != [] {
      AllPresentKeepsAll(docs[..|docs| - 1], onDisk);
      assert docs[..|docs| - 1] + [docs[|docs| - 1]] == docs;
    }
  }

  /** Unlike a document delete, the cleanup leaves the removed documents'
      extraction sets behind: a consistent store with one orphaned document is
      inconsistent afterwards. */
  lemma CleanupCanOrphanExtractions()
    ensures var d := Document("a", "a.pdf", "", "a.pdf", "/uploads/a.pdf", "application/pdf", "", [], DocMeta(1, "system", 1));
      var s := Store([d], [ExtractionSet("a", [])]);
      var gone := (path: string) => false;
      && Valid(s)
      && !Valid(Store(Kept(s.documents, gone), s.extractionSets))
  {
    var d := Document("a", "a.pdf", "", "a.pdf", "/uploads/a.pdf", "application/pdf", "", [], DocMeta(1, "system", 1));
    var gone := (path: string) => false;
    var s := Store([d], [ExtractionSet("a", [])]);
    assert DocKey(s.documents[0]) == "a";
    assert [d][..0] == [];
    assert Kept([d], gone) == [];
    var t := Store([], s.extractionSets);
    assert !HasDocument(t, t.extractionSets[0].documentId);
  }
}
