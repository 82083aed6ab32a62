/** The placeholder extraction generator. It draws a count in 8..12 and one of ten
    fixed legal phrases per item, gives item `i` page `(i mod 5) + 1`, and sorts
    the items by page. The random draws and the generated item ids are passed in
    as `MockRolls`. */
module MockData {
  import opened Models
  import opened PageOrder

  const LegalPhrases: seq<string> := [
    "The parties hereby agree to the following terms and conditions:",
    "In accordance with Section 2.1 of the Agreement,",
    "Subject to applicable laws and regulations,",
    "The undersigned parties mutually agree that,",
    "Notwithstanding anything to the contrary herein,",
    "This Agreement shall be governed by and construed in accordance with,",
    "For the avoidance of doubt,",
    "Without limiting the generality of the foregoing,",
    "The parties acknowledge and agree that,",
    "In witness whereof, the parties have executed this Agreement as of"
  ]

  /** The random choices of one call: `extra` is `floor(random * 5)`, so the count is
      `8 + extra`; `phrases[i]` is `floor(random * 10)` for item `i`; `ids[i]` is its uuid. */
  datatype MockRolls = MockRolls(extra: nat, ids: seq<string>, phrases: seq<nat>)

  /** The ranges the random draws can take. */
  predicate ValidRolls(r: MockRolls) {
    && r.extra < 5
    && |r.ids| == 8 + r.extra
    && |r.phrases| == |r.ids|
    && forall i :: 0 <= i < |r.phrases| ==> r.phrases[i] < |LegalPhrases|
  }

  datatype MockExtractions = MockExtractions(documentId: string, extractions: seq<Extraction>)

  /** The items before sorting, item `i` on page `(i mod 5) + 1`. */
  function Generated(r: MockRolls): (xs: seq<Extraction>)
    requires ValidRolls(r)
    ensures |xs| == |r.ids|
    ensures forall i :: 0 <= i < |xs| ==>
      xs[i] == Extraction(r.ids[i], LegalPhrases[r.phrases[i]], i % 5 + 1)
  {
    seq(|r.ids|, i requires 0 <= i < |r.ids| => Extraction(r.ids[i], LegalPhrases[r.phrases[i]], i % 5 + 1))
  }

  function GenerateMockExtractions(documentId: string, rolls: MockRolls): (r: MockExtractions)
    requires ValidRolls(rolls)
    ensures r.documentId == documentId
    ensures 8 <= |r.extractions| <= 12
    ensures SortedByPage(r.extractions)
    ensures multiset(r.extractions) == multiset(Generated(rolls))
    ensures forall p :: OnPage(r.extractions, p) == OnPage(Generated(rolls), p)
    ensures forall e :: e in r.extractions ==> 1 <= e.pageNumber <= 5 && e.text in LegalPhrases
  {
    var xs := Generated(rolls);
    var sorted := SortByPage(xs);
    SortByPageSorted(xs);
    SortByPagePermutes(xs);
    assert |sorted| == |multiset(sorted)| == |multiset(xs)| == |xs|;
    assert forall p :: OnPage(sorted, p) == OnPage(xs, p) by {
      forall p {
        SortByPageStable(xs, p);
      }
    }
    forall e | e in sorted
      ensures 1 <= e.pageNumber <= 5 && e.text in LegalPhrases
    {
      assert e in multiset(sorted);
      var i :| 0 <= i < |xs| && xs[i] == e;
    }
    MockExtractions(documentId, sorted)
  }

  /** Every page from 1 to 5 carries at least one generated extraction. */
  lemma EveryPageCovered(documentId: string, rolls: MockRolls, p: int)
    requires ValidRolls(rolls)
    requires 1 <= p <= 5
    ensures exists e :: e in GenerateMockExtractions(documentId, rolls).extractions && e.pageNumber == p
  {
    var e := Generated(rolls)[p - 1];
    assert (p - 1) % 5 == p - 1;
    assert e.pageNumber == p;
    SortedKeepsItems(documentId, rolls, e);
  }

  /** Sorting loses no generated item. */
  lemma SortedKeepsItems(documentId: string, rolls: MockRolls, e: Extraction)
    requires ValidRolls(rolls)
    requires e in Generated(rolls)
    ensures e in GenerateMockExtractions(documentId, rolls).extractions
  {
    var out := GenerateMockExtractions(documentId, rolls).extractions;
    assert e in multiset(Generated(rolls));
    assert e in multiset(out);
  }
}
