/** Ordering extractions by page: `array.sort((a, b) => a.pageNumber - b.pageNumber)`.

    The comparator is a numeric difference and the engine's sort is stable, so the
    result is the unique arrangement that is non-decreasing by page and keeps the
    input order among extractions of the same page. `SortByPage` is a stable
    insertion sort; `SortByPageSorted`, `SortByPagePermutes` and `SortByPageStable`
    together pin it down. */
module PageOrder {
  import opened Models

  predicate SortedByPage(xs: seq<Extraction>) {
    forall i, j :: 0 <= i < j < |xs| ==> xs[i].pageNumber <= xs[j].pageNumber
  }

  /** The extractions of page `p`, in their order within `xs`. */
  function OnPage(xs: seq<Extraction>, p: int): (r: seq<Extraction>)
    ensures |r| <= |xs|
  {
    if |xs| == 0 then []
    else (if xs[0].pageNumber == p then [xs[0]] else []) + OnPage(xs[1..], p)
  }

  /** Inserts `x` before the first element whose page is not smaller than its own. */
  function Insert(x: Extraction, ys: seq<Extraction>): (r: seq<Extraction>)
    ensures multiset(r) == multiset(ys) + multiset{x}
  {
    if |ys| == 0 || x.pageNumber <= ys[0].pageNumber then [x] + ys
    else
      assert ys == [ys[0]] + ys[1..];
      [ys[0]] + Insert(x, ys[1..])
  }

  lemma {:induction false} InsertSorted(x: Extraction, ys: seq<Extraction>)
    requires SortedByPage(ys)
    ensures SortedByPage(Insert(x, ys))
  {
    if |ys| > 0 && x.pageNumber > ys[0].pageNumber {
      var rest := Insert(x, ys[1..]);
      InsertSorted(x, ys[1..]);
      forall k | 0 <= k < |rest|
        ensures ys[0].pageNumber <= rest[k].pageNumber
      {
        assert rest[k] in multiset(rest);
        if rest[k] != x {
          assert rest[k] in multiset(ys[1..]);
          var m :| 0 <= m < |ys[1..]| && ys[1..][m] == rest[k];
          assert ys[m + 1] == rest[k];
        }
      }
      assert Insert(x, ys) == [ys[0]] + rest;
    }
  }

  function SortByPage(xs: seq<Extraction>): (r: seq<Extraction>)
  {
    if |xs| == 0 then [] else Insert(xs[0], SortByPage(xs[1..]))
  }

  lemma {:induction false} SortByPageSorted(xs: seq<Extraction>)
    ensures SortedByPage(SortByPage(xs))
  {
    if |xs| > 0 {
      SortByPageSorted(xs[1..]);
      InsertSorted(xs[0], SortByPage(xs[1..]));
    }
  }

  lemma {:induction false} SortByPagePermutes(xs: seq<Extraction>)
    ensures multiset(SortByPage(xs)) == multiset(xs)
  {
    if |xs| > 0 {
      calc {
        multiset(SortByPage(xs));
        multiset(Insert(xs[0], SortByPage(xs[1..])));
        multiset(SortByPage(xs[1..])) + multiset{xs[0]};
        { SortByPagePermutes(xs[1..]); }
        multiset(xs[1..]) + multiset{xs[0]};
        { MultisetCons(xs); }
        multiset(xs);
      }
    }
  }

  lemma MultisetCons(xs: seq<Extraction>)
    requires |xs| > 0
    ensures multiset(xs) == multiset(xs[1..]) + multiset{xs[0]}
  {
    assert xs == [xs[0]] + xs[1..];
  }

  lemma {:induction false} OnPageAppend(xs: seq<Extraction>, ys: seq<Extraction>, p: int)
    ensures OnPage(xs + ys, p) == OnPage(xs, p) + OnPage(ys, p)
  {
    if |xs| == 0 {
      assert xs + ys == ys;
    } else {
      var head := if xs[0].pageNumber == p then [xs[0]] else [];
      calc {
        OnPage(xs + ys, p);
        { assert (xs + ys)[0] == xs[0]; }
        head + OnPage((xs + ys)[1..], p);
        { assert (xs + ys)[1..] == xs[1..] + ys; }
        head + OnPage(xs[1..] + ys, p);
        { OnPageAppend(xs[1..], ys, p); }
        head + (OnPage(xs[1..], p) + OnPage(ys, p));
        OnPage(xs, p) + OnPage(ys, p);
      }
    }
  }

  /** The page filter of a sequence with a head: the head if it is on the page, then the rest. */
  lemma OnPageCons(x: Extraction, ys: seq<Extraction>, p: int)
    ensures OnPage([x] + ys, p) == (if x.pageNumber == p then [x] else []) + OnPage(ys, p)
  {
    assert ([x] + ys)[1..] == ys;
  }

  lemma {:induction false} InsertOnPage(x: Extraction, ys: seq<Extraction>, p: int)
    ensures OnPage(Insert(x, ys), p)
         == (if x.pageNumber == p then [x] else []) + OnPage(ys, p)
  {
    if |ys| == 0 || x.pageNumber <= ys[0].pageNumber {
      OnPageCons(x, ys, p);
    } else {
      var head := if ys[0].pageNumber == p then [ys[0]] else [];
      var mine := if x.pageNumber == p then [x] else [];
      var rest := Insert(x, ys[1..]);
      calc {
        OnPage(Insert(x, ys), p);
        OnPage([ys[0]] + rest, p);
        { OnPageCons(ys[0], rest, p); }
        head + OnPage(rest, p);
        { InsertOnPage(x, ys[1..], p); }
        head + (mine + OnPage(ys[1..], p));
        mine + (head + OnPage(ys[1..], p));
        { OnPageCons(ys[0], ys[1..], p); assert ys == [ys[0]] + ys[1..]; }
        mine + OnPage(ys, p);
      }
    }
  }

  /** Stability: on every page, the sorted result lists the extractions in input order. */
  lemma {:induction false} SortByPageStable(xs: seq<Extraction>, p: int)
    ensures OnPage(SortByPage(xs), p) == OnPage(xs, p)
  {
    if |xs| > 0 {
      SortByPageStable(xs[1..], p);
      InsertOnPage(xs[0], SortByPage(xs[1..]), p);
    }
  }

  /** Sorting an already sorted sequence changes nothing, so sorting twice gives the
      same order as sorting once. */
  lemma {:induction false} SortByPageFixesSorted(xs: seq<Extraction>)
    requires SortedByPage(xs)
    ensures SortByPage(xs) == xs
  {
    if |xs| > 0 {
      SortByPageFixesSorted(xs[1..]);
    }
  }

  lemma SortByPageIdempotent(xs: seq<Extraction>)
    ensures SortByPage(SortByPage(xs)) == SortByPage(xs)
  {
    SortByPageSorted(xs);
    SortByPageFixesSorted(SortByPage(xs));
  }
}
