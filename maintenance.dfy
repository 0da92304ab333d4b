/**
 * The maintenance side of the document store (PDF-Summarizer's
 * CosmosDBUtil): the lists of completed and of unfinished records, ordered by
 * file name and page; the grouped list of file names; and the deletion of
 * every record of some files.
 *
 * The two list queries are query pipelines over the store and are modelled as
 * functions of it. The file-name query delivers its rows in pages, given as a
 * parameter. The id queries and deletes of deleteDocuments each end in an
 * `Outcome`, given per position.
 */
module Maintenance {
  import opened Model

  // ---------------------------------------------------------------- ordering

  /** Lexicographic order on strings, character by character. */
  predicate StrLe(a: string, b: string)
    decreases |a|
  {
    a == [] || (b != [] && (a[0] < b[0] || (a[0] == b[0] && StrLe(a[1..], b[1..]))))
  }

  lemma {:induction false} StrLeTotal(a: string, b: string)
    ensures StrLe(a, b) || StrLe(b, a)
    decreases |a|
  {
    if a != [] && b != [] && a[0] == b[0] {
      StrLeTotal(a[1..], b[1..]);
    }
  }

  lemma {:induction false} StrLeAntisymmetric(a: string, b: string)
    requires StrLe(a, b) && StrLe(b, a)
    ensures a == b
    decreases |a|
  {
    if a != [] {
      StrLeAntisymmetric(a[1..], b[1..]);
      assert a == [a[0]] + a[1..] && b == [b[0]] + b[1..];
    }
  }

  lemma {:induction false} StrLeTransitive(a: string, b: string, c: string)
    requires StrLe(a, b) && StrLe(b, c)
    ensures StrLe(a, c)
    decreases |a|
  {
    if a != [] && a[0] == b[0] && b[0] == c[0] {
      StrLeTransitive(a[1..], b[1..], c[1..]);
    }
  }

  /** ORDER BY c.fileName ASC, c.pageNumber ASC. */
  predicate DocLe(x: CosmosDBDocument, y: CosmosDBDocument) {
    if x.fileName == y.fileName then x.pageNumber <= y.pageNumber else StrLe(x.fileName, y.fileName)
  }

  lemma DocLeTotal(x: CosmosDBDocument, y: CosmosDBDocument)
    ensures DocLe(x, y) || DocLe(y, x)
  {
    StrLeTotal(x.fileName, y.fileName);
  }

  lemma DocLeTransitive(x: CosmosDBDocument, y: CosmosDBDocument, z: CosmosDBDocument)
    requires DocLe(x, y) && DocLe(y, z)
    ensures DocLe(x, z)
  {
    if x.fileName != y.fileName && y.fileName != z.fileName {
      StrLeTransitive(x.fileName, y.fileName, z.fileName);
      if x.fileName == z.fileName {
        StrLeAntisymmetric(x.fileName, y.fileName);
      }
    }
  }

  ghost predicate Sorted(r: seq<CosmosDBDocument>) {
    forall i, j :: 0 <= i < j < |r| ==> DocLe(r[i], r[j])
  }

  /** A least record of a non-empty set. */
  lemma {:induction false} MinimumExists(s: set<CosmosDBDocument>)
    requires s != {}
    ensures exists m :: m in s && forall y :: y in s ==> DocLe(m, y)
    decreases |s|
  {
    var x :| x in s;
    if s == {x} {
      assert forall y :: y in s ==> y == x;
      assert DocLe(x, x);
    } else {
      MinimumExists(s - {x});
      var m :| m in s - {x} && forall y :: y in s - {x} ==> DocLe(m, y);
      DocLeTotal(m, x);
      if DocLe(m, x) {
        assert forall y :: y in s ==> DocLe(m, y);
      } else {
        forall y | y in s
          ensures DocLe(x, y)
        {
          if y != x {
            DocLeTransitive(x, m, y);
          }
        }
      }
    }
  }

  /** The records of a set in ascending (fileName, pageNumber) order; ties in any order. */
  ghost function SortedList(s: set<CosmosDBDocument>): (r: seq<CosmosDBDocument>)
    ensures |r| == |s|
    ensures forall d :: d in r <==> d in s
    ensures Sorted(r)
    decreases |s|
  {
    if s == {} then []
    else
      MinimumExists(s);
      var m :| m in s && forall y :: y in s ==> DocLe(m, y);
      var rest := SortedList(s - {m});
      LeastFirst(s, m, rest);
      [m] + rest
  }

  /** A least record of s put before a sorted list of the rest of s gives a sorted list of s. */
  lemma LeastFirst(s: set<CosmosDBDocument>, m: CosmosDBDocument, rest: seq<CosmosDBDocument>)
    requires m in s && forall y :: y in s ==> DocLe(m, y)
    requires Sorted(rest) && forall d :: d in rest <==> d in s - {m}
    ensures Sorted([m] + rest)
    ensures forall d :: d in [m] + rest <==> d in s
  {
    var r := [m] + rest;
    forall i, j | 0 <= i < j < |r|
      ensures DocLe(r[i], r[j])
    {
      if i == 0 {
        assert r[j] == rest[j - 1] && rest[j - 1] in rest;
      } else {
        assert r[i] == rest[i - 1] && r[j] == rest[j - 1];
      }
    }
  }

  /** A sequence without repetitions. */
  ghost predicate Distinct<T>(r: seq<T>) {
    forall i, j :: 0 <= i < j < |r| ==> r[i] != r[j]
  }

  lemma {:induction false} SameSizeDistinct<T>(r: seq<T>, s: set<T>)
    requires |r| == |s| && forall d :: d in r <==> d in s
    ensures Distinct(r)
    decreases |r|
  {
    if r != [] {
      var rest := r[1..];
      SetOfSeqSize(rest);
      var inRest := set d | d in rest;
      assert s == inRest + {r[0]};
      assert |inRest| < |s|;
      assert r[0] !in inRest;
      assert forall d :: d in rest <==> d in s - {r[0]};
      SameSizeDistinct(rest, s - {r[0]});
    }
  }

  lemma {:induction false} SetOfSeqSize<T>(r: seq<T>)
    ensures |set d | d in r| <= |r|
    decreases |r|
  {
    if r != [] {
      SetOfSeqSize(r[1..]);
      assert (set d | d in r) == (set d | d in r[1..]) + {r[0]};
    }
  }

  // ---------------------------------------------------------------- lists

  ghost function CompletedRecords(c: Container): set<CosmosDBDocument> {
    set id | id in c && c[id].status == Completed :: c[id]
  }

  ghost function UnfinishedRecords(c: Container): set<CosmosDBDocument> {
    set id | id in c && c[id].status != Completed :: c[id]
  }

  /** getAllRegisteredDocuments: the COMPLETED records, ordered by file name, then page. */
  ghost function GetAllRegisteredDocuments(c: Container): seq<CosmosDBDocument> {
    SortedList(CompletedRecords(c))
  }

  /** getAllFailedDocuments: the records not COMPLETED, in the same order. */
  ghost function GetAllFailedDocuments(c: Container): seq<CosmosDBDocument> {
    SortedList(UnfinishedRecords(c))
  }

  /**
   * The registered list holds each COMPLETED record of the store exactly
   * once and nothing else, in ascending (fileName, pageNumber) order.
   */
  lemma RegisteredDocumentsSpec(c: Container)
    ensures forall d :: d in GetAllRegisteredDocuments(c) <==> d in c.Values && d.status == Completed
    ensures Sorted(GetAllRegisteredDocuments(c))
    ensures Distinct(GetAllRegisteredDocuments(c))
  {
    SameSizeDistinct(GetAllRegisteredDocuments(c), CompletedRecords(c));
  }

  /**
   * The failed list holds each record that is not COMPLETED exactly once and
   * nothing else, in the same order.
   */
  lemma FailedDocumentsSpec(c: Container)
    ensures forall d :: d in GetAllFailedDocuments(c) <==> d in c.Values && d.status != Completed
    ensures Sorted(GetAllFailedDocuments(c))
    ensures Distinct(GetAllFailedDocuments(c))
  {
    SameSizeDistinct(GetAllFailedDocuments(c), UnfinishedRecords(c));
  }

  /**
   * The two lists partition the store: every record is in exactly one of
   * them, and their lengths add up to the number of records.
   */
  lemma ListsPartitionStore(c: Container)
    requires WellKeyed(c)
    ensures forall d :: d in c.Values <==> d in GetAllRegisteredDocuments(c) || d in GetAllFailedDocuments(c)
    ensures forall d :: !(d in GetAllRegisteredDocuments(c) && d in GetAllFailedDocuments(c))
    ensures |GetAllRegisteredDocuments(c)| + |GetAllFailedDocuments(c)| == |c|
  {
    var done, rest := CompletedRecords(c), UnfinishedRecords(c);
    assert done + rest == c.Values;
    assert done * rest == {};
    assert |done + rest| == |done| + |rest|;
    ValuesSize(c);
  }

  /** A well-keyed store has as many distinct records as ids. */
  lemma {:induction false} ValuesSize(c: Container)
    requires WellKeyed(c)
    ensures |c.Values| == |c|
    decreases |c|
  {
    if c != map[] {
      var id :| id in c;
      var c' := c - {id};
      ValuesSize(c');
      forall d | d in c.Values - {c[id]}
        ensures d in c'.Values
      {
        var x :| x in c && c[x] == d;
        assert x != id && x in c' && c'[x] == d;
      }
      assert c'.Values == c.Values - {c[id]};
      assert c.Keys == c'.Keys + {id};
    }
  }

  // ---------------------------------------------------------------- file names

  /** The file names of the store, which the grouped query lists once each. */
  ghost function FileNames(c: Container): set<string> {
    set id | id in c :: c[id].fileName
  }

  function Flatten(pages: seq<seq<string>>): seq<string> {
    if pages == [] then [] else Flatten(pages[..|pages| - 1]) + pages[|pages| - 1]
  }

  /** The file names some page of a result lists. */
  ghost predicate OnSomePage(pages: seq<seq<string>>, f: string) {
    exists p :: 0 <= p < |pages| && f in pages[p]
  }

  /**
   * The pages of the grouped query, as the store delivers them: no page
   * repeats a name, no name is on two pages, and the names on all pages
   * are the file names of the store.
   */
  ghost predicate GroupedPages(c: Container, pages: seq<seq<string>>) {
    && (forall p :: 0 <= p < |pages| ==> Distinct(pages[p]))
    && (forall p, q, f :: 0 <= p < q < |pages| && f in pages[p] ==> f !in pages[q])
    && (forall f :: f in FileNames(c) <==> OnSomePage(pages, f))
  }

  /**
   * The file names every page of the grouped query delivered, in order: what
   * getDocumentFileNames evidently means to return.
   */
  function AllDocumentFileNames(pages: seq<seq<string>>): (r: Option<seq<string>>)
    ensures r.Some? <==> pages != []
  {
    if pages == [] then None else Some(Flatten(pages))
  }

  /**
   * Over a complete grouped result, the corrected list holds every file name
   * of the store exactly once (and nothing when no page arrived).
   */
  lemma AllDocumentFileNamesSpec(c: Container, pages: seq<seq<string>>)
    requires GroupedPages(c, pages)
    requires pages != []
    ensures AllDocumentFileNames(pages).Some?
    ensures forall f :: f in AllDocumentFileNames(pages).value <==> f in FileNames(c)
    ensures Distinct(AllDocumentFileNames(pages).value)
  {
    FlattenPages(pages);
  }

  /**
   * Joining pages that repeat no name, within a page or across two, lists
   * each name of the pages exactly once.
   */
  lemma {:induction false} FlattenPages(pages: seq<seq<string>>)
    requires forall p :: 0 <= p < |pages| ==> Distinct(pages[p])
    requires forall p, q, f :: 0 <= p < q < |pages| && f in pages[p] ==> f !in pages[q]
    ensures forall f :: f in Flatten(pages) <==> OnSomePage(pages, f)
    ensures Distinct(Flatten(pages))
    decreases |pages|
  {
    if pages != [] {
      var n := |pages|;
      var init, last := pages[..n - 1], pages[n - 1];
      assert pages == init + [last];
      FlattenAppend(init, last);
      FlattenPages(init);
      forall f
        ensures f in Flatten(pages) <==> OnSomePage(pages, f)
      {
        if OnSomePage(pages, f) {
          var p :| 0 <= p < n && f in pages[p];
          if p < n - 1 {
            assert f in init[p];
          }
        }
        if f in Flatten(init) {
          var p :| 0 <= p < |init| && f in init[p];
          assert f in pages[p];
        }
      }
      forall f | f in Flatten(init)
        ensures f !in last
      {
        var p :| 0 <= p < |init| && f in init[p];
        assert f in pages[p];
      }
      DistinctConcat(Flatten(init), last);
    }
  }

  /** Two lists without repetitions and without a common element join into one. */
  lemma DistinctConcat<T>(a: seq<T>, b: seq<T>)
    requires Distinct(a) && Distinct(b)
    requires forall x :: x in a ==> x !in b
    ensures Distinct(a + b)
  {
    forall i, j | 0 <= i < j < |a + b|
      ensures (a + b)[i] != (a + b)[j]
    {
      if i < |a| && |a| <= j {
        assert (a + b)[i] in a && (a + b)[j] == b[j - |a|];
      }
    }
  }

  /** What getDocumentFileNames returns: the rows of the last page, or nothing without a page. */
  function LastPageFileNames(pages: seq<seq<string>>): (r: Option<seq<string>>)
    ensures r.Some? <==> pages != []
  {
    if pages == [] then None else Some(pages[|pages| - 1])
  }

  /**
   * As written, a grouped result that spans more than one page loses names:
   * when an earlier page is not empty, one of its file names is in the store
   * and missing from the returned list.
   */
  lemma FileNamesLostAcrossPages(c: Container, pages: seq<seq<string>>)
    requires GroupedPages(c, pages)
    requires |pages| >= 2 && pages[0] != []
    ensures pages[0][0] in FileNames(c)
    ensures pages[0][0] !in LastPageFileNames(pages).value
  {
    var x := pages[0][0];
    assert x in pages[0];
    assert OnSomePage(pages, x);
  }

  lemma {:induction false} FlattenAppend(pages: seq<seq<string>>, page: seq<string>)
    ensures Flatten(pages + [page]) == Flatten(pages) + page
  {
    assert (pages + [page])[..|pages|] == pages;
  }

  // ---------------------------------------------------------------- deletion

  /** The ids the per-file queries select: records of a listed file whose query succeeded. */
  ghost function Selected(c: Container, fileNames: seq<string>, queryOutcome: nat -> Outcome): set<string> {
    set id | id in c && exists i :: 0 <= i < |fileNames| && queryOutcome(i) == Success && c[id].fileName == fileNames[i]
  }

  /** The ids whose delete (at its position in the id list) succeeded. */
  ghost function Deleted(ids: seq<string>, deleteOutcome: nat -> Outcome): set<string> {
    set j | 0 <= j < |ids| && deleteOutcome(j) == Success :: ids[j]
  }

  /**
   * With every query succeeding, removing the selected ids leaves no record
   * of a listed file and every record of another file as it was.
   */
  lemma SelectedCoversListedFiles(c: Container, fileNames: seq<string>, queryOutcome: nat -> Outcome)
    requires forall i :: 0 <= i < |fileNames| ==> queryOutcome(i) == Success
    ensures forall id :: id in c - Selected(c, fileNames, queryOutcome) ==> c[id].fileName !in fileNames
    ensures forall id :: id in c && c[id].fileName !in fileNames ==>
      id in c - Selected(c, fileNames, queryOutcome) && (c - Selected(c, fileNames, queryOutcome))[id] == c[id]
  {
    forall id | id in c && c[id].fileName in fileNames
      ensures id in Selected(c, fileNames, queryOutcome)
    {
      var i :| 0 <= i < |fileNames| && fileNames[i] == c[id].fileName;
      assert queryOutcome(i) == Success;
    }
  }

  /** The ids a set of records is stored under, in the order the query delivers them. */
  method CollectIds(ids: set<string>) returns (r: seq<string>)
    ensures forall id :: id in r <==> id in ids
  {
    r := [];
    var rest := ids;
    while rest != {}
      invariant rest <= ids
      invariant forall id :: id in r <==> id in ids - rest
      decreases |rest|
    {
      var id :| id in rest;
      r := r + [id];
      rest := rest - {id};
    }
  }

  class CosmosDBUtil {
    /** The records of the document container, keyed by id. */
    var container: Container

    constructor (initial: Container)
      ensures container == initial
    {
      container := initial;
    }

    /**
     * getDocumentFileNames: each page of the grouped query overwrites the
     * result, so the names of the last page are returned, and nothing when
     * no page arrived before the query ended, failed or timed out.
     */
    method GetDocumentFileNames(pages: seq<seq<string>>) returns (result: Option<seq<string>>)
      ensures result == LastPageFileNames(pages)
    {
      result := None;
      for p := 0 to |pages|
        invariant p == 0 ==> result == None
        invariant p > 0 ==> result == Some(pages[p - 1])
      {
        var fileNames := pages[p];
        result := Some(fileNames);
      }
    }

    /**
     * getDocumentFileNames corrected: each page's names are appended to the
     * result, the way deleteDocuments accumulates its ids, instead of
     * replacing it.
     */
    method CollectDocumentFileNames(pages: seq<seq<string>>) returns (result: Option<seq<string>>)
      ensures result == AllDocumentFileNames(pages)
    {
      result := None;
      for p := 0 to |pages|
        invariant result == AllDocumentFileNames(pages[..p])
      {
        assert pages[..p + 1] == pages[..p] + [pages[p]];
        FlattenAppend(pages[..p], pages[p]);
        if p == 0 {
          assert Flatten(pages[..1]) == [] + pages[0] == pages[0];
        }
        var fileNames := pages[p];
        result := Some(if result.None? then fileNames else result.value + fileNames);
      }
      assert pages[..|pages|] == pages;
    }

    /**
     * deleteDocuments: nothing for a missing or empty list; otherwise one id
     * query per file name (a failed one contributes no id), nothing more when
     * no id was collected, and then one delete per collected id, each of
     * which removes its record when it succeeds.
     */
    method DeleteDocuments(fileNames: Option<seq<string>>, queryOutcome: nat -> Outcome, deleteOutcome: nat -> Outcome)
      returns (ghost queried: nat, ghost deleteIds: seq<string>)
      modifies this
      ensures fileNames.None? || fileNames.value == [] ==> queried == 0 && deleteIds == []
      ensures fileNames.Some? && fileNames.value != [] ==> queried == |fileNames.value|
      ensures fileNames.Some? ==>
        forall id :: id in deleteIds <==> id in Selected(old(container), fileNames.value, queryOutcome)
      ensures container == old(container) - Deleted(deleteIds, deleteOutcome)
      ensures deleteIds == [] ==> container == old(container)
      ensures fileNames.Some? && (forall j :: 0 <= j < |deleteIds| ==> deleteOutcome(j) == Success) ==>
        container == old(container) - Selected(old(container), fileNames.value, queryOutcome)
    {
      queried, deleteIds := 0, [];
      if fileNames.None? || |fileNames.value| == 0 {
        return;
      }
      var names := fileNames.value;
      var selectResult: seq<string> := [];
      for i := 0 to |names|
        invariant container == old(container)
        invariant queried == i
        invariant forall id :: id in selectResult <==> id in Selected(container, names[..i], queryOutcome)
      {
        queried := queried + 1;
        if queryOutcome(i) == Success {
          var results := CollectIds(set id | id in container && container[id].fileName == names[i]);
          selectResult := selectResult + results;
        }
        assert names[..i + 1][..i] == names[..i];
      }
      assert names[..|names|] == names;
      deleteIds := selectResult;
      if |selectResult| == 0 {
        return;
      }
      for j := 0 to |selectResult|
        invariant container == old(container) - Deleted(selectResult[..j], deleteOutcome)
      {
        var deleteId := selectResult[j];
        if deleteOutcome(j) == Success {
          container := container - {deleteId};
        }
        assert selectResult[..j + 1][..j] == selectResult[..j];
      }
      assert selectResult[..|selectResult|] == selectResult;
    }
  }
}
