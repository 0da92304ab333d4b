/**
 * The status tracker of the ingestion function (BlobUploadDetector's
 * CosmosDBUtil): a dedup lookup by file name, a create, and a two-phase
 * read-then-replace status update, over the document container.
 *
 * Each bridged store call ends in an `Outcome`, passed in by the caller: on
 * an error or a timeout the bounded wait returns the empty default, so the
 * call reports nothing and changes nothing. Every write is appended, with its
 * outcomes, to the ghost `log`, and its effect on the container is `Apply`.
 */
module StatusTracker {
  import opened Model

  class CosmosDBUtil {
    /** The records of the document container, keyed by id. */
    var container: Container
    /** Every create and status update issued so far, with their outcomes. */
    ghost var log: seq<StoreCall>

    ghost predicate Valid()
      reads this
    {
      WellKeyed(container)
    }

    constructor (initial: Container)
      requires WellKeyed(initial)
      ensures Valid()
      ensures container == initial && log == []
    {
      container := initial;
      log := [];
    }

    /**
     * isRegisteredDocument: the grouped query for `fileName` yields a row
     * exactly when some record has that file name; the result starts out
     * false and stays false when the query fails or times out. The store is
     * only read.
     */
    method IsRegisteredDocument(fileName: string, outcome: Outcome) returns (registered: bool)
      requires Valid()
      ensures registered <==> outcome == Success && Registered(container, fileName)
    {
      registered := false;
      if outcome == Success {
        var results := set id | id in container && container[id].fileName == fileName;
        if results != {} {
          var id :| id in results;
          registered := true;
        } else {
          assert forall id :: id in container ==> id in results || container[id].fileName != fileName;
        }
      }
    }

    /**
     * createDocument: store a new record and return it; on an error or a
     * timeout (including the conflict the store reports for an id already
     * present) nothing is stored and the result is empty.
     */
    method CreateDocument(id: string, fileName: string, status: Status, pageNumber: int, outcome: Outcome)
      returns (created: Option<CosmosDBDocument>)
      requires Valid()
      modifies this
      ensures Valid()
      ensures log == old(log) + [Create(CosmosDBDocument(id, fileName, status, pageNumber), outcome)]
      ensures created.Some? <==> outcome == Success && id !in old(container)
      ensures created.Some? ==>
        created.value == CosmosDBDocument(id, fileName, status, pageNumber) &&
        container == old(container)[id := created.value]
      ensures created.None? ==> container == old(container)
      ensures container == Apply(old(container), Create(CosmosDBDocument(id, fileName, status, pageNumber), outcome))
    {
      var document := CosmosDBDocument(id, fileName, status, pageNumber);
      created := None;
      if outcome == Success && id !in container {
        container := container[id := document];
        created := Some(document);
      }
      log := log + [Create(document, outcome)];
    }

    /**
     * updateStatus: read the record by id, then replace it with the same id,
     * file name and page number and the new status. A failed read (unknown
     * id, error, timeout) returns false without writing; the result is true
     * only when the replace succeeded. No record is ever created here.
     */
    method UpdateStatus(id: string, status: Status, read: Outcome, replace: Outcome) returns (updated: bool)
      requires Valid()
      modifies this
      ensures Valid()
      ensures log == old(log) + [Update(id, status, read, replace)]
      ensures updated <==> read == Success && id in old(container) && replace == Success
      ensures updated ==> container == old(container)[id := old(container)[id].(status := status)]
      ensures !updated ==> container == old(container)
      ensures container == Apply(old(container), Update(id, status, read, replace))
    {
      log := log + [Update(id, status, read, replace)];
      var selectResult: Option<CosmosDBDocument> := None;
      if read == Success && id in container {
        var item := container[id];
        selectResult := Some(CosmosDBDocument(item.id, item.fileName, status, item.pageNumber));
      }
      if selectResult.None? {
        return false;
      }
      var updateDocument := selectResult.value;
      updated := false;
      if replace == Success {
        container := container[updateDocument.id := updateDocument];
        updated := true;
      }
    }
  }

  /**
   * A status update never creates or removes a record; when it lands, the
   * record keeps its id, file name and page number and takes the new status,
   * and every other record is unchanged.
   */
  lemma UpdateKeepsRecord(c: Container, id: string, status: Status, read: Outcome, replace: Outcome)
    requires WellKeyed(c)
    ensures Apply(c, Update(id, status, read, replace)).Keys == c.Keys
    ensures forall other :: other in c && other != id ==> Apply(c, Update(id, status, read, replace))[other] == c[other]
    ensures id in c && read == Success && replace == Success ==>
      Apply(c, Update(id, status, read, replace))[id] == CosmosDBDocument(id, c[id].fileName, status, c[id].pageNumber)
    ensures !(id in c && read == Success && replace == Success) ==> Apply(c, Update(id, status, read, replace)) == c
  {
  }

  /** Writing the same status twice leaves the same store as writing it once. */
  lemma UpdateIdempotent(c: Container, id: string, status: Status)
    ensures Apply(Apply(c, Update(id, status, Success, Success)), Update(id, status, Success, Success)) ==
            Apply(c, Update(id, status, Success, Success))
  {
  }

  /**
   * A create that lands adds exactly the given record under its id and
   * touches nothing else; one that does not land leaves the store as it was.
   */
  lemma CreateAddsRecord(c: Container, doc: CosmosDBDocument, outcome: Outcome)
    ensures outcome == Success && doc.id !in c ==> Apply(c, Create(doc, outcome)) == c[doc.id := doc]
    ensures !(outcome == Success && doc.id !in c) ==> Apply(c, Create(doc, outcome)) == c
    ensures Registered(c, doc.fileName) || (outcome == Success && doc.id !in c) <==>
      Registered(Apply(c, Create(doc, outcome)), doc.fileName)
  {
    if outcome == Success && doc.id !in c {
      assert Apply(c, Create(doc, outcome))[doc.id].fileName == doc.fileName;
    }
  }
}
