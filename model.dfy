/**
 * Types shared by the ingestion pipeline and the maintenance queries: the
 * per-chunk status record kept in the document store, its status values, the
 * outcome of one bridged store call, and the store itself as an id-keyed map.
 *
 * The store is only ever changed through the calls recorded in a `StoreCall`
 * log; `Replay` gives the store that a log of calls leaves behind, so the
 * effect of a whole pipeline run on the store is a function of its log.
 */
module Model {

  datatype Option<+T> = None | Some(value: T)

  /** Progress of one chunk through the pipeline (the Java enum CosmosDBDocumentStatus). */
  datatype Status =
    | PageSeparateFinished   // PAGE_SEPARATE_FINISHED
    | RetryOaiInvocation     // RETRY_OAI_INVOCATION
    | FinishOaiInvocation    // FINISH_OAI_INVOCATION
    | FinishDbInsertion      // FINISH_DB_INSERTION
    | FailedDbInsertion      // FAILED_DB_INSERTION
    | Completed              // COMPLETED

  /** One status record: the record CosmosDBDocument(id, fileName, status, pageNumber). */
  datatype CosmosDBDocument = CosmosDBDocument(id: string, fileName: string, status: Status, pageNumber: int)

  /** What one store call bridged to a blocking wait ends with. */
  datatype Outcome = Success | Error | Timeout

  /** The document container: records keyed by their id. */
  type Container = map<string, CosmosDBDocument>

  /** Every record is stored under its own id. */
  ghost predicate WellKeyed(c: Container) {
    forall id :: id in c ==> c[id].id == id
  }

  /** Some record of the container belongs to file `fileName`. */
  ghost predicate Registered(c: Container, fileName: string) {
    exists id :: id in c && c[id].fileName == fileName
  }

  /** A write issued to the status store, with the outcomes its bridged steps had. */
  datatype StoreCall =
    | Create(doc: CosmosDBDocument, outcome: Outcome)
    | Update(id: string, status: Status, read: Outcome, replace: Outcome)

  /** The status a write asks for, and the id it addresses. */
  datatype StatusWrite = StatusWrite(id: string, status: Status)

  function Requested(call: StoreCall): StatusWrite {
    match call
    case Create(doc, _) => StatusWrite(doc.id, doc.status)
    case Update(id, status, _, _) => StatusWrite(id, status)
  }

  /** The writes requested by a log of calls, whatever their outcomes. */
  function Requests(calls: seq<StoreCall>): (r: seq<StatusWrite>)
    ensures |r| == |calls|
    ensures forall i :: 0 <= i < |calls| ==> r[i] == Requested(calls[i])
  {
    seq(|calls|, i requires 0 <= i < |calls| => Requested(calls[i]))
  }

  /**
   * The store after one call. A create lands only when it succeeds and the id
   * is free (the store refuses a second item with the same id); an update
   * lands only when both its read and its replace succeed on an existing id.
   */
  function Apply(c: Container, call: StoreCall): Container {
    match call
    case Create(doc, outcome) =>
      if outcome == Success && doc.id !in c then c[doc.id := doc] else c
    case Update(id, status, read, replace) =>
      if read == Success && id in c && replace == Success then c[id := c[id].(status := status)] else c
  }

  function Replay(c: Container, calls: seq<StoreCall>): Container
    decreases |calls|
  {
    if calls == [] then c else Apply(Replay(c, calls[..|calls| - 1]), calls[|calls| - 1])
  }

  /** Every call of the log ended in success. */
  ghost predicate AllSucceeded(calls: seq<StoreCall>) {
    forall i :: 0 <= i < |calls| ==>
      match calls[i]
      case Create(_, outcome) => outcome == Success
      case Update(_, _, read, replace) => read == Success && replace == Success
  }

  lemma {:induction false} RequestsAppend(a: seq<StoreCall>, b: seq<StoreCall>)
    ensures Requests(a + b) == Requests(a) + Requests(b)
  {
  }

  lemma {:induction false} ReplayAppend(c: Container, a: seq<StoreCall>, b: seq<StoreCall>)
    ensures Replay(c, a + b) == Replay(Replay(c, a), b)
    decreases |b|
  {
    if b == [] {
      assert a + b == a;
    } else {
      var b' := b[..|b| - 1];
      assert (a + b)[..|a + b| - 1] == a + b';
      ReplayAppend(c, a, b');
    }
  }

  lemma AppendAssoc<T>(a: seq<T>, b: seq<T>, c: seq<T>)
    ensures a + b + c == a + (b + c)
    ensures a + [] == a
  {
  }

  lemma ReplaySnoc(c: Container, calls: seq<StoreCall>, call: StoreCall)
    ensures Replay(c, calls + [call]) == Apply(Replay(c, calls), call)
  {
    assert (calls + [call])[..|calls|] == calls;
  }

  /**
   * A log whose writes all address one id leaves every other record, and the
   * absence of every other record, as it was.
   */
  lemma {:induction false} ReplayOnlyTouches(c: Container, calls: seq<StoreCall>, id: string)
    requires forall i :: 0 <= i < |calls| ==> Requested(calls[i]).id == id
    ensures forall other :: other != id ==>
      (other in Replay(c, calls) <==> other in c) && (other in c ==> Replay(c, calls)[other] == c[other])
    decreases |calls|
  {
    if calls != [] {
      ReplayOnlyTouches(c, calls[..|calls| - 1], id);
    }
  }

  /**
   * Calls never remove a record and never change the id, file name or page of
   * one: only the status of an existing record changes, and a record appears
   * only through a successful create of exactly that record.
   */
  lemma {:induction false} ReplayOnlyAddsAndRestatuses(c: Container, calls: seq<StoreCall>)
    ensures c.Keys <= Replay(c, calls).Keys
    ensures forall id :: id in c ==> Replay(c, calls)[id] == c[id].(status := Replay(c, calls)[id].status)
    ensures forall id :: id in Replay(c, calls) && id !in c ==>
      exists i :: 0 <= i < |calls| && calls[i].Create? && calls[i].doc.id == id &&
        Replay(c, calls)[id] == calls[i].doc.(status := Replay(c, calls)[id].status)
    decreases |calls|
  {
    if calls != [] {
      var init := calls[..|calls| - 1];
      ReplayOnlyAddsAndRestatuses(c, init);
      var mid := Replay(c, init);
      var c' := Replay(c, calls);
      assert c' == Apply(mid, calls[|calls| - 1]);
      forall id | id in c' && id !in c
        ensures exists i :: (0 <= i < |calls| && calls[i].Create? && calls[i].doc.id == id &&
                             c'[id] == calls[i].doc.(status := c'[id].status))
      {
        if id in mid {
          var i :| 0 <= i < |init| && init[i].Create? && init[i].doc.id == id &&
              mid[id] == init[i].doc.(status := mid[id].status);
          assert calls[i] == init[i];
        } else {
          assert calls[|calls| - 1].Create? && calls[|calls| - 1].doc.id == id;
        }
      }
    }
  }

  /** Replaying a log keeps every record under its own id. */
  lemma {:induction false} ReplayWellKeyed(c: Container, calls: seq<StoreCall>)
    requires WellKeyed(c)
    ensures WellKeyed(Replay(c, calls))
    decreases |calls|
  {
    if calls != [] {
      ReplayWellKeyed(c, calls[..|calls| - 1]);
    }
  }

  /**
   * Once some record of a file is in the store, it stays: the status writes of
   * the pipeline never make a file unregistered again.
   */
  lemma {:induction false} ReplayKeepsRegistration(c: Container, calls: seq<StoreCall>, fileName: string)
    requires Registered(c, fileName)
    ensures Registered(Replay(c, calls), fileName)
  {
    ReplayOnlyAddsAndRestatuses(c, calls);
    var id :| id in c && c[id].fileName == fileName;
    var c' := Replay(c, calls);
    assert id in c' && c'[id].fileName == fileName;
  }

  /**
   * A record created by a successful create on a free id, then only addressed
   * by fully successful updates, ends with the status of the last write of
   * the log and the id, file name and page it was created with.
   */
  lemma {:induction false} ReplayLifecycle(c: Container, doc: CosmosDBDocument, calls: seq<StoreCall>)
    requires doc.id !in c
    requires |calls| > 0 && calls[0] == Create(doc, Success)
    requires AllSucceeded(calls)
    requires forall i :: 1 <= i < |calls| ==> calls[i].Update? && calls[i].id == doc.id
    ensures doc.id in Replay(c, calls)
    ensures Replay(c, calls)[doc.id] == doc.(status := Requested(calls[|calls| - 1]).status)
    ensures forall id :: id != doc.id ==>
      (id in Replay(c, calls) <==> id in c) && (id in c ==> Replay(c, calls)[id] == c[id])
    decreases |calls|
  {
    if |calls| > 1 {
      var init := calls[..|calls| - 1];
      ReplayLifecycle(c, doc, init);
    }
  }
}
