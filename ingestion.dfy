/**
 * The blob-triggered ingestion function (BlobUploadDetector's Function):
 * dispatch on the file extension, skip files already registered, split the
 * PDF's pages into chunks, and for every chunk write its status record,
 * obtain an embedding with bounded retries, insert a vector row and walk the
 * record through its status sequence.
 *
 * The environment is a parameter: the embedding service answers attempt k of
 * a chunk with `service(k)`, the insert-and-commit of a chunk succeeds or not,
 * and the wait of a chunk's final status write may be interrupted. The
 * outcomes of the status writes, which the function ignores, are left open
 * (`*`) and recorded in the tracker's log.
 */
module Ingestion {
  import opened Model
  import opened TextChunker
  import opened StatusTracker

  /** MAX_OPENAI_INVOCATION_RETRY_COUNT: attempts at the embedding service per chunk. */
  const MaxOpenAIInvocationRetryCount: nat := 3

  type Embedding = seq<real>

  /** The answer of the embedding service to one call: an exception, or its list of embedding items. */
  datatype EmbeddingResponse = ServiceFailure | Embeddings(data: seq<Embedding>)

  /** What the environment does while one chunk is processed. */
  datatype ChunkOracle = ChunkOracle(
    id: string,                         // the random UUID drawn for the chunk
    service: nat -> EmbeddingResponse,  // the service's answer to attempt k
    inserted: bool,                     // the insert and the commit both succeed
    interrupted: bool)                  // the wait of the COMPLETED write is interrupted

  /** One row of the vector table. */
  datatype VectorRow = VectorRow(id: string, embedding: Embedding, originText: string, fileName: string, pageNumber: int)

  /**
   * The number of failed attempts from attempt k on: the index of the first
   * answer among attempts k..2 that is not a failure, or 3 when all fail.
   */
  function FailedAttemptsFrom(service: nat -> EmbeddingResponse, k: nat): (r: nat)
    requires k <= MaxOpenAIInvocationRetryCount
    ensures k <= r <= MaxOpenAIInvocationRetryCount
    ensures forall j :: k <= j < r ==> service(j).ServiceFailure?
    ensures r < MaxOpenAIInvocationRetryCount ==> service(r).Embeddings?
    decreases MaxOpenAIInvocationRetryCount - k
  {
    if k == MaxOpenAIInvocationRetryCount || service(k).Embeddings? then k else FailedAttemptsFrom(service, k + 1)
  }

  /** Failed attempts for a chunk; each one is followed by a RETRY_OAI_INVOCATION write. */
  function RetryCount(service: nat -> EmbeddingResponse): nat {
    FailedAttemptsFrom(service, 0)
  }

  /**
   * The embedding invokeTextEmbedding returns: the first item of the first
   * answer that is not a failure, or empty when every attempt failed or the
   * answer held no item.
   */
  function EmbeddingOf(service: nat -> EmbeddingResponse): Embedding {
    var k := RetryCount(service);
    if k < MaxOpenAIInvocationRetryCount && |service(k).data| > 0 then service(k).data[0] else []
  }

  /**
   * At most three attempts are made, every one before the answer failed, and
   * the embedding is empty exactly when all three failed or the answer had no
   * (or an empty) first item.
   */
  lemma EmbeddingSpec(service: nat -> EmbeddingResponse)
    ensures RetryCount(service) <= MaxOpenAIInvocationRetryCount
    ensures forall j :: 0 <= j < RetryCount(service) ==> service(j).ServiceFailure?
    ensures RetryCount(service) == MaxOpenAIInvocationRetryCount <==>
      service(0).ServiceFailure? && service(1).ServiceFailure? && service(2).ServiceFailure?
    ensures RetryCount(service) < MaxOpenAIInvocationRetryCount ==> service(RetryCount(service)).Embeddings?
    ensures EmbeddingOf(service) == [] <==>
      RetryCount(service) == MaxOpenAIInvocationRetryCount ||
      |service(RetryCount(service)).data| == 0 || service(RetryCount(service)).data[0] == []
  {
  }

  function Repeat(w: StatusWrite, n: nat): (r: seq<StatusWrite>)
    ensures |r| == n && forall i :: 0 <= i < n ==> r[i] == w
  {
    seq(n, _ => w)
  }

  /**
   * The status writes issued for one chunk, in order: the record is created
   * as PAGE_SEPARATE_FINISHED, then one RETRY_OAI_INVOCATION per failed
   * attempt, FINISH_OAI_INVOCATION, FINISH_DB_INSERTION or
   * FAILED_DB_INSERTION, and COMPLETED.
   */
  function ChunkWrites(id: string, service: nat -> EmbeddingResponse, inserted: bool): seq<StatusWrite> {
    [StatusWrite(id, PageSeparateFinished)]
    + Repeat(StatusWrite(id, RetryOaiInvocation), RetryCount(service))
    + [StatusWrite(id, FinishOaiInvocation),
       StatusWrite(id, if inserted then FinishDbInsertion else FailedDbInsertion),
       StatusWrite(id, Completed)]
  }

  /** The transitions of the status lifecycle. */
  ghost predicate IsStep(from: Status, to: Status) {
    match from
    case PageSeparateFinished => to == RetryOaiInvocation || to == FinishOaiInvocation
    case RetryOaiInvocation => to == RetryOaiInvocation || to == FinishOaiInvocation
    case FinishOaiInvocation => to == FinishDbInsertion || to == FailedDbInsertion
    case FinishDbInsertion => to == Completed
    case FailedDbInsertion => to == Completed
    case Completed => false
  }

  /** A sequence of writes that walks the lifecycle from its start to COMPLETED. */
  ghost predicate FollowsLifecycle(ws: seq<StatusWrite>) {
    && |ws| >= 2
    && ws[0].status == PageSeparateFinished
    && ws[|ws| - 1].status == Completed
    && forall i :: 0 <= i < |ws| - 1 ==> IsStep(ws[i].status, ws[i + 1].status)
  }

  /**
   * The writes of a chunk all address its record, follow the lifecycle from
   * PAGE_SEPARATE_FINISHED to COMPLETED, contain one RETRY_OAI_INVOCATION per
   * failed attempt (at most three, right after the creation), and contain
   * FAILED_DB_INSERTION exactly when the insert failed.
   */
  lemma ChunkWritesLifecycle(id: string, service: nat -> EmbeddingResponse, inserted: bool)
    ensures FollowsLifecycle(ChunkWrites(id, service, inserted))
    ensures |ChunkWrites(id, service, inserted)| == RetryCount(service) + 4 <= MaxOpenAIInvocationRetryCount + 4
    ensures forall i :: 0 <= i < |ChunkWrites(id, service, inserted)| ==> ChunkWrites(id, service, inserted)[i].id == id
    ensures forall i :: 0 <= i < |ChunkWrites(id, service, inserted)| ==>
      (ChunkWrites(id, service, inserted)[i].status == RetryOaiInvocation <==> 1 <= i <= RetryCount(service))
    ensures (exists i :: 0 <= i < |ChunkWrites(id, service, inserted)| &&
               ChunkWrites(id, service, inserted)[i].status == FailedDbInsertion) <==> !inserted
  {
    var ws := ChunkWrites(id, service, inserted);
    var n := RetryCount(service);
    forall i | 0 <= i < |ws| - 1
      ensures IsStep(ws[i].status, ws[i + 1].status)
    {
      if i == 0 {
        assert ws[1].status == (if n == 0 then FinishOaiInvocation else RetryOaiInvocation);
      } else if i <= n {
        assert ws[i].status == RetryOaiInvocation;
      }
    }
    if !inserted {
      assert ws[n + 2].status == FailedDbInsertion;
    }
  }

  /**
   * The store calls of one chunk: they request exactly the chunk's writes,
   * the first creates its record with the file name and page number, and the
   * rest are status updates.
   */
  ghost predicate ChunkCalls(calls: seq<StoreCall>, oracle: ChunkOracle, fileName: string, pageNumber: int) {
    && Requests(calls) == ChunkWrites(oracle.id, oracle.service, oracle.inserted)
    && calls[0].Create?
    && calls[0].doc == CosmosDBDocument(oracle.id, fileName, PageSeparateFinished, pageNumber)
    && forall i :: 1 <= i < |calls| ==> calls[i].Update?
  }

  /** The row a chunk adds to the vector table: one when the insert and commit succeed. */
  function ChunkRows(originText: string, fileName: string, pageNumber: int, oracle: ChunkOracle): seq<VectorRow> {
    if oracle.inserted then [VectorRow(oracle.id, EmbeddingOf(oracle.service), originText, fileName, pageNumber)] else []
  }

  /**
   * When every store call of a chunk succeeds on a fresh id, its record ends
   * COMPLETED with the chunk's file name and page, whether the insert failed
   * or not, and no other record is touched.
   */
  lemma ChunkEndsCompleted(c: Container, calls: seq<StoreCall>, oracle: ChunkOracle, fileName: string, pageNumber: int)
    requires ChunkCalls(calls, oracle, fileName, pageNumber)
    requires AllSucceeded(calls)
    requires oracle.id !in c
    ensures oracle.id in Replay(c, calls)
    ensures Replay(c, calls)[oracle.id] == CosmosDBDocument(oracle.id, fileName, Completed, pageNumber)
    ensures forall id :: id != oracle.id ==>
      (id in Replay(c, calls) <==> id in c) && (id in c ==> Replay(c, calls)[id] == c[id])
  {
    var doc := CosmosDBDocument(oracle.id, fileName, PageSeparateFinished, pageNumber);
    ChunkWritesLifecycle(oracle.id, oracle.service, oracle.inserted);
    assert calls[0] == Create(doc, Success);
    forall i | 1 <= i < |calls|
      ensures calls[i].Update? && calls[i].id == doc.id
    {
      assert Requested(calls[i]).id == oracle.id;
    }
    ReplayLifecycle(c, doc, calls);
    assert Requested(calls[|calls| - 1]).status == Completed;
  }

  /** The number of chunks processed out of n from chunk i on: an interrupted chunk is the last one. */
  function ProcessedCount(oracles: nat -> ChunkOracle, n: nat, i: nat): (r: nat)
    requires i <= n
    ensures i <= r <= n
    decreases n - i
  {
    if i == n then n else if oracles(i).interrupted then i + 1 else ProcessedCount(oracles, n, i + 1)
  }

  /**
   * From chunk i on, the chunks up to and including the first interrupted one
   * are processed; all n when none is interrupted.
   */
  lemma {:induction false} ProcessedCountSpec(oracles: nat -> ChunkOracle, n: nat, i: nat)
    requires i <= n
    ensures forall j :: i <= j < ProcessedCount(oracles, n, i) - 1 ==> !oracles(j).interrupted
    ensures i < ProcessedCount(oracles, n, i) ==> ProcessedCount(oracles, n, i) == n || oracles(ProcessedCount(oracles, n, i) - 1).interrupted
    ensures ProcessedCount(oracles, n, i) < n ==> i < ProcessedCount(oracles, n, i)
    ensures (forall j :: i <= j < n ==> !oracles(j).interrupted) ==> ProcessedCount(oracles, n, i) == n
    decreases n - i
  {
    if i < n && !oracles(i).interrupted {
      ProcessedCountSpec(oracles, n, i + 1);
    }
  }

  /** The calls of the first k chunks, chunk after chunk. */
  ghost predicate DocumentCalls(calls: seq<StoreCall>, chunks: seq<PageInfo>, fileName: string,
                                oracles: nat -> ChunkOracle, k: nat)
    requires k <= |chunks|
    decreases k
  {
    if k == 0 then calls == []
    else
      && |calls| >= RetryCount(oracles(k - 1).service) + 4
      && DocumentCalls(calls[..|calls| - (RetryCount(oracles(k - 1).service) + 4)], chunks, fileName, oracles, k - 1)
      && ChunkCalls(calls[|calls| - (RetryCount(oracles(k - 1).service) + 4)..], oracles(k - 1),
                    fileName, chunks[k - 1].pageNumber)
  }

  /** The vector rows of the first k chunks. */
  function DocumentRows(chunks: seq<PageInfo>, fileName: string, oracles: nat -> ChunkOracle, k: nat): seq<VectorRow>
    requires k <= |chunks|
  {
    if k == 0 then []
    else
      var prev := DocumentRows(chunks, fileName, oracles, k - 1);
      prev + ChunkRows(chunks[k - 1].text, fileName, chunks[k - 1].pageNumber, oracles(k - 1))
  }

  /** The number of chunks analyzePdf processes: none without a database connection. */
  function ChunksProcessed(chunks: seq<PageInfo>, connected: bool, oracles: nat -> ChunkOracle): (r: nat)
    ensures r <= |chunks|
  {
    if connected then ProcessedCount(oracles, |chunks|, 0) else 0
  }

  /**
   * The effect of analyzePdf on the store log and the vector table: nothing
   * for a file the dedup lookup finds registered; otherwise the calls and rows
   * of the chunks processed, in order.
   */
  ghost predicate PdfEffect(c: Container, calls: seq<StoreCall>, t0: seq<VectorRow>, t: seq<VectorRow>,
                            fileName: string, lookup: Outcome, document: Option<seq<Option<string>>>,
                            connected: bool, oracles: nat -> ChunkOracle)
  {
    if lookup == Success && Registered(c, fileName) then calls == [] && t == t0
    else
      && DocumentCalls(calls, ExtractedDocument(document), fileName, oracles,
                       ChunksProcessed(ExtractedDocument(document), connected, oracles))
      && t == t0 + DocumentRows(ExtractedDocument(document), fileName, oracles,
                                ChunksProcessed(ExtractedDocument(document), connected, oracles))
  }

  /**
   * The store `fin` holds, for each of the first k chunks, a COMPLETED record
   * with the file name and the chunk's page; the records of `c` unchanged;
   * and no record but these.
   */
  ghost predicate EndsCompleted(c: Container, fin: Container, chunks: seq<PageInfo>, fileName: string,
                                oracles: nat -> ChunkOracle, k: nat)
    requires k <= |chunks|
  {
    && (forall i :: 0 <= i < k ==>
          oracles(i).id in fin &&
          fin[oracles(i).id] == CosmosDBDocument(oracles(i).id, fileName, Completed, chunks[i].pageNumber))
    && (forall id :: id in c ==> id in fin && fin[id] == c[id])
    && (forall id :: id in fin ==> id in c || exists i :: 0 <= i < k && oracles(i).id == id)
  }

  /** The effect of a run that processed the first k chunks of a file it did not skip. */
  lemma PdfEffectOfProcessed(c: Container, calls: seq<StoreCall>, t0: seq<VectorRow>, t: seq<VectorRow>,
                             fileName: string, lookup: Outcome, document: Option<seq<Option<string>>>,
                             connected: bool, oracles: nat -> ChunkOracle, k: nat)
    requires !(lookup == Success && Registered(c, fileName))
    requires k == ChunksProcessed(ExtractedDocument(document), connected, oracles)
    requires DocumentCalls(calls, ExtractedDocument(document), fileName, oracles, k)
    requires t == t0 + DocumentRows(ExtractedDocument(document), fileName, oracles, k)
    ensures PdfEffect(c, calls, t0, t, fileName, lookup, document, connected, oracles)
  {
  }

  /**
   * The store, log and table after the first k chunks were inserted, from
   * the store c0, log log0 and table t0 they started from.
   */
  ghost predicate ChunksInserted(c0: Container, log0: seq<StoreCall>, t0: seq<VectorRow>,
                                 c: Container, log: seq<StoreCall>, t: seq<VectorRow>,
                                 calls: seq<StoreCall>, chunks: seq<PageInfo>, fileName: string,
                                 oracles: nat -> ChunkOracle, k: nat)
  {
    && k <= |chunks|
    && log == log0 + calls
    && c == Replay(c0, calls)
    && DocumentCalls(calls, chunks, fileName, oracles, k)
    && t == t0 + DocumentRows(chunks, fileName, oracles, k)
  }

  lemma ChunksInsertedStep(c0: Container, log0: seq<StoreCall>, t0: seq<VectorRow>,
                           c: Container, log: seq<StoreCall>, t: seq<VectorRow>,
                           c': Container, log': seq<StoreCall>, t': seq<VectorRow>,
                           calls: seq<StoreCall>, chunkCalls: seq<StoreCall>, chunks: seq<PageInfo>, fileName: string,
                           oracles: nat -> ChunkOracle, i: nat)
    requires i < |chunks|
    requires ChunksInserted(c0, log0, t0, c, log, t, calls, chunks, fileName, oracles, i)
    requires log' == log + chunkCalls
    requires c' == Replay(c, chunkCalls)
    requires ChunkCalls(chunkCalls, oracles(i), fileName, chunks[i].pageNumber)
    requires t' == t + ChunkRows(chunks[i].text, fileName, chunks[i].pageNumber, oracles(i))
    ensures ChunksInserted(c0, log0, t0, c', log', t', calls + chunkCalls, chunks, fileName, oracles, i + 1)
  {
    ReplayAppend(c0, calls, chunkCalls);
    DocumentCallsStep(calls, chunkCalls, chunks, fileName, oracles, i);
    AppendAssoc(log0, calls, chunkCalls);
    AppendAssoc(t0, DocumentRows(chunks, fileName, oracles, i),
                ChunkRows(chunks[i].text, fileName, chunks[i].pageNumber, oracles(i)));
  }

  /**
   * When every store call of a run succeeds and the chunk ids are distinct and
   * fresh, every processed chunk ends as a COMPLETED record carrying the file
   * name and its page, the records already present are untouched, no other
   * record appears, and the file is registered for the next upload.
   */
  lemma {:induction false} DocumentEndsCompleted(c: Container, calls: seq<StoreCall>, chunks: seq<PageInfo>,
                                                 fileName: string, oracles: nat -> ChunkOracle, k: nat)
    requires k <= |chunks|
    requires DocumentCalls(calls, chunks, fileName, oracles, k)
    requires AllSucceeded(calls)
    requires forall i, j :: 0 <= i < j < k ==> oracles(i).id != oracles(j).id
    requires forall i :: 0 <= i < k ==> oracles(i).id !in c
    ensures EndsCompleted(c, Replay(c, calls), chunks, fileName, oracles, k)
    ensures k > 0 ==> Registered(Replay(c, calls), fileName)
    decreases k
  {
    if k > 0 {
      var m := |calls| - (RetryCount(oracles(k - 1).service) + 4);
      AllSucceededSplit(calls, m);
      DocumentEndsCompleted(c, calls[..m], chunks, fileName, oracles, k - 1);
      DocumentEndsCompletedStep(c, calls, chunks, fileName, oracles, k, m);
    }
  }

  /** The last chunk of a run ending COMPLETED on top of the earlier ones. */
  lemma DocumentEndsCompletedStep(c: Container, calls: seq<StoreCall>, chunks: seq<PageInfo>,
                                  fileName: string, oracles: nat -> ChunkOracle, k: nat, m: nat)
    requires 0 < k <= |chunks|
    requires m == |calls| - (RetryCount(oracles(k - 1).service) + 4)
    requires DocumentCalls(calls, chunks, fileName, oracles, k)
    requires AllSucceeded(calls[m..])
    requires forall i, j :: 0 <= i < j < k ==> oracles(i).id != oracles(j).id
    requires forall i :: 0 <= i < k ==> oracles(i).id !in c
    requires EndsCompleted(c, Replay(c, calls[..m]), chunks, fileName, oracles, k - 1)
    ensures EndsCompleted(c, Replay(c, calls), chunks, fileName, oracles, k)
    ensures Registered(Replay(c, calls), fileName)
  {
    var pre, last := calls[..m], calls[m..];
    var mid := Replay(c, pre);
    var id := oracles(k - 1).id;
    assert id !in mid by {
      assert id !in c;
      assert forall i :: 0 <= i < k - 1 ==> oracles(i).id != id;
    }
    assert Replay(c, calls) == Replay(mid, last) by {
      SplitAt(calls, m);
      ReplayAppend(c, pre, last);
    }
    ChunkEndsCompleted(mid, last, oracles(k - 1), fileName, chunks[k - 1].pageNumber);
    CompletedStep(c, mid, Replay(mid, last), chunks, fileName, oracles, k);
  }

  lemma DocumentCallsStep(calls: seq<StoreCall>, chunkCalls: seq<StoreCall>, chunks: seq<PageInfo>,
                          fileName: string, oracles: nat -> ChunkOracle, i: nat)
    requires i < |chunks|
    requires DocumentCalls(calls, chunks, fileName, oracles, i)
    requires ChunkCalls(chunkCalls, oracles(i), fileName, chunks[i].pageNumber)
    ensures DocumentCalls(calls + chunkCalls, chunks, fileName, oracles, i + 1)
  {
    ChunkWritesLifecycle(oracles(i).id, oracles(i).service, oracles(i).inserted);
    assert (calls + chunkCalls)[..|calls|] == calls;
    assert (calls + chunkCalls)[|calls|..] == chunkCalls;
  }

  /** One more chunk ending COMPLETED on a fresh id extends EndsCompleted by one. */
  lemma CompletedStep(c: Container, mid: Container, fin: Container, chunks: seq<PageInfo>, fileName: string,
                      oracles: nat -> ChunkOracle, k: nat)
    requires 0 < k <= |chunks|
    requires forall i :: 0 <= i < k - 1 ==> oracles(i).id != oracles(k - 1).id
    requires oracles(k - 1).id !in c
    requires EndsCompleted(c, mid, chunks, fileName, oracles, k - 1)
    requires oracles(k - 1).id in fin
    requires fin[oracles(k - 1).id] == CosmosDBDocument(oracles(k - 1).id, fileName, Completed, chunks[k - 1].pageNumber)
    requires forall id :: id != oracles(k - 1).id ==> (id in fin <==> id in mid) && (id in mid ==> fin[id] == mid[id])
    ensures EndsCompleted(c, fin, chunks, fileName, oracles, k)
    ensures Registered(fin, fileName)
  {
    var id := oracles(k - 1).id;
    forall i | 0 <= i < k
      ensures oracles(i).id in fin
      ensures fin[oracles(i).id] == CosmosDBDocument(oracles(i).id, fileName, Completed, chunks[i].pageNumber)
    {
      if i < k - 1 {
        assert oracles(i).id in mid;
      }
    }
    forall x | x in fin
      ensures x in c || exists i :: 0 <= i < k && oracles(i).id == x
    {
      if x != id {
        assert x in mid;
      }
    }
    assert fin[id].fileName == fileName;
  }

  /** One more RETRY_OAI_INVOCATION update extends the retry writes by one. */
  lemma RetryWritesStep(calls: seq<StoreCall>, call: StoreCall, uuid: string, n: nat)
    requires Requests(calls) == Repeat(StatusWrite(uuid, RetryOaiInvocation), n)
    requires forall i :: 0 <= i < |calls| ==> calls[i].Update?
    requires call.Update? && call.id == uuid && call.status == RetryOaiInvocation
    ensures Requests(calls + [call]) == Repeat(StatusWrite(uuid, RetryOaiInvocation), n + 1)
    ensures forall i :: 0 <= i < |calls + [call]| ==> (calls + [call])[i].Update?
  {
    RequestsAppend(calls, [call]);
  }

  lemma SplitAt<T>(s: seq<T>, m: nat)
    requires m <= |s|
    ensures s == s[..m] + s[m..]
  {
  }

  lemma AllSucceededSplit(calls: seq<StoreCall>, m: nat)
    requires m <= |calls|
    requires AllSucceeded(calls)
    ensures AllSucceeded(calls[..m]) && AllSucceeded(calls[m..])
  {
    assert forall i :: 0 <= i < m ==> calls[..m][i] == calls[i];
    assert forall i :: 0 <= i < |calls| - m ==> calls[m..][i] == calls[m + i];
  }

  /**
   * A creation of the chunk's record, its retry writes, and the three writes
   * after the embedding, are the calls of the chunk.
   */
  lemma ChunkCallsAssembled(create: StoreCall, retries: seq<StoreCall>, u1: StoreCall, u2: StoreCall, u3: StoreCall,
                            oracle: ChunkOracle, fileName: string, pageNumber: int)
    requires create.Create? && create.doc == CosmosDBDocument(oracle.id, fileName, PageSeparateFinished, pageNumber)
    requires Requests(retries) == Repeat(StatusWrite(oracle.id, RetryOaiInvocation), RetryCount(oracle.service))
    requires forall i :: 0 <= i < |retries| ==> retries[i].Update?
    requires u1.Update? && u1.id == oracle.id && u1.status == FinishOaiInvocation
    requires u2.Update? && u2.id == oracle.id &&
      u2.status == (if oracle.inserted then FinishDbInsertion else FailedDbInsertion)
    requires u3.Update? && u3.id == oracle.id && u3.status == Completed
    ensures ChunkCalls([create] + retries + [u1, u2, u3], oracle, fileName, pageNumber)
  {
    var calls := [create] + retries + [u1, u2, u3];
    var ws := ChunkWrites(oracle.id, oracle.service, oracle.inserted);
    var n := |retries|;
    forall i | 0 <= i < |calls|
      ensures Requested(calls[i]) == ws[i]
      ensures i >= 1 ==> calls[i].Update?
    {
      if 1 <= i <= n {
        assert calls[i] == retries[i - 1];
        assert Requested(retries[i - 1]) == Requests(retries)[i - 1];
      }
    }
    assert Requests(calls) == ws;
  }

  lemma ChunkLog(log: seq<StoreCall>, create: StoreCall, retries: seq<StoreCall>, u1: StoreCall, u2: StoreCall, u3: StoreCall)
    ensures log + [create] + retries + [u1] + [u2] + [u3] == log + ([create] + retries + [u1, u2, u3])
  {
  }

  /** The store a chunk's calls leave behind, step by step. */
  lemma ReplayChunk(c: Container, create: StoreCall, retries: seq<StoreCall>, u1: StoreCall, u2: StoreCall, u3: StoreCall)
    ensures Replay(c, [create] + retries + [u1, u2, u3]) ==
      Apply(Apply(Apply(Replay(Apply(c, create), retries), u1), u2), u3)
  {
    var head := [create] + retries;
    ReplayAppend(c, [create], retries);
    assert Replay(c, [create]) == Apply(c, create) by {
      ReplaySnoc(c, [], create);
      assert [] + [create] == [create];
    }
    ReplaySnoc(c, head, u1);
    ReplaySnoc(c, head + [u1], u2);
    ReplaySnoc(c, head + [u1] + [u2], u3);
    assert head + [u1, u2, u3] == head + [u1] + [u2] + [u3];
  }

  /** What run does with an uploaded file, by its extension. */
  datatype DocumentType = MsWord | MsExcel | MsPowerpoint
  datatype Handling = AnalyzePdf | ConvertToPdf(inputDocType: DocumentType) | Ignore

  function Dispatch(fileExt: string): Handling {
    if fileExt == "pdf" then AnalyzePdf
    else if fileExt == "doc" || fileExt == "docx" then ConvertToPdf(MsWord)
    else if fileExt == "xls" || fileExt == "xlsx" then ConvertToPdf(MsExcel)
    else if fileExt == "ppt" || fileExt == "pptx" then ConvertToPdf(MsPowerpoint)
    else Ignore
  }

  /**
   * Only the exact, lower-case extension "pdf" is analysed; the six Office
   * extensions are converted, by their family; every other extension,
   * including an upper-case "PDF", is ignored.
   */
  lemma DispatchSpec(fileExt: string)
    ensures Dispatch(fileExt) == AnalyzePdf <==> fileExt == "pdf"
    ensures Dispatch(fileExt).ConvertToPdf? <==> fileExt in ["doc", "docx", "xls", "xlsx", "ppt", "pptx"]
    ensures Dispatch(fileExt) == ConvertToPdf(MsWord) <==> fileExt in ["doc", "docx"]
    ensures Dispatch(fileExt) == ConvertToPdf(MsPowerpoint) <==> fileExt in ["ppt", "pptx"]
    ensures Dispatch("PDF") == Ignore
  {
  }

  class Function {
    /** The status tracker of the function's document store. */
    const cosmosDBUtil: CosmosDBUtil
    /** The rows committed to the vector table. */
    var table: seq<VectorRow>

    constructor (store: CosmosDBUtil)
      ensures cosmosDBUtil == store && table == []
    {
      cosmosDBUtil := store;
      table := [];
    }

    /**
     * invokeTextEmbedding: up to three calls to the embedding service; each
     * failure writes RETRY_OAI_INVOCATION for the chunk; the first answer
     * ends the loop and yields its first item, if any.
     */
    method InvokeTextEmbedding(uuid: string, originalText: string, service: nat -> EmbeddingResponse)
      returns (embedding: Embedding, ghost calls: seq<StoreCall>)
      requires cosmosDBUtil.Valid()
      modifies cosmosDBUtil
      ensures cosmosDBUtil.Valid()
      ensures embedding == EmbeddingOf(service)
      ensures cosmosDBUtil.log == old(cosmosDBUtil.log) + calls
      ensures Requests(calls) == Repeat(StatusWrite(uuid, RetryOaiInvocation), RetryCount(service))
      ensures forall i :: 0 <= i < |calls| ==> calls[i].Update?
      ensures cosmosDBUtil.container == Replay(old(cosmosDBUtil.container), calls)
    {
      embedding := [];
      calls := [];
      var retryCount := 0;
      while retryCount < MaxOpenAIInvocationRetryCount
        invariant retryCount <= MaxOpenAIInvocationRetryCount
        invariant FailedAttemptsFrom(service, retryCount) == RetryCount(service)
        invariant embedding == []
        invariant cosmosDBUtil.Valid()
        invariant cosmosDBUtil.log == old(cosmosDBUtil.log) + calls
        invariant Requests(calls) == Repeat(StatusWrite(uuid, RetryOaiInvocation), retryCount)
        invariant forall i :: 0 <= i < |calls| ==> calls[i].Update?
        invariant cosmosDBUtil.container == Replay(old(cosmosDBUtil.container), calls)
        decreases MaxOpenAIInvocationRetryCount - retryCount
      {
        var result := service(retryCount);
        if result.Embeddings? {
          if |result.data| > 0 {
            embedding := embedding + result.data[0];
          }
          break;
        }
        var read: Outcome, replace: Outcome := *, *;
        var updated := cosmosDBUtil.UpdateStatus(uuid, RetryOaiInvocation, read, replace);
        ghost var call := Update(uuid, RetryOaiInvocation, read, replace);
        ReplaySnoc(old(cosmosDBUtil.container), calls, call);
        RetryWritesStep(calls, call, uuid, retryCount);
        AppendAssoc(old(cosmosDBUtil.log), calls, [call]);
        calls := calls + [call];
        retryCount := retryCount + 1;
      }
    }

    /**
     * insertDataToPostgreSQL for one chunk: create its record, obtain the
     * embedding, insert the row and commit, and write each status on the
     * way; a failed insert or commit writes FAILED_DB_INSERTION instead of
     * FINISH_DB_INSERTION, and COMPLETED is written in both cases. The
     * result tells whether an interrupt escapes to the caller.
     */
    method InsertDataToPostgreSQL(originText: string, fileName: string, pageNumber: int, oracle: ChunkOracle)
      returns (interrupted: bool, ghost calls: seq<StoreCall>)
      requires cosmosDBUtil.Valid()
      modifies this, cosmosDBUtil
      ensures cosmosDBUtil.Valid()
      ensures cosmosDBUtil.log == old(cosmosDBUtil.log) + calls
      ensures ChunkCalls(calls, oracle, fileName, pageNumber)
      ensures cosmosDBUtil.container == Replay(old(cosmosDBUtil.container), calls)
      ensures table == old(table) + ChunkRows(originText, fileName, pageNumber, oracle)
      ensures interrupted == oracle.interrupted
    {
      var uuidString := oracle.id;
      ghost var c0, l0 := cosmosDBUtil.container, cosmosDBUtil.log;
      var outcome: Outcome := *;
      var created := cosmosDBUtil.CreateDocument(uuidString, fileName, PageSeparateFinished, pageNumber, outcome);
      ghost var create := Create(CosmosDBDocument(uuidString, fileName, PageSeparateFinished, pageNumber), outcome);

      var embedding, retries := InvokeTextEmbedding(uuidString, originText, oracle.service);

      var read1: Outcome, replace1: Outcome := *, *;
      var updated := cosmosDBUtil.UpdateStatus(uuidString, FinishOaiInvocation, read1, replace1);
      ghost var u1 := Update(uuidString, FinishOaiInvocation, read1, replace1);

      var status := FailedDbInsertion;
      if oracle.inserted {
        table := table + [VectorRow(uuidString, embedding, originText, fileName, pageNumber)];
        status := FinishDbInsertion;
      }
      var read2: Outcome, replace2: Outcome := *, *;
      updated := cosmosDBUtil.UpdateStatus(uuidString, status, read2, replace2);
      ghost var u2 := Update(uuidString, status, read2, replace2);

      var read3: Outcome, replace3: Outcome := *, *;
      updated := cosmosDBUtil.UpdateStatus(uuidString, Completed, read3, replace3);
      ghost var u3 := Update(uuidString, Completed, read3, replace3);

      calls := [create] + retries + [u1, u2, u3];
      ChunkLog(l0, create, retries, u1, u2, u3);
      ChunkCallsAssembled(create, retries, u1, u2, u3, oracle, fileName, pageNumber);
      ReplayChunk(c0, create, retries, u1, u2, u3);
      interrupted := oracle.interrupted;
    }

    /**
     * The forEach of analyzePdf: insert the chunks in order; an interrupt
     * escaping from a chunk ends the loop after that chunk.
     */
    method InsertChunks(fileName: string, pageInfos: seq<PageInfo>, oracles: nat -> ChunkOracle)
      returns (ghost calls: seq<StoreCall>)
      requires cosmosDBUtil.Valid()
      modifies this, cosmosDBUtil
      ensures cosmosDBUtil.Valid()
      ensures ChunksInserted(old(cosmosDBUtil.container), old(cosmosDBUtil.log), old(table),
                             cosmosDBUtil.container, cosmosDBUtil.log, table,
                             calls, pageInfos, fileName, oracles, ProcessedCount(oracles, |pageInfos|, 0))
    {
      calls := [];
      AppendAssoc(old(cosmosDBUtil.log), [], []);
      AppendAssoc(old(table), [], []);
      var i := 0;
      while i < |pageInfos|
        invariant 0 <= i <= |pageInfos|
        invariant ProcessedCount(oracles, |pageInfos|, i) == ProcessedCount(oracles, |pageInfos|, 0)
        invariant cosmosDBUtil.Valid()
        invariant ChunksInserted(old(cosmosDBUtil.container), old(cosmosDBUtil.log), old(table),
                                 cosmosDBUtil.container, cosmosDBUtil.log, table,
                                 calls, pageInfos, fileName, oracles, i)
      {
        ghost var c, log, t := cosmosDBUtil.container, cosmosDBUtil.log, table;
        var interrupted, chunkCalls := InsertDataToPostgreSQL(pageInfos[i].text, fileName, pageInfos[i].pageNumber, oracles(i));
        ChunksInsertedStep(old(cosmosDBUtil.container), old(cosmosDBUtil.log), old(table), c, log, t,
                           cosmosDBUtil.container, cosmosDBUtil.log, table,
                           calls, chunkCalls, pageInfos, fileName, oracles, i);
        calls := calls + chunkCalls;
        i := i + 1;
        if interrupted {
          assert i == ProcessedCount(oracles, |pageInfos|, 0);
          break;
        }
      }
    }

    /**
     * analyzePdf: skip a file the dedup lookup finds registered; otherwise
     * extract the chunks, open the database connection and process the
     * chunks in order until one lets an interrupt escape.
     */
    method AnalyzePdf(fileName: string, lookup: Outcome, document: Option<seq<Option<string>>>,
                      connected: bool, oracles: nat -> ChunkOracle)
      returns (ghost calls: seq<StoreCall>)
      requires cosmosDBUtil.Valid()
      modifies this, cosmosDBUtil
      ensures cosmosDBUtil.Valid()
      ensures cosmosDBUtil.log == old(cosmosDBUtil.log) + calls
      ensures cosmosDBUtil.container == Replay(old(cosmosDBUtil.container), calls)
      ensures PdfEffect(old(cosmosDBUtil.container), calls, old(table), table,
                        fileName, lookup, document, connected, oracles)
    {
      calls := [];
      AppendAssoc(old(cosmosDBUtil.log), [], []);
      var registered := cosmosDBUtil.IsRegisteredDocument(fileName, lookup);
      if registered {
        return;
      }
      var pageInfos := ExtractPDFtoTextByPage(document);
      if !connected {
        PdfEffectOfProcessed(old(cosmosDBUtil.container), calls, old(table), table,
                             fileName, lookup, document, connected, oracles, 0);
        return;
      }
      calls := InsertChunks(fileName, pageInfos, oracles);
      PdfEffectOfProcessed(old(cosmosDBUtil.container), calls, old(table), table,
                           fileName, lookup, document, connected, oracles, ProcessedCount(oracles, |pageInfos|, 0));
    }

    /**
     * run: the file name is the base name, a dot and the extension; a PDF is
     * analysed, an Office file is handed to the converter (which writes only
     * the converted blob), and any other file is ignored.
     */
    method Run(fileBaseName: string, fileExt: string, lookup: Outcome, document: Option<seq<Option<string>>>,
               connected: bool, oracles: nat -> ChunkOracle)
      returns (ghost calls: seq<StoreCall>)
      requires cosmosDBUtil.Valid()
      modifies this, cosmosDBUtil
      ensures cosmosDBUtil.Valid()
      ensures cosmosDBUtil.log == old(cosmosDBUtil.log) + calls
      ensures cosmosDBUtil.container == Replay(old(cosmosDBUtil.container), calls)
      ensures fileExt == "pdf" ==>
        PdfEffect(old(cosmosDBUtil.container), calls, old(table), table,
                  fileBaseName + "." + fileExt, lookup, document, connected, oracles)
      ensures fileExt != "pdf" ==> calls == [] && table == old(table)
    {
      var fileName := fileBaseName + "." + fileExt;
      calls := [];
      match Dispatch(fileExt) {
        case AnalyzePdf =>
          calls := AnalyzePdf(fileName, lookup, document, connected, oracles);
        case ConvertToPdf(inputDocType) =>
        case Ignore =>
      }
    }
  }
}
