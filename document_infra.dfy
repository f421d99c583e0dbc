/**
 * The Document service's in-memory infrastructure: the upload status map,
 * the FIFO queue of uploads waiting for a virus scan, the event store the
 * scanner admits clean uploads into, and the background scan loop.
 */
module DocumentInfra {
  import opened Common
  import opened DocumentEvents

  /** The status reported for an id that was never set. */
  const NotFoundStatus: string := "not_found"
  /** The statuses the scan loop writes. */
  const ScanningStatus: string := "scanning"
  const CleanStatus: string := "clean"
  const MaliciousStatus: string := "malicious"
  const ErrorStatus: string := "error"

  /** The status `GetStatusAsync` reports for `id` when the dictionary is `m`. */
  function StatusIn(m: map<Guid, string>, id: Guid): (r: string)
    ensures id !in m ==> r == NotFoundStatus
    ensures id in m ==> r == m[id]
  {
    if id in m then m[id] else NotFoundStatus
  }

  /** A status written by `SetStatusAsync`, as it appears in the record of writes. */
  datatype StatusWrite = StatusWrite(documentId: Guid, status: string)

  /** `InMemoryDocumentStatusService`. */
  class StatusService {
    /** `_statuses`. */
    var statuses: map<Guid, string>
    /** Every write so far, oldest first; it records the order of transitions. */
    ghost var writes: seq<StatusWrite>

    constructor ()
      ensures statuses == map[] && writes == []
    {
      statuses := map[];
      writes := [];
    }

    /** `GetStatusAsync`: the stored status, or "not_found". */
    method GetStatus(documentId: Guid) returns (status: string)
      ensures documentId in statuses ==> status == statuses[documentId]
      ensures documentId !in statuses ==> status == NotFoundStatus
    {
      if documentId in statuses {
        status := statuses[documentId];
      } else {
        status := NotFoundStatus;
      }
    }

    /** `SetStatusAsync`: overwrites the status of `documentId` only. */
    method SetStatus(documentId: Guid, status: string)
      modifies this
      ensures statuses == old(statuses)[documentId := status]
      ensures writes == old(writes) + [StatusWrite(documentId, status)]
    {
      statuses := statuses[documentId := status];
      writes := writes + [StatusWrite(documentId, status)];
    }
  }

  /** A status read back after it was set is the status set, whatever was there before. */
  lemma SetThenGet(m: map<Guid, string>, id: Guid, status: string)
    ensures StatusIn(m[id := status], id) == status
  {
  }

  /** Setting one id's status leaves every other id's status as it was. */
  lemma SetLeavesOthers(m: map<Guid, string>, id: Guid, status: string, other: Guid)
    requires other != id
    ensures StatusIn(m[id := status], other) == StatusIn(m, other)
  {
  }

  /** `DocumentScanQueueItem`: the uploaded event waiting to be admitted, and its file. */
  datatype ScanItem = ScanItem(document: DocumentEvent, fileName: string, contentType: string)

  /** `InMemoryDocumentScanQueue`. */
  class ScanQueue {
    /** `_queue`, front first. */
    var items: seq<ScanItem>

    constructor ()
      ensures items == []
    {
      items := [];
    }

    method Enqueue(item: ScanItem)
      modifies this
      ensures items == old(items) + [item]
    {
      items := items + [item];
    }

    /** Removes and returns the front item; false when the queue is empty. */
    method TryDequeue() returns (ok: bool, item: Option<ScanItem>)
      modifies this
      ensures ok <==> old(items) != []
      ensures ok ==> item == Some(old(items)[0]) && items == old(items)[1..]
      ensures !ok ==> item == None && items == old(items)
    {
      if items == [] {
        ok, item := false, None;
      } else {
        ok, item := true, Some(items[0]);
        items := items[1..];
      }
    }

    /** Returns the front item without removing it; false when the queue is empty. */
    method TryPeek() returns (ok: bool, item: Option<ScanItem>)
      ensures ok <==> items != []
      ensures ok ==> item == Some(items[0])
      ensures !ok ==> item == None
    {
      if items == [] {
        ok, item := false, None;
      } else {
        ok, item := true, Some(items[0]);
      }
    }
  }

  /** A call on the queue, for reasoning about a sequence of them. */
  datatype QueueCall = EnqueueCall(item: ScanItem) | DequeueCall

  /** The queue after `calls`, and the items their dequeues returned, in order. */
  function Replay(q: seq<ScanItem>, calls: seq<QueueCall>): (seq<ScanItem>, seq<ScanItem>)
    decreases |calls|
  {
    if calls == [] then (q, [])
    else
      var (q', out) := Replay(q, calls[..|calls| - 1]);
      match calls[|calls| - 1]
      case EnqueueCall(x) => (q' + [x], out)
      case DequeueCall => if q' == [] then (q', out) else (q'[1..], out + [q'[0]])
  }

  /** The items `calls` enqueue, in order. */
  function Enqueued(calls: seq<QueueCall>): seq<ScanItem>
    decreases |calls|
  {
    if calls == [] then []
    else Enqueued(calls[..|calls| - 1]) + (if calls[|calls| - 1].EnqueueCall? then [calls[|calls| - 1].item] else [])
  }

  /**
   * First in, first out: what was dequeued followed by what is still queued
   * is exactly what was queued at the start followed by what was enqueued.
   */
  lemma {:induction false} ReplayIsFifo(q: seq<ScanItem>, calls: seq<QueueCall>)
    ensures Replay(q, calls).1 + Replay(q, calls).0 == q + Enqueued(calls)
    decreases |calls|
  {
    if calls != [] {
      ReplayIsFifo(q, calls[..|calls| - 1]);
      var (q', out) := Replay(q, calls[..|calls| - 1]);
      match calls[|calls| - 1]
      case EnqueueCall(x) =>
        assert out + (q' + [x]) == (out + q') + [x];
      case DequeueCall =>
        if q' != [] {
          assert (out + [q'[0]]) + q'[1..] == out + q';
        }
    }
  }

  /**
   * The store the scan loop admits documents into. `deleted` records the ids
   * `DeleteDocument` was called with: that call's effect on the stored events
   * is not part of this model.
   */
  class DocumentStore {
    var events: seq<DocumentEvent>
    var deleted: seq<Guid>

    constructor (initial: seq<DocumentEvent>)
      ensures events == initial && deleted == []
    {
      events := initial;
      deleted := [];
    }

    /** `AddDocument`: appends the event when the store accepts it, and says whether it did. */
    method AddDocument(e: DocumentEvent, accepted: bool) returns (added: bool)
      modifies this
      ensures added == accepted
      ensures events == old(events) + (if accepted then [e] else [])
      ensures deleted == old(deleted)
    {
      added := accepted;
      if accepted {
        events := events + [e];
      }
    }

    /** `DeleteDocument(id)`. */
    method DeleteDocument(id: Guid)
      modifies this
      ensures deleted == old(deleted) + [id]
      ensures events == old(events)
    {
      deleted := deleted + [id];
    }
  }

  /**
   * How the scan of one item ends: the scanner reports it clean and the store
   * answers whether it took the document (`stored`), the scanner reports it
   * infected, or one of the two throws.
   */
  datatype ScanOutcome = Clean(stored: bool) | Infected | ScanThrew | StoreThrew

  /** The status an item ends in. */
  function FinalStatus(o: ScanOutcome): string {
    match o
    case Clean(_) => CleanStatus
    case Infected => MaliciousStatus
    case ScanThrew => ErrorStatus
    case StoreThrew => ErrorStatus
  }

  /**
   * What the store gains from scanning one item: the document, when the scan
   * was clean and the store took it. The status is "clean" either way, since
   * the store's answer is not looked at.
   */
  function Admitted(item: ScanItem, o: ScanOutcome): seq<DocumentEvent> {
    if o == Clean(true) then [item.document] else []
  }

  /**
   * One iteration of `ExecuteAsync`: dequeue at most one item, mark it
   * "scanning", then scan it and record how that ended.
   */
  method ScanOnce(queue: ScanQueue, status: StatusService, store: DocumentStore, outcome: ScanOutcome)
    modifies queue, status, store
    ensures old(queue.items) == [] ==>
      queue.items == [] && status.statuses == old(status.statuses) &&
      status.writes == old(status.writes) && store.events == old(store.events)
    ensures old(queue.items) != [] ==>
      var item := old(queue.items)[0];
      var id := item.document.documentId;
      queue.items == old(queue.items)[1..] &&
      status.statuses == old(status.statuses)[id := FinalStatus(outcome)] &&
      status.writes == old(status.writes) + [StatusWrite(id, ScanningStatus), StatusWrite(id, FinalStatus(outcome))] &&
      store.events == old(store.events) + Admitted(item, outcome)
    ensures store.deleted == old(store.deleted)
  {
    var ok, item := queue.TryDequeue();
    if !ok {
      return;
    }
    var id := item.value.document.documentId;
    status.SetStatus(id, ScanningStatus);
    match outcome
    case Clean(stored) =>
      var _ := store.AddDocument(item.value.document, stored);
      status.SetStatus(id, CleanStatus);
    case Infected =>
      status.SetStatus(id, MaliciousStatus);
    case ScanThrew =>
      status.SetStatus(id, ErrorStatus);
    case StoreThrew =>
      status.SetStatus(id, ErrorStatus);
  }

  /** The documents a run of scans admits: those of the items scanned clean that the store took. */
  function AdmittedAll(items: seq<ScanItem>, outcomes: seq<ScanOutcome>): seq<DocumentEvent>
    requires |outcomes| == |items|
    decreases |items|
  {
    if items == [] then []
    else
      var n := |items| - 1;
      AdmittedAll(items[..n], outcomes[..n]) + Admitted(items[n], outcomes[n])
  }

  /** The status map after scanning `items` with the given outcomes. */
  function StatusesAfter(m: map<Guid, string>, items: seq<ScanItem>, outcomes: seq<ScanOutcome>): map<Guid, string>
    requires |outcomes| == |items|
    decreases |items|
  {
    if items == [] then m
    else
      var n := |items| - 1;
      StatusesAfter(m, items[..n], outcomes[..n])[items[n].document.documentId := FinalStatus(outcomes[n])]
  }

  /** Item `i` carries `d`, was scanned clean, and the store took it. */
  predicate StoredBy(items: seq<ScanItem>, outcomes: seq<ScanOutcome>, i: int, d: DocumentEvent)
    requires |outcomes| == |items|
  {
    0 <= i < |items| && items[i].document == d && outcomes[i] == Clean(true)
  }

  /** A document is admitted exactly when some item carrying it was scanned clean and the store took it. */
  lemma {:induction false} AdmittedIffClean(items: seq<ScanItem>, outcomes: seq<ScanOutcome>, d: DocumentEvent)
    requires |outcomes| == |items|
    ensures d in AdmittedAll(items, outcomes) <==> exists i :: StoredBy(items, outcomes, i, d)
    decreases |items|
  {
    if items != [] {
      var n := |items| - 1;
      var front, last := AdmittedAll(items[..n], outcomes[..n]), Admitted(items[n], outcomes[n]);
      assert AdmittedAll(items, outcomes) == front + last;
      AdmittedIffClean(items[..n], outcomes[..n], d);
      if exists i :: StoredBy(items, outcomes, i, d) {
        var i :| StoredBy(items, outcomes, i, d);
        if i < n {
          assert StoredBy(items[..n], outcomes[..n], i, d);
          assert d in front;
        } else {
          assert d in last;
        }
      }
      if d in front {
        var i :| StoredBy(items[..n], outcomes[..n], i, d);
        assert StoredBy(items, outcomes, i, d);
      } else if d in last {
        assert StoredBy(items, outcomes, n, d);
      }
    }
  }

  /** Item `i` is the last of `items` that carries its document. */
  predicate LastFor(items: seq<ScanItem>, i: int)
    requires 0 <= i < |items|
  {
    forall j :: i < j < |items| ==> items[j].document.documentId != items[i].document.documentId
  }

  /** After a run of scans, a scanned document's status is the final status of its last scan. */
  lemma {:induction false} StatusIsLastOutcome(m: map<Guid, string>, items: seq<ScanItem>, outcomes: seq<ScanOutcome>,
                                               i: int)
    requires |outcomes| == |items|
    requires 0 <= i < |items| && LastFor(items, i)
    ensures StatusIn(StatusesAfter(m, items, outcomes), items[i].document.documentId) == FinalStatus(outcomes[i])
    decreases |items|
  {
    var n := |items| - 1;
    if i < n {
      assert items[n].document.documentId != items[i].document.documentId;
      assert items[..n][i] == items[i] && outcomes[..n][i] == outcomes[i];
      assert forall j :: i < j < n ==> items[..n][j] == items[j];
      StatusIsLastOutcome(m, items[..n], outcomes[..n], i);
    }
  }

  /**
   * A document the store refused after a clean scan is reported "clean" but
   * is not in the store, unless another scan of it was stored.
   */
  lemma CleanButNotStored(m: map<Guid, string>, items: seq<ScanItem>, outcomes: seq<ScanOutcome>, i: int)
    requires |outcomes| == |items|
    requires 0 <= i < |items| && LastFor(items, i) && outcomes[i] == Clean(false)
    requires forall j :: 0 <= j < |items| && items[j].document == items[i].document ==> outcomes[j] != Clean(true)
    ensures StatusIn(StatusesAfter(m, items, outcomes), items[i].document.documentId) == CleanStatus
    ensures items[i].document !in AdmittedAll(items, outcomes)
  {
    StatusIsLastOutcome(m, items, outcomes, i);
    AdmittedIffClean(items, outcomes, items[i].document);
  }

  /** A document that was not scanned keeps its status. */
  lemma {:induction false} StatusOfUnscanned(m: map<Guid, string>, items: seq<ScanItem>, outcomes: seq<ScanOutcome>,
                                             id: Guid)
    requires |outcomes| == |items|
    requires forall i :: 0 <= i < |items| ==> items[i].document.documentId != id
    ensures StatusIn(StatusesAfter(m, items, outcomes), id) == StatusIn(m, id)
    decreases |items|
  {
    if items != [] {
      var n := |items| - 1;
      assert forall i :: 0 <= i < n ==> items[..n][i] == items[i];
      StatusOfUnscanned(m, items[..n], outcomes[..n], id);
    }
  }

  /**
   * `ExecuteAsync` until cancellation after `rounds` iterations: each
   * iteration scans at most one item, and `outcomes[i]` is how the scan of
   * the i-th queued item ends.
   */
  method ExecuteAsync(queue: ScanQueue, status: StatusService, store: DocumentStore,
                      rounds: nat, outcomes: seq<ScanOutcome>)
    requires |outcomes| == |queue.items|
    modifies queue, status, store
    ensures var k := if rounds < |old(queue.items)| then rounds else |old(queue.items)|;
      queue.items == old(queue.items)[k..] &&
      status.statuses == StatusesAfter(old(status.statuses), old(queue.items)[..k], outcomes[..k]) &&
      store.events == old(store.events) + AdmittedAll(old(queue.items)[..k], outcomes[..k])
    ensures store.deleted == old(store.deleted)
  {
    ghost var items := queue.items;
    var round := 0;
    var done := 0;
    while round < rounds
      invariant 0 <= round <= rounds
      invariant done == if round < |items| then round else |items|
      invariant queue.items == items[done..]
      invariant status.statuses == StatusesAfter(old(status.statuses), items[..done], outcomes[..done])
      invariant store.events == old(store.events) + AdmittedAll(items[..done], outcomes[..done])
      invariant store.deleted == old(store.deleted)
    {
      if done < |outcomes| {
        ScanOnce(queue, status, store, outcomes[done]);
        assert items[..done + 1][..done] == items[..done];
        assert outcomes[..done + 1][..done] == outcomes[..done];
        assert items[done..][0] == items[done];
        assert items[done..][1..] == items[done + 1..];
        done := done + 1;
      } else {
        ScanOnce(queue, status, store, Clean(true));
      }
      round := round + 1;
    }
  }
}
