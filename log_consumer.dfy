/**
 * The Auditing service's `RabbitMqLogConsumer`: it consumes the "logs" queue
 * with manual acknowledgement; each delivery is deserialized into a `Log`,
 * added to the database's `Logs` and saved, then acked, and any exception on
 * the way nacks it with requeue.
 */
module LogConsumer {
  import opened Common
  import opened Amqp

  const QueueName: string := "logs"
  const QueueFlags: QueueOptions := QueueOptions(durable := true, exclusive := false, autoDelete := false)
  /** `BasicConsumeAsync(..., autoAck: false, ...)`. */
  const AutoAck: bool := false

  /** The `Log` entity a delivery is deserialized into. */
  datatype Log = Log(id: Guid, timestamp: Time, userId: Guid, message: string, requestName: string,
                     requestId: string, severity: int, logType: int, metadata: string)

  /**
   * What `JsonSerializer.Deserialize<Log>` makes of a body: it throws, it
   * yields `null` (the body is the JSON literal `null`), or it yields a log.
   */
  datatype Decoded = Malformed | NullLog | Parsed(log: Log)

  /** The settlement of one delivery: the log saved, if any, and the reply. */
  function Settle(d: Delivery, decoded: Decoded, saveOk: bool): (r: (Option<Log>, Reply))
    ensures r.1.tag == d.tag && !r.1.multiple
    ensures r.0.Some? <==> r.1.Ack?
    ensures r.0.Some? <==> decoded.Parsed? && saveOk
    ensures r.0.Some? ==> r.0.value == decoded.log
    ensures r.1.Nack? ==> r.1 == Requeue(d.tag)
  {
    if decoded.Parsed? && saveOk then (Some(decoded.log), Ack(d.tag, false))
    else (None, Requeue(d.tag))
  }

  /** The logs saved by the callback over `ds`, in order; `saveOk[i]` is the fate of the i-th save. */
  function Saved(ds: seq<Delivery>, decode: seq<Byte> -> Decoded, saveOk: seq<bool>): seq<Log>
    requires |saveOk| == |ds|
    decreases |ds|
  {
    if ds == [] then []
    else
      var n := |ds| - 1;
      var s := Settle(ds[n], decode(ds[n].body), saveOk[n]);
      Saved(ds[..n], decode, saveOk[..n]) + (if s.0.Some? then [s.0.value] else [])
  }

  /** The replies the callback sends over `ds`, in order. */
  function Replies(ds: seq<Delivery>, decode: seq<Byte> -> Decoded, saveOk: seq<bool>): seq<Reply>
    requires |saveOk| == |ds|
    decreases |ds|
  {
    if ds == [] then []
    else
      var n := |ds| - 1;
      Replies(ds[..n], decode, saveOk[..n]) + [Settle(ds[n], decode(ds[n].body), saveOk[n]).1]
  }

  /**
   * Each delivery is settled exactly once, in delivery order: acked when its
   * log was deserialized and saved, otherwise nacked with requeue.
   */
  lemma {:induction false} RepliesSettleEachOnce(ds: seq<Delivery>, decode: seq<Byte> -> Decoded, saveOk: seq<bool>)
    requires |saveOk| == |ds|
    ensures var r := Replies(ds, decode, saveOk);
      |r| == |ds| &&
      forall i :: 0 <= i < |ds| ==>
        r[i] == (if decode(ds[i].body).Parsed? && saveOk[i] then Ack(ds[i].tag, false) else Requeue(ds[i].tag))
    decreases |ds|
  {
    if ds != [] {
      var n := |ds| - 1;
      RepliesSettleEachOnce(ds[..n], decode, saveOk[..n]);
      var r := Replies(ds, decode, saveOk);
      forall i | 0 <= i < n
        ensures r[i] == (if decode(ds[i].body).Parsed? && saveOk[i] then Ack(ds[i].tag, false) else Requeue(ds[i].tag))
      {
        assert ds[..n][i] == ds[i] && saveOk[..n][i] == saveOk[i];
      }
    }
  }

  /** The number of acks in `r`. */
  function Acks(r: seq<Reply>): nat
    decreases |r|
  {
    if r == [] then 0 else Acks(r[..|r| - 1]) + (if r[|r| - 1].Ack? then 1 else 0)
  }

  /** Every ack answers one saved log and every saved log is acked. */
  lemma {:induction false} AcksCountSaved(ds: seq<Delivery>, decode: seq<Byte> -> Decoded, saveOk: seq<bool>)
    requires |saveOk| == |ds|
    ensures Acks(Replies(ds, decode, saveOk)) == |Saved(ds, decode, saveOk)|
    decreases |ds|
  {
    if ds != [] {
      var n := |ds| - 1;
      AcksCountSaved(ds[..n], decode, saveOk[..n]);
      var r := Replies(ds, decode, saveOk);
      assert r[..|r| - 1] == Replies(ds[..n], decode, saveOk[..n]);
    }
  }

  /** The consumer's effect: the `Logs` table and the settlements it sends. */
  class Consumer {
    var logs: seq<Log>
    var replies: seq<Reply>

    constructor (initial: seq<Log>)
      ensures logs == initial && replies == []
    {
      logs := initial;
      replies := [];
    }

    /**
     * The `ReceivedAsync` callback. A `null` log makes `Logs.Add` throw; a
     * failed save discards the scope's context, so the table is unchanged.
     */
    method Received(d: Delivery, decoded: Decoded, saveOk: bool)
      modifies this
      ensures var s := Settle(d, decoded, saveOk);
        logs == old(logs) + (if s.0.Some? then [s.0.value] else []) &&
        replies == old(replies) + [s.1]
    {
      if decoded.Malformed? || decoded.NullLog? {
        replies := replies + [Nack(d.tag, false, true)];
        return;
      }
      var log := decoded.log;
      if !saveOk {
        replies := replies + [Nack(d.tag, false, true)];
        return;
      }
      logs := logs + [log];
      replies := replies + [Ack(d.tag, false)];
    }

    /** The callback over the deliveries `ds`, in order. */
    method Consume(ds: seq<Delivery>, decode: seq<Byte> -> Decoded, saveOk: seq<bool>)
      requires |saveOk| == |ds|
      modifies this
      ensures logs == old(logs) + Saved(ds, decode, saveOk)
      ensures replies == old(replies) + Replies(ds, decode, saveOk)
    {
      var i := 0;
      while i < |ds|
        invariant 0 <= i <= |ds|
        invariant logs == old(logs) + Saved(ds[..i], decode, saveOk[..i])
        invariant replies == old(replies) + Replies(ds[..i], decode, saveOk[..i])
      {
        Received(ds[i], decode(ds[i].body), saveOk[i]);
        assert ds[..i + 1][..i] == ds[..i];
        assert saveOk[..i + 1][..i] == saveOk[..i];
        i := i + 1;
      }
      assert ds[..i] == ds && saveOk[..i] == saveOk;
    }
  }
}
