/**
 * The AMQP 0-9-1 vocabulary the two log consumers use: queue declaration
 * flags, deliveries and the acknowledgements that settle them.
 */
module Amqp {
  import opened Common

  /** The flags of a `queue.declare`. */
  datatype QueueOptions = QueueOptions(durable: bool, exclusive: bool, autoDelete: bool)

  /** One delivery of a consumer: its delivery tag and its raw body. */
  datatype Delivery = Delivery(tag: nat, body: seq<Byte>)

  /** The settlement of a delivery: `basic.ack` or `basic.nack`. */
  datatype Reply =
    | Ack(tag: nat, multiple: bool)
    | Nack(tag: nat, multiple: bool, requeue: bool)

  /** `basic.nack(tag, multiple: false, requeue: true)`: hand the message back to the queue. */
  function Requeue(tag: nat): (r: Reply)
    ensures r.Nack? && r.tag == tag && !r.multiple && r.requeue
  {
    Nack(tag, false, true)
  }
}
