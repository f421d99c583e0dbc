/**
 * The Go log-saver: it consumes the "logs" queue with manual
 * acknowledgement and, for each delivery, either appends the raw body to the
 * Redis list "rabbitmq_messages" and acks, or nacks with requeue.
 */
module LogSaver {
  import opened Common
  import opened Amqp
  import Linq

  /** The queue consumed, and how it is declared. */
  const QueueName: string := "logs"
  const QueueFlags: QueueOptions := QueueOptions(durable := true, exclusive := false, autoDelete := false)
  /** `Consume(..., autoAck: false, ...)`: every delivery must be settled explicitly. */
  const AutoAck: bool := false

  /** The single Redis list every message is pushed onto. */
  const ListKey: string := "rabbitmq_messages"

  /** What the service does, in order: Redis pushes and delivery settlements. */
  datatype Action =
    | Pushed(key: string, value: seq<Byte>)
    | Replied(reply: Reply)

  /** The Redis list stored under `key` (an absent key reads as the empty list). */
  function ListAt(store: map<string, seq<seq<Byte>>>, key: string): seq<seq<Byte>> {
    if key in store then store[key] else []
  }

  /**
   * The actions of one iteration of the consume loop, given whether
   * `json.Unmarshal` accepts the body and whether the `RPUSH` succeeds.
   */
  function Step(d: Delivery, parsed: bool, pushed: bool): (r: seq<Action>)
    ensures |r| >= 1 && r[|r| - 1].Replied? && r[|r| - 1].reply.tag == d.tag
  {
    if !parsed then [Replied(Requeue(d.tag))]
    else if !pushed then [Replied(Requeue(d.tag))]
    else [Pushed(ListKey, d.body), Replied(Ack(d.tag, false))]
  }

  /** The actions of the loop over `ds`; `pushOk[i]` is the fate of the i-th push. */
  function Run(ds: seq<Delivery>, parse: seq<Byte> -> bool, pushOk: seq<bool>): seq<Action>
    requires |pushOk| == |ds|
    decreases |ds|
  {
    if ds == [] then []
    else
      var n := |ds| - 1;
      Run(ds[..n], parse, pushOk[..n]) + Step(ds[n], parse(ds[n].body), pushOk[n])
  }

  /** The bodies the loop over `ds` pushes, in order. */
  function StoredBodies(ds: seq<Delivery>, parse: seq<Byte> -> bool, pushOk: seq<bool>): seq<seq<Byte>>
    requires |pushOk| == |ds|
    decreases |ds|
  {
    if ds == [] then []
    else
      var n := |ds| - 1;
      StoredBodies(ds[..n], parse, pushOk[..n]) + (if parse(ds[n].body) && pushOk[n] then [ds[n].body] else [])
  }

  /** The number of settlements of delivery `tag` in `t`. */
  function Settlements(t: seq<Action>, tag: nat): nat
    decreases |t|
  {
    if t == [] then 0
    else Settlements(t[..|t| - 1], tag) + (if t[|t| - 1].Replied? && t[|t| - 1].reply.tag == tag then 1 else 0)
  }

  /** The values pushed onto `key` in `t`, in order. */
  function PushedTo(t: seq<Action>, key: string): seq<seq<Byte>>
    decreases |t|
  {
    if t == [] then []
    else PushedTo(t[..|t| - 1], key) + (if t[|t| - 1].Pushed? && t[|t| - 1].key == key then [t[|t| - 1].value] else [])
  }

  lemma {:induction false} SettlementsConcat(a: seq<Action>, b: seq<Action>, tag: nat)
    ensures Settlements(a + b, tag) == Settlements(a, tag) + Settlements(b, tag)
    decreases |b|
  {
    if b != [] {
      assert (a + b)[..|a + b| - 1] == a + b[..|b| - 1];
      SettlementsConcat(a, b[..|b| - 1], tag);
    } else {
      assert a + b == a;
    }
  }

  lemma {:induction false} PushedToConcat(a: seq<Action>, b: seq<Action>, key: string)
    ensures PushedTo(a + b, key) == PushedTo(a, key) + PushedTo(b, key)
    decreases |b|
  {
    if b != [] {
      assert (a + b)[..|a + b| - 1] == a + b[..|b| - 1];
      PushedToConcat(a, b[..|b| - 1], key);
    } else {
      assert a + b == a;
    }
  }

  /** One iteration settles its own delivery once and no other. */
  lemma StepSettlesOnce(d: Delivery, parsed: bool, pushed: bool, tag: nat)
    ensures Settlements(Step(d, parsed, pushed), tag) == if d.tag == tag then 1 else 0
    ensures PushedTo(Step(d, parsed, pushed), ListKey) == if parsed && pushed then [d.body] else []
  {
    var s := Step(d, parsed, pushed);
    if parsed && pushed {
      var p := [Pushed(ListKey, d.body)];
      assert s[..1] == p && p[..0] == [];
      assert Settlements(p, tag) == 0;
      assert PushedTo(p, ListKey) == [d.body];
    } else {
      assert s[..0] == [];
    }
  }

  /** The broker's delivery tags on one channel are distinct. */
  predicate DistinctTags(ds: seq<Delivery>) {
    forall i, j :: 0 <= i < j < |ds| ==> ds[i].tag != ds[j].tag
  }

  /** Some delivery of `ds` carries `tag`. */
  predicate Delivered(ds: seq<Delivery>, tag: nat) {
    exists i :: 0 <= i < |ds| && ds[i].tag == tag
  }

  /** A tag is delivered in `ds` when it is the last one's or delivered before it, and never both. */
  lemma DeliveredSnoc(ds: seq<Delivery>, tag: nat)
    requires ds != [] && DistinctTags(ds)
    ensures var n := |ds| - 1;
      DistinctTags(ds[..n]) &&
      (Delivered(ds, tag) <==> Delivered(ds[..n], tag) || ds[n].tag == tag) &&
      !(Delivered(ds[..n], tag) && ds[n].tag == tag)
  {
    var n := |ds| - 1;
    if Delivered(ds, tag) {
      var i :| 0 <= i < |ds| && ds[i].tag == tag;
      if i < n {
        assert ds[..n][i].tag == tag;
      }
    }
    if Delivered(ds[..n], tag) {
      var i :| 0 <= i < n && ds[..n][i].tag == tag;
      assert ds[i].tag == tag;
    }
  }

  /**
   * Every delivery of the loop is settled exactly once, and no other tag is
   * settled, provided the broker's delivery tags are distinct.
   */
  lemma {:induction false} RunSettlesEachOnce(ds: seq<Delivery>, parse: seq<Byte> -> bool, pushOk: seq<bool>, tag: nat)
    requires |pushOk| == |ds|
    requires DistinctTags(ds)
    ensures Settlements(Run(ds, parse, pushOk), tag) == if Delivered(ds, tag) then 1 else 0
    decreases |ds|
  {
    if ds != [] {
      var n := |ds| - 1;
      var d := ds[n];
      DeliveredSnoc(ds, tag);
      RunSettlesEachOnce(ds[..n], parse, pushOk[..n], tag);
      SettlementsConcat(Run(ds[..n], parse, pushOk[..n]), Step(d, parse(d.body), pushOk[n]), tag);
      StepSettlesOnce(d, parse(d.body), pushOk[n], tag);
    }
  }

  /** One more delivery extends the trace by its iteration and the stored bodies by its body if it was pushed. */
  lemma RunStep(ds: seq<Delivery>, parse: seq<Byte> -> bool, pushOk: seq<bool>, i: nat)
    requires |pushOk| == |ds| && i < |ds|
    ensures Run(ds[..i + 1], parse, pushOk[..i + 1]) ==
      Run(ds[..i], parse, pushOk[..i]) + Step(ds[i], parse(ds[i].body), pushOk[i])
    ensures StoredBodies(ds[..i + 1], parse, pushOk[..i + 1]) ==
      StoredBodies(ds[..i], parse, pushOk[..i]) + (if parse(ds[i].body) && pushOk[i] then [ds[i].body] else [])
  {
    assert ds[..i + 1][..i] == ds[..i];
    assert pushOk[..i + 1][..i] == pushOk[..i];
  }

  /** Only `RPUSH` onto `ListKey` ever happens, so the list's tail order is processing order. */
  lemma {:induction false} RunPushesOnlyToListKey(ds: seq<Delivery>, parse: seq<Byte> -> bool, pushOk: seq<bool>)
    requires |pushOk| == |ds|
    ensures forall a :: a in Run(ds, parse, pushOk) && a.Pushed? ==> a.key == ListKey
    ensures PushedTo(Run(ds, parse, pushOk), ListKey) == StoredBodies(ds, parse, pushOk)
    decreases |ds|
  {
    if ds != [] {
      var n := |ds| - 1;
      var d := ds[n];
      var s := Step(d, parse(d.body), pushOk[n]);
      RunPushesOnlyToListKey(ds[..n], parse, pushOk[..n]);
      PushedToConcat(Run(ds[..n], parse, pushOk[..n]), s, ListKey);
      StepSettlesOnce(d, parse(d.body), pushOk[n], 0);
    }
  }

  /** A trace in which every ack comes immediately after a push, and every push immediately before an ack. */
  predicate AckOnlyAfterPush(t: seq<Action>) {
    forall k {:trigger t[k]} :: 0 <= k < |t| ==>
      ((t[k].Replied? && t[k].reply.Ack?) <==> (k > 0 && t[k - 1].Pushed?))
  }

  /** The loop never acks a delivery before the push of its body has succeeded. */
  lemma {:induction false} RunAcksOnlyAfterPush(ds: seq<Delivery>, parse: seq<Byte> -> bool, pushOk: seq<bool>)
    requires |pushOk| == |ds|
    ensures AckOnlyAfterPush(Run(ds, parse, pushOk))
    ensures Run(ds, parse, pushOk) == [] || !Run(ds, parse, pushOk)[|Run(ds, parse, pushOk)| - 1].Pushed?
    decreases |ds|
  {
    if ds != [] {
      var n := |ds| - 1;
      var d := ds[n];
      var t0 := Run(ds[..n], parse, pushOk[..n]);
      var s := Step(d, parse(d.body), pushOk[n]);
      RunAcksOnlyAfterPush(ds[..n], parse, pushOk[..n]);
      assert s == [Replied(Requeue(d.tag))] || s == [Pushed(ListKey, d.body), Replied(Ack(d.tag, false))];
      var t := t0 + s;
      forall k | 0 <= k < |t|
        ensures (t[k].Replied? && t[k].reply.Ack?) <==> (k > 0 && t[k - 1].Pushed?)
      {
        if k < |t0| {
          assert t[k] == t0[k];
          if k > 0 { assert t[k - 1] == t0[k - 1]; }
        } else if k == |t0| {
          assert t[k] == s[0];
          assert !(s[0].Replied? && s[0].reply.Ack?);
          if k > 0 { assert t[k - 1] == t0[|t0| - 1]; }
        } else {
          assert |s| == 2 && k == |t0| + 1;
          assert t[k] == s[1] && t[k - 1] == s[0];
        }
      }
    }
  }

  /** A retry after a failed push stores the message once: the first attempt leaves no copy. */
  lemma RetryAfterFailedPushStoresOnce(body: seq<Byte>, tag1: nat, tag2: nat, parse: seq<Byte> -> bool)
    requires parse(body)
    ensures StoredBodies([Delivery(tag1, body), Delivery(tag2, body)], parse, [false, true]) == [body]
  {
    var ds, ok := [Delivery(tag1, body), Delivery(tag2, body)], [false, true];
    assert ds[..1] == [Delivery(tag1, body)] && ds[..1][..0] == [];
    assert ok[..1] == [false] && ok[..1][..0] == [];
    assert StoredBodies(ds[..1], parse, ok[..1]) == [];
  }

  /** A redelivery after a successful push (an ack lost in transit) stores a second copy. */
  lemma RedeliveryAfterPushStoresTwice(body: seq<Byte>, tag1: nat, tag2: nat, parse: seq<Byte> -> bool)
    requires parse(body)
    ensures StoredBodies([Delivery(tag1, body), Delivery(tag2, body)], parse, [true, true]) == [body, body]
  {
    var ds, ok := [Delivery(tag1, body), Delivery(tag2, body)], [true, true];
    assert ds[..1] == [Delivery(tag1, body)] && ds[..1][..0] == [];
    assert ok[..1] == [true] && ok[..1][..0] == [];
    assert StoredBodies(ds[..1], parse, ok[..1]) == [body];
  }

  /** Writing a key twice leaves the second value. */
  lemma OverwriteList(m: map<string, seq<seq<Byte>>>, key: string, a: seq<seq<Byte>>, b: seq<seq<Byte>>)
    ensures m[key := a][key := b] == m[key := b]
  {
    assert m[key := a][key := b].Keys == m[key := b].Keys;
  }

  /**
   * The store after `RPUSH`ing `bodies` one by one onto the list: Redis
   * creates the key on the first push and holds no empty list, so pushing
   * nothing leaves the store as it was.
   */
  function PushAll(store: map<string, seq<seq<Byte>>>, bodies: seq<seq<Byte>>): (r: map<string, seq<seq<Byte>>>)
    ensures ListAt(r, ListKey) == ListAt(store, ListKey) + bodies
    ensures ListKey in r <==> ListKey in store || bodies != []
    ensures forall k :: k != ListKey ==> (k in r <==> k in store) && (k in r ==> r[k] == store[k])
  {
    if bodies == [] then store else store[ListKey := ListAt(store, ListKey) + bodies]
  }

  /** One more push onto the list extends `PushAll` by that body. */
  lemma PushAllSnoc(m: map<string, seq<seq<Byte>>>, bodies: seq<seq<Byte>>, b: seq<Byte>)
    ensures PushAll(m, bodies)[ListKey := ListAt(PushAll(m, bodies), ListKey) + [b]] == PushAll(m, bodies + [b])
  {
    if bodies == [] {
      assert [] + [b] == [b];
    } else {
      OverwriteList(m, ListKey, ListAt(m, ListKey) + bodies, ListAt(m, ListKey) + bodies + [b]);
      Linq.AppendAssoc(ListAt(m, ListKey), bodies, [b]);
    }
  }

  /**
   * The service's effect on the world: the Redis store and the ordered record
   * of pushes and settlements.
   */
  class Service {
    var store: map<string, seq<seq<Byte>>>
    var trace: seq<Action>

    constructor (initial: map<string, seq<seq<Byte>>>)
      ensures store == initial && trace == []
    {
      store := initial;
      trace := [];
    }

    /** `storeMessage`: `RPUSH rabbitmq_messages msg`; `ok` is whether Redis reports success. */
    method StoreMessage(msg: seq<Byte>, ok: bool) returns (failed: bool)
      modifies this
      ensures failed == !ok
      ensures store == if ok then old(store)[ListKey := ListAt(old(store), ListKey) + [msg]] else old(store)
      ensures trace == old(trace) + if ok then [Pushed(ListKey, msg)] else []
    {
      failed := !ok;
      if ok {
        store := store[ListKey := ListAt(store, ListKey) + [msg]];
        trace := trace + [Pushed(ListKey, msg)];
      }
    }

    /** One iteration of the consume loop: parse, push, then settle the delivery. */
    method HandleDelivery(d: Delivery, parse: seq<Byte> -> bool, pushOk: bool)
      modifies this
      ensures trace == old(trace) + Step(d, parse(d.body), pushOk)
      ensures store == if parse(d.body) && pushOk
        then old(store)[ListKey := ListAt(old(store), ListKey) + [d.body]]
        else old(store)
    {
      if !parse(d.body) {
        trace := trace + [Replied(Requeue(d.tag))];
        return;
      }
      var failed := StoreMessage(d.body, pushOk);
      if failed {
        trace := trace + [Replied(Requeue(d.tag))];
        return;
      }
      trace := trace + [Replied(Ack(d.tag, false))];
    }

    /** The consume loop over the deliveries `ds`, in order. */
    method Consume(ds: seq<Delivery>, parse: seq<Byte> -> bool, pushOk: seq<bool>)
      requires |pushOk| == |ds|
      modifies this
      ensures trace == old(trace) + Run(ds, parse, pushOk)
      ensures store == PushAll(old(store), StoredBodies(ds, parse, pushOk))
    {
      assert ds[..0] == [] && pushOk[..0] == [];
      var i := 0;
      while i < |ds|
        invariant 0 <= i <= |ds|
        invariant trace == old(trace) + Run(ds[..i], parse, pushOk[..i])
        invariant store == PushAll(old(store), StoredBodies(ds[..i], parse, pushOk[..i]))
      {
        ghost var done := Run(ds[..i], parse, pushOk[..i]);
        ghost var step := Step(ds[i], parse(ds[i].body), pushOk[i]);
        HandleDelivery(ds[i], parse, pushOk[i]);
        RunStep(ds, parse, pushOk, i);
        Linq.AppendAssoc(old(trace), done, step);
        if parse(ds[i].body) && pushOk[i] {
          PushAllSnoc(old(store), StoredBodies(ds[..i], parse, pushOk[..i]), ds[i].body);
        } else {
          assert StoredBodies(ds[..i], parse, pushOk[..i]) + [] == StoredBodies(ds[..i], parse, pushOk[..i]);
        }
        i := i + 1;
      }
      assert ds[..i] == ds && pushOk[..i] == pushOk;
    }
  }

  /** Go's `unicode.IsSpace`: the whitespace `strings.TrimSpace` removes. */
  predicate IsSpace(c: char) {
    var n := c as int;
    (0x09 <= n <= 0x0D) || n == 0x20 || n == 0x85 || n == 0xA0 || n == 0x1680 ||
    (0x2000 <= n <= 0x200A) || n == 0x2028 || n == 0x2029 || n == 0x202F || n == 0x205F || n == 0x3000
  }

  /** `strings.TrimLeftFunc(s, unicode.IsSpace)`. */
  function TrimLeft(s: string): (r: string)
    ensures |r| <= |s|
    ensures r == s[|s| - |r|..]
    ensures forall i :: 0 <= i < |s| - |r| ==> IsSpace(s[i])
    ensures r == [] || !IsSpace(r[0])
  {
    if s != [] && IsSpace(s[0]) then TrimLeft(s[1..]) else s
  }

  /** `strings.TrimRightFunc(s, unicode.IsSpace)`. */
  function TrimRight(s: string): (r: string)
    ensures |r| <= |s|
    ensures r == s[..|r|]
    ensures forall i :: |r| <= i < |s| ==> IsSpace(s[i])
    ensures r == [] || !IsSpace(r[|r| - 1])
  {
    if s != [] && IsSpace(s[|s| - 1]) then TrimRight(s[..|s| - 1]) else s
  }

  /** `strings.TrimSpace`, which `mustReadSecret` applies to the secret file's contents. */
  function TrimSpace(s: string): string {
    TrimRight(TrimLeft(s))
  }

  /**
   * The trimmed secret is the contents with the leading and the trailing
   * whitespace removed: a slice of the input, bordered only by whitespace,
   * that neither starts nor ends with whitespace.
   */
  lemma TrimSpaceIsCore(s: string)
    ensures var r := TrimSpace(s);
      var lo := |s| - |TrimLeft(s)|;
      0 <= lo <= lo + |r| <= |s| && r == s[lo..lo + |r|] &&
      (forall i :: 0 <= i < lo ==> IsSpace(s[i])) &&
      (forall i :: lo + |r| <= i < |s| ==> IsSpace(s[i])) &&
      (r == [] || (!IsSpace(r[0]) && !IsSpace(r[|r| - 1])))
  {
    TrimSpaceSlice(s);
    TrimSpaceTrailing(s);
    TrimSpaceEnds(s);
  }

  /** The trimmed string is the slice of the input that starts where the left trim stopped. */
  lemma TrimSpaceSlice(s: string)
    ensures var r := TrimSpace(s);
      var lo := |s| - |TrimLeft(s)|;
      0 <= lo <= lo + |r| <= |s| && r == s[lo..lo + |r|]
  {
    var l := TrimLeft(s);
    var r := TrimRight(l);
    var lo := |s| - |l|;
    assert r == l[..|r|];
  }

  /** What `TrimRight` drops after the left trim is trailing whitespace of the input. */
  lemma TrimSpaceTrailing(s: string)
    ensures var lo := |s| - |TrimLeft(s)|;
      lo + |TrimSpace(s)| <= |s| &&
      forall i :: lo + |TrimSpace(s)| <= i < |s| ==> IsSpace(s[i])
  {
    var l := TrimLeft(s);
    SuffixTail(s, |s| - |l|, |TrimRight(l)|, IsSpace);
  }

  /** A property of the tail of the suffix `s[lo..]` from `k` on is one of `s` from `lo + k` on. */
  lemma SuffixTail<T>(s: seq<T>, lo: nat, k: nat, p: T -> bool)
    requires lo + k <= |s|
    requires forall i :: k <= i < |s[lo..]| ==> p(s[lo..][i])
    ensures forall i :: lo + k <= i < |s| ==> p(s[i])
  {
    forall i | lo + k <= i < |s| ensures p(s[i]) {
      assert s[i] == s[lo..][i - lo];
    }
  }

  /** The trimmed string neither starts nor ends with whitespace. */
  lemma TrimSpaceEnds(s: string)
    ensures var r := TrimSpace(s);
      r == [] || (!IsSpace(r[0]) && !IsSpace(r[|r| - 1]))
  {
    var l := TrimLeft(s);
    var r := TrimRight(l);
    if r != [] {
      assert r[0] == l[0];
    }
  }

  /** Surrounding a whitespace-free core with whitespace and trimming gives the core back. */
  lemma TrimSpaceRecoversCore(pre: string, core: string, post: string)
    requires forall i :: 0 <= i < |pre| ==> IsSpace(pre[i])
    requires forall i :: 0 <= i < |post| ==> IsSpace(post[i])
    requires core == [] || (!IsSpace(core[0]) && !IsSpace(core[|core| - 1]))
    ensures TrimSpace(pre + core + post) == core
  {
    var s := pre + core + post;
    if core != [] {
      assert s == pre + (core + post);
      TrimLeftSkipsSpace(pre, core + post);
      TrimRightSkipsSpace(core, post);
    }
  }

  lemma TrimLeftSkipsSpace(pre: string, rest: string)
    requires forall i :: 0 <= i < |pre| ==> IsSpace(pre[i])
    requires rest != [] && !IsSpace(rest[0])
    ensures TrimLeft(pre + rest) == rest
  {
    var s := pre + rest;
    var r := TrimLeft(s);
    assert r == s[|pre|..] == rest;
  }

  lemma TrimRightSkipsSpace(core: string, post: string)
    requires forall i :: 0 <= i < |post| ==> IsSpace(post[i])
    requires core != [] && !IsSpace(core[|core| - 1])
    ensures TrimRight(core + post) == core
  {
    var s := core + post;
    var r := TrimRight(s);
    assert r == s[..|core|] == core;
  }

  /** Trimming twice is trimming once. */
  lemma TrimSpaceIdempotent(s: string)
    ensures TrimSpace(TrimSpace(s)) == TrimSpace(s)
  {
    var r := TrimSpace(s);
    TrimSpaceIsCore(s);
    TrimSpaceRecoversCore([], r, []);
    assert [] + r + [] == r;
  }

  /** `strings.Split(addr, ":")[0]`, the TLS `ServerName`: the part before the first ':'. */
  function HostPart(addr: string): (r: string)
    ensures |r| <= |addr| && r == addr[..|r|]
    ensures ':' !in r
    ensures |r| < |addr| ==> addr[|r|] == ':'
  {
    if addr == [] || addr[0] == ':' then [] else [addr[0]] + HostPart(addr[1..])
  }

  /** A `host:port` address, with a host that has no ':', yields the host. */
  lemma HostPartOfHostPort(host: string, port: string)
    requires ':' !in host
    ensures HostPart(host + ":" + port) == host
  {
    var a := host + ":" + port;
    assert a[|host|] == ':';
    assert a[..|host|] == host;
  }

  /** An address without ':' is taken whole. */
  lemma HostPartWithoutPort(addr: string)
    requires ':' !in addr
    ensures HostPart(addr) == addr
  {
  }
}
