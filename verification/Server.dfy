/** The dispatch of src/server.hpp: what one message does, as a function and as a method. */
module Server {
  import opened Bytes
  import opened Topics
  import opened Subscriptions
  import Broker
  import W = Wire
  import Cereals
  import MqttMessages

  const CONNACK_OK: Bytes := [32, 2, 0, 0]
  const PINGRESP: Bytes := [0xd0, 0]

  /** The acknowledgements that the server builds by hand. */
  function SubackBytes(id: u16): Bytes { [0x90, 3, id / 256, id % 256, 0] }

  function UnsubackBytes(id: u16): Bytes { [0xb0, 2, id / 256, id % 256] }

  /** The hand-built acknowledgements are the encodings of the acknowledgement messages. */
  lemma AcknowledgementsAreEncoded(id: u16)
    ensures SubackBytes(id) == W.EncSuback(W.Suback(W.Header(W.SUBACK, false, 0, false, 3), id, [0]))
    ensures UnsubackBytes(id) == W.EncUnsuback(W.Unsuback(W.Header(W.UNSUBACK, false, 0, false, 2), id))
  {
    assert W.EncLength(3) == [3] && W.EncLength(2) == [2];
  }

  /** The server reads no byte beyond the end of the message. */
  predicate Acceptable(m: Bytes) {
    && m != []
    && (W.MessageType(m) == W.PUBLISH ==> W.HasPublishTopic(m))
    && (W.MessageType(m) == W.SUBSCRIBE ==> W.ParseSubscribe(m).Some?)
    && (W.MessageType(m) == W.UNSUBSCRIBE ==> W.ParseUnsubscribe(m).Some?)
  }

  /** An encoded PUBLISH with a one-digit length is acceptable unless it ends with the length of an
      empty topic: four bytes, of which getPublishTopic asks for a fifth. */
  lemma PublishAcceptableIff(m: W.Publish)
    requires m.header.kind == W.PUBLISH && W.Short(m.topic) && W.Counted(m) && m.header.remaining < 128
    ensures Acceptable(W.EncPublish(m)) <==> m.header.remaining > 2
  {
    W.PublishTopicIff(m);
    assert W.EncPublish(m)[0] == W.FirstByte(m.header);
  }

  /** One message from `c`: the broker's new state and what is sent. Where the C++ would read out of
      bounds the value is arbitrary; the method below excludes that case. */
  function Served(s: State, c: Client, m: Bytes): (State, seq<Event>) {
    if !Acceptable(m) then (s, [])
    else if W.MessageType(m) == W.CONNECT then (s, [Message(c, CONNACK_OK)])
    else if W.MessageType(m) == W.PINGREQ then (s, [Message(c, PINGRESP)])
    else if W.MessageType(m) == W.PUBLISH then Step(s, Publish(W.PublishTopic(m), m))
    else if W.MessageType(m) == W.SUBSCRIBE then
      var msg := W.ParseSubscribe(m).value;
      (Subscribed(s, c, Names(msg.topics)), [Message(c, SubackBytes(msg.msgId))])
    else if W.MessageType(m) == W.UNSUBSCRIBE then
      var msg := W.ParseUnsubscribe(m).value;
      (Unsubscribed(s, c, msg.topics), [Message(c, UnsubackBytes(msg.msgId))])
    else if W.MessageType(m) == W.DISCONNECT then (Unsubscribed(s, c, []), [Disconnected(c)])
    else (s, [])
  }

  // ---------- message by message, in bytes ----------

  /** Which messages are acceptable, by the type in the upper half of the first byte. */
  lemma AcceptableByType(m: Bytes)
    ensures Acceptable(m) <==>
            && m != []
            && (m[0] / 16 == 3 ==> |m| < 4 || (4 < |m| && 4 + 256 * m[2] + m[3] <= |m|))
            && (m[0] / 16 == 8 ==> W.ParseSubscribe(m).Some?)
            && (m[0] / 16 == 10 ==> W.ParseUnsubscribe(m).Some?)
  {
  }

  /** The types that change nothing: CONNECT and PINGREQ are answered, any other is ignored. */
  lemma AnsweredOnly(s: State, c: Client, m: Bytes)
    requires m != [] && m[0] / 16 !in {3, 8, 10, 14}
    ensures Served(s, c, m).0 == s
    ensures m[0] / 16 == 1 ==> Served(s, c, m).1 == [Message(c, [32, 2, 0, 0])]
    ensures m[0] / 16 == 12 ==> Served(s, c, m).1 == [Message(c, [0xd0, 0])]
    ensures m[0] / 16 !in {1, 12} ==> Served(s, c, m).1 == []
  {
  }

  /** DISCONNECT, type 14, removes all records of its sender, keeps everybody else's and closes the
      connection. */
  lemma DisconnectServed(s: State, c: Client, m: Bytes, r: Record)
    requires m != [] && m[0] / 16 == 14
    ensures Served(s, c, m).1 == [Disconnected(c)]
    ensures multiset(Served(s, c, m).0.live)[r] == if r.client == c then 0 else multiset(s.live)[r]
  {
    UnsubscribeRemoves(s.live, c, [], r);
  }

  /** SUBSCRIBE, type 8, appends one record per topic and is acknowledged with its id. */
  lemma SubscribeServed(s: State, c: Client, m: Bytes)
    requires m != [] && m[0] / 16 == 8 && W.ParseSubscribe(m).Some?
    ensures var (s', log) := Served(s, c, m);
            var msg := W.ParseSubscribe(m).value;
            && log == [Message(c, [0x90, 3, msg.msgId / 256, msg.msgId % 256, 0])]
            && |s'.live| == |s.live| + |msg.topics| && s'.live[..|s.live|] == s.live
            && forall k :: 0 <= k < |msg.topics| ==> s'.live[|s.live| + k] == Record(c, msg.topics[k].topic)
  {
    SubscribedRecords(s, c, W.ParseSubscribe(m).value.topics);
  }

  /** UNSUBSCRIBE, type 10, removes its sender's records for the topics in it (all of them, if there is
      none), no other record, and is acknowledged with its id. */
  lemma UnsubscribeServed(s: State, c: Client, m: Bytes, r: Record)
    requires m != [] && m[0] / 16 == 10 && W.ParseUnsubscribe(m).Some?
    ensures var (s', log) := Served(s, c, m);
            var msg := W.ParseUnsubscribe(m).value;
            && log == [Message(c, [0xb0, 2, msg.msgId / 256, msg.msgId % 256])]
            && multiset(s'.live)[r] ==
               if r.client == c && (msg.topics == [] || r.filter in msg.topics) then 0 else multiset(s.live)[r]
  {
    UnsubscribeRemoves(s.live, c, W.ParseUnsubscribe(m).value.topics, r);
  }

  /** PUBLISH, type 3, changes no record and hands the message itself, byte for byte, to the subscribers
      that the walk finds, as often and in the order in which it finds them. */
  lemma PublishServed(s: State, c: Client, m: Bytes)
    requires CacheSound(s) && Acceptable(m) && m[0] / 16 == 3
    ensures var (s', log) := Served(s, c, m);
            var cs := Deliver(s.live, W.PublishTopic(m));
            && s'.live == s.live && |log| == |cs|
            && forall k :: 0 <= k < |log| ==> log[k] == Message(cs[k], m)
  {
  }

  /** Whatever the state, a message of type 3 that is sent is the one just received. */
  lemma SentAsReceived(s: State, c: Client, m: Bytes, e: Event)
    requires e in Served(s, c, m).1
    ensures m != [] && m[0] / 16 == 3 ==> e == Message(e.to, m)
    ensures e.Message? && e.bytes != [] && e.bytes[0] / 16 == 3 ==> m != [] && m[0] / 16 == 3 && e.bytes == m
  {
  }

  lemma SubscribeFrame(s: State, c: Client, m: W.Subscribe)
    requires m.header.kind == 8 && W.ShortTopics(m.topics) && m.header.remaining < W.MAX_REMAINING
    ensures Served(s, c, W.EncSubscribe(m)).0 == Subscribed(s, c, Names(m.topics))
  {
    W.SubscribeRoundTrip(m);
    assert W.EncSubscribe(m)[0] == W.FirstByte(m.header);
  }

  lemma UnsubscribeFrame(s: State, c: Client, m: W.Unsubscribe)
    requires m.header.kind == 10 && W.AllShort(m.topics) && m.header.remaining < W.MAX_REMAINING
    ensures Served(s, c, W.EncUnsubscribe(m)).0 == Unsubscribed(s, c, m.topics)
  {
    W.UnsubscribeRoundTrip(m);
    assert W.EncUnsubscribe(m)[0] == W.FirstByte(m.header);
  }

  /** What an encoded SUBSCRIBE means for deliveries: on every wildcard-free topic the sender gets as many
      more as filters in it match, and nobody else any more or fewer. */
  lemma SubscribeDelivers(s: State, c: Client, m: W.Subscribe, topic: String, d: Client)
    requires m.header.kind == 8 && W.ShortTopics(m.topics) && m.header.remaining < W.MAX_REMAINING
    requires NoWildcards(Split(topic))
    requires forall k :: 0 <= k < |m.topics| ==> HashOnlyLast(Split(m.topics[k].topic))
    ensures multiset(Deliver(Served(s, c, W.EncSubscribe(m)).0.live, topic))[d] ==
            multiset(Deliver(s.live, topic))[d] + if d == c then CountMatches(m.topics, Split(topic)) else 0
  {
    SubscribeFrame(s, c, m);
    SubscribedDeliveries(s, c, m.topics, topic, d);
  }

  /** What an encoded UNSUBSCRIBE means for deliveries: on every topic none of the sender's records that
      it names is reached any more, and every other record as often as before. */
  lemma UnsubscribeDelivers(s: State, c: Client, m: W.Unsubscribe, topic: String, r: Record)
    requires m.header.kind == 10 && W.AllShort(m.topics) && m.header.remaining < W.MAX_REMAINING
    ensures multiset(Hits(Served(s, c, W.EncUnsubscribe(m)).0.live, topic))[r] ==
            if r.client == c && (m.topics == [] || r.filter in m.topics) then 0 else multiset(Hits(s.live, topic))[r]
  {
    UnsubscribeFrame(s, c, m);
    UnsubscribedDeliveries(s, c, m.topics, topic, r);
  }

  datatype Input = Input(from: Client, bytes: Bytes)

  /** A run of messages from any clients, in the order in which the server gets them. */
  function ServeAll(s: State, inputs: seq<Input>): (State, seq<Event>)
    decreases |inputs|
  {
    if inputs == [] then (s, []) else
      var (s1, log1) := ServeAll(s, inputs[..|inputs| - 1]);
      var last := inputs[|inputs| - 1];
      var (s2, log2) := Served(s1, last.from, last.bytes);
      (s2, log1 + log2)
  }

  lemma ServeSnoc(s: State, inputs: seq<Input>, i: Input)
    ensures ServeAll(s, inputs + [i]) ==
            var (s1, log1) := ServeAll(s, inputs);
            var (s2, log2) := Served(s1, i.from, i.bytes);
            (s2, log1 + log2)
  {
    assert (inputs + [i])[..|inputs|] == inputs;
  }

  lemma {:induction false} ServeAppend(s: State, a: seq<Input>, b: seq<Input>)
    ensures ServeAll(s, a + b) ==
            var (s1, log1) := ServeAll(s, a);
            var (s2, log2) := ServeAll(s1, b);
            (s2, log1 + log2)
    decreases |b|
  {
    if b == [] {
      assert a + b == a && ServeAll(s, a).1 + [] == ServeAll(s, a).1;
    } else {
      var init, last := b[..|b| - 1], b[|b| - 1];
      ServeAppend(s, a, init);
      assert b == init + [last];
      Associate(a, init, [last]);
      ServeSnoc(s, a + init, last);
      ServeSnoc(ServeAll(s, a).0, init, last);
      Associate(ServeAll(s, a).1, ServeAll(ServeAll(s, a).0, init).1,
                Served(ServeAll(s, a + init).0, last.from, last.bytes).1);
    }
  }

  predicate IsPublication(e: Event) { e.Message? && e.bytes != [] && e.bytes[0] / 16 == 3 }

  /** Every publication in the log of a run is byte for byte some PUBLISH among the messages received,
      and was sent when that one was served. */
  lemma {:induction false} PublicationsAreInputs(s: State, inputs: seq<Input>, e: Event) returns (i: nat)
    requires e in ServeAll(s, inputs).1 && IsPublication(e)
    ensures i < |inputs| && e.bytes == inputs[i].bytes
    ensures e in Served(ServeAll(s, inputs[..i]).0, inputs[i].from, inputs[i].bytes).1
    decreases |inputs|
  {
    var n := |inputs| - 1;
    if e in ServeAll(s, inputs[..n]).1 {
      i := PublicationsAreInputs(s, inputs[..n], e);
      assert inputs[..n][..i] == inputs[..i];
    } else {
      i := n;
      SentAsReceived(ServeAll(s, inputs[..n]).0, inputs[n].from, inputs[n].bytes, e);
    }
  }

  // ---------- the server ----------

  class MqttServer {
    const broker: Broker.MqttBroker

    ghost predicate Valid()
      reads broker`live, broker`nodes, broker.nodes.Values
    {
      broker.Valid()
    }

    ghost function State(): State
      reads broker`live, broker`cache
    {
      broker.State()
    }

    constructor (useCache: bool, net: Broker.Network)
      ensures Valid() && State() == Start(useCache) && broker.net == net
      ensures fresh(broker) && fresh(broker.nodes.Values)
    {
      broker := new Broker.MqttBroker(useCache, net);
    }

    /** The server's validity depends on its broker and the broker's nodes alone. */
    twostate lemma Undisturbed()
      requires old(Valid()) && unchanged(broker, old(broker.nodes.Values))
      ensures Valid()
    {
    }

    /** Nodes are only ever added. */
    method NewMessage(connection: Client, bytes: Bytes)
      requires Valid() && Acceptable(bytes)
      modifies broker`cache, broker`live, broker`nodes, broker.nodes.Values, broker.net
      ensures Valid() && fresh(broker.nodes.Values - old(broker.nodes.Values))
      ensures State() == Served(old(State()), connection, bytes).0
      ensures broker.net.events == old(broker.net.events) + Served(old(State()), connection, bytes).1
    {
      var kind := W.MessageType(bytes);
      if kind == W.CONNECT {
        broker.net.NewMessage(connection, CONNACK_OK);
      } else if kind == W.PINGREQ {
        broker.net.NewMessage(connection, PINGRESP);
      } else if kind == W.PUBLISH {
        broker.Publish(W.PublishTopic(bytes), bytes);
      } else if kind == W.SUBSCRIBE {
        HandleSubscribe(connection, bytes);
      } else if kind == W.UNSUBSCRIBE {
        HandleUnsubscribe(connection, bytes);
      } else if kind == W.DISCONNECT {
        broker.Unsubscribe(connection, []);
        broker.net.Disconnect(connection);
      }
    }

    /** The SUBSCRIBE case of newMessage. */
    method HandleSubscribe(connection: Client, bytes: Bytes)
      requires Valid() && W.ParseSubscribe(bytes).Some?
      modifies broker`cache, broker`live, broker`nodes, broker.nodes.Values, broker.net
      ensures Valid() && fresh(broker.nodes.Values - old(broker.nodes.Values))
      ensures var msg := W.ParseSubscribe(bytes).value;
              && State() == Subscribed(old(State()), connection, Names(msg.topics))
              && broker.net.events == old(broker.net.events) + [Message(connection, SubackBytes(msg.msgId))]
    {
      var msg := DecodeSubscribe(bytes);
      broker.Subscribe(connection, msg.topics);
      FreshValues(old(broker.nodes), broker.nodes);
      var suback: Bytes := [0x90, 3, 0, 0, 0];
      suback := suback[2 := msg.msgId / 256];
      suback := suback[3 := msg.msgId % 256];
      assert suback == SubackBytes(msg.msgId);
      broker.net.NewMessage(connection, suback);
    }

    /** The UNSUBSCRIBE case of newMessage. */
    method HandleUnsubscribe(connection: Client, bytes: Bytes)
      requires Valid() && W.ParseUnsubscribe(bytes).Some?
      modifies broker`cache, broker`live, broker.nodes.Values, broker.net
      ensures Valid()
      ensures var msg := W.ParseUnsubscribe(bytes).value;
              && State() == Unsubscribed(old(State()), connection, msg.topics)
              && broker.net.events == old(broker.net.events) + [Message(connection, UnsubackBytes(msg.msgId))]
    {
      var msg := DecodeUnsubscribe(bytes);
      broker.Unsubscribe(connection, msg.topics);
      broker.net.NewMessage(connection, [0xb0, 2, msg.msgId / 256, msg.msgId % 256]);
    }
  }

  twostate lemma FreshValues(nodes: map<Path, Broker.Node>, new nodes': map<Path, Broker.Node>)
    requires forall p :: p in nodes ==> p in nodes' && nodes'[p] == nodes[p]
    requires forall p :: p in nodes' && p !in nodes ==> fresh(nodes'[p])
    ensures fresh(nodes'.Values - nodes.Values)
  {
  }

  /** The header is read, the reader reset, and then the whole message read. */
  method DecodeSubscribe(bytes: Bytes) returns (msg: MqttMessages.MqttSubscribe)
    requires W.ParseSubscribe(bytes).Some?
    ensures fresh(msg) && fresh(msg.header) && W.ParseSubscribe(bytes) == Some(msg.Value())
  {
    var dec := new Cereals.Cereal.Reader(bytes);
    var hdr := new MqttMessages.MqttFixedHeader(W.Header(0, false, 0, false, 0));
    hdr.Cerealise(dec);
    dec.Reset();
    msg := new MqttMessages.MqttSubscribe(hdr);
    msg.Cerealise(dec);
  }

  method DecodeUnsubscribe(bytes: Bytes) returns (msg: MqttMessages.MqttUnsubscribe)
    requires W.ParseUnsubscribe(bytes).Some?
    ensures fresh(msg) && fresh(msg.header) && W.ParseUnsubscribe(bytes) == Some(msg.Value())
  {
    var dec := new Cereals.Cereal.Reader(bytes);
    var hdr := new MqttMessages.MqttFixedHeader(W.Header(0, false, 0, false, 0));
    hdr.Cerealise(dec);
    dec.Reset();
    msg := new MqttMessages.MqttUnsubscribe(hdr);
    msg.Cerealise(dec);
  }

  // ---------- silence after disconnect ----------

  predicate NoRecordsOf(live: seq<Record>, c: Client) { forall r :: r in live ==> r.client != c }

  predicate SubscribesAs(i: Input, c: Client) {
    i.from == c && i.bytes != [] && W.MessageType(i.bytes) == W.SUBSCRIBE
  }

  /** An event that hands somebody's publication to `c`. */
  predicate PublicationTo(e: Event, c: Client) {
    e.Message? && e.to == c && e.bytes != [] && W.MessageType(e.bytes) == W.PUBLISH
  }

  lemma {:induction false} GatherMember(live: seq<Record>, prefix: Path, ps: seq<Path>, r: Record)
    requires r in Gather(live, prefix, ps)
    ensures r in live
  {
    if ps != [] {
      if r in Gather(live, prefix, ps[..|ps| - 1]) {
        GatherMember(live, prefix, ps[..|ps| - 1], r);
      } else {
        FilterMember(AtPath(prefix + ps[|ps| - 1]), live, r);
      }
    }
  }

  lemma NothingDelivered(s: State, topic: String, bytes: Bytes, c: Client, e: Event)
    requires CacheSound(s) && NoRecordsOf(s.live, c)
    requires e in Step(s, Publish(topic, bytes)).1
    ensures e.to != c
  {
    var hits := Hits(s.live, topic);
    var log := Messages(Clients(hits), bytes);
    assert Step(s, Publish(topic, bytes)).1 == log;
    var k :| 0 <= k < |log| && log[k] == e;
    GatherMember(s.live, [], Visited(Split(topic)), hits[k]);
  }

  lemma KeepMember(live: seq<Record>, c: Client, topics: seq<String>, r: Record)
    requires r in Keep(live, c, topics)
    ensures r in live && !IsSubscriber(r, c, topics)
  {
    FilterMember(NotSubscriber(c, topics), live, r);
  }

  lemma ServedSilently(s: State, i: Input, c: Client)
    requires CacheSound(s) && NoRecordsOf(s.live, c) && !SubscribesAs(i, c)
    ensures CacheSound(Served(s, i.from, i.bytes).0) && NoRecordsOf(Served(s, i.from, i.bytes).0.live, c)
    ensures forall e :: e in Served(s, i.from, i.bytes).1 ==> !PublicationTo(e, c)
  {
    var (s', log) := Served(s, i.from, i.bytes);
    ServedSound(s, i.from, i.bytes);
    forall r | r in s'.live ensures r.client != c {
      if r !in s.live && W.MessageType(i.bytes) != W.SUBSCRIBE {
        if W.MessageType(i.bytes) == W.UNSUBSCRIBE {
          KeepMember(s.live, i.from, W.ParseUnsubscribe(i.bytes).value.topics, r);
        } else {
          KeepMember(s.live, i.from, [], r);
        }
      }
    }
    forall e | e in log ensures !PublicationTo(e, c) {
      if Acceptable(i.bytes) && W.MessageType(i.bytes) == W.PUBLISH {
        NothingDelivered(s, W.PublishTopic(i.bytes), i.bytes, c, e);
      }
    }
  }

  lemma ServedSound(s: State, c: Client, m: Bytes)
    requires CacheSound(s)
    ensures CacheSound(Served(s, c, m).0)
    ensures Served(Uncached(s), c, m) == (Uncached(Served(s, c, m).0), Served(s, c, m).1)
  {
    if Acceptable(m) && W.MessageType(m) == W.PUBLISH {
      StepUncached(s, Publish(W.PublishTopic(m), m));
    }
  }

  lemma {:induction false} ServeAllSound(s: State, inputs: seq<Input>)
    requires CacheSound(s)
    ensures CacheSound(ServeAll(s, inputs).0)
    ensures ServeAll(Uncached(s), inputs) == (Uncached(ServeAll(s, inputs).0), ServeAll(s, inputs).1)
    decreases |inputs|
  {
    if inputs != [] {
      var init, last := inputs[..|inputs| - 1], inputs[|inputs| - 1];
      ServeAllSound(s, init);
      ServedSound(ServeAll(s, init).0, last.from, last.bytes);
    }
  }

  lemma {:induction false} SilentWithoutRecords(s: State, inputs: seq<Input>, c: Client)
    requires CacheSound(s) && NoRecordsOf(s.live, c)
    requires forall i :: i in inputs ==> !SubscribesAs(i, c)
    ensures CacheSound(ServeAll(s, inputs).0) && NoRecordsOf(ServeAll(s, inputs).0.live, c)
    ensures forall e :: e in ServeAll(s, inputs).1 ==> !PublicationTo(e, c)
    decreases |inputs|
  {
    if inputs != [] {
      var init, last := inputs[..|inputs| - 1], inputs[|inputs| - 1];
      SilentWithoutRecords(s, init, c);
      ServedSilently(ServeAll(s, init).0, last, c);
    }
  }

  /** In every run, after a DISCONNECT from `c` nobody's publication reaches `c` until `c` sends a
      SUBSCRIBE. */
  lemma SilentAfterDisconnect(useCache: bool, before: seq<Input>, bye: Bytes, after: seq<Input>, c: Client)
    requires bye != [] && W.MessageType(bye) == W.DISCONNECT
    requires forall i :: i in after ==> !SubscribesAs(i, c)
    ensures var s := ServeAll(Start(useCache), before + [Input(c, bye)]).0;
            forall e :: e in ServeAll(s, after).1 ==> !PublicationTo(e, c)
  {
    ServeAllSound(Start(useCache), before);
    ServeSnoc(Start(useCache), before, Input(c, bye));
    var s0 := ServeAll(Start(useCache), before).0;
    var s := Served(s0, c, bye).0;
    ServedSound(s0, c, bye);
    forall r | r in s.live ensures r.client != c {
      KeepMember(s0.live, c, [], r);
    }
    SilentWithoutRecords(s, after, c);
  }
}
