/**
 The messages of src/message.hpp as values, the bytes they are written as, and parsers that say
 what a reader makes of any bytes at all. A parser returns None where the C++ reader would run
 past the end of its input or overflow.
 */
module Wire {
  import opened Bytes
  import opened Topics

  type nibble = x: int | 0 <= x < 16
  type twoBits = x: int | 0 <= x < 4

  const CONNECT: nibble := 1
  const PUBLISH: nibble := 3
  const SUBSCRIBE: nibble := 8
  const SUBACK: nibble := 9
  const UNSUBSCRIBE: nibble := 10
  const UNSUBACK: nibble := 11
  const PINGREQ: nibble := 12
  const DISCONNECT: nibble := 14

  /** MqttFixedHeader::SIZE. */
  const HEADER_SIZE: nat := 2

  /** Section 2.2.3 of MQTT 3.1.1: four digits to base 128 at most. */
  const MAX_REMAINING: nat := 0x1000_0000

  datatype Header = Header(kind: nibble, dup: bool, qos: twoBits, retain: bool, remaining: nat)

  datatype Publish = Publish(header: Header, topic: String, payload: Bytes, msgId: u16)
  datatype Subscribe = Subscribe(header: Header, msgId: u16, topics: seq<Topic>)
  datatype Unsubscribe = Unsubscribe(header: Header, msgId: u16, topics: seq<String>)
  datatype Suback = Suback(header: Header, msgId: u16, qos: Bytes)
  datatype Unsuback = Unsuback(header: Header, msgId: u16)

  // ---------- integers and strings ----------

  /** (hi << 8) + lo */
  function U16(hi: byte, lo: byte): u16 {
    var high: int := hi;
    high * 256 + lo
  }

  function EncU16(x: u16): Bytes { [x / 256, x % 256] }

  predicate Short(s: String) { |s| < 65536 }

  function EncString(s: String): Bytes
    requires Short(s)
  {
    EncU16(|s|) + s
  }

  function ParseU16(b: Bytes): (r: Option<(u16, Bytes)>)
    ensures r.Some? ==> |b| == |r.value.1| + 2
  {
    if |b| < 2 then None else Some((U16(b[0], b[1]), b[2..]))
  }

  function ParseString(b: Bytes): (r: Option<(String, Bytes)>)
    ensures r.Some? ==> Short(r.value.0) && |b| == |r.value.1| + |r.value.0| + 2
  {
    var (n, rest) :- ParseU16(b);
    if n <= |rest| then Some((rest[..n], rest[n..])) else None
  }

  lemma U16RoundTrip(x: u16, tail: Bytes)
    ensures ParseU16(EncU16(x) + tail) == Some((x, tail))
  {
    var b := EncU16(x) + tail;
    assert b[0] == x / 256 && b[1] == x % 256 && b[2..] == tail;
  }

  lemma StringRoundTrip(s: String, tail: Bytes)
    requires Short(s)
    ensures ParseString(EncString(s) + tail) == Some((s, tail))
  {
    Associate(EncU16(|s|), s, tail);
    U16RoundTrip(|s|, s + tail);
    assert (s + tail)[..|s|] == s && (s + tail)[|s|..] == tail;
  }

  // ---------- the remaining length ----------

  /** Digits to base 128, least significant first; all but the last carry the top bit. */
  function EncLength(n: nat): (b: Bytes)
    ensures |b| >= 1
  {
    if n < 128 then [n] else [n % 128 + 128] + EncLength(n / 128)
  }

  function ParseDigits(b: Bytes, most: nat): (r: Option<(nat, Bytes)>)
    ensures r.Some? ==> |r.value.1| < |b|
  {
    if most == 0 || b == [] then None
    else if b[0] < 128 then Some((b[0], b[1..]))
    else
      var (n, rest) :- ParseDigits(b[1..], most - 1);
      Some((b[0] - 128 + 128 * n, rest))
  }

  function ParseLength(b: Bytes): (r: Option<(nat, Bytes)>)
    ensures r.Some? ==> |r.value.1| < |b|
  {
    ParseDigits(b, 4)
  }

  function Power128(k: nat): nat { if k == 0 then 1 else 128 * Power128(k - 1) }

  lemma {:induction false} DigitsRoundTrip(n: nat, most: nat, tail: Bytes)
    requires most > 0 && n < Power128(most)
    ensures ParseDigits(EncLength(n) + tail, most) == Some((n, tail))
  {
    var b := EncLength(n) + tail;
    if n < 128 {
      assert b[1..] == tail;
    } else {
      assert Power128(1) == 128;
      DigitsRoundTrip(n / 128, most - 1, tail);
      assert b[1..] == EncLength(n / 128) + tail;
    }
  }

  /** Reading what was written gives the length back and consumes just its digits, whatever follows. */
  lemma LengthRoundTrip(n: nat, tail: Bytes)
    requires n < MAX_REMAINING
    ensures ParseLength(EncLength(n) + tail) == Some((n, tail))
  {
    assert Power128(4) == MAX_REMAINING;
    DigitsRoundTrip(n, 4, tail);
  }

  /** As many digits as the number needs to base 128, and no more. */
  lemma {:induction false} LengthDigits(n: nat, k: nat)
    ensures |EncLength(n)| <= k + 1 <==> n < Power128(k + 1)
  {
    if n >= 128 && k > 0 {
      LengthDigits(n / 128, k - 1);
      assert |EncLength(n)| == 1 + |EncLength(n / 128)|;
      assert Power128(k + 1) == 128 * Power128(k);
    } else {
      assert Power128(1) == 128;
      PowerGrows(k + 1);
    }
  }

  /** The k-th digit of `n` to base 128, the lowest being number zero. */
  function Digit(n: nat, k: nat): nat { if k == 0 then n % 128 else Digit(n / 128, k - 1) }

  /** Digit by digit, the lowest first, with the top bit set on all but the last. */
  lemma {:induction false} DigitAt(n: nat, k: nat)
    requires k < |EncLength(n)|
    ensures EncLength(n)[k] == Digit(n, k) + if k < |EncLength(n)| - 1 then 128 else 0
  {
    if k > 0 {
      DigitAt(n / 128, k - 1);
    }
  }

  lemma {:induction false} PowerGrows(k: nat)
    requires k > 0
    ensures Power128(k) >= 128
  {
    if k > 1 { PowerGrows(k - 1); }
  }

  // ---------- the fixed header ----------

  function Bit(b: bool): nat { if b then 1 else 0 }

  function FirstByte(h: Header): byte {
    h.kind * 16 + Bit(h.dup) * 8 + h.qos * 2 + Bit(h.retain)
  }

  function EncHeader(h: Header): (b: Bytes)
    ensures |b| >= HEADER_SIZE
  {
    [FirstByte(h)] + EncLength(h.remaining)
  }

  function ParseHeader(b: Bytes): (r: Option<(Header, Bytes)>)
    ensures r.Some? ==> |r.value.1| < |b|
  {
    if b == [] then None else
      var (n, rest) :- ParseLength(b[1..]);
      Some((Header(b[0] / 16, b[0] / 8 % 2 == 1, b[0] / 2 % 4, b[0] % 2 == 1, n), rest))
  }

  lemma HeaderRoundTrip(h: Header, tail: Bytes)
    requires h.remaining < MAX_REMAINING
    ensures ParseHeader(EncHeader(h) + tail) == Some((h, tail))
  {
    var b := EncHeader(h) + tail;
    assert b[1..] == EncLength(h.remaining) + tail;
    LengthRoundTrip(h.remaining, tail);
  }

  // ---------- PUBLISH ----------

  function EncPublish(m: Publish): Bytes
    requires Short(m.topic)
  {
    EncHeader(m.header) + EncString(m.topic) + (if m.header.qos > 0 then EncU16(m.msgId) else []) + m.payload
  }

  /** The value of MqttPublish's constructor: the remaining length counts what follows the header. */
  function NewPublish(dup: bool, qos: twoBits, retain: bool, topic: String, payload: Bytes, msgId: u16): Publish {
    var topicLen := |topic| + 2;
    var remaining := (if qos > 0 then topicLen + 2 else topicLen) + |payload|;
    Publish(Header(PUBLISH, dup, qos, retain, remaining), topic, payload, msgId)
  }

  predicate Counted(m: Publish) {
    m.header.remaining == |m.topic| + 2 + (if m.header.qos > 0 then 2 else 0) + |m.payload|
  }

  /** The message id is skipped when the remaining length is below 7, whatever the topic's length. */
  function ParsePublish(b: Bytes): Option<(Publish, Bytes)> {
    var (h, b1) :- ParseHeader(b);
    var (topic, b2) :- ParseString(b1);
    ParsePublishBody(h, topic, b2)
  }

  function ParsePublishBody(h: Header, topic: String, b2: Bytes): Option<(Publish, Bytes)> {
    var payloadLen := h.remaining - (|topic| + HEADER_SIZE);
    if h.qos > 0 && h.remaining >= 7 then
      var (id, b3) :- ParseU16(b2);
      TakePayload(h, topic, id, payloadLen - 2, b3)
    else
      TakePayload(h, topic, 0, payloadLen, b2)
  }

  function TakePayload(h: Header, topic: String, id: u16, n: int, b: Bytes): Option<(Publish, Bytes)> {
    if 0 <= n <= |b| then Some((Publish(h, topic, b[..n], id), b[n..])) else None
  }

  /** The constructor's remaining length is the number of bytes after the fixed header. */
  lemma RemainingCounts(m: Publish)
    requires Short(m.topic) && Counted(m)
    ensures |EncPublish(m)| == |EncHeader(m.header)| + m.header.remaining
  {
  }

  lemma ParseToBody(m: Publish, tail: Bytes)
    requires Short(m.topic) && m.header.remaining < MAX_REMAINING
    ensures var body := (if m.header.qos > 0 then EncU16(m.msgId) else []) + m.payload + tail;
            && ParseHeader(EncPublish(m) + tail) == Some((m.header, EncString(m.topic) + body))
            && ParseString(EncString(m.topic) + body) == Some((m.topic, body))
  {
    var id := if m.header.qos > 0 then EncU16(m.msgId) else [];
    var body := id + m.payload + tail;
    assert EncPublish(m) + tail == EncHeader(m.header) + (EncString(m.topic) + body);
    HeaderRoundTrip(m.header, EncString(m.topic) + body);
    StringRoundTrip(m.topic, body);
  }

  /** Without an id, or with an id and a remaining length of at least 7, all comes back. */
  lemma PublishRoundTrip(m: Publish, tail: Bytes)
    requires Short(m.topic) && Counted(m) && m.header.remaining < MAX_REMAINING
    requires if m.header.qos == 0 then m.msgId == 0 else |m.topic| + |m.payload| >= 3
    ensures ParsePublish(EncPublish(m) + tail) == Some((m, tail))
  {
    ParseToBody(m, tail);
    var rest := m.payload + tail;
    assert rest[..|m.payload|] == m.payload && rest[|m.payload|..] == tail;
    if m.header.qos > 0 {
      Associate(EncU16(m.msgId), m.payload, tail);
      U16RoundTrip(m.msgId, rest);
    } else {
      assert [] + m.payload + tail == rest;
    }
  }

  /** A short message with an id: the reader takes the id's two bytes for payload. */
  lemma ShortPublishMisread(m: Publish, tail: Bytes)
    requires Short(m.topic) && Counted(m) && m.header.qos > 0 && |m.topic| + |m.payload| < 3
    ensures ParsePublish(EncPublish(m) + tail) ==
            Some((m.(payload := EncU16(m.msgId) + m.payload, msgId := 0), tail))
  {
    ParseToBody(m, tail);
    assert |EncU16(m.msgId)| == 2;
    var body := EncU16(m.msgId) + m.payload;
    assert (body + tail)[..|body|] == body && (body + tail)[|body|..] == tail;
  }

  /** PUBLISH survives encoding and decoding exactly when it carries no id at all or its topic and
      payload together have at least three bytes. */
  lemma PublishRoundTripIff(m: Publish, tail: Bytes)
    requires Short(m.topic) && Counted(m) && m.header.remaining < MAX_REMAINING
    ensures ParsePublish(EncPublish(m) + tail) == Some((m, tail)) <==>
            if m.header.qos == 0 then m.msgId == 0 else |m.topic| + |m.payload| >= 3
  {
    if m.header.qos == 0 {
      PublishRoundTrip(m.(msgId := 0), tail);
      assert EncPublish(m) == EncPublish(m.(msgId := 0));
    } else if |m.topic| + |m.payload| >= 3 {
      PublishRoundTrip(m, tail);
    } else {
      ShortPublishMisread(m, tail);
      assert |EncU16(m.msgId) + m.payload| != |m.payload|;
    }
  }

  /** What becomes of the constructor's parameters on the wire: flags, topic and quality of service
      always come back, payload and id under the same condition as above. */
  lemma NewPublishRoundTrip(dup: bool, qos: twoBits, retain: bool, t: String, p: Bytes, id: u16, tail: Bytes)
    requires Short(t) && |t| + |p| + 4 < MAX_REMAINING
    ensures var parsed := ParsePublish(EncPublish(NewPublish(dup, qos, retain, t, p, id)) + tail);
            && parsed.Some? && parsed.value.1 == tail
            && var m := parsed.value.0;
            && m.header.kind == 3 && m.header.dup == dup && m.header.qos == qos && m.header.retain == retain
            && m.topic == t
            && (m.payload == p && m.msgId == id <==> if qos == 0 then id == 0 else |t| + |p| >= 3)
  {
    var m := NewPublish(dup, qos, retain, t, p, id);
    if qos == 0 {
      PublishRoundTrip(m.(msgId := 0), tail);
      assert EncPublish(m) == EncPublish(m.(msgId := 0));
    } else if |t| + |p| >= 3 {
      PublishRoundTrip(m, tail);
    } else {
      ShortPublishMisread(m, tail);
      assert |EncU16(id) + p| != |p|;
    }
  }

  // ---------- SUBSCRIBE, UNSUBSCRIBE and their acknowledgements ----------

  predicate ShortTopics(ts: seq<Topic>) { forall k :: 0 <= k < |ts| ==> Short(ts[k].topic) }

  predicate AllShort(names: seq<String>) { forall k :: 0 <= k < |names| ==> Short(names[k]) }

  function EncTopic(t: Topic): Bytes
    requires Short(t.topic)
  {
    EncString(t.topic) + [t.qos]
  }

  function EncTopics(ts: seq<Topic>): Bytes
    requires ShortTopics(ts)
  {
    if ts == [] then [] else EncTopic(ts[0]) + EncTopics(ts[1..])
  }

  function EncStrings(ss: seq<String>): Bytes
    requires AllShort(ss)
  {
    if ss == [] then [] else EncString(ss[0]) + EncStrings(ss[1..])
  }

  function ParseTopic(b: Bytes): (r: Option<(Topic, Bytes)>)
    ensures r.Some? ==> |r.value.1| < |b|
  {
    var (name, rest) :- ParseString(b);
    if rest == [] then None else Some((Topic(name, rest[0]), rest[1..]))
  }

  /** Topics until the input is used up. */
  function ParseTopics(b: Bytes): Option<seq<Topic>>
    decreases |b|
  {
    if b == [] then Some([]) else
      var (t, rest) :- ParseTopic(b);
      var ts :- ParseTopics(rest);
      Some([t] + ts)
  }

  function ParseStrings(b: Bytes): Option<seq<String>>
    decreases |b|
  {
    if b == [] then Some([]) else
      var (s, rest) :- ParseString(b);
      var ss :- ParseStrings(rest);
      Some([s] + ss)
  }

  function EncSubscribe(m: Subscribe): Bytes
    requires ShortTopics(m.topics)
  {
    EncHeader(m.header) + EncU16(m.msgId) + EncTopics(m.topics)
  }

  function EncUnsubscribe(m: Unsubscribe): Bytes
    requires AllShort(m.topics)
  {
    EncHeader(m.header) + EncU16(m.msgId) + EncStrings(m.topics)
  }

  function EncSuback(m: Suback): Bytes { EncHeader(m.header) + EncU16(m.msgId) + m.qos }

  function EncUnsuback(m: Unsuback): Bytes { EncHeader(m.header) + EncU16(m.msgId) }

  function ParseSubscribe(b: Bytes): Option<Subscribe> {
    var (h, b1) :- ParseHeader(b);
    var (id, b2) :- ParseU16(b1);
    var topics :- ParseTopics(b2);
    Some(Subscribe(h, id, topics))
  }

  function ParseUnsubscribe(b: Bytes): Option<Unsubscribe> {
    var (h, b1) :- ParseHeader(b);
    var (id, b2) :- ParseU16(b1);
    var topics :- ParseStrings(b2);
    Some(Unsubscribe(h, id, topics))
  }

  function ParseSuback(b: Bytes): Option<Suback> {
    var (h, b1) :- ParseHeader(b);
    var (id, b2) :- ParseU16(b1);
    Some(Suback(h, id, b2))
  }

  function ParseUnsuback(b: Bytes): Option<(Unsuback, Bytes)> {
    var (h, b1) :- ParseHeader(b);
    var (id, b2) :- ParseU16(b1);
    Some((Unsuback(h, id), b2))
  }

  lemma TopicRoundTrip(t: Topic, tail: Bytes)
    requires Short(t.topic)
    ensures ParseTopic(EncTopic(t) + tail) == Some((t, tail))
  {
    Associate(EncString(t.topic), [t.qos], tail);
    StringRoundTrip(t.topic, [t.qos] + tail);
    assert ([t.qos] + tail)[1..] == tail;
  }

  lemma NextTopic(b: Bytes, t: Topic, rest: Bytes, ts: seq<Topic>)
    requires ParseTopic(b) == Some((t, rest)) && ParseTopics(rest) == Some(ts)
    ensures ParseTopics(b) == Some([t] + ts)
  {
  }

  lemma {:induction false} TopicsRoundTrip(ts: seq<Topic>)
    requires ShortTopics(ts)
    ensures ParseTopics(EncTopics(ts)) == Some(ts)
  {
    if ts != [] {
      var t, more := ts[0], ts[1..];
      TopicsRoundTrip(more);
      TopicRoundTrip(t, EncTopics(more));
      NextTopic(EncTopic(t) + EncTopics(more), t, EncTopics(more), more);
      assert ts == [t] + more;
    }
  }

  lemma {:induction false} StringsRoundTrip(ss: seq<String>)
    requires AllShort(ss)
    ensures ParseStrings(EncStrings(ss)) == Some(ss)
  {
    if ss != [] {
      StringsRoundTrip(ss[1..]);
      StringRoundTrip(ss[0], EncStrings(ss[1..]));
      assert ParseString(EncStrings(ss)) == Some((ss[0], EncStrings(ss[1..])));
      assert ss == [ss[0]] + ss[1..];
    }
  }

  lemma IdRoundTrip(h: Header, id: u16, tail: Bytes)
    requires h.remaining < MAX_REMAINING
    ensures ParseHeader(EncHeader(h) + EncU16(id) + tail) == Some((h, EncU16(id) + tail))
    ensures ParseU16(EncU16(id) + tail) == Some((id, tail))
  {
    Associate(EncHeader(h), EncU16(id), tail);
    HeaderRoundTrip(h, EncU16(id) + tail);
    U16RoundTrip(id, tail);
  }

  lemma SubscribeRoundTrip(m: Subscribe)
    requires ShortTopics(m.topics) && m.header.remaining < MAX_REMAINING
    ensures ParseSubscribe(EncSubscribe(m)) == Some(m)
  {
    IdRoundTrip(m.header, m.msgId, EncTopics(m.topics));
    TopicsRoundTrip(m.topics);
  }

  lemma UnsubscribeRoundTrip(m: Unsubscribe)
    requires AllShort(m.topics) && m.header.remaining < MAX_REMAINING
    ensures ParseUnsubscribe(EncUnsubscribe(m)) == Some(m)
  {
    IdRoundTrip(m.header, m.msgId, EncStrings(m.topics));
    StringsRoundTrip(m.topics);
  }

  lemma SubackRoundTrip(m: Suback)
    requires m.header.remaining < MAX_REMAINING
    ensures ParseSuback(EncSuback(m)) == Some(m)
  {
    IdRoundTrip(m.header, m.msgId, m.qos);
  }

  lemma UnsubackRoundTrip(m: Unsuback, tail: Bytes)
    requires m.header.remaining < MAX_REMAINING
    ensures ParseUnsuback(EncUnsuback(m) + tail) == Some((m, tail))
  {
    IdRoundTrip(m.header, m.msgId, tail);
  }

  // ---------- byte for byte ----------

  /** PUBLISH with the duplicate flag and quality of service 2, byte for byte: the type and the flags,
      the remaining length, the topic behind its length, the id, the payload. */
  lemma PublishBytes(n: nat, topic: String, id: u16, payload: Bytes)
    requires Short(topic) && n == |topic| + |payload| + 4 < 128 && n >= 7
    ensures ParsePublish([0x3c, n] + ([|topic| / 256, |topic| % 256] + topic) + [id / 256, id % 256] + payload) ==
            Some((Publish(Header(3, true, 2, false, n), topic, payload, id), []))
  {
    var m := Publish(Header(3, true, 2, false, n), topic, payload, id);
    PublishRoundTrip(m, []);
    PublishHead(m);
    assert FirstByte(m.header) == 0x3c;
  }

  lemma PublishHead(m: Publish)
    requires Short(m.topic) && m.header.qos > 0 && m.header.remaining < 128
    ensures EncPublish(m) + [] == [FirstByte(m.header), m.header.remaining]
                                  + ([|m.topic| / 256, |m.topic| % 256] + m.topic)
                                  + [m.msgId / 256, m.msgId % 256] + m.payload
  {
    assert EncHeader(m.header) == [FirstByte(m.header), m.header.remaining];
    assert EncPublish(m) + [] == EncPublish(m);
  }

  /** SUBSCRIBE with two topics: the type and the flags, the remaining length, the id, and for each
      topic its name behind its length and then the quality of service. */
  lemma SubscribeBytes(n: nat, id: u16, a: Topic, b: Topic)
    requires n < 128 && Short(a.topic) && Short(b.topic)
    ensures ParseSubscribe([0x8b, n, id / 256, id % 256]
                           + ([|a.topic| / 256, |a.topic| % 256] + a.topic + [a.qos]
                              + ([|b.topic| / 256, |b.topic| % 256] + b.topic + [b.qos]))) ==
            Some(Subscribe(Header(8, true, 1, true, n), id, [a, b]))
  {
    var m := Subscribe(Header(8, true, 1, true, n), id, [a, b]);
    OneTopic(b);
    assert m.topics[1..] == [b];
    SubscribeRoundTrip(m);
    HeadBytes(m.header, id, EncTopics(m.topics));
  }

  /** UNSUBSCRIBE from two topics: the same without the qualities of service. */
  lemma UnsubscribeBytes(n: nat, id: u16, a: String, b: String)
    requires n < 128 && Short(a) && Short(b)
    ensures ParseUnsubscribe([0xa2, n, id / 256, id % 256]
                             + ([|a| / 256, |a| % 256] + a + ([|b| / 256, |b| % 256] + b))) ==
            Some(Unsubscribe(Header(10, false, 1, false, n), id, [a, b]))
  {
    var m := Unsubscribe(Header(10, false, 1, false, n), id, [a, b]);
    OneString(b);
    assert m.topics[1..] == [b];
    UnsubscribeRoundTrip(m);
    HeadBytes(m.header, id, EncStrings(m.topics));
  }

  lemma HeadBytes(h: Header, id: u16, rest: Bytes)
    requires h.remaining < 128
    ensures EncHeader(h) + EncU16(id) + rest == [FirstByte(h), h.remaining, id / 256, id % 256] + rest
  {
    assert EncHeader(h) == [FirstByte(h), h.remaining];
    assert EncHeader(h) + EncU16(id) == [FirstByte(h), h.remaining, id / 256, id % 256];
  }

  lemma OneTopic(t: Topic)
    requires Short(t.topic)
    ensures EncTopics([t]) == [|t.topic| / 256, |t.topic| % 256] + t.topic + [t.qos]
  {
    assert [t][1..] == [];
    assert EncTopic(t) + [] == EncTopic(t);
  }

  lemma OneString(s: String)
    requires Short(s)
    ensures EncStrings([s]) == [|s| / 256, |s| % 256] + s
  {
    assert [s][1..] == [];
    assert EncString(s) + [] == EncString(s);
  }

  // ---------- single-byte shortcuts ----------

  /** getMessageType. */
  function MessageType(b: Bytes): nibble
    requires b != []
  {
    b[0] / 16
  }

  /** The bytes that getPublishTopic reads exist; it indexes byte 4 even for an empty topic. */
  predicate HasPublishTopic(b: Bytes) {
    |b| < 4 || (4 < |b| && 4 + U16(b[2], b[3]) <= |b|)
  }

  /** getPublishTopic: the topic starts at byte 4, and a message of under 4 bytes has none. */
  function PublishTopic(b: Bytes): String
    requires HasPublishTopic(b)
  {
    if |b| < 4 then [] else b[4..4 + U16(b[2], b[3])]
  }

  /** getPublishTopic stays within an encoded PUBLISH with a one-digit length, and finds its topic,
      exactly when anything follows the topic's length. */
  lemma PublishTopicIff(m: Publish)
    requires Short(m.topic) && Counted(m) && m.header.remaining < 128
    ensures HasPublishTopic(EncPublish(m)) <==> m.header.remaining > 2
    ensures m.header.remaining > 2 ==> PublishTopic(EncPublish(m)) == m.topic
  {
    var b := EncPublish(m);
    var tail := (if m.header.qos > 0 then EncU16(m.msgId) else []) + m.payload;
    assert EncHeader(m.header) == [FirstByte(m.header), m.header.remaining];
    assert b == EncHeader(m.header) + EncU16(|m.topic|) + m.topic + tail;
    assert b[2] == |m.topic| / 256 && b[3] == |m.topic| % 256;
    assert b[4..4 + |m.topic|] == m.topic;
  }

  /** The one-byte remaining length of src/stream.hpp:57-58 is the full decoder's for every header
      whose second byte has no continuation bit. */
  lemma LengthShortcut(b: Bytes)
    requires |b| >= HEADER_SIZE && b[1] < 128
    ensures ParseHeader(b).Some? && ParseHeader(b).value == (ParseHeader(b).value.0, b[2..])
    ensures ParseHeader(b).value.0.remaining == b[1] && ParseHeader(b).value.0.kind == MessageType(b)
  {
    assert b[1..][0] == b[1] && b[1..][1..] == b[2..];
  }

  /** Wherever the full decoder reads a PUBLISH with a one-byte length and a byte after the topic's
      length, the shortcut finds the same topic. */
  lemma TopicShortcut(b: Bytes)
    requires |b| > 4 && b[1] < 128 && ParsePublish(b).Some?
    ensures HasPublishTopic(b) && PublishTopic(b) == ParsePublish(b).value.0.topic
  {
    LengthShortcut(b);
    var b1 := b[2..];
    assert b1[0] == b[2] && b1[1] == b[3] && b1[2..] == b[4..];
    var n := U16(b[2], b[3]);
    assert b[4..][..n] == b[4..4 + n];
  }
}
