/**
 The message classes of src/message.hpp. Each Cerealise serves both directions, as in the source:
 with a writer it emits the object's value, with a reader it overwrites the object.
 */
module MqttMessages {
  import opened Bytes
  import opened Topics
  import opened Bits
  import opened BitFields
  import opened Wire
  import opened Cereals

  class MqttFixedHeader {
    var kind: nibble
    var dup: bool
    var qos: twoBits
    var retain: bool
    var remaining: nat

    ghost function Value(): Header
      reads this
    {
      Header(kind, dup, qos, retain, remaining)
    }

    constructor (h: Header)
      ensures Value() == h
    {
      kind, dup, qos, retain, remaining := h.kind, h.dup, h.qos, h.retain, h.remaining;
    }

    constructor Copy(h: MqttFixedHeader)
      ensures Value() == h.Value()
    {
      kind, dup, qos, retain, remaining := h.kind, h.dup, h.qos, h.retain, h.remaining;
    }

    method Cerealise(c: Cereal)
      requires c.Valid() && c.Aligned() && (c.reading ==> ParseHeader(c.Left()).Some?)
      modifies this, c
      ensures c.Valid()
      ensures c.reading ==> c.bytes == old(c.bytes) && c.Aligned()
      ensures c.reading ==> ParseHeader(old(c.Left())) == Some((Value(), c.Left()))
      ensures !c.reading ==> c.bytes == old(c.bytes) + EncHeader(Value()) && Value() == old(Value())
    {
      CerealiseFlags(c);
      if c.reading {
        HeaderByFields(old(c.Left()), Value());
        remaining := GetRemainingSize(c);
      } else {
        SetRemainingSize(c);
        Associate(old(c.bytes), [FirstByte(Value())], EncLength(remaining));
      }
    }

    /** The four bit fields of the first byte. */
    method CerealiseFlags(c: Cereal)
      requires c.Valid() && c.Aligned() && (c.reading ==> c.Left() != [])
      modifies this, c
      ensures c.Valid()
      ensures c.reading ==> c.bytes == old(c.bytes) && c.Aligned() && c.Left() == old(c.Left())[1..]
      ensures c.reading ==> FirstByte(Value()) == old(c.Left())[0]
      ensures !c.reading ==> c.bytes == old(c.bytes) + [FirstByte(Value())] && Value() == old(Value())
      ensures remaining == old(remaining)
    {
      var k, d, q, r := GrainFlags(c, kind, Bit(dup), qos, Bit(retain));
      kind, dup, qos, retain := k, d != 0, q, r != 0;
    }

    /** Section 2.2.3 of MQTT 3.1.1; `multiplier` stays within 2^28, so an int cannot overflow. */
    method GetRemainingSize(c: Cereal) returns (value: nat)
      requires c.Valid() && c.reading && ParseLength(c.Left()).Some?
      modifies c`pos, c`bytes
      ensures c.Valid() && c.bytes == old(c.bytes)
      ensures ParseLength(old(c.Left())) == Some((value, c.Left()))
    {
      var multiplier: nat := 1;
      value := 0;
      var more := true;
      ghost var k: nat := 0;
      ghost var (high, rest) := ParseLength(c.Left()).value;
      ghost var total := high;
      while more
        invariant c.Valid() && c.bytes == old(c.bytes) && k <= 4
        invariant multiplier == Power128(k) <= MAX_REMAINING
        invariant more ==> ParseDigits(c.Left(), 4 - k) == Some((high, rest)) && total == value + Scale(high, k)
        invariant !more ==> total == value && rest == c.Left()
        decreases 4 - k, more
      {
        var digit: byte;
        ghost var higher := high;
        digit, high := ReadDigit(c, 4 - k, high, rest);
        NextDigit(higher, digit % 128, high, k, multiplier);
        value := value + (digit % 128) * multiplier;
        multiplier := multiplier * 128;
        more := digit >= 128;
        k := k + 1;
      }
    }

    /** One digit of a remaining length of at most `most` digits. */
    method ReadDigit(c: Cereal, ghost most: nat, ghost value: nat, ghost rest: Bytes)
      returns (digit: byte, ghost high: nat)
      requires c.Valid() && c.reading && ParseDigits(c.Left(), most) == Some((value, rest))
      modifies c`pos, c`bytes
      ensures c.Valid() && c.bytes == old(c.bytes) && most > 0
      ensures digit >= 128 ==> most > 1 && ParseDigits(c.Left(), most - 1) == Some((high, rest))
      ensures digit < 128 ==> rest == c.Left() && high == 0
      ensures value == digit as int % 128 + 128 * high
    {
      ghost var left := c.Left();
      digit := c.GrainByte(0);
      high := if digit < 128 then 0 else ParseDigits(left[1..], most - 1).value.0;
    }

    method SetRemainingSize(c: Cereal)
      requires c.Valid() && !c.reading
      modifies c`pos, c`bytes
      ensures c.Valid() && c.bytes == old(c.bytes) + EncLength(remaining)
    {
      var digits := RemainingDigits(remaining);
      var _ := c.GrainChars(digits);
    }
  }

  class MqttPublish {
    const header: MqttFixedHeader
    var topic: String
    var payload: Bytes
    var msgId: u16

    ghost function Value(): Publish
      reads this, header
    {
      Publish(header.Value(), topic, payload, msgId)
    }

    constructor FromHeader(h: MqttFixedHeader)
      ensures fresh(header) && Value() == Publish(h.Value(), [], [], 0)
    {
      header := new MqttFixedHeader.Copy(h);
      topic, payload, msgId := [], [], 0;
    }

    constructor (dup: bool, qos: twoBits, retain: bool, t: String, p: Bytes, mid: u16)
      ensures fresh(header) && Value() == NewPublish(dup, qos, retain, t, p, mid) && Counted(Value())
      ensures topic == t && payload == p && msgId == mid
      ensures header.kind == 3 && header.dup == dup && header.qos == qos && header.retain == retain
    {
      var topicLen := |t| + 2;
      var remaining := if qos > 0 then topicLen + 2 else topicLen;
      remaining := remaining + |p|;
      header := new MqttFixedHeader(Header(PUBLISH, dup, qos, retain, remaining));
      topic, payload, msgId := t, p, mid;
    }

    /** A reader needs a message whose id is still the constructor's zero, since it may not read one. */
    method Cerealise(c: Cereal)
      requires c.Valid() && c.Aligned()
      requires c.reading ==> ParsePublish(c.Left()).Some? && msgId == 0
      requires !c.reading ==> Short(topic)
      modifies this, header, c
      ensures c.Valid()
      ensures c.reading ==> c.bytes == old(c.bytes) && c.Aligned()
      ensures c.reading ==> ParsePublish(old(c.Left())) == Some((Value(), c.Left()))
      ensures !c.reading ==> Value() == old(Value()) && Short(topic)
      ensures !c.reading ==> c.bytes == old(c.bytes) + EncPublish(Value())
    {
      header.Cerealise(c);
      topic := c.GrainString(topic);
      CerealiseBody(c);
      if !c.reading {
        PublishPieces(old(c.bytes), Value(), c.bytes);
      }
    }

    /** The message id, if there is one, and the payload. */
    method CerealiseBody(c: Cereal)
      requires c.Valid()
      requires c.reading ==> ParsePublishBody(header.Value(), topic, c.Left()).Some? && msgId == 0
      modifies this`msgId, this`payload, c`bytes, c`pos
      ensures c.Valid()
      ensures c.reading ==> c.bytes == old(c.bytes)
      ensures c.reading ==> ParsePublishBody(header.Value(), topic, old(c.Left())) == Some((Value(), c.Left()))
      ensures !c.reading ==> Value() == old(Value())
      ensures !c.reading ==>
                c.bytes == old(c.bytes) + (if header.qos > 0 then EncU16(msgId) else []) + payload
    {
      var payloadLen := header.remaining - (|topic| + HEADER_SIZE);
      if header.qos > 0 {
        if header.remaining < 7 && c.reading {
          // PUBLISH message with QOS but no message id
        } else {
          msgId := c.GrainU16(msgId);
          payloadLen := payloadLen - 2;
        }
      }
      if c.reading {
        payload := Resized(payload, payloadLen);
      }
      payload := c.GrainChars(payload);
    }
  }

  /** A message is built and written by one side and read by the other, which knows nothing but the
      bytes. */
  method PublishOverTheWire(dup: bool, qos: twoBits, retain: bool, t: String, p: Bytes, mid: u16)
    returns (m: MqttPublish)
    requires Short(t) && |t| + |p| + 4 < MAX_REMAINING
    ensures fresh(m) && fresh(m.header)
    ensures m.header.kind == 3 && m.header.dup == dup && m.header.qos == qos && m.header.retain == retain
    ensures m.topic == t
    ensures m.payload == p && m.msgId == mid <==> if qos == 0 then mid == 0 else |t| + |p| >= 3
  {
    var bytes := WritePublish(dup, qos, retain, t, p, mid);
    NewPublishRoundTrip(dup, qos, retain, t, p, mid, []);
    assert bytes + [] == bytes;
    m := ReadPublish(bytes);
  }

  method WritePublish(dup: bool, qos: twoBits, retain: bool, t: String, p: Bytes, mid: u16) returns (bytes: Bytes)
    requires Short(t)
    ensures bytes == EncPublish(NewPublish(dup, qos, retain, t, p, mid))
  {
    var original := new MqttPublish(dup, qos, retain, t, p, mid);
    var enc := new Cereal.Writer();
    original.Cerealise(enc);
    bytes := enc.bytes;
  }

  /** The header is read, the reader reset, and then the whole message read. */
  method ReadPublish(bytes: Bytes) returns (m: MqttPublish)
    requires ParsePublish(bytes).Some?
    ensures fresh(m) && fresh(m.header) && ParsePublish(bytes).value.0 == m.Value()
  {
    var dec := new Cereal.Reader(bytes);
    var hdr := new MqttFixedHeader(Header(0, false, 0, false, 0));
    hdr.Cerealise(dec);
    dec.Reset();
    m := new MqttPublish.FromHeader(hdr);
    m.Cerealise(dec);
  }

  lemma PublishPieces(before: Bytes, m: Publish, after: Bytes)
    requires Short(m.topic)
    requires after == before + EncHeader(m.header) + EncString(m.topic)
                      + (if m.header.qos > 0 then EncU16(m.msgId) else []) + m.payload
    ensures after == before + EncPublish(m)
  {
  }

  class MqttSubscribe {
    const header: MqttFixedHeader
    var msgId: u16
    var topics: seq<Topic>

    ghost function Value(): Subscribe
      reads this, header
    {
      Subscribe(header.Value(), msgId, topics)
    }

    constructor (h: MqttFixedHeader)
      ensures fresh(header) && Value() == Subscribe(h.Value(), 0, [])
    {
      header := new MqttFixedHeader.Copy(h);
      msgId, topics := 0, [];
    }

    method Cerealise(c: Cereal)
      requires c.Valid() && c.Aligned()
      requires c.reading ==> ParseSubscribe(c.Left()).Some?
      requires !c.reading ==> ShortTopics(topics)
      modifies this, header, c
      ensures c.Valid()
      ensures c.reading ==> ParseSubscribe(old(c.Left())) == Some(Value()) && c.Left() == []
      ensures !c.reading ==> Value() == old(Value()) && ShortTopics(topics)
      ensures !c.reading ==> c.bytes == old(c.bytes) + EncSubscribe(Value())
    {
      header.Cerealise(c);
      msgId := c.GrainU16(msgId);
      topics := GrainTopics(c, topics);
      if !c.reading {
        ThreePieces(old(c.bytes), EncHeader(header.Value()), EncU16(msgId), EncTopics(topics));
      }
    }
  }

  class MqttUnsubscribe {
    const header: MqttFixedHeader
    var msgId: u16
    var topics: seq<String>

    ghost function Value(): Unsubscribe
      reads this, header
    {
      Unsubscribe(header.Value(), msgId, topics)
    }

    constructor (h: MqttFixedHeader)
      ensures fresh(header) && Value() == Unsubscribe(h.Value(), 0, [])
    {
      header := new MqttFixedHeader.Copy(h);
      msgId, topics := 0, [];
    }

    method Cerealise(c: Cereal)
      requires c.Valid() && c.Aligned()
      requires c.reading ==> ParseUnsubscribe(c.Left()).Some?
      requires !c.reading ==> AllShort(topics)
      modifies this, header, c
      ensures c.Valid()
      ensures c.reading ==> ParseUnsubscribe(old(c.Left())) == Some(Value()) && c.Left() == []
      ensures !c.reading ==> Value() == old(Value()) && AllShort(topics)
      ensures !c.reading ==> c.bytes == old(c.bytes) + EncUnsubscribe(Value())
    {
      header.Cerealise(c);
      msgId := c.GrainU16(msgId);
      topics := GrainStrings(c, topics);
      if !c.reading {
        ThreePieces(old(c.bytes), EncHeader(header.Value()), EncU16(msgId), EncStrings(topics));
      }
    }
  }

  class MqttSuback {
    const header: MqttFixedHeader
    var msgId: u16
    var qos: Bytes

    ghost function Value(): Suback
      reads this, header
    {
      Suback(header.Value(), msgId, qos)
    }

    constructor (m: u16, q: Bytes)
      ensures fresh(header) && Value() == Suback(Header(SUBACK, false, 0, false, |q| + 2), m, q)
    {
      header := new MqttFixedHeader(Header(SUBACK, false, 0, false, |q| + 2));
      msgId, qos := m, q;
    }

    method Cerealise(c: Cereal)
      requires c.Valid() && c.Aligned() && (c.reading ==> ParseSuback(c.Left()).Some?)
      modifies this, header, c
      ensures c.Valid()
      ensures c.reading ==> ParseSuback(old(c.Left())) == Some(Value()) && c.Left() == []
      ensures !c.reading ==> Value() == old(Value()) && c.bytes == old(c.bytes) + EncSuback(Value())
    {
      header.Cerealise(c);
      msgId := c.GrainU16(msgId);
      qos := GrainRawBytes(c, qos);
      if !c.reading {
        ThreePieces(old(c.bytes), EncHeader(header.Value()), EncU16(msgId), qos);
      }
    }
  }

  class MqttUnsuback {
    const header: MqttFixedHeader
    var msgId: u16

    ghost function Value(): Unsuback
      reads this, header
    {
      Unsuback(header.Value(), msgId)
    }

    constructor (m: u16)
      ensures fresh(header) && Value() == Unsuback(Header(UNSUBACK, false, 0, false, 2), m)
    {
      header := new MqttFixedHeader(Header(UNSUBACK, false, 0, false, 2));
      msgId := m;
    }

    method Cerealise(c: Cereal)
      requires c.Valid() && c.Aligned() && (c.reading ==> ParseUnsuback(c.Left()).Some?)
      modifies this, header, c
      ensures c.Valid()
      ensures c.reading ==> ParseUnsuback(old(c.Left())) == Some((Value(), c.Left()))
      ensures !c.reading ==> Value() == old(Value()) && c.bytes == old(c.bytes) + EncUnsuback(Value())
    {
      header.Cerealise(c);
      msgId := c.GrainU16(msgId);
      if !c.reading {
        Associate(old(c.bytes), EncHeader(header.Value()), EncU16(msgId));
      }
    }
  }

  lemma ThreePieces(before: Bytes, a: Bytes, b: Bytes, d: Bytes)
    ensures before + a + b + d == before + (a + b + d)
  {
  }

  // ---------- Cereal::grainRawArray, for topics, strings and bytes ----------

  method GrainTopic(c: Cereal, val: Topic) returns (r: Topic)
    requires c.Valid()
    requires c.reading ==> ParseTopic(c.Left()).Some?
    requires !c.reading ==> Short(val.topic)
    modifies c`bytes, c`pos
    ensures c.Valid()
    ensures c.reading ==> c.bytes == old(c.bytes) && ParseTopic(old(c.Left())) == Some((r, c.Left()))
    ensures !c.reading ==> c.bytes == old(c.bytes) + EncTopic(val) && r == val
  {
    var topic := c.GrainString(val.topic);
    var qos := c.GrainByte(val.qos);
    r := Topic(topic, qos);
  }

  method GrainTopics(c: Cereal, val: seq<Topic>) returns (r: seq<Topic>)
    requires c.Valid()
    requires c.reading ==> ParseTopics(c.Left()).Some?
    requires !c.reading ==> ShortTopics(val)
    modifies c`bytes, c`pos
    ensures c.Valid()
    ensures c.reading ==> c.bytes == old(c.bytes) && ParseTopics(old(c.Left())) == Some(r) && c.Left() == []
    ensures !c.reading ==> r == val && c.bytes == old(c.bytes) + EncTopics(val)
  {
    if c.reading {
      r := ReadTopics(c);
    } else {
      r := val;
      for i := 0 to |val|
        invariant c.Valid() && c.bytes + EncTopics(val[i..]) == old(c.bytes) + EncTopics(val)
      {
        assert val[i..][1..] == val[i + 1..];
        Associate(c.bytes, EncTopic(val[i]), EncTopics(val[i + 1..]));
        var _ := GrainTopic(c, val[i]);
      }
      assert EncTopics(val[|val|..]) == [];
    }
  }

  method ReadTopics(c: Cereal) returns (r: seq<Topic>)
    requires c.Valid() && c.reading && ParseTopics(c.Left()).Some?
    modifies c`bytes, c`pos
    ensures c.Valid() && c.bytes == old(c.bytes) && c.Left() == []
    ensures ParseTopics(old(c.Left())) == Some(r)
  {
    r := [];
    ghost var all := ParseTopics(c.Left()).value;
    var left := c.BytesLeft();
    while left > 0
      invariant c.Valid() && c.bytes == old(c.bytes) && left == |c.Left()|
      invariant ParseTopics(c.Left()).Some? && all == r + ParseTopics(c.Left()).value
      decreases left
    {
      ghost var before := ParseTopics(c.Left()).value;
      var t := GrainTopic(c, Topic([], 0));
      assert before == [t] + ParseTopics(c.Left()).value;
      Associate(r, [t], ParseTopics(c.Left()).value);
      r := r + [t];
      left := c.BytesLeft();
    }
    assert c.Left() == [];
    assert all == r;
  }

  method GrainStrings(c: Cereal, val: seq<String>) returns (r: seq<String>)
    requires c.Valid()
    requires c.reading ==> ParseStrings(c.Left()).Some?
    requires !c.reading ==> AllShort(val)
    modifies c`bytes, c`pos
    ensures c.Valid()
    ensures c.reading ==> c.bytes == old(c.bytes) && ParseStrings(old(c.Left())) == Some(r) && c.Left() == []
    ensures !c.reading ==> r == val && c.bytes == old(c.bytes) + EncStrings(val)
  {
    if c.reading {
      r := ReadStrings(c);
    } else {
      r := val;
      for i := 0 to |val|
        invariant c.Valid() && c.bytes + EncStrings(val[i..]) == old(c.bytes) + EncStrings(val)
      {
        assert val[i..][1..] == val[i + 1..];
        Associate(c.bytes, EncString(val[i]), EncStrings(val[i + 1..]));
        var _ := c.GrainString(val[i]);
      }
      assert EncStrings(val[|val|..]) == [];
    }
  }

  method ReadStrings(c: Cereal) returns (r: seq<String>)
    requires c.Valid() && c.reading && ParseStrings(c.Left()).Some?
    modifies c`bytes, c`pos
    ensures c.Valid() && c.bytes == old(c.bytes) && c.Left() == []
    ensures ParseStrings(old(c.Left())) == Some(r)
  {
    r := [];
    ghost var all := ParseStrings(c.Left()).value;
    var left := c.BytesLeft();
    while left > 0
      invariant c.Valid() && c.bytes == old(c.bytes) && left == |c.Left()|
      invariant ParseStrings(c.Left()).Some? && all == r + ParseStrings(c.Left()).value
      decreases left
    {
      ghost var before := ParseStrings(c.Left()).value;
      var s := c.GrainString([]);
      assert before == [s] + ParseStrings(c.Left()).value;
      Associate(r, [s], ParseStrings(c.Left()).value);
      r := r + [s];
      left := c.BytesLeft();
    }
    assert c.Left() == [];
    assert all == r;
  }

  method GrainRawBytes(c: Cereal, val: Bytes) returns (r: Bytes)
    requires c.Valid()
    modifies c`bytes, c`pos
    ensures c.Valid()
    ensures c.reading ==> c.bytes == old(c.bytes) && r == old(c.Left()) && c.Left() == []
    ensures !c.reading ==> r == val && c.bytes == old(c.bytes) + val
  {
    if c.reading {
      r := [];
      var left := c.BytesLeft();
      while left > 0
        invariant c.Valid() && c.bytes == old(c.bytes) && left == |c.Left()|
        invariant r + c.Left() == old(c.Left())
        decreases left
      {
        var b := c.GrainByte(0);
        r := r + [b];
        left := c.BytesLeft();
      }
    } else {
      r := c.GrainChars(val);
    }
  }

  // ---------- proof of the fixed header ----------

  /** The loop that collects the digits of a remaining length. */
  method RemainingDigits(remaining: nat) returns (digits: Bytes)
    ensures digits == EncLength(remaining)
  {
    digits := [];
    var x := remaining;
    var more := true;
    while more
      invariant if more then digits + EncLength(x) == EncLength(remaining) else digits == EncLength(remaining)
      decreases x, more
    {
      var digit: byte := x % 128;
      assert EncLength(x) == if x < 128 then [digit] else [digit + 128] + EncLength(x / 128);
      Associate(digits, [digit + 128], EncLength(x / 128));
      x := x / 128;
      if x > 0 {
        digit := digit + 128;       // digit | 0x80
      }
      digits := digits + [digit];
      more := x > 0;
    }
  }

  /** The four grainBits calls of the fixed header, for a reader and for a fresh writer. */
  method GrainFlags(c: Cereal, kind: nibble, dup: nat, qos: twoBits, retain: nat)
    returns (k: nibble, d: nat, q: twoBits, r: nat)
    requires c.Valid() && c.Aligned() && (c.reading ==> c.Left() != []) && dup < 2 && retain < 2
    modifies c
    ensures c.Valid() && d < 2 && r < 2
    ensures c.reading ==> c.bytes == old(c.bytes) && c.Aligned() && c.Left() == old(c.Left())[1..]
    ensures c.reading ==> old(c.Left())[0] == 16 * k + 8 * d + 2 * q + r
    ensures !c.reading ==> c.bytes == old(c.bytes) + [16 * kind + 8 * dup + 2 * qos + retain]
    ensures !c.reading ==> (k, d, q, r) == (kind, dup, qos, retain)
  {
    ghost var left, start, before := c.Left(), c.pos, c.Out();
    if c.reading {
      ByteFields(left);
      c.AlignedBits();
    } else {
      NoBits(8);
    }
    k, d := GrainPair(c, kind, 4, dup, 1);
    q, r := GrainPair(c, qos, 2, retain, 1);
    if c.reading {
      WholeByte(c.bytes, start, c.pos, c.currentByte, c.bitIndex);
    } else {
      HeaderPut(old(c.bytes), kind, dup, qos, retain, before, c.bytes, c.currentByte, c.bitIndex);
    }
  }

  /** Two grainBits calls in a row, within one byte. */
  method GrainPair(c: Cereal, v1: nat, w1: nat, v2: nat, w2: nat) returns (r1: nat, r2: nat)
    requires c.Valid() && 1 <= w1 && 1 <= w2 && w1 + w2 <= 8
    requires c.reading ==> w1 + w2 <= |c.BitsLeft()|
    requires !c.reading ==> c.Tidy() && c.bitIndex + w1 + w2 <= 8 && v1 < Pow2(w1) && v2 < Pow2(w2)
    modifies c
    ensures c.Valid() && (!c.reading ==> c.Tidy())
    ensures c.reading ==> c.bytes == old(c.bytes) && 1 <= c.bitIndex
    ensures c.reading ==> r1 == ToNat(old(c.BitsLeft())[..w1]) && r2 == ToNat(old(c.BitsLeft())[w1..][..w2])
    ensures c.reading ==> c.BitsLeft() == old(c.BitsLeft())[w1..][w2..]
    ensures !c.reading ==> c.Out() == Put(Put(old(c.Out()), v1, w1), v2, w2) && (r1, r2) == (v1, v2)
  {
    r1 := c.GrainBits(v1, w1);
    r2 := c.GrainBits(v2, w2);
  }

  /** A header read field by field is the header that the parser finds. */
  lemma HeaderByFields(b: Bytes, h: Header)
    requires ParseHeader(b).Some? && FirstByte(h) == b[0]
    ensures ParseLength(b[1..]).Some?
    ensures ParseHeader(b) == Some((h.(remaining := ParseLength(b[1..]).value.0), ParseLength(b[1..]).value.1))
  {
    FieldsByDivision(b[0], h.kind, Bit(h.dup), h.qos, Bit(h.retain));
  }

  lemma PowersOf128()
    ensures Power128(1) == 128 && Power128(2) == 16384 && Power128(3) == 2097152 && Power128(4) == MAX_REMAINING
  {
  }

  /** `x` times 128 to the power `k`. */
  function Scale(x: nat, k: nat): nat { if k == 0 then x else 128 * Scale(x, k - 1) }

  lemma {:induction false} ScaleIsProduct(x: nat, k: nat)
    ensures x * Power128(k) == Scale(x, k)
  {
    if k > 0 {
      ScaleIsProduct(x, k - 1);
      assert x * (128 * Power128(k - 1)) == 128 * (x * Power128(k - 1));
    }
  }

  lemma {:induction false} ScaleSum(x: nat, y: nat, k: nat)
    ensures Scale(x + 128 * y, k) == Scale(x, k) + Scale(y, k + 1)
  {
    if k > 0 { ScaleSum(x, y, k - 1); }
  }

  /** What one digit adds to the value read so far. */
  lemma NextDigit(higher: nat, digit: nat, high: nat, k: nat, multiplier: nat)
    requires multiplier == Power128(k) && higher == digit + 128 * high
    ensures Scale(higher, k) == digit * multiplier + Scale(high, k + 1)
    ensures high == 0 ==> Scale(high, k + 1) == 0
    ensures multiplier * 128 == Power128(k + 1) && (k <= 3 ==> multiplier * 128 <= MAX_REMAINING)
  {
    PowersOf128();
    ScaleIsProduct(0, k + 1);
    ScaleIsProduct(digit, k);
    ScaleSum(digit, high, k);
  }

  /** The value of the four fields of a header's first byte, put one behind the other. */
  lemma FourFields(f1: seq<bool>, f2: seq<bool>, f3: seq<bool>, f4: seq<bool>)
    requires |f1| == 4 && |f2| == 1 && |f3| == 2 && |f4| == 1
    ensures ToNat(f1 + f2 + f3 + f4) == 16 * ToNat(f1) + 8 * ToNat(f2) + 2 * ToNat(f3) + ToNat(f4)
    ensures ToNat(f1) < 16 && ToNat(f2) < 2 && ToNat(f3) < 4 && ToNat(f4) < 2
  {
    ToNatAppend(f1, f2);
    ToNatAppend(f1 + f2, f3);
    ToNatAppend(f1 + f2 + f3, f4);
    ToNatBound(f1);
    ToNatBound(f2);
    ToNatBound(f3);
    ToNatBound(f4);
    Powers();
    ShlConstant(ToNat(f1));
    ShlConstant(ToNat(f1 + f2));
    ShlConstant(ToNat(f1 + f2 + f3));
  }

  lemma Powers()
    ensures Pow2(1) == 2 && Pow2(2) == 4 && Pow2(4) == 16
  {
    assert Pow2(4) == 2 * Pow2(3) == 4 * Pow2(2);
  }

  lemma ShlConstant(v: nat)
    ensures Shl(v, 1) == 2 * v && Shl(v, 2) == 4 * v
  {
    assert Shl(v, 2) == 2 * Shl(v, 1) && Shl(v, 1) == 2 * Shl(v, 0);
  }

  lemma FieldsByDivision(b: nat, k: nat, d: nat, q: nat, r: nat)
    requires b == 16 * k + 8 * d + 2 * q + r && k < 16 && d < 2 && q < 4 && r < 2
    ensures b / 16 == k && b / 8 % 2 == d && b / 2 % 4 == q && b % 2 == r
  {
    assert b / 8 == 2 * k + d && b / 2 == 8 * k + 4 * d + q;
  }

  lemma FourParts(all: seq<bool>)
    requires |all| >= 8
    ensures all[..8] == all[..4] + all[4..][..1] + all[4..][1..][..2] + all[4..][1..][2..][..1]
    ensures all[4..][1..][2..][1..] == all[8..]
  {
  }

  /** The bits of a byte, field by field. */
  lemma ByteFields(left: Bytes)
    requires left != []
    ensures var all, b := ByteBits(left), left[0];
            && ToNat(all[..4]) == b / 16 && ToNat(all[4..][..1]) == b / 8 % 2
            && ToNat(all[4..][1..][..2]) == b / 2 % 4 && ToNat(all[4..][1..][2..][..1]) == b % 2
            && b == b / 16 * 16 + b / 8 % 2 * 8 + b / 2 % 4 * 2 + b % 2
            && all[4..][1..][2..][1..] == ByteBits(left[1..])
  {
    var all, b := ByteBits(left), left[0];
    var bits := BitsOf(b, 8);
    PowerOfByte();
    ToNatBitsOf(b, 8);
    var f1, f2, f3, f4 := all[..4], all[4..][..1], all[4..][1..][..2], all[4..][1..][2..][..1];
    FourParts(all);
    assert all[..8] == bits;
    FourFields(f1, f2, f3, f4);
    FieldsByDivision(b, ToNat(f1), ToNat(f2), ToNat(f3), ToNat(f4));
  }

  /** Eight bits after a byte boundary the reader is one byte further. */
  lemma WholeByte(bytes: Bytes, start: nat, pos: nat, current: byte, index: nat)
    requires start < |bytes| && pos <= |bytes| && 1 <= index <= 8
    requires BitsOf(current, 8)[index..] + ByteBits(bytes[pos..]) == ByteBits(bytes[start..][1..])
    ensures index == 8 && pos == start + 1
  {
    var a, b := bytes[pos..], bytes[start..][1..];
    assert |ByteBits(a)| == 8 * |a| && |ByteBits(b)| == 8 * |b|;
    assert |a| == |bytes| - pos && |b| == |bytes| - start - 1;
  }

  lemma FieldValues(k: nibble, d: nat, q: twoBits, r: nat)
    requires d < 2 && r < 2
    ensures ToNat(BitsOf(k, 4)) == k && ToNat(BitsOf(d, 1)) == d
    ensures ToNat(BitsOf(q, 2)) == q && ToNat(BitsOf(r, 1)) == r
  {
    Powers();
    ToNatBitsOf(k, 4);
    ToNatBitsOf(d, 1);
    ToNatBitsOf(q, 2);
    ToNatBitsOf(r, 1);
  }

  /** The first byte of a message: four bits of type, then the duplicate flag, two bits of quality of
      service, and the retain flag. */
  lemma FirstByteBits(h: Header)
    ensures BitsOf(FirstByte(h), 8) == BitsOf(h.kind, 4) + [h.dup] + BitsOf(h.qos, 2) + [h.retain]
  {
    var d, r := [h.dup], [h.retain];
    var all := BitsOf(h.kind, 4) + d + BitsOf(h.qos, 2) + r;
    OneBit(h.dup);
    OneBit(h.retain);
    FieldValues(h.kind, 0, h.qos, 0);
    FourFields(BitsOf(h.kind, 4), d, BitsOf(h.qos, 2), r);
    BitsOfToNat(all);
    assert ToNat(all) == FirstByte(h) && |all| == 8;
  }

  lemma OneBit(b: bool)
    ensures ToNat([b]) == Bit(b)
  {
    assert ToNat([b]) == 2 * ToNat([b][..0]) + Bit(b);
  }

  lemma FourPuts(o: BitOut, v1: nat, v2: nat, v3: nat, v4: nat)
    requires o.pending == 0
    ensures Put(Put(Put(Put(o, v1, 4), v2, 1), v3, 2), v4, 1) ==
            BitOut(o.bits + (BitsOf(v1, 4) + BitsOf(v2, 1) + BitsOf(v3, 2) + BitsOf(v4, 1)) + BitsOf(v4, 1), 1)
  {
    var o1, o2 := Put(o, v1, 4), Put(Put(o, v1, 4), v2, 1);
    var o3 := Put(o2, v3, 2);
    PutWithin(o, v1, 4);
    PutWithin(o1, v2, 1);
    PutWithin(o2, v3, 2);
    PutExactly(o3, v4, 1, BitOut(o3.bits + BitsOf(v4, 1), 0));
    Associate(o.bits, BitsOf(v1, 4), BitsOf(v2, 1));
    Associate(o.bits, BitsOf(v1, 4) + BitsOf(v2, 1), BitsOf(v3, 2));
    Associate(o.bits, BitsOf(v1, 4) + BitsOf(v2, 1) + BitsOf(v3, 2), BitsOf(v4, 1));
  }

  /** Four fields of 4, 1, 2 and 1 bits on a fresh writer emit just the first byte of the header. */
  lemma HeaderPut(bytes: Bytes, k: nibble, d: nat, q: twoBits, r: nat,
                  before: BitOut, bytes': Bytes, current: byte, index: nat)
    requires before == Written(bytes, 0, 0) && index <= 8 && d < 2 && r < 2
    requires Written(bytes', current, index) == Put(Put(Put(Put(before, k, 4), d, 1), q, 2), r, 1)
    ensures bytes' == bytes + [16 * k + 8 * d + 2 * q + r]
  {
    var f := BitsOf(k, 4) + BitsOf(d, 1) + BitsOf(q, 2) + BitsOf(r, 1);
    assert before.bits == ByteBits(bytes);
    FourPuts(before, k, d, q, r);
    OneByteMore(bytes, f, bytes', current, BitsOf(r, 1));
    FieldValues(k, d, q, r);
    FourFields(BitsOf(k, 4), BitsOf(d, 1), BitsOf(q, 2), BitsOf(r, 1));
  }

  lemma OneByteMore(bytes: Bytes, f: seq<bool>, bytes': Bytes, current: byte, again: seq<bool>)
    requires |f| == 8 && |again| == 1
    requires Written(bytes', current, 1).bits == ByteBits(bytes) + f + again
    ensures ToNat(f) < 256 && bytes' == bytes + [ToNat(f)]
  {
    PowerOfByte();
    ToNatBound(f);
    BitsOfToNat(f);
    var b: byte := ToNat(f);
    ByteBitsAppend(bytes, [b]);
    assert ByteBits([b]) == BitsOf(b, 8) + ByteBits([b][1..]) == BitsOf(b, 8);
    var all := Written(bytes', current, 1).bits;
    assert all[..|all| - 1] == ByteBits(bytes');
    assert all[..|all| - 1] == ByteBits(bytes) + f;
    ByteBitsInjective(bytes', bytes + [b]);
  }
}
