/** The framing buffer of src/stream.hpp. */
module Stream {
  import opened Bytes
  import opened Subscriptions
  import opened Server
  import W = Wire

  // ---------- cutting a byte stream into messages ----------

  /** The length of the message at the front, from its second byte alone. */
  function TotalLength(b: Bytes): (n: nat)
    ensures W.HEADER_SIZE <= n <= 257
  {
    if |b| >= W.HEADER_SIZE then b[1] + W.HEADER_SIZE else W.HEADER_SIZE
  }

  /** The whole messages at the front of a byte stream. */
  function Frames(b: Bytes): seq<Bytes> {
    if |b| < TotalLength(b) then [] else [b[..TotalLength(b)]] + Frames(b[TotalLength(b)..])
  }

  /** What is left after them: the start of a message, or nothing. */
  function Rest(b: Bytes): Bytes {
    if |b| < TotalLength(b) then b else Rest(b[TotalLength(b)..])
  }

  function Concat(ms: seq<Bytes>): Bytes {
    if ms == [] then [] else ms[0] + Concat(ms[1..])
  }

  lemma ConcatCons(m: Bytes, ms: seq<Bytes>)
    ensures Concat([m] + ms) == m + Concat(ms)
  {
    assert ([m] + ms)[1..] == ms;
  }

  /** Nothing is lost, made up or reordered. */
  lemma {:induction false} FramesConserve(b: Bytes)
    ensures Concat(Frames(b)) + Rest(b) == b
  {
    if |b| >= TotalLength(b) {
      var head, tail := b[..TotalLength(b)], b[TotalLength(b)..];
      FramesConserve(tail);
      ConcatCons(head, Frames(tail));
      Associate(head, Concat(Frames(tail)), Rest(tail));
    }
  }

  /** The bytes left over are the start of one message, so there are never more than 256. */
  lemma {:induction false} RestIsShort(b: Bytes)
    ensures |Rest(b)| < TotalLength(Rest(b)) && |Rest(b)| <= 256
  {
    if |b| >= TotalLength(b) { RestIsShort(b[TotalLength(b)..]); }
  }

  /** A buffer has room for at least one more byte after every call, whatever is sent, exactly when
      it holds 257 bytes or more; in a smaller one some message never fits. */
  lemma RoomIff(capacity: nat)
    ensures (forall b: Bytes :: |b| <= capacity ==> |Rest(b)| < capacity) <==> capacity >= 257
  {
    if capacity >= 257 {
      forall b: Bytes ensures |Rest(b)| < capacity {
        RestIsShort(b);
      }
    } else {
      var full: Bytes := seq(capacity, _ => 255);
      assert TotalLength(full) > capacity;
      assert Rest(full) == full;
    }
  }

  lemma {:induction false} DigitsRead(b: Bytes, most: nat)
    requires W.ParseDigits(b, most).Some?
    ensures 1 <= |b| - |W.ParseDigits(b, most).value.1| <= most
    ensures b[0] >= 128 ==> |b| - |W.ParseDigits(b, most).value.1| >= 2
  {
    if b[0] >= 128 { DigitsRead(b[1..], most - 1); }
  }

  /** The length from the second byte alone is the true one exactly when that byte has no
      continuation bit, for all bytes from which the full decoder reads a header. */
  lemma TotalLengthIff(b: Bytes)
    requires W.ParseHeader(b).Some?
    ensures var (h, rest) := W.ParseHeader(b).value;
            TotalLength(b) == (|b| - |rest|) + h.remaining <==> b[1] < 128
  {
    var digits := b[1..];
    DigitsRead(digits, 4);
    assert digits[0] == b[1];
    if digits[0] >= 128 {
      var (n, rest) := W.ParseDigits(digits[1..], 3).value;
      assert W.ParseHeader(b).value.0.remaining == b[1] - 128 + 128 * n;
    }
  }

  /** Any encoded message whose header counts the bytes behind it is dispatched whole exactly when its
      length has one digit; a longer one is cut in the wrong place or not at all. */
  lemma DispatchedWholeIff(b: Bytes)
    requires W.ParseHeader(b).Some?
    requires W.ParseHeader(b).value.0.remaining == |W.ParseHeader(b).value.1|
    ensures Frames(b) == [b] <==> b[1] < 128
  {
    TotalLengthIff(b);
    var n := TotalLength(b);
    if n <= |b| {
      FirstFrame(b, n);
      if n == |b| {
        assert b[..n] == b && b[n..] == [];
      } else {
        assert Frames(b)[0] == b[..n] != b;
      }
    }
  }

  /** For PUBLISH: dispatched whole if and only if the remaining length is below 128. */
  lemma PublishDispatchedIff(m: W.Publish)
    requires W.Short(m.topic) && W.Counted(m) && m.header.remaining < W.MAX_REMAINING
    ensures Frames(W.EncPublish(m)) == [W.EncPublish(m)] <==> m.header.remaining < 128
  {
    var b := W.EncPublish(m);
    assert b + [] == b;
    W.ParseToBody(m, []);
    assert b[1] == W.EncLength(m.header.remaining)[0];
    DispatchedWholeIff(b);
  }

  predicate Whole(m: Bytes) { |m| >= W.HEADER_SIZE && |m| == TotalLength(m) }

  /** Messages that announce their own lengths, followed by an incomplete one, are cut just so. */
  lemma {:induction false} FramesUnique(ms: seq<Bytes>, rest: Bytes)
    requires forall m :: m in ms ==> Whole(m)
    requires |rest| < TotalLength(rest)
    ensures Frames(Concat(ms) + rest) == ms && Rest(Concat(ms) + rest) == rest
  {
    if ms == [] {
      assert Concat(ms) + rest == rest;
    } else {
      var b := Concat(ms) + rest;
      FramesUnique(ms[1..], rest);
      assert Whole(ms[0]);
      Associate(ms[0], Concat(ms[1..]), rest);
      assert b[..|ms[0]|] == ms[0] && b[|ms[0]|..] == Concat(ms[1..]) + rest;
      assert b[1] == ms[0][1];
      assert ms == [ms[0]] + ms[1..];
    }
  }

  /** Cutting may stop at any point and go on with what was left. */
  lemma {:induction false} FramesAppend(a: Bytes, b: Bytes)
    ensures Frames(a + b) == Frames(a) + Frames(Rest(a) + b)
    ensures Rest(a + b) == Rest(Rest(a) + b)
    decreases |a|
  {
    if |a| >= TotalLength(a) {
      var n := TotalLength(a);
      FramesAppend(a[n..], b);
      assert (a + b)[1] == a[1];
      assert (a + b)[..n] == a[..n] && (a + b)[n..] == a[n..] + b;
      Associate([a[..n]], Frames(a[n..]), Frames(Rest(a) + b));
    }
  }

  /** Chunk after chunk: the messages dispatched and the bytes kept. */
  function FeedFrames(pending: Bytes, chunks: seq<Bytes>): seq<Bytes>
    decreases |chunks|
  {
    if chunks == [] then [] else
      Frames(pending + chunks[0]) + FeedFrames(Rest(pending + chunks[0]), chunks[1..])
  }

  function FeedRest(pending: Bytes, chunks: seq<Bytes>): Bytes
    decreases |chunks|
  {
    if chunks == [] then pending else FeedRest(Rest(pending + chunks[0]), chunks[1..])
  }

  lemma {:induction false} FeedIsFrames(pending: Bytes, chunks: seq<Bytes>)
    requires |pending| < TotalLength(pending)
    ensures FeedFrames(pending, chunks) == Frames(pending + Concat(chunks))
    ensures FeedRest(pending, chunks) == Rest(pending + Concat(chunks))
    decreases |chunks|
  {
    if chunks == [] {
      assert pending + Concat(chunks) == pending;
    } else {
      var now := pending + chunks[0];
      RestIsShort(now);
      FeedIsFrames(Rest(now), chunks[1..]);
      FramesAppend(now, Concat(chunks[1..]));
      Associate(pending, chunks[0], Concat(chunks[1..]));
    }
  }

  /** However a byte stream is cut into chunks, the same messages are dispatched and the same bytes
      are kept. */
  lemma ChunkInvariance(chunks: seq<Bytes>, chunks': seq<Bytes>)
    requires Concat(chunks) == Concat(chunks')
    ensures FeedFrames([], chunks) == FeedFrames([], chunks')
    ensures FeedRest([], chunks) == FeedRest([], chunks')
    ensures Concat(FeedFrames([], chunks)) + FeedRest([], chunks) == Concat(chunks)
  {
    FeedIsFrames([], chunks);
    FeedIsFrames([], chunks');
    FramesConserve([] + Concat(chunks));
    assert [] + Concat(chunks) == Concat(chunks);
  }

  // ---------- the stream ----------

  /** The messages of one connection, as the server gets them. */
  function FromClient(c: Client, ms: seq<Bytes>): (inputs: seq<Input>)
    ensures |inputs| == |ms|
  {
    seq(|ms|, i requires 0 <= i < |ms| => Input(c, ms[i]))
  }

  predicate AllAcceptable(ms: seq<Bytes>) { forall m :: m in ms ==> Acceptable(m) }

  class MqttStream {
    const buffer: array<byte>
    var begin: nat

    ghost predicate Valid()
      reads this
    {
      begin <= buffer.Length
    }

    /** The start of a message that has not arrived in full. */
    ghost function Pending(): Bytes
      reads this, buffer
      requires Valid()
    {
      buffer[..begin]
    }

    constructor (size: nat)
      ensures Valid() && buffer.Length == size && Pending() == [] && fresh(buffer)
    {
      buffer := new byte[size](_ => 0);
      begin := 0;
    }

    /** The room for the next chunk. */
    method ReadableDataSize() returns (n: nat)
      requires Valid()
      ensures n == buffer.Length - |Pending()|
    {
      n := buffer.Length - begin;
    }

    /** Puts a chunk where the next bytes go, as the socket does. */
    method Receive(chunk: Bytes)
      requires Valid() && begin + |chunk| <= buffer.Length
      modifies buffer
      ensures buffer[..begin + |chunk|] == old(Pending()) + chunk
    {
      for i := 0 to |chunk|
        invariant buffer[..begin] == old(buffer[..begin])
        invariant buffer[begin..begin + i] == chunk[..i]
      {
        buffer[begin + i] := chunk[i];
        TakeOne(buffer, begin, i, chunk);
      }
    }

    /** Dispatches every whole message among the bytes in the buffer and moves the rest to the front.
        The rest leaves room for more in any buffer of at least 257 bytes. */
    method HandleMessages(numBytes: nat, server: MqttServer, connection: Client)
      requires Valid() && begin + numBytes <= buffer.Length && server.Valid()
      requires AllAcceptable(Frames(buffer[..begin + numBytes]))
      modifies this`begin, buffer
      modifies server.broker`cache, server.broker`live, server.broker`nodes
      modifies server.broker.nodes.Values, server.broker.net
      ensures Valid() && server.Valid()
      ensures fresh(server.broker.nodes.Values - old(server.broker.nodes.Values))
      ensures Pending() == Rest(old(buffer[..begin + numBytes])) && |Pending()| <= 256
      ensures (server.State(), server.broker.net.events) ==
              Progress(old(server.State()), old(server.broker.net.events), connection,
                       Frames(old(buffer[..begin + numBytes])))
    {
      ghost var all := buffer[..begin + numBytes];
      var end := begin + numBytes;
      var slice := Dispatch(end, server, connection, all);
      label Dispatched:
      Compact(slice, end);
      assert server.Valid() by { server.Undisturbed@Dispatched(); }
    }

    /** Shifts what is left of the first `end` bytes to the beginning of the buffer. */
    method Compact(slice: Bytes, end: nat)
      requires Valid() && end <= buffer.Length && IsTail(slice, buffer[..end])
      modifies this`begin, buffer
      ensures Valid() && Pending() == slice
    {
      CopyDown(buffer, end - |slice|, end);
      begin := |slice|;
    }

    /** The loop of handleMessages. The slice is a view of the buffer, which dispatching leaves alone. */
    method Dispatch(end: nat, server: MqttServer, connection: Client, ghost all: Bytes) returns (slice: Bytes)
      requires end <= buffer.Length && server.Valid() && all == buffer[..end]
      requires AllAcceptable(Frames(all))
      modifies server.broker`cache, server.broker`live, server.broker`nodes
      modifies server.broker.nodes.Values, server.broker.net
      ensures server.Valid() && slice == Rest(all) && IsTail(slice, all) && |slice| <= 256
      ensures fresh(server.broker.nodes.Values - old(server.broker.nodes.Values))
      ensures (server.State(), server.broker.net.events) ==
              Progress(old(server.State()), old(server.broker.net.events), connection, Frames(all))
    {
      ghost var done: seq<Bytes> := [];
      slice := buffer[..end];
      var totLen := TotalLength(slice);
      NoProgress(old(server.State()), old(server.broker.net.events), connection);
      while |slice| >= totLen
        invariant totLen == TotalLength(slice) && CutSoFar(all, slice, done)
        invariant server.Valid() && fresh(server.broker.nodes.Values - old(server.broker.nodes.Values))
        invariant (server.State(), server.broker.net.events) ==
                  Progress(old(server.State()), old(server.broker.net.events), connection, done)
        decreases |slice|
      {
        var msg := slice[..totLen];
        OneFrame(all, slice, done, msg);
        slice := slice[totLen..];
        ServeNext(server, connection, msg, old(server.State()), old(server.broker.net.events), done);
        done := done + [msg];
        totLen := TotalLength(slice);
      }
      CutEnd(all, slice, done);
      RestIsShort(all);
    }
  }

  method ServeNext(server: MqttServer, connection: Client, msg: Bytes,
                   ghost s: State, ghost log: seq<Event>, ghost done: seq<Bytes>)
    requires server.Valid() && Acceptable(msg)
    requires (server.State(), server.broker.net.events) == Progress(s, log, connection, done)
    modifies server.broker`cache, server.broker`live, server.broker`nodes
    modifies server.broker.nodes.Values, server.broker.net
    ensures server.Valid() && fresh(server.broker.nodes.Values - old(server.broker.nodes.Values))
    ensures (server.State(), server.broker.net.events) == Progress(s, log, connection, done + [msg])
  {
    ServeOneMore(s, log, connection, done, msg);
    server.NewMessage(connection, msg);
  }

  lemma NoProgress(s: State, log: seq<Event>, c: Client)
    ensures Progress(s, log, c, []) == (s, log)
  {
    assert log + [] == log;
  }

  predicate IsTail(slice: Bytes, all: Bytes) {
    |slice| <= |all| && slice == all[|all| - |slice|..]
  }

  /** The bytes before the slice are exactly the messages `done`. */
  predicate CutSoFar(all: Bytes, slice: Bytes, done: seq<Bytes>) {
    Frames(all) == done + Frames(slice) && Rest(all) == Rest(slice) && IsTail(slice, all)
  }

  lemma CutEnd(all: Bytes, slice: Bytes, done: seq<Bytes>)
    requires CutSoFar(all, slice, done) && |slice| < TotalLength(slice)
    ensures done == Frames(all) && slice == Rest(all)
  {
    assert done + [] == done;
  }

  /** The server's state and the log after some messages of one connection. */
  function Progress(s: State, log: seq<Event>, c: Client, ms: seq<Bytes>): (State, seq<Event>) {
    var (s', log') := ServeAll(s, FromClient(c, ms));
    (s', log + log')
  }

  lemma ServeOneMore(s: State, log: seq<Event>, c: Client, ms: seq<Bytes>, m: Bytes)
    ensures Progress(s, log, c, ms + [m]) ==
            var (s1, log1) := Progress(s, log, c, ms);
            var (s2, log2) := Served(s1, c, m);
            (s2, log1 + log2)
  {
    assert FromClient(c, ms + [m]) == FromClient(c, ms) + [Input(c, m)];
    ServeSnoc(s, FromClient(c, ms), Input(c, m));
    var (s1, log1) := ServeAll(s, FromClient(c, ms));
    Associate(log, log1, Served(s1, c, m).1);
  }

  lemma FirstFrame(b: Bytes, n: nat)
    requires n == TotalLength(b) <= |b|
    ensures Frames(b) == [b[..n]] + Frames(b[n..]) && Rest(b) == Rest(b[n..])
  {
  }

  lemma InMiddle<T>(a: seq<T>, x: T, b: seq<T>)
    ensures x in a + [x] + b
  {
    assert (a + [x] + b)[|a|] == x;
  }

  lemma OneFrame(all: Bytes, slice: Bytes, done: seq<Bytes>, msg: Bytes)
    requires CutSoFar(all, slice, done) && TotalLength(slice) <= |slice|
    requires msg == slice[..TotalLength(slice)]
    ensures CutSoFar(all, slice[|msg|..], done + [msg]) && msg in Frames(all)
  {
    var next := slice[|msg|..];
    FirstFrame(slice, |msg|);
    Associate(done, [msg], Frames(next));
    InMiddle(done, msg, Frames(next));
  }

  lemma TakeOne(buffer: array<byte>, begin: nat, i: nat, chunk: Bytes)
    requires i < |chunk| && begin + i < buffer.Length
    requires buffer[begin..begin + i] == chunk[..i] && buffer[begin + i] == chunk[i]
    ensures buffer[begin..begin + i + 1] == chunk[..i + 1]
  {
  }

  /** The forward copy to the front, which may overlap itself. */
  method CopyDown(a: array<byte>, from: nat, end: nat)
    requires from <= end <= a.Length
    modifies a
    ensures a[..end - from] == old(a[from..end])
    ensures forall k :: end - from <= k < a.Length ==> a[k] == old(a[k])
  {
    for i := 0 to end - from
      invariant forall k :: 0 <= k < i ==> a[k] == old(a[from + k])
      invariant forall k :: i <= k < a.Length ==> a[k] == old(a[k])
    {
      a[i] := a[from + i];
    }
  }
}
