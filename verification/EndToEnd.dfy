/**
 The three layers together: any number of clients, each with a stream of its own, and one server.
 Whatever way the clients' commands are cut into chunks and interleaved, the server does what a
 flat list of records would do when given the commands in the order in which they complete.
 */
module EndToEnd {
  import opened Bytes
  import opened Topics
  import opened Subscriptions
  import opened Server
  import opened Stream
  import W = Wire

  // ---------- commands ----------

  /** `Other` covers CONNECT, PINGREQ, DISCONNECT and the types that the server ignores: the server
      looks at no byte of theirs after the first. */
  datatype Command =
    | SubscribeTo(sub: W.Subscribe)
    | UnsubscribeFrom(unsub: W.Unsubscribe)
    | PublishOn(pub: W.Publish)
    | Other(header: W.Header, body: Bytes)

  /** The header counts the bytes that follow it, in one digit. */
  predicate FitsOneDigit(h: W.Header, encoded: Bytes) {
    h.remaining < 128 && |encoded| == W.HEADER_SIZE + h.remaining
  }

  predicate WellFormed(cmd: Command) {
    match cmd
    case SubscribeTo(m) =>
      && m.header.kind == W.SUBSCRIBE && W.ShortTopics(m.topics)
      && FitsOneDigit(m.header, W.EncSubscribe(m))
      && forall k :: 0 <= k < |m.topics| ==> HashOnlyLast(Split(m.topics[k].topic))
    case UnsubscribeFrom(m) =>
      && m.header.kind == W.UNSUBSCRIBE && W.AllShort(m.topics)
      && FitsOneDigit(m.header, W.EncUnsubscribe(m))
    case PublishOn(m) =>
      && m.header.kind == W.PUBLISH && W.Short(m.topic)
      && FitsOneDigit(m.header, W.EncPublish(m)) && m.header.remaining > 2
      && NoWildcards(Split(m.topic))
    case Other(h, body) =>
      && h.kind != W.SUBSCRIBE && h.kind != W.UNSUBSCRIBE && h.kind != W.PUBLISH
      && FitsOneDigit(h, W.EncHeader(h) + body)
  }

  type GoodCommand = cmd: Command | WellFormed(cmd) witness Other(W.Header(W.PINGREQ, false, 0, false, 0), [])

  function Encode(cmd: GoodCommand): Bytes {
    match cmd
    case SubscribeTo(m) => W.EncSubscribe(m)
    case UnsubscribeFrom(m) => W.EncUnsubscribe(m)
    case PublishOn(m) => W.EncPublish(m)
    case Other(h, body) => W.EncHeader(h) + body
  }

  function HeaderOf(cmd: Command): W.Header {
    match cmd
    case SubscribeTo(m) => m.header
    case UnsubscribeFrom(m) => m.header
    case PublishOn(m) => m.header
    case Other(h, _) => h
  }

  /** One command applied to the flat list of records: the list afterwards and what is sent. */
  function Applied(live: seq<Record>, c: Client, cmd: GoodCommand): (seq<Record>, seq<Event>) {
    match cmd
    case SubscribeTo(m) =>
      (live + NewRecords(c, Names(m.topics)), [Message(c, SubackBytes(m.msgId))])
    case UnsubscribeFrom(m) =>
      (Keep(live, c, m.topics), [Message(c, UnsubackBytes(m.msgId))])
    case PublishOn(m) =>
      (live, Messages(Clients(FlatHits(live, m.topic)), Encode(cmd)))
    case Other(h, _) =>
      if h.kind == W.CONNECT then (live, [Message(c, CONNACK_OK)])
      else if h.kind == W.PINGREQ then (live, [Message(c, PINGRESP)])
      else if h.kind == W.DISCONNECT then (Keep(live, c, []), [Disconnected(c)])
      else (live, [])
  }

  datatype Sent = Sent(from: Client, cmd: GoodCommand)

  function ApplyAll(sent: seq<Sent>): (seq<Record>, seq<Event>) {
    if sent == [] then ([], []) else
      var (live, log) := ApplyAll(sent[..|sent| - 1]);
      var last := sent[|sent| - 1];
      var (live', log') := Applied(live, last.from, last.cmd);
      (live', log + log')
  }

  // ---------- one encoded command ----------

  lemma FrameHead(cmd: GoodCommand)
    ensures var b := Encode(cmd);
            |b| >= 2 && b[0] == W.FirstByte(HeaderOf(cmd)) && b[1] == HeaderOf(cmd).remaining
    ensures Whole(Encode(cmd)) && W.MessageType(Encode(cmd)) == HeaderOf(cmd).kind
  {
    var h := HeaderOf(cmd);
    assert W.EncHeader(h) == [W.FirstByte(h), h.remaining];
  }

  lemma CommandAcceptable(cmd: GoodCommand)
    ensures Acceptable(Encode(cmd))
    ensures cmd.SubscribeTo? ==> W.ParseSubscribe(Encode(cmd)) == Some(cmd.sub)
    ensures cmd.UnsubscribeFrom? ==> W.ParseUnsubscribe(Encode(cmd)) == Some(cmd.unsub)
    ensures cmd.PublishOn? ==> W.HasPublishTopic(Encode(cmd)) && W.PublishTopic(Encode(cmd)) == cmd.pub.topic
  {
    FrameHead(cmd);
    match cmd
    case SubscribeTo(m) => W.SubscribeRoundTrip(m);
    case UnsubscribeFrom(m) => W.UnsubscribeRoundTrip(m);
    case PublishOn(m) => W.PublishTopicIff(m);
    case Other(_, _) =>
  }

  lemma PublishIsApplied(s: State, c: Client, cmd: GoodCommand, d: Client)
    requires CacheSound(s) && ValidFilters(s.live) && cmd.PublishOn?
    ensures Served(s, c, Encode(cmd)).0.live == s.live
    ensures To(Served(s, c, Encode(cmd)).1, d) == To(Applied(s.live, c, cmd).1, d)
  {
    var b, topic := Encode(cmd), cmd.pub.topic;
    FrameHead(cmd);
    CommandAcceptable(cmd);
    assert Served(s, c, b) == Step(s, Publish(topic, b));
    assert Step(s, Publish(topic, b)).1 == Messages(Clients(Hits(s.live, topic)), b);
    DeliveriesPerClient(s.live, topic, d);
    SameCopies(Hits(s.live, topic), FlatHits(s.live, topic), b, d);
  }

  lemma OthersAreApplied(s: State, c: Client, cmd: GoodCommand)
    requires !cmd.PublishOn?
    ensures Served(s, c, Encode(cmd)).0.live == Applied(s.live, c, cmd).0
    ensures Served(s, c, Encode(cmd)).1 == Applied(s.live, c, cmd).1
  {
    FrameHead(cmd);
    CommandAcceptable(cmd);
  }

  /** The server's answer to an encoded command is the flat list's answer to the command: the same
      list of records and, for every client, the same messages in the same order. */
  lemma ServedIsApplied(s: State, c: Client, cmd: GoodCommand, d: Client)
    requires CacheSound(s) && ValidFilters(s.live)
    ensures Served(s, c, Encode(cmd)).0.live == Applied(s.live, c, cmd).0
    ensures To(Served(s, c, Encode(cmd)).1, d) == To(Applied(s.live, c, cmd).1, d)
  {
    if cmd.PublishOn? {
      PublishIsApplied(s, c, cmd, d);
    } else {
      OthersAreApplied(s, c, cmd);
    }
  }

  lemma FiltersStayValid(live: seq<Record>, c: Client, cmd: GoodCommand)
    requires ValidFilters(live)
    ensures ValidFilters(Applied(live, c, cmd).0)
  {
    forall r | r in Applied(live, c, cmd).0 ensures HashOnlyLast(Split(r.filter)) {
      if r !in live {
        if cmd.SubscribeTo? {
          var all := NewRecords(c, Names(cmd.sub.topics));
          var k :| 0 <= k < |all| && all[k] == r;
          assert r.filter == cmd.sub.topics[k].topic;
        } else {
          FilterMember(NotSubscriber(c, if cmd.UnsubscribeFrom? then cmd.unsub.topics else []), live, r);
        }
      }
    }
  }

  function Encoded(sent: seq<Sent>): (inputs: seq<Input>)
    ensures |inputs| == |sent|
  {
    seq(|sent|, i requires 0 <= i < |sent| => Input(sent[i].from, Encode(sent[i].cmd)))
  }

  /** A run of whole frames through the server, with or without the cache, is the run of their
      commands over the flat list. */
  lemma {:induction false} ServeIsApply(useCache: bool, sent: seq<Sent>, d: Client)
    ensures var (s, log) := ServeAll(Start(useCache), Encoded(sent));
            && CacheSound(s) && ValidFilters(s.live)
            && s.live == ApplyAll(sent).0 && To(log, d) == To(ApplyAll(sent).1, d)
    decreases |sent|
  {
    if sent != [] {
      var init, last := sent[..|sent| - 1], sent[|sent| - 1];
      ServeIsApply(useCache, init, d);
      assert Encoded(sent)[..|sent| - 1] == Encoded(init);
      var (s, log) := ServeAll(Start(useCache), Encoded(init));
      var (live, flatLog) := ApplyAll(init);
      ServedSound(s, last.from, Encode(last.cmd));
      ServedIsApplied(s, last.from, last.cmd, d);
      FiltersStayValid(live, last.from, last.cmd);
      FilterAppend(Addressed(d), log, Served(s, last.from, Encode(last.cmd)).1);
      FilterAppend(Addressed(d), flatLog, Applied(live, last.from, last.cmd).1);
    }
  }

  // ---------- chunks ----------

  datatype Chunk = Chunk(from: Client, bytes: Bytes)

  /** One server, and for every client the bytes in its stream. */
  datatype World = World(server: State, pending: map<Client, Bytes>, log: seq<Event>)

  function Beginning(useCache: bool): World { World(Start(useCache), map[], []) }

  function PendingOf(w: World, c: Client): Bytes { if c in w.pending then w.pending[c] else [] }

  /** One chunk arrives: what MqttStream.HandleMessages promises. */
  function Feed(w: World, chunk: Chunk): World {
    var all := PendingOf(w, chunk.from) + chunk.bytes;
    var (s, log) := Progress(w.server, w.log, chunk.from, Frames(all));
    World(s, w.pending[chunk.from := Rest(all)], log)
  }

  function FeedAll(w: World, chunks: seq<Chunk>): World {
    if chunks == [] then w else Feed(FeedAll(w, chunks[..|chunks| - 1]), chunks[|chunks| - 1])
  }

  /** All bytes that `c` has sent. */
  function SentBytes(chunks: seq<Chunk>, c: Client): Bytes {
    if chunks == [] then [] else
      var last := chunks[|chunks| - 1];
      SentBytes(chunks[..|chunks| - 1], c) + if last.from == c then last.bytes else []
  }

  function Encodings(cmds: seq<GoodCommand>): (ms: seq<Bytes>)
    ensures |ms| == |cmds|
  {
    seq(|cmds|, i requires 0 <= i < |cmds| => Encode(cmds[i]))
  }

  /** How many of the commands are complete once `n` bytes of their encodings have been sent. */
  function Done(cmds: seq<GoodCommand>, n: nat): (k: nat)
    ensures k <= |cmds|
  {
    if cmds == [] || n < |Encode(cmds[0])| then 0 else 1 + Done(cmds[1..], n - |Encode(cmds[0])|)
  }

  lemma {:induction false} DoneGrows(cmds: seq<GoodCommand>, m: nat, n: nat)
    requires m <= n
    ensures Done(cmds, m) <= Done(cmds, n)
  {
    if cmds != [] && m >= |Encode(cmds[0])| {
      DoneGrows(cmds[1..], m - |Encode(cmds[0])|, n - |Encode(cmds[0])|);
    }
  }

  function Batch(c: Client, cmds: seq<GoodCommand>): (sent: seq<Sent>)
    ensures |sent| == |cmds|
  {
    seq(|cmds|, i requires 0 <= i < |cmds| => Sent(c, cmds[i]))
  }

  /** The commands in the order in which they complete: each chunk completes the next few of its
      sender's. */
  function Completed(chunks: seq<Chunk>, plan: Client -> seq<GoodCommand>): seq<Sent> {
    if chunks == [] then [] else
      var init, c := chunks[..|chunks| - 1], chunks[|chunks| - 1].from;
      var m, n := |SentBytes(init, c)|, |SentBytes(chunks, c)|;
      DoneGrows(plan(c), m, n);
      Completed(init, plan) + Batch(c, plan(c)[Done(plan(c), m)..Done(plan(c), n)])
  }

  lemma EncodingsCons(cmd: GoodCommand, more: seq<GoodCommand>)
    ensures Encodings([cmd] + more) == [Encode(cmd)] + Encodings(more)
    ensures Concat(Encodings([cmd] + more)) == Encode(cmd) + Concat(Encodings(more))
  {
    ConcatCons(Encode(cmd), Encodings(more));
  }

  /** The beginning of a frame is not cut. */
  lemma Incomplete(m: Bytes, b: Bytes)
    requires Whole(m) && b <= m && |b| < |m|
    ensures Frames(b) == []
  {
  }

  /** A stretch of a client's encoded commands is cut into the frames of the complete ones. */
  lemma {:induction false} CutCommands(cmds: seq<GoodCommand>, b: Bytes)
    requires b <= Concat(Encodings(cmds))
    ensures Frames(b) == Encodings(cmds[..Done(cmds, |b|)])
    decreases |cmds|
  {
    if cmds != [] {
      var e, more := Encode(cmds[0]), cmds[1..];
      FrameHead(cmds[0]);
      assert cmds == [cmds[0]] + more;
      EncodingsCons(cmds[0], more);
      if |b| < |e| {
        assert b <= e;
        Incomplete(e, b);
      } else {
        var rest := b[|e|..];
        assert b[..|e|] == e && rest <= Concat(Encodings(more));
        CutCommands(more, rest);
        assert TotalLength(b) == TotalLength(e);
        FirstFrame(b, |e|);
        var k := Done(more, |rest|);
        assert cmds[..k + 1] == [cmds[0]] + more[..k];
        EncodingsCons(cmds[0], more[..k]);
      }
    }
  }

  /** One more chunk dispatches exactly the frames of the commands that it completes. */
  lemma ChunkCommands(cmds: seq<GoodCommand>, before: Bytes, bytes: Bytes)
    requires before + bytes <= Concat(Encodings(cmds))
    ensures Done(cmds, |before|) <= Done(cmds, |before + bytes|)
    ensures Frames(Rest(before) + bytes) ==
            Encodings(cmds[Done(cmds, |before|)..Done(cmds, |before + bytes|)])
  {
    var all := before + bytes;
    var m, n := Done(cmds, |before|), Done(cmds, |all|);
    DoneGrows(cmds, |before|, |all|);
    assert before <= Concat(Encodings(cmds)) by { assert before <= all; }
    CutCommands(cmds, before);
    CutCommands(cmds, all);
    FramesAppend(before, bytes);
    assert Encodings(cmds[..n])[m..] == Encodings(cmds[m..n]);
    assert (Frames(before) + Frames(Rest(before) + bytes))[m..] == Frames(Rest(before) + bytes);
  }

  lemma EncodedBatch(c: Client, cmds: seq<GoodCommand>)
    ensures Encoded(Batch(c, cmds)) == FromClient(c, Encodings(cmds))
  {
  }

  lemma EncodedAppend(a: seq<Sent>, b: seq<Sent>)
    ensures Encoded(a + b) == Encoded(a) + Encoded(b)
  {
  }

  /** Everything sent so far is the beginning of what the clients mean to send. */
  ghost predicate FollowsPlan(chunks: seq<Chunk>, plan: Client -> seq<GoodCommand>) {
    forall c :: SentBytes(chunks, c) <= Concat(Encodings(plan(c)))
  }

  lemma PlanInit(chunks: seq<Chunk>, plan: Client -> seq<GoodCommand>)
    requires chunks != [] && FollowsPlan(chunks, plan)
    ensures FollowsPlan(chunks[..|chunks| - 1], plan)
  {
    var init := chunks[..|chunks| - 1];
    forall c ensures SentBytes(init, c) <= Concat(Encodings(plan(c))) {
      assert SentBytes(init, c) <= SentBytes(chunks, c);
    }
  }

  /** The world after any chunks: the server has served the completed commands' frames, and every
      stream holds the part of its next frame that has arrived. */
  lemma {:induction false} WorldInvariant(useCache: bool, chunks: seq<Chunk>, plan: Client -> seq<GoodCommand>)
    requires FollowsPlan(chunks, plan)
    ensures var w := FeedAll(Beginning(useCache), chunks);
            && (w.server, w.log) == ServeAll(Start(useCache), Encoded(Completed(chunks, plan)))
            && forall c :: PendingOf(w, c) == Rest(SentBytes(chunks, c))
    decreases |chunks|
  {
    if chunks == [] {
      return;
    }
    var init, last := chunks[..|chunks| - 1], chunks[|chunks| - 1];
    var c := last.from;
    PlanInit(chunks, plan);
    WorldInvariant(useCache, init, plan);
    var w0, before := FeedAll(Beginning(useCache), init), SentBytes(init, c);
    var frames := Frames(Rest(before) + last.bytes);
    assert SentBytes(chunks, c) == before + last.bytes;
    ChunkCommands(plan(c), before, last.bytes);
    var cmds := plan(c)[Done(plan(c), |before|)..Done(plan(c), |before + last.bytes|)];
    EncodedBatch(c, cmds);
    EncodedAppend(Completed(init, plan), Batch(c, cmds));
    ServeAppend(Start(useCache), Encoded(Completed(init, plan)), FromClient(c, frames));
    FramesAppend(before, last.bytes);
    OtherPending(w0, last, init, chunks);
  }

  lemma OtherPending(w0: World, last: Chunk, init: seq<Chunk>, chunks: seq<Chunk>)
    requires chunks != [] && init == chunks[..|chunks| - 1] && last == chunks[|chunks| - 1]
    requires forall c :: PendingOf(w0, c) == Rest(SentBytes(init, c))
    ensures forall c :: PendingOf(Feed(w0, last), c) == Rest(SentBytes(chunks, c))
  {
    var w := Feed(w0, last);
    forall c ensures PendingOf(w, c) == Rest(SentBytes(chunks, c)) {
      if c == last.from {
        FramesAppend(SentBytes(init, c), last.bytes);
      } else {
        assert SentBytes(chunks, c) == SentBytes(init, c);
      }
    }
  }

  /** Some PUBLISH among the commands is encoded as `bytes`. */
  predicate IsCompleted(bytes: Bytes, sent: seq<Sent>) {
    exists k :: 0 <= k < |sent| && sent[k].cmd.PublishOn? && bytes == Encode(sent[k].cmd)
  }

  /** Every publication that the completed commands make the server send is byte for byte the encoding of
      one of them. */
  lemma PublicationsAreCommands(useCache: bool, sent: seq<Sent>, e: Event)
    requires e in ServeAll(Start(useCache), Encoded(sent)).1 && IsPublication(e)
    ensures IsCompleted(e.bytes, sent)
  {
    var k := PublicationsAreInputs(Start(useCache), Encoded(sent), e);
    FrameHead(sent[k].cmd);
  }

  /** End to end: for any chunks that cut up the clients' well-formed commands and interleave them
      in any way, with the cache on or off, the records in the tree and all that each client
      receives are those of the flat list given the completed commands in order; every publication
      sent is byte for byte the encoding of a completed PUBLISH; no message makes the server read out of bounds. */
  lemma Simulation(useCache: bool, chunks: seq<Chunk>, plan: Client -> seq<GoodCommand>)
    requires FollowsPlan(chunks, plan)
    ensures var w := FeedAll(Beginning(useCache), chunks);
            var (live, log) := ApplyAll(Completed(chunks, plan));
            && w.server.live == live
            && (forall d :: To(w.log, d) == To(log, d))
            && (forall c :: PendingOf(w, c) == Rest(SentBytes(chunks, c)))
            && (forall e :: e in w.log && IsPublication(e) ==> IsCompleted(e.bytes, Completed(chunks, plan)))
    ensures forall i :: i in Encoded(Completed(chunks, plan)) ==> Acceptable(i.bytes)
  {
    var w, sent := FeedAll(Beginning(useCache), chunks), Completed(chunks, plan);
    WorldInvariant(useCache, chunks, plan);
    ServeIsApply(useCache, sent, 0);
    forall d ensures To(w.log, d) == To(ApplyAll(sent).1, d) {
      ServeIsApply(useCache, sent, d);
    }
    forall e | e in w.log && IsPublication(e) ensures IsCompleted(e.bytes, sent) {
      PublicationsAreCommands(useCache, sent, e);
    }
    forall i | i in Encoded(sent) ensures Acceptable(i.bytes) {
      var k :| 0 <= k < |sent| && Encoded(sent)[k] == i;
      CommandAcceptable(sent[k].cmd);
    }
  }

  // ---------- the objects ----------

  /** A chunk read from the socket goes into the connection's stream, which hands its whole messages to
      the server. */
  method ReadChunk(stream: MqttStream, server: MqttServer, chunk: Chunk)
    requires stream.Valid() && server.Valid()
    requires |stream.Pending()| + |chunk.bytes| <= stream.buffer.Length
    requires AllAcceptable(Frames(stream.Pending() + chunk.bytes))
    modifies stream`begin, stream.buffer
    modifies server.broker`cache, server.broker`live, server.broker`nodes
    modifies server.broker.nodes.Values, server.broker.net
    ensures stream.Valid() && server.Valid()
    ensures fresh(server.broker.nodes.Values - old(server.broker.nodes.Values))
    ensures stream.Pending() == Rest(old(stream.Pending()) + chunk.bytes)
    ensures (server.State(), server.broker.net.events) ==
            Progress(old(server.State()), old(server.broker.net.events), chunk.from,
                     Frames(old(stream.Pending()) + chunk.bytes))
  {
    stream.Receive(chunk.bytes);
    server.Undisturbed();
    stream.HandleMessages(|chunk.bytes|, server, chunk.from);
  }

  /** The streams and their buffers. */
  ghost function Objects(streams: map<Client, MqttStream>): set<object> {
    (set c | c in streams :: streams[c] as object) + (set c | c in streams :: streams[c].buffer as object)
  }

  /** Every client has a stream and a buffer of its own, all of them in `repr`. */
  ghost predicate Separate(streams: map<Client, MqttStream>, repr: set<object>)
  {
    && (forall c :: c in streams ==> streams[c] in repr && streams[c].buffer in repr)
    && (forall c, d :: c in streams && d in streams && c != d ==>
          streams[c] != streams[d] && streams[c].buffer != streams[d].buffer)
  }

  /** Each chunk comes from a client with a stream and is no longer than the room in it, which is
      all that the socket is asked for. */
  ghost predicate Fits(streams: map<Client, MqttStream>, chunks: seq<Chunk>)
  {
    forall k :: 0 <= k < |chunks| ==>
      var chunk := chunks[k];
      && chunk.from in streams
      && |Rest(SentBytes(chunks[..k], chunk.from))| + |chunk.bytes| <= streams[chunk.from].buffer.Length
  }

  /** The server and every stream are in the states that `w` says. */
  ghost predicate Agrees(streams: map<Client, MqttStream>, repr: set<object>, server: MqttServer, w: World)
    requires Separate(streams, repr)
    reads repr
    reads server.broker`cache, server.broker`live, server.broker`nodes, server.broker.nodes.Values, server.broker.net
  {
    && server.Valid() && server.State() == w.server && server.broker.net.events == w.log
    && forall c :: c in streams ==> streams[c].Valid() && streams[c].Pending() == PendingOf(w, c)
  }

  /** The chunk fits into the sender's stream, and the messages it completes are acceptable. */
  ghost predicate Ready(streams: map<Client, MqttStream>, chunk: Chunk, w: World)
  {
    && chunk.from in streams
    && |PendingOf(w, chunk.from)| + |chunk.bytes| <= streams[chunk.from].buffer.Length
    && AllAcceptable(Frames(PendingOf(w, chunk.from) + chunk.bytes))
  }

  /** One read on one of the streams takes all objects where Feed takes the world: the sender's stream
      and the server move on, every other stream stays as it was. */
  method ReadNext(streams: map<Client, MqttStream>, ghost repr: set<object>, server: MqttServer,
                  chunk: Chunk, ghost w: World)
    requires Separate(streams, repr) && Agrees(streams, repr, server, w) && Ready(streams, chunk, w)
    modifies repr
    modifies server.broker`cache, server.broker`live, server.broker`nodes
    modifies server.broker.nodes.Values, server.broker.net
    ensures Agrees(streams, repr, server, Feed(w, chunk))
    ensures fresh(server.broker.nodes.Values - old(server.broker.nodes.Values))
  {
    ReadChunk(streams[chunk.from], server, chunk);
  }

  /** The worlds before, between and after the chunks, each chunk ready in its turn. */
  ghost predicate Schedule(streams: map<Client, MqttStream>, chunks: seq<Chunk>, ws: seq<World>)
  {
    && |ws| == |chunks| + 1
    && forall i {:trigger ws[i]} :: 0 <= i < |chunks| ==>
         Ready(streams, chunks[i], ws[i]) && ws[i + 1] == Feed(ws[i], chunks[i])
  }

  /** The connections' reads complete one after the other, in any order, on any number of streams and
      one server. */
  method ReadAll(streams: map<Client, MqttStream>, ghost repr: set<object>, server: MqttServer,
                 chunks: seq<Chunk>, ghost ws: seq<World>)
    requires Schedule(streams, chunks, ws) && Separate(streams, repr) && Agrees(streams, repr, server, ws[0])
    modifies repr
    modifies server.broker`cache, server.broker`live, server.broker`nodes
    modifies server.broker.nodes.Values, server.broker.net
    ensures Agrees(streams, repr, server, ws[|chunks|])
    ensures fresh(server.broker.nodes.Values - old(server.broker.nodes.Values))
    decreases |chunks|
  {
    if chunks != [] {
      var n := |chunks| - 1;
      var init, last := chunks[..n], chunks[n];
      ghost var before, w := ws[..n + 1], ws[n];
      ScheduleInit(streams, chunks, ws);
      ReadAll(streams, repr, server, init, before);
      assert Agrees(streams, repr, server, w);
      ReadNext(streams, repr, server, last, w);
    }
  }

  lemma ScheduleInit(streams: map<Client, MqttStream>, chunks: seq<Chunk>, ws: seq<World>)
    requires Schedule(streams, chunks, ws) && chunks != []
    ensures var n := |chunks| - 1;
            && Schedule(streams, chunks[..n], ws[..n + 1])
            && ws[..n + 1][0] == ws[0] && ws[..n + 1][|chunks[..n]|] == ws[n]
            && Ready(streams, chunks[n], ws[n]) && ws[n + 1] == Feed(ws[n], chunks[n])
  {
    var n := |chunks| - 1;
    var cs, vs := chunks[..n], ws[..n + 1];
    assert Ready(streams, chunks[n], ws[n]);
    forall i {:trigger vs[i]} | 0 <= i < n
      ensures Ready(streams, cs[i], vs[i]) && vs[i + 1] == Feed(vs[i], cs[i])
    {
      assert vs[i] == ws[i];
    }
  }

  /** Chunks that follow the plan and fit are a schedule for the worlds that FeedAll goes through. */
  lemma Scheduled(streams: map<Client, MqttStream>, chunks: seq<Chunk>,
                  useCache: bool, plan: Client -> seq<GoodCommand>) returns (ws: seq<World>)
    requires FollowsPlan(chunks, plan) && Fits(streams, chunks)
    ensures Schedule(streams, chunks, ws)
    ensures ws[0] == Beginning(useCache) && ws[|chunks|] == FeedAll(Beginning(useCache), chunks)
  {
    ws := seq(|chunks| + 1, i requires 0 <= i <= |chunks| => FeedAll(Beginning(useCache), chunks[..i]));
    forall i {:trigger ws[i]} | 0 <= i < |chunks|
      ensures Ready(streams, chunks[i], ws[i]) && ws[i + 1] == Feed(ws[i], chunks[i])
    {
      NextChunk(chunks, i, plan, useCache);
    }
    assert chunks[..|chunks|] == chunks;
  }

  /** After all reads the tree of the real broker stands for the flat list's records, and every
      client has been sent the flat list's messages; no publication in the log was altered. */
  method SimulateOnObjects(streams: map<Client, MqttStream>, server: MqttServer, chunks: seq<Chunk>,
                           ghost useCache: bool, ghost plan: Client -> seq<GoodCommand>)
    requires Separate(streams, Objects(streams))
    requires Agrees(streams, Objects(streams), server, Beginning(useCache))
    requires FollowsPlan(chunks, plan) && Fits(streams, chunks)
    modifies Objects(streams)
    modifies server.broker`cache, server.broker`live, server.broker`nodes
    modifies server.broker.nodes.Values, server.broker.net
    ensures Agrees(streams, Objects(streams), server, FeedAll(Beginning(useCache), chunks))
    ensures server.State().live == ApplyAll(Completed(chunks, plan)).0
    ensures forall d :: To(server.broker.net.events, d) == To(ApplyAll(Completed(chunks, plan)).1, d)
    ensures forall e :: e in server.broker.net.events && IsPublication(e) ==>
              IsCompleted(e.bytes, Completed(chunks, plan))
  {
    ghost var ws := Scheduled(streams, chunks, useCache, plan);
    ReadAll(streams, Objects(streams), server, chunks, ws);
    Simulation(useCache, chunks, plan);
  }

  /** What a chunk completes is acceptable to the server. */
  lemma NextChunk(chunks: seq<Chunk>, i: nat, plan: Client -> seq<GoodCommand>, useCache: bool)
    requires i < |chunks| && FollowsPlan(chunks, plan)
    ensures var c := chunks[i].from;
            var pending := PendingOf(FeedAll(Beginning(useCache), chunks[..i]), c);
            && pending == Rest(SentBytes(chunks[..i], c))
            && AllAcceptable(Frames(pending + chunks[i].bytes))
    ensures FeedAll(Beginning(useCache), chunks[..i + 1]) ==
            Feed(FeedAll(Beginning(useCache), chunks[..i]), chunks[i])
  {
    var c, before := chunks[i].from, SentBytes(chunks[..i], chunks[i].from);
    PlanPrefix(chunks, i, plan);
    PlanPrefix(chunks, i + 1, plan);
    WorldInvariant(useCache, chunks[..i], plan);
    assert chunks[..i + 1][..i] == chunks[..i];
    assert SentBytes(chunks[..i + 1], c) == before + chunks[i].bytes;
    ChunkCommands(plan(c), before, chunks[i].bytes);
    var cmds := plan(c)[Done(plan(c), |before|)..Done(plan(c), |before + chunks[i].bytes|)];
    EncodingsAcceptable(cmds);
  }

  lemma EncodingsAcceptable(cmds: seq<GoodCommand>)
    ensures AllAcceptable(Encodings(cmds))
  {
    forall m | m in Encodings(cmds) ensures Acceptable(m) {
      var k :| 0 <= k < |cmds| && Encodings(cmds)[k] == m;
      CommandAcceptable(cmds[k]);
    }
  }

  lemma {:induction false} PlanPrefix(chunks: seq<Chunk>, k: nat, plan: Client -> seq<GoodCommand>)
    requires k <= |chunks| && FollowsPlan(chunks, plan)
    ensures FollowsPlan(chunks[..k], plan)
    decreases |chunks|
  {
    if k == |chunks| {
      assert chunks[..k] == chunks;
    } else {
      var init := chunks[..|chunks| - 1];
      PlanInit(chunks, plan);
      PlanPrefix(init, k, plan);
      assert init[..k] == chunks[..k];
    }
  }
}
