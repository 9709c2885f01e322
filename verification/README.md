# An MQTT broker, modelled and verified

This project models the three layers of the mqttcpp broker in Dafny and proves what they promise,
first one by one and then together.

* **Broker** (`src/broker.hpp`). Subscriptions live in a mutable tree of nodes, keyed by topic level.
  `Broker.dfy` has the nodes as heap objects; a ghost map from paths to nodes says that they form a
  tree. `Subscriptions.dfy` has the flat list of (subscriber, filter) records that the tree stands
  for, the broker with its cache as a state machine, and the theorems over whole runs. `Topics.dfy`
  has splitting into levels, the matcher of section 4.7.1 of MQTT 3.1.1, and the list of filters that
  one walk of the tree visits.
* **Codec** (`cereal/src`, `src/message.cpp`). `Bits.dfy` has bit strings and the bit operators on
  naturals, `BitFields.dfy` the bit writer on bit strings, `Cereal.dfy` the reader and the writer as
  one class, `Messages.dfy` the message classes, each with one `Cerealise` for both directions, and
  `Wire.dfy` the values, their encodings and parsers for arbitrary bytes.
* **Framing and dispatch** (`src/stream.hpp`, `src/server.hpp`). `Stream.dfy` has the buffer with its
  in-place compaction, `Server.dfy` the dispatch of one message.
* `EndToEnd.dfy` joins them: any number of clients, chunks cut and interleaved in any way.
* `Bytes.dfy` has bytes, byte strings and the sequence filter that the others share.

Methods are proved against functions; what the repository promises is proved about those functions.
What one message does is said once more without those functions, in bytes, type codes and counts
(`Server.AnsweredOnly` to `Server.PublicationsAreInputs`).
A connection is known by a number, as the broker knows it by an address only, and all calls of
`newMessage` and `disconnect` on connections are appended to one log, so the order among subscribers
is part of every statement.

## Where the code falls short, and exactly when

* The bit writer falls through after a field that exactly fills a byte and writes that field's last
  bits once more. A layout of whole bytes comes out right for all values if and only if no field but
  the last ends on a byte boundary (`BitFields.WritesFlatIff`). The fixed header is such a layout; for
  two headers on one writer some values are miswritten (`BitFields.HeaderLayout`).
* PUBLISH with QoS above 0 loses its message id when the remaining length is below 7. It survives the
  round trip if and only if topic and payload together have at least three bytes
  (`Wire.PublishRoundTripIff`); otherwise the id's bytes turn up in the payload
  (`Wire.ShortPublishMisread`).
* A wildcard character as a level of a published topic makes the walk visit a child twice. Every
  filter is visited once if and only if the topic has no such level (`Topics.VisitedOnceIff`), and
  for valid filters publishing meets the flat matcher if and only if that is so
  (`Subscriptions.HitsAreMatchesIff`).
* `#` in the middle of a filter, which the broker accepts, is walked as a one-level wildcard
  (`Topics.VisitedIffMatches`), while the standard's matcher gives such a filter no topic at all
  (`Topics.InnerHashMatchesNothing`). A list of records is served as the standard says on every
  wildcard-free topic if and only if `#` comes last in each of its filters
  (`Subscriptions.FiltersValidIff`); for a filter where it does not, `Subscriptions.DeliveredWithoutMatch`
  gives a topic on which it is delivered wrongly.
* The one-byte message length is the true one if and only if it is below 128
  (`Stream.TotalLengthIff`), and a message is dispatched whole if and only if that is so
  (`Stream.DispatchedWholeIff`, `Stream.PublishDispatchedIff`). The buffer can always take more bytes
  if and only if it holds at least 257 (`Stream.RoomIff`).
* An encoded PUBLISH with a one-digit length is read out of bounds if and only if nothing follows the
  length of its empty topic (`Server.PublishAcceptableIff`).

The compaction copies a range onto an overlapping one, which `src/stream.hpp:44` calls okay in
practice; `Stream.CopyDown` proves it. An UNSUBSCRIBE that names no topic removes all subscriptions of its sender, as the
code has it (`src/broker.hpp:162`).

## Model

| member | source | states |
|---|---|---|
| Topics.Split | src/broker.hpp:67-68 | the levels of a topic: never none, and none with a slash |
| Topics.JoinUndoesSplit | src/broker.hpp:39 | joining the levels of any topic gives the topic back: empty levels are kept |
| Topics.SplitUndoesJoin | src/broker.hpp:39 | every non-empty list of slash-free levels is the split of its join |
| Topics.SplitInjective | src/broker.hpp:39-41 | distinct filter strings have distinct paths, so they sit at distinct nodes |
| Topics.SplitAtSlashes | src/broker.hpp:39 | a topic has one level more than it has slashes (character 47), and no level has one |
| Topics.WildcardCharacters | src/broker.hpp:112-120 | in characters: a last level `#` (35) matches anything, `+` (43) any one level, every other level just itself |
| Topics.DeliveredOnExamples | src/broker.hpp:104-125 | `a/+` and `a/#` are visited for `a/b`, `+` is not, and `a/#` is visited for `a` |
| Topics.VisitsOfOne | src/broker.hpp:112-120 | the visits for a topic of one level, in order |
| Topics.VisitsOfMore | src/broker.hpp:112-123 | the visits for a longer topic, in order: the level itself, then `#` with the shortcut first, then `+` |
| Topics.VisitedIffMatches | src/broker.hpp:104-125 | the walk visits a filter's node exactly when the filter matches the topic, for every filter and topic, with inner `#` read as one level |
| Topics.InnerHashMatchesNothing | src/broker.hpp:112-123 | a filter with `#` before its last level matches no wildcard-free topic under section 4.7.1 of MQTT 3.1.1 |
| Topics.PlainTopicVisited | src/broker.hpp:112-123 | yet the walk for the topic with plain levels in place of the wildcards visits it |
| Topics.VisitsAgreeIff | src/broker.hpp:104-125 | the walk visits a filter for just the wildcard-free topics that it matches, if and only if `#` is at most its last level |
| Topics.VisitedAtMostOnce | src/broker.hpp:112-124 | without wildcard levels in the topic no node is visited twice: the `a/#` shortcut and the recursion never both fire |
| Topics.VisitedOnceIff | src/broker.hpp:112 | visits are free of duplicates if and only if no level of the topic is a wildcard |
| Topics.WildcardVisitedTwice | src/broker.hpp:112 | a topic with a wildcard level visits a particular well-formed filter at least twice |
| Subscriptions.GatherCount | src/broker.hpp:104-133 | each record is delivered as often as the walk visits its filter, so subscribing twice delivers twice |
| Subscriptions.GatherFilter | src/broker.hpp:104-150 | selecting records commutes with delivering them, order included |
| Subscriptions.HitsAreMatches | src/broker.hpp:104-133 | trie matching delivers the same multiset of records as one pass of the standard's matcher over the flat list |
| Subscriptions.HitsAreMatchesIff | src/broker.hpp:104-133 | that holds for all lists of valid filters if and only if the topic has no wildcard level |
| Subscriptions.DeliveredWithoutMatch | src/broker.hpp:112-123 | every record with an inner `#`, in any list, is delivered on some wildcard-free topic that its filter does not match |
| Subscriptions.FiltersValidIff | src/broker.hpp:104-133 | any list of records is served as the standard says on all wildcard-free topics if and only if `#` comes last in each of its filters |
| Subscriptions.DeliveredTwice | src/broker.hpp:112-123 | otherwise there is a single record that is delivered at least twice and should be delivered at most once |
| Subscriptions.DeliveriesPerClient | src/broker.hpp:59-70 | each subscriber gets as many deliveries as it has live records that match |
| Subscriptions.UnsubscribeExact | src/broker.hpp:135-165 | unsubscribing commutes with delivery: every topic's delivery sequence loses what the list loses and keeps the order of the rest |
| Subscriptions.UnsubscribeRemoves | src/broker.hpp:161-165 | exactly the subscriber's records whose filter is among the topics (all of its records, for an empty list) lose all copies; no other record loses one |
| Subscriptions.UnsubscribedDeliveries | src/broker.hpp:135-165 | after that a publication on any topic reaches none of the removed records and every other one as often as before |
| Subscriptions.SubscribedRecords | src/broker.hpp:38-41 | after subscribing the old records are followed by one record per topic, in the order of the topics |
| Subscriptions.SubscribedDeliveries | src/broker.hpp:35-43 | for filters with `#` at most last: on every wildcard-free topic the subscriber gets as many more deliveries as filters match it; nobody else's number changes |
| Subscriptions.PublishedBytes | src/broker.hpp:59-70 | publishing changes no record, and each message sent is the published bytes, addressed in the order of the walk or of the cache entry |
| Subscriptions.CacheUse | src/broker.hpp:62-69 | what is answered from the cache, when an entry appears and what it holds, and that subscribing and unsubscribing empty the cache |
| Subscriptions.StepUncached | src/broker.hpp:62-69 | one call with a sound cache does what it does without one, and leaves the cache sound |
| Subscriptions.CacheTransparent | src/broker.hpp:35-70 | over any run of calls the cache never changes a newMessage call or their order, and each entry stays the walk's answer |
| Subscriptions.NonInterference | src/broker.hpp:35-53 | deleting all subscribe and unsubscribe calls of one subscriber from any run leaves every other subscriber's log as it was, cache on or off |
| Broker.MqttBroker.constructor | src/broker.hpp:23-26 | a new broker is a lone root with no records and an empty cache |
| Broker.MqttBroker.NodesAreReachable | src/broker.hpp:77-80 | a path is in the ghost map exactly when following the children by its levels leads to its node |
| Broker.MqttBroker.SubtreesDisjoint | src/broker.hpp:77-80 | different children have disjoint subtrees and no node is below itself: no sharing and no cycle |
| Broker.MqttBroker.InvalidateCache | src/broker.hpp:87-89 | a broker with a cache empties it; one without has nothing to empty |
| Broker.MqttBroker.AddChild | src/broker.hpp:96-98 | exactly one node appears, at a path that had none, without leaves, and the nodes stay a tree |
| Broker.MqttBroker.AddOrFindNode | src/broker.hpp:91-102 | finds the node at the given path; only missing nodes on the path are created, without leaves; every other node keeps its place and leaves |
| Broker.MqttBroker.AppendLeaf | src/broker.hpp:41 | the record joins the end of its own node's leaves and of the flat list |
| Broker.MqttBroker.SubscribeOne | src/broker.hpp:38-41 | one topic adds one record and touches no leaves but those of its own path |
| Broker.MqttBroker.Subscribe | src/broker.hpp:35-43 | the records become those of `Subscriptions.SubscribedRecords`, the cache is emptied, no node is lost, the nodes stay a tree |
| Broker.MqttBroker.PublishNode | src/broker.hpp:128-133 | the node's subscribers get the published bytes (`Subscriptions.PublishedBytes`) in order and, with the cache on, are remembered in order |
| Broker.MqttBroker.PublishCached | src/broker.hpp:62-64 | the remembered subscribers get the published bytes (`Subscriptions.PublishedBytes`), each as often and in the order in which they are listed |
| Broker.MqttBroker.PublishHere | src/broker.hpp:114-120 | which leaves are read at one child, including the `#` child of the last level |
| Broker.MqttBroker.MissingChild | src/broker.hpp:113 | where a child is missing the flat list has no record that the branch could deliver |
| Broker.MqttBroker.PublishPart | src/broker.hpp:112-123 | one branch of the walk delivers the records of the filters visited in that branch, and nothing if the child is missing |
| Broker.MqttBroker.PublishImpl | src/broker.hpp:104-125 | the walk below a node delivers to and remembers exactly the records gathered from the flat list along the visited filters |
| Broker.MqttBroker.Publish | src/broker.hpp:59-70 | a remembered topic is answered from the cache, any other by the walk, which fills the cache |
| Broker.MqttBroker.UnsubscribeImpl | src/broker.hpp:135-150 | every node at or below is filtered once, whatever the order of the children; no other leaves change and no node is pruned |
| Broker.MqttBroker.Unsubscribe | src/broker.hpp:50-53 | the flat list loses exactly the records of `Subscriptions.UnsubscribeRemoves` and the cache is emptied |
| Bits.Slice | cereal/src/Decerealiser.cpp:34-35 | a right shift and a mask read a stretch of a byte's bits |
| Bits.ShiftsAreArithmetic | cereal/src/Decerealiser.cpp:34-35 | a right shift is the quotient and a mask the remainder by a power of two |
| Bits.BitAt | cereal/src/Cerealiser.cpp:12-29 | bits are the digits to base two, the highest first |
| Bits.BitOrAt | cereal/src/Cerealiser.cpp:27 | the or of two numbers is the disjunction bit by bit |
| Bits.PlaceField | cereal/src/Cerealiser.cpp:27 | or-ing a shifted field into the free part of a byte puts its bits behind those already there |
| BitFields.WritesFlat | cereal/src/Cerealiser.cpp:12-29 | fields whose only byte boundary is at their end are emitted as the concatenation of their bits |
| BitFields.WritesFlatIff | cereal/src/Cerealiser.cpp:12-29 | a layout of whole bytes is emitted correctly for all values if and only if no field but the last ends on a byte boundary |
| BitFields.EarlyBoundaryLeaks | cereal/src/Cerealiser.cpp:21-28 | a field of ones that ends on an earlier boundary spoils the next byte |
| BitFields.FieldsReadBack | cereal/src/Decerealiser.cpp:12-36 | cutting the concatenation at the widths gives each field's value |
| BitFields.FieldsRoundTrip | cereal/src/Cerealiser.cpp:12-29 | for such layouts the emitted bytes, read with the same widths, give the values back |
| BitFields.HeaderLayout | src/message.cpp:20-23 | the header's 4, 1, 2, 1 bits are such a layout; two headers in a row are sixteen bits for which some values in range are written wrongly |
| Cereals.Cereal.Reset | cereal/src/Decerealiser.cpp:39-44 | the reader starts over from the first byte |
| Cereals.Cereal.BytesLeft | cereal/src/Decerealiser.hpp:89 | the number of bytes still to be read |
| Cereals.Cereal.GrainByte | cereal/src/Cereal.cpp:14-16 | one byte is appended when writing and consumed when reading |
| Cereals.Cereal.GrainU16 | cereal/src/Cereal.cpp:26-32 | two bytes, big-endian, in either direction |
| Cereals.Cereal.GrainString | cereal/src/Cereal.hpp:103-113 | length prefix and characters in either direction; a reader's string is resized to the prefix |
| Cereals.Cereal.GrainChars | cereal/src/Cereal.hpp:110-112 | the characters of a string of known length, in either direction |
| Cereals.Cereal.GrainBits | cereal/src/Cereal.hpp:25-30 | one bit field, written or read |
| Cereals.Cereal.ReadBits | cereal/src/Decerealiser.cpp:12-18 | returns the next bits of the input as one most-significant-bit-first string and leaves the rest, for widths from 1 to 32 and from any position, a used-up byte included |
| Cereals.Cereal.ReadBitsHelper | cereal/src/Decerealiser.cpp:20-36 | the same, once the current byte has been loaded |
| Cereals.Cereal.ReadAcross | cereal/src/Decerealiser.cpp:22-30 | a read over byte boundaries puts its two parts together with a shift and an or |
| Cereals.Cereal.WriteBits | cereal/src/Cerealiser.cpp:12-29 | appends the field's bits, and its last bits a second time when it exactly fills a byte |
| Cereals.Cereal.EmitByte | cereal/src/Cerealiser.cpp:16-20 | the current byte is completed with the field's first bits, emitted and cleared |
| Cereals.Cereal.PlaceBits | cereal/src/Cerealiser.cpp:27-28 | a field that fits goes behind the bits already in the current byte |
| MqttMessages.MqttFixedHeader.Cerealise | src/message.cpp:19-34 | writes the header's encoding on a fresh writer; reads what the parser finds and stops right behind it |
| MqttMessages.MqttFixedHeader.GetRemainingSize | src/message.cpp:36-48 | reads the remaining length of up to four digits; the multiplier stays within 2^28 |
| MqttMessages.MqttFixedHeader.SetRemainingSize | src/message.cpp:50-64 | the digits of the remaining length are appended |
| MqttMessages.RemainingDigits | src/message.cpp:50-61 | the loop yields the digits of the remaining length |
| MqttMessages.MqttPublish.constructor | src/message.cpp:120-131 | every field is the parameter of its name, the type is 3, and the remaining length counts topic, id and payload |
| MqttMessages.PublishOverTheWire | src/message.cpp:120-148 | a message built from parameters, written and read again has its flags and topic back, and payload and id exactly when there is no id or topic and payload have at least three bytes |
| MqttMessages.MqttPublish.Cerealise | src/message.cpp:133-148 | writes the encoding; reads what the parser finds, with the id skipped when the remaining length is below 7 |
| MqttMessages.MqttPublish.CerealiseBody | src/message.cpp:137-147 | message id and payload in either direction, the short-message branch included |
| MqttMessages.MqttSubscribe.Cerealise | src/message.cpp:162-166 | writes the encoding; reads topics until the input is used up |
| MqttMessages.MqttUnsubscribe.Cerealise | src/message.cpp:189-193 | writes the encoding; reads topics until the input is used up |
| MqttMessages.MqttSuback.Cerealise | src/message.cpp:178-182 | writes the encoding; reads codes until the input is used up |
| MqttMessages.MqttUnsuback.Cerealise | src/message.cpp:206-209 | writes the encoding and reads it |
| MqttMessages.GrainTopic | src/message.cpp:156-159 | a topic is a string and a byte |
| MqttMessages.GrainTopics | cereal/src/Cereal.hpp:115-127 | an array without a length: element by element, to the end when reading |
| MqttMessages.GrainStrings | cereal/src/Cereal.hpp:115-127 | the same for strings |
| MqttMessages.GrainRawBytes | cereal/src/Cereal.hpp:115-127 | the same for bytes |
| MqttMessages.GrainFlags | src/message.cpp:20-23 | four bit fields are exactly one byte, read or written |
| MqttMessages.FirstByteBits | src/message.cpp:20-23 | the first byte is four bits of type, the duplicate flag, two bits of quality of service and the retain flag, in that order |
| Wire.StringRoundTrip | cereal/src/Cereal.hpp:103-113 | strings below 65536 bytes come back, and what follows is left alone |
| Wire.LengthRoundTrip | src/message.cpp:36-64 | every remaining length below 2^28 comes back and consumes exactly its digits, whatever follows |
| Wire.LengthDigits | src/message.cpp:50-64 | a length takes at most k digits exactly when it is below 128 to the power k (section 2.2.3 of MQTT 3.1.1) |
| Wire.DigitAt | src/message.cpp:50-64 | the k-th byte is the k-th digit to base 128, lowest first, with the top bit set on all but the last |
| Wire.HeaderRoundTrip | src/message.cpp:19-34 | fixed headers come back, and what follows is left alone |
| Wire.RemainingCounts | src/message.cpp:120-131 | the constructor's remaining length is the number of bytes after the fixed header |
| Wire.PublishRoundTrip | src/message.cpp:133-148 | header, topic, payload and id come back |
| Wire.ShortPublishMisread | src/message.cpp:139-147 | with an id and fewer than three bytes of topic and payload, the id is read as payload |
| Wire.PublishRoundTripIff | src/message.cpp:133-148 | the round trip holds if and only if there is no id, or topic and payload have at least three bytes |
| Wire.NewPublishRoundTrip | src/message.cpp:120-148 | for the constructor's parameters: flags and topic always come back, payload and id if and only if the same condition holds |
| Wire.PublishBytes | tests/server.cpp:53-61 | the format of PUBLISH, byte for byte |
| Wire.SubscribeBytes | tests/server.cpp:63-73 | the format of SUBSCRIBE with two topics, byte for byte |
| Wire.UnsubscribeBytes | tests/server.cpp:133-138 | the format of UNSUBSCRIBE with two topics, byte for byte |
| Wire.SubscribeRoundTrip | src/message.cpp:156-166 | header, id and the whole list of topics come back and all input is used |
| Wire.UnsubscribeRoundTrip | src/message.cpp:189-193 | header, id and the whole list of topics come back and all input is used |
| Wire.SubackRoundTrip | src/message.cpp:168-182 | header, id and codes come back |
| Wire.UnsubackRoundTrip | src/message.cpp:196-209 | header and id come back |
| Wire.LengthShortcut | src/stream.hpp:54-65 | the second byte is the decoder's remaining length when it has no continuation bit, and getMessageType is the decoder's type |
| Wire.TopicShortcut | src/message.cpp:216-230 | getPublishTopic finds the decoder's topic wherever the decoder reads a PUBLISH with a one-byte length |
| Wire.PublishTopicIff | src/message.cpp:216-230 | for an encoded PUBLISH with a one-digit length getPublishTopic stays in bounds exactly when the remaining length exceeds two, and then finds the topic |
| Server.AcknowledgementsAreEncoded | src/server.hpp:53-71 | the hand-built acknowledgements are the encodings of SUBACK with one zero code and of UNSUBACK |
| Server.PublishAcceptableIff | src/server.hpp:38-42 | the dispatch of an encoded PUBLISH with a one-digit length reads in bounds if and only if the remaining length exceeds two |
| Server.AcceptableByType | src/server.hpp:38-66 | which messages are read in bounds, by the number in the upper half of the first byte |
| Server.AnsweredOnly | src/server.hpp:27-37 | type 1 is answered 32, 2, 0, 0 and type 12 is answered 0xd0, 0; these and all types but 3, 8, 10 and 14 change nothing, and the others send nothing |
| Server.DisconnectServed | src/server.hpp:74-77 | type 14 removes all copies of all the sender's records and no other, and closes the connection once |
| Server.SubscribeServed | src/server.hpp:44-58 | type 8 appends one record per decoded topic, in order, and is answered 0x90, 3, the decoded id in two bytes, 0 |
| Server.UnsubscribeServed | src/server.hpp:60-72 | type 10 removes exactly the sender's records for the decoded topics and is answered 0xb0, 2 and the decoded id |
| Server.PublishServed | src/server.hpp:38-42 | type 3 hands the message itself, byte for byte, to those that the walk finds, in its order, and changes no record |
| Server.SentAsReceived | src/server.hpp:23-86 | in any state, a message of type 3 is sent only if it is the one just received |
| Server.SubscribeDelivers | src/server.hpp:44-58 | an encoded SUBSCRIBE of filters with `#` at most last adds, on every wildcard-free topic, as many deliveries to its sender as filters in it match, and none to others |
| Server.UnsubscribeDelivers | src/server.hpp:60-72 | after an encoded UNSUBSCRIBE no topic reaches the sender's named records, and every other record is reached as often as before |
| Server.PublicationsAreInputs | src/server.hpp:23-86 | over any run, every publication in the log is byte for byte a message received, sent while that one was served |
| Server.MqttServer.NewMessage | src/server.hpp:23-86 | the broker's state and all that is sent are those of the dispatch function, which the rows `Server.AnsweredOnly` to `Server.SentAsReceived` give in bytes, type by type |
| Server.MqttServer.HandleSubscribe | src/server.hpp:44-58 | the records become those of `Server.SubscribeServed` and the acknowledgement with the decoded id is sent last |
| Server.MqttServer.HandleUnsubscribe | src/server.hpp:60-72 | the records become those of `Server.UnsubscribeServed` and the acknowledgement with the decoded id is sent last |
| Server.DecodeSubscribe | src/server.hpp:46-49 | reading the header, resetting and reading again gives the parsed message |
| Server.DecodeUnsubscribe | src/server.hpp:62-65 | the same for UNSUBSCRIBE |
| Server.ServedSilently | src/server.hpp:23-86 | one message that is not a SUBSCRIBE of a client without records gives it no record and no publication |
| Server.ServeAllSound | src/server.hpp:23-86 | over any run of messages the cache makes no difference to what is sent |
| Server.SilentAfterDisconnect | src/server.hpp:74-77 | in every run, after a DISCONNECT nobody's publication reaches that client until it subscribes again |
| Stream.FramesConserve | src/stream.hpp:34-46 | messages dispatched and bytes kept are together all bytes fed in, in order |
| Stream.FramesUnique | src/stream.hpp:34-46 | messages that announce their own lengths, with an incomplete one behind them, are cut in no other way |
| Stream.FramesAppend | src/stream.hpp:27-47 | cutting may stop at any byte and go on later with what was left |
| Stream.ChunkInvariance | src/stream.hpp:27-47 | two ways of cutting one byte stream into chunks dispatch the same messages and keep the same bytes |
| Stream.RestIsShort | src/stream.hpp:42-46 | what is kept is an incomplete message of at most 256 bytes |
| Stream.RoomIff | src/stream.hpp:16-24 | there is always room for more if and only if the buffer holds at least 257 bytes |
| Stream.TotalLengthIff | src/stream.hpp:54-65 | the one-byte length is the true one if and only if it has no continuation bit |
| Stream.DispatchedWholeIff | src/stream.hpp:27-41 | any encoded message whose header counts the bytes behind it is dispatched whole if and only if its length has one digit |
| Stream.PublishDispatchedIff | src/stream.hpp:27-41 | an encoded PUBLISH is dispatched whole if and only if its remaining length is below 128 |
| Stream.CopyDown | src/stream.hpp:43-45 | the forward copy leaves the tail at the front though source and target overlap |
| Stream.MqttStream.Receive | src/stream.hpp:22-24 | a chunk lands behind the bytes kept, which stay as they are |
| Stream.MqttStream.ReadableDataSize | src/stream.hpp:24 | the room behind the bytes kept |
| Stream.MqttStream.Compact | src/stream.hpp:43-46 | afterwards the buffer starts with exactly the unread tail |
| Stream.MqttStream.Dispatch | src/stream.hpp:29-41 | the server gets every whole message, in order, and the loop ends |
| Stream.MqttStream.HandleMessages | src/stream.hpp:26-47 | server state, log and kept bytes after one chunk; at most 256 bytes are kept |
| EndToEnd.ReadChunk | src/boost/connection.cpp:27-36 | one completed read: the stream keeps the unfinished message, the server has served the finished ones, and added nodes are new |
| EndToEnd.ReadNext | src/boost/connection.cpp:27-36 | one read among any number of streams takes all objects where the world's step function says; other streams stay as they were |
| EndToEnd.ReadAll | src/boost/connection.cpp:27-42 | any number of reads on any streams, in any order, take all objects through the worlds of the schedule |
| EndToEnd.ServedIsApplied | src/server.hpp:23-86 | the answer to an encoded command is the flat list's answer, message by message for each client |
| EndToEnd.ServeIsApply | src/server.hpp:23-86 | the same for any run of whole frames, with the cache on or off |
| EndToEnd.PublicationsAreCommands | src/server.hpp:38-42 | every publication in the log of a run is byte for byte the encoding of a PUBLISH among its commands |
| EndToEnd.CutCommands | src/stream.hpp:34-41 | any beginning of a client's encoded commands is cut into the frames of its complete commands |
| EndToEnd.CommandAcceptable | src/server.hpp:40-66 | an encoded command decodes to itself and is never read beyond its end |
| EndToEnd.ChunkCommands | src/stream.hpp:27-47 | a chunk dispatches exactly the frames of the commands that it completes |
| EndToEnd.WorldInvariant | src/stream.hpp:27-47 | after any chunks the server has served the completed commands in order and each stream holds the start of the next |
| EndToEnd.NextChunk | src/stream.hpp:27-47 | along a run that follows the plan, every chunk completes only messages that are read in bounds |
| EndToEnd.Scheduled | src/boost/connection.cpp:27-42 | chunks that follow the plan and fit their buffers are ready to be read, each in its turn |
| EndToEnd.Simulation | src/server.hpp:23-86 | for any clients, chunks and interleaving, cache on or off: records and every client's messages are those of the flat list given the completed commands; each publication is byte for byte the encoding of a completed PUBLISH; no message is read out of bounds |
| EndToEnd.SimulateOnObjects | src/server.hpp:23-86 | the same of the objects: after all reads the real tree stands for the flat list's records, every stream holds what the world says, each client has been sent the flat list's messages, and each publication in the log is the encoding of a completed PUBLISH |

## Left out

- Sockets, asynchronous reads and writes, signals and process set-up (`src/boost`, `main.cpp`); `EndToEnd.ReadChunk` stands for one completed read, `EndToEnd.ReadAll` for the event loop, and a connection's refusal to send after its disconnect is not modelled.
- The vendored libraries: spans are sequences or stretches of an array, `boost::split` is the function `Topics.Split`, `std::copy_if` in `unsubscribeImpl` is the function `Subscriptions.Keep`.
- Virtual dispatch of `Cereal`: one class with a flag for the direction stands for the base class and its two subclasses, and an argument passed by reference is a parameter and a result.
- `MqttConnect` and CONNECT bodies: the server reads only the first byte of a CONNECT, and writing one puts a second run of bit fields on the writer, which `BitFields.WritesFlatIff` rules out.
- `grain` for 32- and 64-bit integers, signed integers, doubles and length-prefixed vectors: MQTT messages do not use them.
- The overloads of `subscribe` for strings, of `unsubscribe` without topics and of `publish` for a C string: they only call the ones modelled.
- Field values too wide for their bit field, strings of 65536 bytes or more, remaining lengths of 2^32 or more when writing and of 2^28 or more when reading, and truncated input: the code truncates, overflows or reads past the end, so the methods require their absence.
- Messages on which the dispatch would read out of bounds (`Server.Acceptable`; for PUBLISH see `Server.PublishAcceptableIff`): the methods require their absence, and the dispatch function's value there means nothing.
- Server.MqttServer.NewMessage: the message logged to `cerr` for an unknown type is not modelled; such a message changes nothing.
- Cereals.Cereal.ReadBits: a read of exactly 32 bits that starts on a used-up byte shifts a 32-bit value by 32 in C++ (`cereal/src/Decerealiser.cpp:29`), which is undefined; the model shifts naturals and says what the result would be. No MQTT field is that wide.
- MqttMessages.MqttPublish.Cerealise: a reader is given a new object, as the source does, so an id that is not read is zero.
- QoS above 0 delivery, retained messages, wills, per-topic return codes in SUBACK and special treatment of `$` topics (section 4.7.2 of MQTT 3.1.1): the code has none.
- Lifetime of subscriber pointers and callbacks that re-enter the broker.
