/**
 What the broker promises, over a flat list of (subscriber, filter) records:
 which records a publication reaches, and the broker as a state machine over whole runs.
 */
module Subscriptions {
  import opened Bytes
  import opened Topics

  /** A subscriber is known to the broker by its address alone. */
  type Client = nat

  datatype Record = Record(client: Client, filter: String)

  /** What leaves the broker and the server: calls of newMessage and of disconnect on a connection. */
  datatype Event = Message(to: Client, bytes: Bytes) | Disconnected(to: Client)

  // ---------- selecting records ----------

  function AtPath(p: Path): Record -> bool { (r: Record) => Split(r.filter) == p }
  function OfClient(c: Client): Record -> bool { (r: Record) => r.client == c }
  function NotOfClient(c: Client): Record -> bool { (r: Record) => r.client != c }
  function Addressed(c: Client): Event -> bool { (e: Event) => e.to == c }
  function Matching(topic: Path): Record -> bool { (r: Record) => Matches(Split(r.filter), topic) }

  /** Subscription::isSubscriber: an empty list of topics stands for all of them. */
  predicate IsSubscriber(r: Record, c: Client, topics: seq<String>) {
    (|topics| == 0 || r.filter in topics) && r.client == c
  }

  function NotSubscriber(c: Client, topics: seq<String>): Record -> bool {
    (r: Record) => !IsSubscriber(r, c, topics)
  }

  /** The records kept by the node at path `p`, in subscription order. */
  function OnPath(live: seq<Record>, p: Path): seq<Record> { Filter(AtPath(p), live) }

  /** The records `c` has left after unsubscribing from `topics`, and everybody else's. */
  function Keep(live: seq<Record>, c: Client, topics: seq<String>): seq<Record> {
    Filter(NotSubscriber(c, topics), live)
  }

  function Clients(rs: seq<Record>): (cs: seq<Client>)
    ensures |cs| == |rs|
  {
    seq(|rs|, i requires 0 <= i < |rs| => rs[i].client)
  }

  function Messages(cs: seq<Client>, bytes: Bytes): (es: seq<Event>)
    ensures |es| == |cs|
  {
    seq(|cs|, i requires 0 <= i < |cs| => Message(cs[i], bytes))
  }

  /** The part of a log that concerns one client. */
  function To(log: seq<Event>, c: Client): seq<Event> { Filter(Addressed(c), log) }

  function NewRecords(c: Client, topics: seq<String>): seq<Record> {
    seq(|topics|, i requires 0 <= i < |topics| => Record(c, topics[i]))
  }

  // ---------- deliveries ----------

  /** The records at the paths prefix+ps[0], prefix+ps[1], ..., path by path. */
  function Gather(live: seq<Record>, prefix: Path, ps: seq<Path>): seq<Record> {
    if ps == [] then [] else
      Gather(live, prefix, ps[..|ps| - 1]) + OnPath(live, prefix + ps[|ps| - 1])
  }

  /** The records that a publication on `topic` reaches through the tree, in order. */
  function Hits(live: seq<Record>, topic: String): seq<Record> {
    Gather(live, [], Visited(Split(topic)))
  }

  function Deliver(live: seq<Record>, topic: String): seq<Client> { Clients(Hits(live, topic)) }

  /** The records that a publication on `topic` should reach: one pass over the flat list. */
  function FlatHits(live: seq<Record>, topic: String): seq<Record> {
    Filter(Matching(Split(topic)), live)
  }

  predicate ValidFilters(live: seq<Record>) {
    forall r :: r in live ==> HashOnlyLast(Split(r.filter))
  }

  lemma GatherSnoc(live: seq<Record>, prefix: Path, ps: seq<Path>, p: Path)
    ensures Gather(live, prefix, ps + [p]) == Gather(live, prefix, ps) + OnPath(live, prefix + p)
  {
    assert (ps + [p])[..|ps|] == ps;
  }

  lemma {:induction false} GatherAppend(live: seq<Record>, prefix: Path, a: seq<Path>, b: seq<Path>)
    ensures Gather(live, prefix, a + b) == Gather(live, prefix, a) + Gather(live, prefix, b)
  {
    if b == [] {
      assert a + b == a;
    } else {
      var init, last := b[..|b| - 1], b[|b| - 1];
      GatherAppend(live, prefix, a, init);
      GatherSnoc(live, prefix, a + init, last);
      assert b == init + [last];
      Associate(a, init, [last]);
      Associate(Gather(live, prefix, a), Gather(live, prefix, init), OnPath(live, prefix + last));
    }
  }

  lemma {:induction false} GatherPrepend(live: seq<Record>, prefix: Path, part: String, ps: seq<Path>)
    ensures Gather(live, prefix, Prepend(part, ps)) == Gather(live, prefix + [part], ps)
  {
    if ps != [] {
      var init, last := ps[..|ps| - 1], ps[|ps| - 1];
      var all := Prepend(part, ps);
      GatherPrepend(live, prefix, part, init);
      assert all[..|all| - 1] == Prepend(part, init);
      assert prefix + all[|all| - 1] == prefix + [part] + last;
    }
  }

  /** Where no record sits at or below a path, nothing is gathered there. */
  lemma {:induction false} GatherNone(live: seq<Record>, prefix: Path, ps: seq<Path>)
    requires forall r :: r in live ==> !(prefix <= Split(r.filter))
    ensures Gather(live, prefix, ps) == []
  {
    if ps != [] {
      GatherNone(live, prefix, ps[..|ps| - 1]);
      FilterNone(AtPath(prefix + ps[|ps| - 1]), live);
    }
  }

  /** Gathering a selection of the records is gathering first and selecting afterwards. */
  lemma {:induction false} GatherFilter(f: Record -> bool, live: seq<Record>, prefix: Path, ps: seq<Path>)
    ensures Gather(Filter(f, live), prefix, ps) == Filter(f, Gather(live, prefix, ps))
  {
    if ps != [] {
      var init, p := ps[..|ps| - 1], prefix + ps[|ps| - 1];
      GatherFilter(f, live, prefix, init);
      FilterCommutes(f, AtPath(p), live);
      FilterAppend(f, Gather(live, prefix, init), OnPath(live, p));
    }
  }

  lemma GatherCountStep(live: seq<Record>, init: seq<Path>, last: Path, r: Record)
    ensures multiset(Gather(live, [], init + [last]))[r] ==
            multiset(Gather(live, [], init))[r] + if Split(r.filter) == last then multiset(live)[r] else 0
  {
    assert (init + [last])[..|init|] == init;
    assert [] + last == last;
    FilterCount(AtPath(last), live, r);
  }

  /** Each record is delivered exactly as often as the walk visits its filter. */
  lemma {:induction false} GatherCount(live: seq<Record>, ps: seq<Path>, r: Record)
    ensures multiset(Gather(live, [], ps))[r] == multiset(live)[r] * multiset(ps)[Split(r.filter)]
  {
    if ps == [] {
      assert multiset(ps)[Split(r.filter)] == 0;
    } else {
      var init, last := ps[..|ps| - 1], ps[|ps| - 1];
      assert ps == init + [last];
      GatherCount(live, init, r);
      GatherCountStep(live, init, last, r);
      Distribute(multiset(live)[r], multiset(init)[Split(r.filter)]);
      assert multiset(ps)[Split(r.filter)] ==
             multiset(init)[Split(r.filter)] + if Split(r.filter) == last then 1 else 0;
    }
  }

  lemma Distribute(n: nat, k: nat)
    ensures n * (k + 1) == n * k + n
  {
  }

  /** Trie matching is flat matching: same records, same multiplicities. */
  lemma HitsAreMatches(live: seq<Record>, topic: String)
    requires NoWildcards(Split(topic)) && ValidFilters(live)
    ensures multiset(Hits(live, topic)) == multiset(FlatHits(live, topic))
  {
    var t := Split(topic);
    forall r: Record
      ensures multiset(Hits(live, topic))[r] == multiset(FlatHits(live, topic))[r]
    {
      GatherCount(live, Visited(t), r);
      FilterCount(Matching(t), live, r);
      if r in live {
        VisitedAtMostOnce(t);
        CountNoDuplicates(Visited(t), Split(r.filter));
        VisitedIffMatches(Split(r.filter), t);
      }
    }
  }

  lemma DoubleVisit(topic: String, r: Record)
    requires multiset(Visited(Split(topic)))[Split(r.filter)] >= 2
    ensures multiset(Hits([r], topic))[r] >= 2
    ensures multiset(FlatHits([r], topic))[r] <= 1
  {
    var ps := Visited(Split(topic));
    GatherCount([r], ps, r);
    FilterCount(Matching(Split(topic)), [r], r);
    assert multiset([r])[r] == 1;
    assert 1 * multiset(ps)[Split(r.filter)] == multiset(ps)[Split(r.filter)];
  }

  /** A wildcard level in a published topic makes the walk deliver some single record twice. */
  lemma DeliveredTwice(topic: String) returns (r: Record)
    requires !NoWildcards(Split(topic))
    ensures ValidFilters([r])
    ensures multiset(Hits([r], topic))[r] >= 2
    ensures multiset(FlatHits([r], topic))[r] <= 1
  {
    var t := Split(topic);
    var p := TwiceVisited(t);
    SplitUndoesJoin(p);
    WildcardVisitedTwice(t);
    r := Record(0, Join(p));
    DoubleVisit(topic, r);
  }

  /** Publishing meets the standard for every list of valid filters exactly when no level of the
      topic is a wildcard; otherwise some single record is delivered twice. */
  lemma HitsAreMatchesIff(topic: String)
    ensures (forall live :: ValidFilters(live) ==> multiset(Hits(live, topic)) == multiset(FlatHits(live, topic)))
            <==> NoWildcards(Split(topic))
  {
    var t := Split(topic);
    if NoWildcards(t) {
      forall live | ValidFilters(live)
        ensures multiset(Hits(live, topic)) == multiset(FlatHits(live, topic))
      {
        HitsAreMatches(live, topic);
      }
    } else {
      var r := DeliveredTwice(topic);
    }
  }

  /** A filter with an inner '#' is delivered on some wildcard-free topic that it does not match. */
  lemma DeliveredWithoutMatch(live: seq<Record>, r: Record) returns (topic: String)
    requires r in live && !HashOnlyLast(Split(r.filter))
    ensures NoWildcards(Split(topic))
    ensures multiset(Hits(live, topic))[r] >= 1 && multiset(FlatHits(live, topic))[r] == 0
  {
    var p := Split(r.filter);
    var t := PlainTopic(p);
    topic := Join(t);
    SplitUndoesJoin(t);
    PlainTopicVisited(p);
    InnerHashMatchesNothing(p, t);
    FilterCount(Matching(t), live, r);
    GatherCount(live, Visited(t), r);
    AtLeastOne(multiset(live)[r], multiset(Visited(t))[p]);
  }

  lemma AtLeastOne(n: nat, k: nat)
    requires n >= 1 && k >= 1
    ensures n * k >= 1
  {
  }

  predicate DeliversMatches(live: seq<Record>, topic: String) {
    multiset(Hits(live, topic)) == multiset(FlatHits(live, topic))
  }

  /** A list of records is served as the standard says on every wildcard-free topic exactly when all
      its filters are valid: one inner '#' is enough to break it. */
  lemma FiltersValidIff(live: seq<Record>)
    ensures (forall topic {:trigger DeliversMatches(live, topic)} ::
               NoWildcards(Split(topic)) ==> DeliversMatches(live, topic))
            <==> ValidFilters(live)
  {
    if ValidFilters(live) {
      forall topic | NoWildcards(Split(topic)) ensures DeliversMatches(live, topic) {
        HitsAreMatches(live, topic);
      }
    } else {
      var r :| r in live && !HashOnlyLast(Split(r.filter));
      var topic := DeliveredWithoutMatch(live, r);
      assert !DeliversMatches(live, topic);
    }
  }

  /** Per subscriber: as many deliveries as live records of theirs that match. */
  lemma DeliveriesPerClient(live: seq<Record>, topic: String, c: Client)
    requires NoWildcards(Split(topic)) && ValidFilters(live)
    ensures |Filter(OfClient(c), Hits(live, topic))| == |Filter(OfClient(c), FlatHits(live, topic))|
  {
    var mine := Filter(OfClient(c), live);
    GatherFilter(OfClient(c), live, [], Visited(Split(topic)));
    FilterCommutes(OfClient(c), Matching(Split(topic)), live);
    forall r | r in mine ensures r in live { FilterMember(OfClient(c), live, r); }
    HitsAreMatches(mine, topic);
    assert |multiset(Hits(mine, topic))| == |multiset(FlatHits(mine, topic))|;
  }

  lemma {:induction false} ToMessages(rs: seq<Record>, bytes: Bytes, c: Client)
    ensures To(Messages(Clients(rs), bytes), c) == Messages(Clients(Filter(OfClient(c), rs)), bytes)
  {
    if rs != [] {
      var init, last := rs[..|rs| - 1], rs[|rs| - 1];
      var es := Messages(Clients(rs), bytes);
      ToMessages(init, bytes, c);
      assert es[..|es| - 1] == Messages(Clients(init), bytes);
      assert es[|es| - 1] == Message(last.client, bytes);
    }
  }

  lemma {:induction false} SameCopies(a: seq<Record>, b: seq<Record>, bytes: Bytes, c: Client)
    requires |Filter(OfClient(c), a)| == |Filter(OfClient(c), b)|
    ensures To(Messages(Clients(a), bytes), c) == To(Messages(Clients(b), bytes), c)
  {
    ToMessages(a, bytes, c);
    ToMessages(b, bytes, c);
    var fa, fb := Filter(OfClient(c), a), Filter(OfClient(c), b);
    forall i | 0 <= i < |fa| ensures fa[i].client == fb[i].client {
      FilterMember(OfClient(c), a, fa[i]);
      FilterMember(OfClient(c), b, fb[i]);
    }
    assert Messages(Clients(fa), bytes) == Messages(Clients(fb), bytes);
  }

  /** Unsubscribing removes from every delivery sequence exactly the records named and keeps the
      order of the rest. */
  lemma UnsubscribeExact(live: seq<Record>, c: Client, topics: seq<String>, topic: String)
    ensures Hits(Keep(live, c, topics), topic) == Filter(NotSubscriber(c, topics), Hits(live, topic))
  {
    GatherFilter(NotSubscriber(c, topics), live, [], Visited(Split(topic)));
  }

  /** Unsubscribing takes away all copies of the subscriber's named records (of all its records, for an
      empty list) and no copy of any other record. */
  lemma UnsubscribeRemoves(live: seq<Record>, c: Client, topics: seq<String>, r: Record)
    ensures multiset(Keep(live, c, topics))[r] ==
            if r.client == c && (topics == [] || r.filter in topics) then 0 else multiset(live)[r]
  {
    FilterCount(NotSubscriber(c, topics), live, r);
  }

  // ---------- the broker as a state machine ----------

  /** `cache` is the memo table of src/broker.hpp:84; `live` is what the tree holds. */
  datatype State = State(useCache: bool, live: seq<Record>, cache: map<String, seq<Client>>)

  function Start(useCache: bool): State { State(useCache, [], map[]) }

  datatype Call =
    | Subscribe(client: Client, topics: seq<String>)
    | Unsubscribe(client: Client, topics: seq<String>)
    | Publish(topic: String, bytes: Bytes)

  function Invalidated(s: State): State { if s.useCache then s.(cache := map[]) else s }

  function Subscribed(s: State, c: Client, topics: seq<String>): State {
    Invalidated(s).(live := s.live + NewRecords(c, topics))
  }

  function Unsubscribed(s: State, c: Client, topics: seq<String>): State {
    Invalidated(s).(live := Keep(s.live, c, topics))
  }

  /** The table after the walk for `topic` has delivered to `cs`; a walk that delivers nothing
      leaves no entry. */
  function Remembered(useCache: bool, cache: map<String, seq<Client>>, topic: String, cs: seq<Client>)
    : map<String, seq<Client>>
  {
    if !useCache || cs == [] then cache
    else cache[topic := (if topic in cache then cache[topic] else []) + cs]
  }

  function Published(s: State, topic: String): (State, seq<Client>) {
    if s.useCache && topic in s.cache then (s, s.cache[topic]) else
      var cs := Deliver(s.live, topic);
      (s.(cache := Remembered(s.useCache, s.cache, topic, cs)), cs)
  }

  function Step(s: State, call: Call): (State, seq<Event>) {
    match call
    case Subscribe(c, topics) => (Subscribed(s, c, topics), [])
    case Unsubscribe(c, topics) => (Unsubscribed(s, c, topics), [])
    case Publish(topic, bytes) =>
      var (s', cs) := Published(s, topic);
      (s', Messages(cs, bytes))
  }

  function Run(s: State, calls: seq<Call>): (State, seq<Event>)
    decreases |calls|
  {
    if calls == [] then (s, []) else
      var (s1, log1) := Step(s, calls[0]);
      var (s2, log2) := Run(s1, calls[1..]);
      (s2, log1 + log2)
  }

  // ---------- what one call does to records and deliveries ----------

  /** After subscribing, the old records are followed by one record per topic, in order. */
  lemma SubscribedRecords(s: State, c: Client, topics: seq<Topic>)
    ensures var live := Subscribed(s, c, Names(topics)).live;
            && |live| == |s.live| + |topics| && live[..|s.live|] == s.live
            && forall k :: 0 <= k < |topics| ==> live[|s.live| + k] == Record(c, topics[k].topic)
  {
  }

  /** After unsubscribing, a publication on any topic reaches none of the records taken away and every
      other record as often as before. */
  lemma UnsubscribedDeliveries(s: State, c: Client, topics: seq<String>, topic: String, r: Record)
    ensures multiset(Hits(Unsubscribed(s, c, topics).live, topic))[r] ==
            if r.client == c && (topics == [] || r.filter in topics) then 0 else multiset(Hits(s.live, topic))[r]
  {
    UnsubscribeExact(s.live, c, topics, topic);
    FilterCount(NotSubscriber(c, topics), Hits(s.live, topic), r);
  }

  /** How many of the topics of a subscription match a published topic. */
  function CountMatches(topics: seq<Topic>, t: Path): nat {
    if topics == [] then 0 else
      CountMatches(topics[..|topics| - 1], t)
      + if Matches(Split(topics[|topics| - 1].topic), t) then 1 else 0
  }

  lemma {:induction false} CountClients(rs: seq<Record>, c: Client)
    ensures multiset(Clients(rs))[c] == |Filter(OfClient(c), rs)|
  {
    if rs != [] {
      var init, last := rs[..|rs| - 1], rs[|rs| - 1];
      CountClients(init, c);
      assert Clients(rs) == Clients(init) + [last.client];
    }
  }

  lemma {:induction false} GatherLength(a: seq<Record>, b: seq<Record>, prefix: Path, ps: seq<Path>)
    ensures |Gather(a + b, prefix, ps)| == |Gather(a, prefix, ps)| + |Gather(b, prefix, ps)|
  {
    if ps != [] {
      GatherLength(a, b, prefix, ps[..|ps| - 1]);
      FilterAppend(AtPath(prefix + ps[|ps| - 1]), a, b);
    }
  }

  lemma DeliveriesAdd(a: seq<Record>, b: seq<Record>, topic: String, c: Client)
    ensures multiset(Deliver(a + b, topic))[c] == multiset(Deliver(a, topic))[c] + multiset(Deliver(b, topic))[c]
  {
    var ps := Visited(Split(topic));
    CountClients(Hits(a + b, topic), c);
    CountClients(Hits(a, topic), c);
    CountClients(Hits(b, topic), c);
    GatherFilter(OfClient(c), a + b, [], ps);
    GatherFilter(OfClient(c), a, [], ps);
    GatherFilter(OfClient(c), b, [], ps);
    FilterAppend(OfClient(c), a, b);
    GatherLength(Filter(OfClient(c), a), Filter(OfClient(c), b), [], ps);
  }

  lemma OneRecordDelivered(r: Record, topic: String, c: Client)
    requires NoWildcards(Split(topic)) && HashOnlyLast(Split(r.filter))
    ensures multiset(Deliver([r], topic))[c] ==
            if c == r.client && Matches(Split(r.filter), Split(topic)) then 1 else 0
  {
    CountClients(Hits([r], topic), c);
    DeliveriesPerClient([r], topic, c);
    FilterOne(Matching(Split(topic)), r);
    FilterOne(OfClient(c), r);
    assert Filter(OfClient(c), []) == [];
  }

  /** Subscribing adds, for every wildcard-free topic, as many deliveries to the subscriber as there are
      matching filters among the topics, and none to anybody else. */
  lemma {:induction false} SubscribedDeliveries(s: State, c: Client, topics: seq<Topic>, topic: String, d: Client)
    requires NoWildcards(Split(topic))
    requires forall k :: 0 <= k < |topics| ==> HashOnlyLast(Split(topics[k].topic))
    ensures multiset(Deliver(Subscribed(s, c, Names(topics)).live, topic))[d] ==
            multiset(Deliver(s.live, topic))[d] + if d == c then CountMatches(topics, Split(topic)) else 0
    decreases |topics|
  {
    if topics == [] {
      assert Subscribed(s, c, Names(topics)).live == s.live;
    } else {
      var init, last := topics[..|topics| - 1], topics[|topics| - 1];
      SubscribedDeliveries(s, c, init, topic, d);
      assert Subscribed(s, c, Names(topics)).live ==
             Subscribed(s, c, Names(init)).live + [Record(c, last.topic)];
      DeliveriesAdd(Subscribed(s, c, Names(init)).live, [Record(c, last.topic)], topic, d);
      OneRecordDelivered(Record(c, last.topic), topic, d);
    }
  }

  /** Publishing changes no record, and every message sent carries the published bytes themselves. */
  lemma PublishedBytes(s: State, topic: String, bytes: Bytes, e: Event)
    ensures Step(s, Publish(topic, bytes)).0.live == s.live
    ensures e in Step(s, Publish(topic, bytes)).1 ==> e == Message(e.to, bytes)
    ensures Step(s, Publish(topic, bytes)).1 ==
            seq(|Published(s, topic).1|, i requires 0 <= i < |Published(s, topic).1| =>
                  Message(Published(s, topic).1[i], bytes))
  {
  }

  /** What becomes of the cache. A publication on a topic that is in it is answered from it; one that is
      not leaves an entry exactly if it is delivered to somebody. A subscribe or unsubscribe empties it.
      A broker without cache never has an entry. */
  lemma CacheUse(s: State, topic: String, c: Client, topics: seq<String>)
    ensures s.useCache && topic in s.cache ==> Published(s, topic) == (s, s.cache[topic])
    ensures s.useCache && topic !in s.cache ==>
              Published(s, topic).1 == Deliver(s.live, topic)
              && Published(s, topic).0.cache ==
                 if Deliver(s.live, topic) == [] then s.cache else s.cache[topic := Deliver(s.live, topic)]
    ensures !s.useCache ==> Published(s, topic) == (s, Deliver(s.live, topic))
    ensures s.useCache ==> Subscribed(s, c, topics).cache == map[] && Unsubscribed(s, c, topics).cache == map[]
  {
    assert [] + Deliver(s.live, topic) == Deliver(s.live, topic);
  }

  // ---------- the cache ----------

  /** Every entry is what the walk would deliver for that topic now. */
  predicate CacheSound(s: State) {
    && (forall t :: t in s.cache ==> s.cache[t] == Deliver(s.live, t))
    && (!s.useCache ==> s.cache == map[])
  }

  function Uncached(s: State): State { State(false, s.live, map[]) }

  lemma StepUncached(s: State, call: Call)
    requires CacheSound(s)
    ensures CacheSound(Step(s, call).0)
    ensures Step(Uncached(s), call) == (Uncached(Step(s, call).0), Step(s, call).1)
  {
  }

  /** One and the same run, with the cache on and with it off, calls newMessage in the same order
      with the same bytes, and every entry the cache ever holds is the walk's answer. */
  lemma {:induction false} CacheTransparent(s: State, calls: seq<Call>)
    requires CacheSound(s)
    ensures CacheSound(Run(s, calls).0)
    ensures Run(Uncached(s), calls) == (Uncached(Run(s, calls).0), Run(s, calls).1)
    decreases |calls|
  {
    if calls != [] {
      StepUncached(s, calls[0]);
      CacheTransparent(Step(s, calls[0]).0, calls[1..]);
    }
  }

  // ---------- other subscribers ----------

  predicate CallOf(call: Call, c: Client) { !call.Publish? && call.client == c }

  /** The run without the subscribe and unsubscribe calls of `c`. */
  function Without(calls: seq<Call>, c: Client): seq<Call> {
    if calls == [] then []
    else (if CallOf(calls[0], c) then [] else [calls[0]]) + Without(calls[1..], c)
  }

  lemma OthersHits(a: seq<Record>, b: seq<Record>, c: Client, d: Client, topic: String)
    requires c != d
    requires Filter(NotOfClient(c), a) == Filter(NotOfClient(c), b)
    ensures Filter(OfClient(d), Hits(a, topic)) == Filter(OfClient(d), Hits(b, topic))
  {
    MineAmongOthers(a, c, d);
    MineAmongOthers(b, c, d);
    GatherFilter(OfClient(d), a, [], Visited(Split(topic)));
    GatherFilter(OfClient(d), b, [], Visited(Split(topic)));
  }

  lemma {:induction false} MineAmongOthers(a: seq<Record>, c: Client, d: Client)
    requires c != d
    ensures Filter(OfClient(d), Filter(NotOfClient(c), a)) == Filter(OfClient(d), a)
  {
    if a != [] {
      var init, last := a[..|a| - 1], a[|a| - 1];
      MineAmongOthers(init, c, d);
      FilterAppend(OfClient(d), Filter(NotOfClient(c), init), [last]);
    }
  }

  lemma OthersAfterOwnCall(s: State, call: Call, c: Client)
    requires CallOf(call, c)
    ensures Filter(NotOfClient(c), Step(s, call).0.live) == Filter(NotOfClient(c), s.live)
    ensures Step(s, call).1 == []
  {
    if call.Subscribe? {
      FilterAppend(NotOfClient(c), s.live, NewRecords(c, call.topics));
      FilterNone(NotOfClient(c), NewRecords(c, call.topics));
    } else {
      OthersKept(s.live, c, call.topics);
    }
  }

  lemma {:induction false} OthersKept(live: seq<Record>, c: Client, topics: seq<String>)
    ensures Filter(NotOfClient(c), Keep(live, c, topics)) == Filter(NotOfClient(c), live)
  {
    if live != [] {
      var init, last := live[..|live| - 1], live[|live| - 1];
      OthersKept(init, c, topics);
      FilterAppend(NotOfClient(c), Keep(init, c, topics), [last]);
    }
  }

  lemma OthersStep(s: State, s': State, call: Call, c: Client, d: Client)
    requires c != d && !s.useCache && !s'.useCache
    requires Filter(NotOfClient(c), s.live) == Filter(NotOfClient(c), s'.live)
    ensures Filter(NotOfClient(c), Step(s, call).0.live) == Filter(NotOfClient(c), Step(s', call).0.live)
    ensures To(Step(s, call).1, d) == To(Step(s', call).1, d)
  {
    match call
    case Subscribe(e, topics) =>
      FilterAppend(NotOfClient(c), s.live, NewRecords(e, topics));
      FilterAppend(NotOfClient(c), s'.live, NewRecords(e, topics));
    case Unsubscribe(e, topics) =>
      FilterCommutes(NotOfClient(c), NotSubscriber(e, topics), s.live);
      FilterCommutes(NotOfClient(c), NotSubscriber(e, topics), s'.live);
    case Publish(topic, bytes) =>
      OthersHits(s.live, s'.live, c, d, topic);
      SameCopies(Hits(s.live, topic), Hits(s'.live, topic), bytes, d);
  }

  lemma {:induction false} NonInterferenceFrom(s: State, s': State, calls: seq<Call>, c: Client, d: Client)
    requires c != d && !s.useCache && !s'.useCache
    requires Filter(NotOfClient(c), s.live) == Filter(NotOfClient(c), s'.live)
    ensures To(Run(s, calls).1, d) == To(Run(s', Without(calls, c)).1, d)
    decreases |calls|
  {
    if calls != [] {
      var call, rest := calls[0], calls[1..];
      var (s1, log1) := Step(s, call);
      FilterAppend(Addressed(d), log1, Run(s1, rest).1);
      if CallOf(call, c) {
        OthersAfterOwnCall(s, call, c);
        NonInterferenceFrom(s1, s', rest, c, d);
        assert Without(calls, c) == Without(rest, c);
      } else {
        var (s1', log1') := Step(s', call);
        OthersStep(s, s', call, c, d);
        NonInterferenceFrom(s1, s1', rest, c, d);
        assert Without(calls, c) == [call] + Without(rest, c);
        FilterAppend(Addressed(d), log1', Run(s1', Without(rest, c)).1);
      }
    }
  }

  /** Deleting every subscribe and unsubscribe call of `c` from a run changes nothing that any other
      subscriber receives, with or without the cache. */
  lemma NonInterference(useCache: bool, calls: seq<Call>, c: Client, d: Client)
    requires c != d
    ensures To(Run(Start(useCache), calls).1, d) == To(Run(Start(useCache), Without(calls, c)).1, d)
  {
    CacheTransparent(Start(useCache), calls);
    CacheTransparent(Start(useCache), Without(calls, c));
    NonInterferenceFrom(Start(false), Start(false), calls, c, d);
  }
}
